/**
 The containment graph of a project: a view contains a component whose definition
 is a template. Nodes are view keys; an edge (a, b) says that view `a` contains an
 instance of template `b`.
 */
module TemplateGraph {

  type Edges = set<(string, string)>

  ghost predicate IsPath(edges: Edges, p: seq<string>) {
    |p| >= 1 && forall i :: 0 <= i < |p| - 1 ==> (p[i], p[i + 1]) in edges
  }

  /** `b` can be reached from `a`, in zero or more steps. */
  ghost predicate Reach(edges: Edges, a: string, b: string) {
    exists p :: IsPath(edges, p) && p[0] == a && p[|p| - 1] == b
  }

  /** `b` can be reached from `a` in at least one step. */
  ghost predicate ReachPlus(edges: Edges, a: string, b: string) {
    exists x :: (a, x) in edges && Reach(edges, x, b)
  }

  ghost predicate Acyclic(edges: Edges) {
    forall x :: !ReachPlus(edges, x, x)
  }

  lemma ReachSelf(edges: Edges, a: string)
    ensures Reach(edges, a, a)
  {
    assert IsPath(edges, [a]) && [a][0] == a;
  }

  lemma ReachTransitive(edges: Edges, a: string, b: string, c: string)
    requires Reach(edges, a, b) && Reach(edges, b, c)
    ensures Reach(edges, a, c)
  {
    var p :| IsPath(edges, p) && p[0] == a && p[|p| - 1] == b;
    var q :| IsPath(edges, q) && q[0] == b && q[|q| - 1] == c;
    var s := p + q[1..];
    forall i | 0 <= i < |s| - 1 ensures (s[i], s[i + 1]) in edges {
      if i < |p| - 1 {
        assert s[i] == p[i] && s[i + 1] == p[i + 1];
      } else {
        assert s[i] == q[i - |p| + 1] && s[i + 1] == q[i - |p| + 2];
      }
    }
    assert IsPath(edges, s) && s[0] == a && s[|s| - 1] == c;
  }

  lemma ReachEdge(edges: Edges, a: string, b: string)
    requires (a, b) in edges
    ensures Reach(edges, a, b)
  {
    assert IsPath(edges, [a, b]) && [a, b][0] == a && [a, b][1] == b;
  }

  lemma ReachThenPlus(edges: Edges, a: string, b: string, c: string)
    requires Reach(edges, a, b) && ReachPlus(edges, b, c)
    ensures ReachPlus(edges, a, c)
  {
    var p :| IsPath(edges, p) && p[0] == a && p[|p| - 1] == b;
    if |p| == 1 {
      assert a == b;
    } else {
      var q := p[1..];
      assert IsPath(edges, q) && q[0] == p[1] && q[|q| - 1] == b;
      assert (a, p[1]) in edges && Reach(edges, p[1], b);
      var x :| (b, x) in edges && Reach(edges, x, c);
      ReachEdge(edges, b, x);
      ReachTransitive(edges, p[1], b, x);
      ReachTransitive(edges, p[1], x, c);
    }
  }

  lemma ReachMonotone(small: Edges, big: Edges, a: string, b: string)
    requires small <= big && Reach(small, a, b)
    ensures Reach(big, a, b)
  {
    var p :| IsPath(small, p) && p[0] == a && p[|p| - 1] == b;
    assert IsPath(big, p);
  }

  lemma PlusMonotone(small: Edges, big: Edges, a: string, b: string)
    requires small <= big && ReachPlus(small, a, b)
    ensures ReachPlus(big, a, b)
  {
    var x :| (a, x) in small && Reach(small, x, b);
    ReachMonotone(small, big, x, b);
  }

  /** Fewer edges close no cycle. */
  lemma AcyclicMonotone(small: Edges, big: Edges)
    requires small <= big && Acyclic(big)
    ensures Acyclic(small)
  {
    forall x ensures !ReachPlus(small, x, x) {
      if ReachPlus(small, x, x) {
        PlusMonotone(small, big, x, x);
      }
    }
  }

  /** A path that may use one new edge (a, t) either avoids it, or gets to `a` and on from `t` without it. */
  lemma {:induction false} PathSplit(edges: Edges, a: string, t: string, p: seq<string>)
    requires IsPath(edges + {(a, t)}, p)
    ensures Reach(edges, p[0], p[|p| - 1]) || (Reach(edges, p[0], a) && Reach(edges, t, p[|p| - 1]))
    decreases |p|
  {
    if |p| == 1 {
      ReachSelf(edges, p[0]);
    } else {
      var q := p[1..];
      assert IsPath(edges + {(a, t)}, q) by {
        forall i | 0 <= i < |q| - 1 ensures (q[i], q[i + 1]) in edges + {(a, t)} {
          assert q[i] == p[i + 1] && q[i + 1] == p[i + 2];
        }
      }
      PathSplit(edges, a, t, q);
      var last := p[|p| - 1];
      assert (p[0], p[1]) in edges + {(a, t)};
      if (p[0], p[1]) in edges {
        ReachEdge(edges, p[0], p[1]);
        if Reach(edges, q[0], last) {
          ReachTransitive(edges, p[0], p[1], last);
        } else {
          ReachTransitive(edges, p[0], p[1], a);
        }
      } else {
        ReachSelf(edges, a);
      }
    }
  }

  /** In an acyclic graph the edge (a, t) closes a cycle if and only if `t` already reaches `a`. */
  lemma AddEdgeAcyclic(edges: Edges, a: string, t: string)
    requires Acyclic(edges)
    ensures Acyclic(edges + {(a, t)}) <==> !Reach(edges, t, a)
  {
    var more := edges + {(a, t)};
    if Reach(edges, t, a) {
      ReachMonotone(edges, more, t, a);
      assert (a, t) in more;
      assert ReachPlus(more, a, a);
    } else {
      forall x ensures !ReachPlus(more, x, x) {
        if ReachPlus(more, x, x) {
          NoNewCycle(edges, a, t, x);
        }
      }
    }
  }

  lemma NoNewCycle(edges: Edges, a: string, t: string, x: string)
    requires Acyclic(edges) && ReachPlus(edges + {(a, t)}, x, x)
    ensures Reach(edges, t, a)
  {
    var more := edges + {(a, t)};
    var y :| (x, y) in more && Reach(more, y, x);
    var p :| IsPath(more, p) && p[0] == y && p[|p| - 1] == x;
    PathSplit(edges, a, t, p);
    assert !ReachPlus(edges, x, x);
    if (x, y) in edges {
      ReachEdge(edges, x, y);
      ReachTransitive(edges, t, x, y);
      ReachTransitive(edges, t, y, a);
    }
  }

  // ----- a termination measure -----

  ghost function Nodes(edges: Edges): set<string> {
    (set e | e in edges :: e.0) + (set e | e in edges :: e.1)
  }

  /** The nodes strictly below `a`. */
  ghost function Descendants(edges: Edges, a: string): set<string> {
    set x | x in Nodes(edges) && ReachPlus(edges, a, x)
  }

  /** Along an edge of an acyclic graph the set of nodes below gets strictly smaller. */
  lemma DescendantsShrink(edges: Edges, a: string, b: string)
    requires Acyclic(edges) && (a, b) in edges
    ensures Descendants(edges, b) < Descendants(edges, a)
    ensures |Descendants(edges, b)| < |Descendants(edges, a)|
  {
    forall x | x in Descendants(edges, b) ensures x in Descendants(edges, a) {
      ReachEdge(edges, a, b);
      ReachThenPlus(edges, a, b, x);
    }
    ReachSelf(edges, b);
    assert ReachPlus(edges, a, b);
    assert b in Nodes(edges) by { assert (a, b).1 == b; }
    assert b in Descendants(edges, a) && b !in Descendants(edges, b);
    Smaller(Descendants(edges, b), Descendants(edges, a));
  }

  lemma Smaller(a: set<string>, b: set<string>)
    requires a < b
    ensures |a| < |b|
  {
    var x :| x in b && x !in a;
    SmallerOrEqual(a, b - {x});
  }

  lemma {:induction false} SmallerOrEqual(a: set<string>, b: set<string>)
    requires a <= b
    ensures |a| <= |b|
    decreases |a|
  {
    if a != {} {
      var x :| x in a;
      SmallerOrEqual(a - {x}, b - {x});
    }
  }
}
