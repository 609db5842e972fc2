/**
 The table and id-array operations under every reducer of the studio store
 (store/common/reducer-tools.ts). An id array is a `seq<string>` that its owner
 reassigns; a table is an object with a `byId` map and an `allIds` array.
 */
module ReducerTools {
  import opened Strings

  // ----- Array.prototype.sort -----

  predicate Sorted(s: seq<string>) {
    forall i, j :: 0 <= i < j < |s| ==> !Below(s[j], s[i])
  }

  function Insert(s: seq<string>, x: string): (r: seq<string>)
    ensures multiset(r) == multiset(s) + multiset{x}
    ensures |r| == |s| + 1
  {
    if s == [] then [x]
    else if Below(s[0], x) then
      assert s == [s[0]] + s[1..];
      [s[0]] + Insert(s[1..], x)
    else [x] + s
  }

  /** `s.sort()` with the default string order. */
  function Sort(s: seq<string>): (r: seq<string>)
    ensures multiset(r) == multiset(s)
    ensures |r| == |s|
  {
    if s == [] then []
    else
      assert s == s[..|s| - 1] + [s[|s| - 1]];
      Insert(Sort(s[..|s| - 1]), s[|s| - 1])
  }

  lemma SameElements(a: seq<string>, b: seq<string>, x: string)
    requires multiset(a) == multiset(b)
    ensures x in a <==> x in b
  {
    assert x in a <==> x in multiset(a);
    assert x in b <==> x in multiset(b);
  }

  lemma {:induction false} InsertSorted(s: seq<string>, x: string)
    requires Sorted(s)
    ensures Sorted(Insert(s, x))
  {
    if s != [] {
      var r := Insert(s, x);
      if Below(s[0], x) {
        var rest := Insert(s[1..], x);
        InsertSorted(s[1..], x);
        forall j | 1 <= j < |r| ensures !Below(r[j], r[0]) {
          assert r[j] == rest[j - 1];
          SameElements(rest, s[1..] + [x], r[j]);
          if r[j] == x && Below(x, s[0]) {
            BelowTransitive(s[0], x, s[0]);
            BelowIrreflexive(s[0]);
          }
        }
        forall i, j | 0 <= i < j < |r| ensures !Below(r[j], r[i]) {
          if i > 0 {
            assert r[i] == rest[i - 1] && r[j] == rest[j - 1];
          }
        }
      } else {
        forall j | 1 <= j < |r| ensures !Below(r[j], x) {
          assert r[j] == s[j - 1];
          if Below(s[j - 1], x) {
            BelowTotal(s[0], x);
            if j > 1 {
              assert !Below(s[j - 1], s[0]);
              if Below(x, s[0]) { BelowTransitive(s[j - 1], x, s[0]); }
            }
          }
        }
        forall i, j | 0 <= i < j < |r| ensures !Below(r[j], r[i]) {
          if i > 0 {
            assert r[i] == s[i - 1] && r[j] == s[j - 1];
          }
        }
      }
    }
  }

  lemma {:induction false} SortSorted(s: seq<string>)
    ensures Sorted(Sort(s))
  {
    if s != [] {
      SortSorted(s[..|s| - 1]);
      InsertSorted(Sort(s[..|s| - 1]), s[|s| - 1]);
    }
  }

  lemma SortedFirst(a: seq<string>, b: seq<string>)
    requires Sorted(a) && Sorted(b) && multiset(a) == multiset(b) && a != [] && b != []
    ensures a[0] == b[0]
  {
    SameElements(a, b, a[0]);
    SameElements(a, b, b[0]);
    BelowTotal(a[0], b[0]);
  }

  /** A sorted arrangement is unique, so `Sort` is what any sorting algorithm returns. */
  lemma {:induction false} SortedUnique(a: seq<string>, b: seq<string>)
    requires Sorted(a) && Sorted(b) && multiset(a) == multiset(b)
    ensures a == b
  {
    assert |a| == |multiset(a)| && |b| == |multiset(b)|;
    if a != [] {
      SortedFirst(a, b);
      assert Sorted(a[1..]) && Sorted(b[1..]);
      hide Sorted;
      assert a == [a[0]] + a[1..] && b == [b[0]] + b[1..];
      assert multiset(a[1..]) == multiset(a) - multiset{a[0]};
      assert multiset(b[1..]) == multiset(b) - multiset{b[0]};
      SortedUnique(a[1..], b[1..]);
    }
  }

  lemma SortOfSorted(s: seq<string>)
    requires Sorted(s)
    ensures Sort(s) == s
  {
    SortSorted(s);
    SortedUnique(Sort(s), s);
  }

  // ----- id arrays -----

  /** Strictly ascending: sorted and duplicate-free. */
  predicate Ascending(a: seq<string>) {
    forall i, j :: 0 <= i < j < |a| ==> Below(a[i], a[j])
  }

  /** The id array `a` is exactly the set `ids`, in order and without repetition. */
  ghost predicate Lists(a: seq<string>, ids: set<string>) {
    Ascending(a) && forall x :: x in a <==> x in ids
  }

  function Elements(a: seq<string>): set<string> {
    set x | x in a
  }

  /** `arrayAdd(array, id, sortById)`. */
  function ArrayAdd(a: seq<string>, id: string, sortById: bool): seq<string> {
    if sortById then Sort(a + [id]) else a + [id]
  }

  /** `arraySet(array, id, true)`. */
  function ArraySet(a: seq<string>, id: string): seq<string> {
    if id in a then a else ArrayAdd(a, id, true)
  }

  function Position(a: seq<string>, id: string): (r: int)
    ensures -1 <= r < |a|
    ensures r < 0 <==> id !in a
    ensures r >= 0 ==> a[r] == id
  {
    if a == [] then -1
    else if a[0] == id then 0
    else
      var r := Position(a[1..], id);
      if r < 0 then -1 else r + 1
  }

  /** `arrayRemove(array, id)`: `splice(indexOf(id), 1)`, where `splice(-1, 1)` drops the last element. */
  function ArrayRemove(a: seq<string>, id: string): seq<string> {
    var index := Position(a, id);
    if index >= 0 then a[..index] + a[index + 1..]
    else if a == [] then []
    else a[..|a| - 1]
  }

  lemma AscendingSorted(a: seq<string>)
    requires Ascending(a)
    ensures Sorted(a)
  {
    forall i, j | 0 <= i < j < |a| ensures !Below(a[j], a[i]) {
      if Below(a[j], a[i]) {
        BelowTransitive(a[i], a[j], a[i]);
        BelowIrreflexive(a[i]);
      }
    }
  }

  lemma AscendingDistinct(a: seq<string>, i: nat, j: nat)
    requires Ascending(a) && i < j < |a|
    ensures a[i] != a[j]
  {
    BelowIrreflexive(a[i]);
  }

  lemma SortedDistinctAscending(a: seq<string>)
    requires Sorted(a) && forall i, j :: 0 <= i < j < |a| ==> a[i] != a[j]
    ensures Ascending(a)
  {
    forall i, j | 0 <= i < j < |a| ensures Below(a[i], a[j]) {
      BelowTotal(a[i], a[j]);
    }
  }

  lemma InsertElements(a: seq<string>, id: string)
    ensures forall x :: x in Insert(a, id) <==> x in a || x == id
  {
    forall x ensures x in Insert(a, id) <==> x in a || x == id {
      SameElements(Insert(a, id), a + [id], x);
    }
  }

  lemma CountedTwice(r: seq<string>, i: nat, j: nat)
    requires i < j < |r| && r[i] == r[j]
    ensures multiset(r)[r[i]] >= 2
  {
    assert r == r[..i] + [r[i]] + r[i + 1..j] + [r[j]] + r[j + 1..];
  }

  lemma AscendingInsert(a: seq<string>, id: string)
    requires Ascending(a) && id !in a
    ensures Ascending(Insert(a, id))
  {
    AscendingSorted(a);
    InsertSorted(a, id);
    var r := Insert(a, id);
    forall i, j | 0 <= i < j < |r| ensures r[i] != r[j] {
      if r[i] == r[j] {
        CountedTwice(r, i, j);
        AscendingCount(a, r[i]);
      }
    }
    SortedDistinctAscending(r);
  }

  lemma {:induction false} AscendingCount(a: seq<string>, x: string)
    requires Ascending(a)
    ensures multiset(a)[x] <= 1
  {
    if a != [] {
      assert a == [a[0]] + a[1..];
      AscendingCount(a[1..], x);
      if x == a[0] {
        forall j | 0 <= j < |a[1..]| ensures a[1..][j] != x { AscendingDistinct(a, 0, j + 1); }
        assert x !in multiset(a[1..]);
      }
    }
  }

  /** `arrayAdd` of a new id keeps the array exact. */
  lemma ArrayAddLists(a: seq<string>, ids: set<string>, id: string)
    requires Lists(a, ids) && id !in ids
    ensures Lists(ArrayAdd(a, id, true), ids + {id})
  {
    AscendingSorted(a);
    SortOfSorted(a);
    assert (a + [id])[..|a|] == a;
    AscendingInsert(a, id);
    InsertElements(a, id);
  }

  /** `arrayAdd` of an id that is there lists it twice. */
  lemma AddTwice(a: seq<string>, id: string)
    requires id in a
    ensures !Ascending(ArrayAdd(a, id, true))
  {
    assert multiset(a + [id])[id] >= 2 by { assert id in multiset(a); }
    if Ascending(Sort(a + [id])) {
      AscendingCount(Sort(a + [id]), id);
    }
  }

  lemma SetHas(a: seq<string>, id: string)
    ensures id in ArraySet(a, id)
  {
    assert id in multiset(a + [id]) by { assert (a + [id])[|a|] == id; }
  }

  /** `arraySet` keeps the array exact whether or not the id was there. */
  lemma ArraySetLists(a: seq<string>, ids: set<string>, id: string)
    requires Lists(a, ids)
    ensures Lists(ArraySet(a, id), ids + {id})
  {
    if id !in a {
      ArrayAddLists(a, ids, id);
    }
  }

  lemma RemoveAtLists(a: seq<string>, k: nat)
    requires Ascending(a) && k < |a|
    ensures Ascending(a[..k] + a[k + 1..])
    ensures forall x :: x in a[..k] + a[k + 1..] <==> x in a && x != a[k]
  {
    var r := a[..k] + a[k + 1..];
    forall i | 0 <= i < |r| ensures r[i] in a && r[i] != a[k] {
      if i < k { AscendingDistinct(a, i, k); } else { AscendingDistinct(a, k, i + 1); }
    }
    forall x | x in a && x != a[k] ensures x in r {
      var i :| 0 <= i < |a| && a[i] == x;
      assert if i < k then r[i] == x else r[i - 1] == x;
    }
  }

  /**
   `arrayRemove` on an exact array takes out the id, and nothing else, if and
   only if the id is there (or there is nothing to take). An absent id costs the
   array its last, unrelated element.
   */
  lemma ArrayRemoveExactly(a: seq<string>, ids: set<string>, id: string)
    requires Lists(a, ids)
    ensures Lists(ArrayRemove(a, id), ids - {id}) <==> (id in ids || ids == {})
    ensures id !in ids && ids != {} ==> a[|a| - 1] in ids && Lists(ArrayRemove(a, id), ids - {a[|a| - 1]})
  {
    if id in a {
      RemoveAtLists(a, Position(a, id));
    } else if a != [] {
      var last := |a| - 1;
      assert a[..last] + a[last + 1..] == a[..last];
      RemoveAtLists(a, last);
      assert a[last] in ids && a[last] in ids - {id};
      assert a[last] !in ArrayRemove(a, id);
    } else {
      assert forall x :: x in ids ==> x in a;
      assert ids == {};
    }
  }

  /** `arrayRemove` of an id that is there. */
  function RemovePresent(a: seq<string>, id: string): seq<string>
    requires id in a
  {
    ArrayRemove(a, id)
  }

  /** Whatever the array listed exactly, it now lists with `id`. */
  ghost predicate ListsMore(before: seq<string>, after: seq<string>, id: string) {
    forall ids :: Lists(before, ids) ==> Lists(after, ids + {id})
  }

  /** Whatever the array listed exactly, it now lists without `id`. */
  ghost predicate ListsLess(before: seq<string>, after: seq<string>, id: string) {
    forall ids :: Lists(before, ids) ==> Lists(after, ids - {id})
  }

  lemma SetListsMore(a: seq<string>, id: string)
    ensures ListsMore(a, ArraySet(a, id), id)
  {
    hide Lists, ArraySet;
    forall ids | Lists(a, ids) ensures Lists(ArraySet(a, id), ids + {id}) {
      ArraySetLists(a, ids, id);
    }
  }

  lemma RemoveListsLess(a: seq<string>, id: string)
    requires id in a
    ensures ListsLess(a, RemovePresent(a, id), id)
  {
    forall ids | Lists(a, ids) ensures Lists(RemovePresent(a, id), ids - {id}) {
      ArrayRemoveExactly(a, ids, id);
    }
  }

  lemma ListsFirst(a: seq<string>, b: seq<string>, ids: set<string>)
    requires Lists(a, ids) && Lists(b, ids)
    ensures a == [] <==> b == []
    ensures a != [] && b != [] ==> a[0] == b[0]
  {
    assert a != [] ==> a[0] in ids;
    assert b != [] ==> b[0] in ids;
    if a != [] && b != [] && a[0] != b[0] {
      assert Below(b[0], a[0]) by { assert a[0] in b; }
      assert Below(a[0], b[0]) by { assert b[0] in a; }
      BelowTransitive(a[0], b[0], a[0]);
      BelowIrreflexive(a[0]);
    }
  }

  lemma ListsRest(a: seq<string>, ids: set<string>)
    requires Lists(a, ids) && a != []
    ensures Lists(a[1..], ids - {a[0]})
  {
    RemoveAtLists(a, 0);
    var rest := a[..0] + a[1..];
    assert rest == a[1..];
    forall x ensures x in rest <==> x in ids - {a[0]} {
      assert x in rest <==> x in a && x != a[0];
    }
  }

  /** Two exact arrays of the same ids are the same array. */
  lemma {:induction false} ListsUnique(a: seq<string>, b: seq<string>, ids: set<string>)
    requires Lists(a, ids) && Lists(b, ids)
    ensures a == b
  {
    hide Lists;
    ListsFirst(a, b, ids);
    if a != [] {
      ListsRest(a, ids);
      ListsRest(b, ids);
      ListsUnique(a[1..], b[1..], ids - {a[0]});
      assert a == [a[0]] + a[1..] && b == [b[0]] + b[1..];
    }
  }

  // ----- tables -----

  /** `Table<T>`: rows by id, and the id array the views iterate over. */
  class Table<Row> {
    var byId: map<string, Row>
    var allIds: seq<string>

    ghost predicate Valid()
      reads this
    {
      Lists(allIds, byId.Keys)
    }

    /** `createTable()`. */
    constructor ()
      ensures Valid() && byId == map[] && allIds == []
    {
      byId := map[];
      allIds := [];
    }

    /** `tableSet(table, item, true)`: add or overwrite the row. */
    method Set(id: string, item: Row)
      requires Valid()
      modifies this
      ensures Valid() && byId == old(byId)[id := item]
    {
      if id !in byId {
        ArrayAddLists(allIds, byId.Keys, id);
        allIds := ArrayAdd(allIds, id, true);
      }
      byId := byId[id := item];
    }

    /** `tableAdd(table, item, true)`: an existing row stays. */
    method Add(id: string, item: Row)
      requires Valid()
      modifies this
      ensures Valid()
      ensures byId == if id in old(byId) then old(byId) else old(byId)[id := item]
    {
      if id in byId {
        return;
      }
      ArrayAddLists(allIds, byId.Keys, id);
      byId := byId[id := item];
      allIds := ArrayAdd(allIds, id, true);
    }

    /** `tableRemove(table, id)`: removing an absent row changes nothing. */
    method Remove(id: string)
      requires Valid()
      modifies this
      ensures Valid() && byId == old(byId) - {id}
    {
      if id !in byId {
        return;
      }
      ArrayRemoveExactly(allIds, byId.Keys, id);
      byId := byId - {id};
      allIds := ArrayRemove(allIds, id);
    }

    /** `tableRemoveAll(table, ids)`. */
    method RemoveAll(ids: seq<string>)
      requires Valid()
      modifies this
      ensures Valid() && byId == old(byId) - Elements(ids)
    {
      for i := 0 to |ids|
        invariant Valid() && byId == old(byId) - Elements(ids[..i])
      {
        Remove(ids[i]);
        assert Elements(ids[..i + 1]) == Elements(ids[..i]) + {ids[i]};
      }
      assert ids[..|ids|] == ids;
    }

    /** A row object changed in place: same id, new fields. */
    method Update(id: string, item: Row)
      requires Valid() && id in byId
      modifies this`byId
      ensures Valid() && byId == old(byId)[id := item]
    {
      byId := byId[id := item];
      assert byId.Keys == old(byId.Keys);
    }
  }
}
