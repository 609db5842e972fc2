/**
 `makeUniqueId`: the wanted id, or the first free one of `wanted_1`, `wanted_2`, ...
 */
module UniqueId {
  import opened Strings

  function Candidate(wanted: string, i: nat): string { wanted + "_" + NatToString(i) }

  lemma CandidatesDiffer(wanted: string, i: nat, j: nat)
    requires Candidate(wanted, i) == Candidate(wanted, j)
    ensures i == j
  {
    var s := Candidate(wanted, i);
    assert s[|wanted| + 1..] == NatToString(i);
    assert s[|wanted| + 1..] == NatToString(j);
    DigitsValueOfNat(i);
    DigitsValueOfNat(j);
  }

  /** The candidates up to `n`. */
  function Tried(wanted: string, n: nat): set<string> {
    if n == 0 then {} else Tried(wanted, n - 1) + {Candidate(wanted, n)}
  }

  lemma {:induction false} TriedMembers(wanted: string, n: nat, x: string) returns (i: nat)
    requires x in Tried(wanted, n)
    ensures 1 <= i <= n && x == Candidate(wanted, i)
  {
    if x == Candidate(wanted, n) {
      i := n;
    } else {
      i := TriedMembers(wanted, n - 1, x);
    }
  }

  /** `n` candidates are `n` different ids. */
  lemma {:induction false} TriedCount(wanted: string, n: nat)
    ensures |Tried(wanted, n)| == n
  {
    if n > 0 {
      TriedCount(wanted, n - 1);
      if Candidate(wanted, n) in Tried(wanted, n - 1) {
        var i := TriedMembers(wanted, n - 1, Candidate(wanted, n));
        CandidatesDiffer(wanted, n, i);
      }
    }
  }

  lemma SubsetCount<T>(a: set<T>, b: set<T>)
    requires a <= b
    ensures |a| <= |b|
  {
    assert b == a + (b - a);
    assert |b| == |a| + |b - a|;
  }

  /**
   Ends for every finite set of ids, since no more candidates can be taken than there
   are ids; the id returned is free, and no earlier choice was.
   */
  method MakeUniqueId(existingIds: set<string>, wantedId: string) returns (id: string, ghost suffix: nat)
    ensures id !in existingIds
    ensures wantedId !in existingIds ==> id == wantedId
    ensures wantedId in existingIds ==> 1 <= suffix <= |existingIds| + 1 && id == wantedId + "_" + NatToString(suffix)
    ensures forall i :: 1 <= i < suffix ==> wantedId + "_" + NatToString(i) in existingIds
  {
    suffix := 0;
    if wantedId !in existingIds {
      return wantedId, 0;
    }
    var i := 1;
    assert Tried(wantedId, 0) == {};
    while true
      invariant 1 <= i <= |existingIds| + 1
      invariant Tried(wantedId, i - 1) <= existingIds
      invariant forall j :: 1 <= j < i ==> wantedId + "_" + NatToString(j) in existingIds
      decreases |existingIds| + 1 - i
    {
      var candidate := Candidate(wantedId, i);
      if candidate !in existingIds {
        return candidate, i;
      }
      assert Tried(wantedId, i) <= existingIds;
      TriedCount(wantedId, i);
      SubsetCount(Tried(wantedId, i), existingIds);
      i := i + 1;
    }
  }
}
