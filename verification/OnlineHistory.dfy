/**
 The studio's online history: a sliding window over history items, where each state
 change links back to the newest earlier item of the same state still in the window.
 */
module OnlineHistory {
  import opened Strings
  import opened Options

  const MAX_ITEMS := 2000

  /** The state an item is about. */
  datatype Key = Key(instanceName: string, componentId: string, stateName: string)

  datatype Kind = StateSet(key: Key, value: string, initial: bool) | Other(text: string)

  datatype Item = Item(kind: Kind, previousItemId: Option<string>)

  // ----- the window as a value -----

  /** An item by the number its id was generated from. */
  datatype Entry = Entry(number: nat, kind: Kind)

  function Id(n: nat): string { NatToString(n) }

  lemma IdInjective(a: nat, b: nat)
    ensures Id(a) == Id(b) <==> a == b
  {
    DigitsValueOfNat(a);
    DigitsValueOfNat(b);
  }

  predicate Matches(e: Entry, key: Key) { e.kind.StateSet? && e.kind.key == key }

  /** The number of the newest item about `key`. */
  function Newest(w: seq<Entry>, key: Key): Option<nat> {
    if w == [] then None
    else if Matches(w[|w| - 1], key) then Some(w[|w| - 1].number)
    else Newest(w[..|w| - 1], key)
  }

  /** The position of the newest item about `key`, or -1. */
  lemma {:induction false} NewestAt(w: seq<Entry>, key: Key) returns (i: int)
    ensures -1 <= i < |w|
    ensures Newest(w, key) == if i < 0 then None else Some(w[i].number)
    ensures i >= 0 ==> Matches(w[i], key)
    ensures forall j :: i < j < |w| ==> !Matches(w[j], key)
    decreases |w|
  {
    if w == [] {
      i := -1;
    } else if Matches(w[|w| - 1], key) {
      i := |w| - 1;
    } else {
      i := NewestAt(w[..|w| - 1], key);
    }
  }

  /** The link item `i` should have: only a state change that is not initial has one. */
  function Expected(w: seq<Entry>, i: nat): Option<nat>
    requires i < |w|
  {
    if w[i].kind.StateSet? && !w[i].kind.initial then Newest(w[..i], w[i].kind.key) else None
  }

  predicate Increasing(w: seq<Entry>, last: nat) {
    && (forall i, j :: 0 <= i < j < |w| ==> w[i].number < w[j].number)
    && (forall i :: 0 <= i < |w| ==> w[i].number <= last)
  }

  /** The last items, at most `MAX_ITEMS`. */
  function Last(all: seq<Entry>): seq<Entry> {
    if |all| <= MAX_ITEMS then all else all[|all| - MAX_ITEMS..]
  }

  /** Losing the oldest item loses exactly the links to it. */
  lemma {:induction false} DropOldest(w: seq<Entry>, key: Key, last: nat)
    requires Increasing(w, last) && w != []
    ensures Newest(w[1..], key) == if Newest(w, key) == Some(w[0].number) then None else Newest(w, key)
  {
    if |w| > 1 {
      var init := w[..|w| - 1];
      DropOldest(init, key, last);
      assert init[1..] == w[1..][..|w| - 2];
    }
  }

  lemma ShiftedLinks(w: seq<Entry>, i: nat, last: nat)
    requires Increasing(w, last) && 0 < i < |w|
    ensures Expected(w[1..], i - 1) == if Expected(w, i) == Some(w[0].number) then None else Expected(w, i)
  {
    hide Newest;
    assert w[1..][..i - 1] == w[..i][1..];
    DropOldest(w[..i], if w[i].kind.StateSet? then w[i].kind.key else Key("", "", ""), last);
  }

  /** Two items never link to the same one. */
  lemma OneLink(w: seq<Entry>, i: nat, j: nat, last: nat)
    requires Increasing(w, last) && i < j < |w| && Expected(w, i).Some?
    ensures Expected(w, i) != Expected(w, j)
  {
    hide Expected;
    var m := OlderThan(w, i, last);
    if Expected(w, j).Some? {
      var n := OlderThan(w, j, last);
      SameKey(w, i);
    }
  }

  lemma SameKey(w: seq<Entry>, i: nat)
    requires i < |w| && Expected(w, i).Some?
    ensures Matches(w[i], w[i].kind.key)
  {}

  lemma OlderThan(w: seq<Entry>, i: nat, last: nat) returns (m: nat)
    requires Increasing(w, last) && i < |w| && Expected(w, i).Some?
    ensures m < i && w[m].number == Expected(w, i).value < w[i].number && Matches(w[m], w[i].kind.key)
    ensures forall j :: m < j < i ==> !Matches(w[j], w[i].kind.key)
  {
    hide Newest;
    m := NewestAt(w[..i], w[i].kind.key);
    forall j | m < j < i ensures !Matches(w[j], w[i].kind.key) {
      assert w[..i][j] == w[j];
    }
  }

  // ----- the table -----

  function IdOf(n: Option<nat>): Option<string> {
    match n case Some(v) => Some(Id(v)) case None => None
  }

  /** The table holds exactly the window, with every link as expected. */
  ghost predicate Stores(byId: map<string, Item>, allIds: seq<string>, w: seq<Entry>) {
    && |allIds| == |w|
    && (forall i :: 0 <= i < |w| ==>
          allIds[i] == Id(w[i].number) && allIds[i] in byId && byId[allIds[i]] == Item(w[i].kind, IdOf(Expected(w, i))))
    && (forall id :: id in byId ==> id in allIds)
  }

  /** The table without the oldest item, the links to it not yet removed. */
  ghost predicate Shifting(byId: map<string, Item>, allIds: seq<string>, w: seq<Entry>) {
    && |allIds| == |w| - 1
    && (forall i :: 0 <= i < |allIds| ==>
          allIds[i] == Id(w[i + 1].number) && allIds[i] in byId
            && byId[allIds[i]] == Item(w[i + 1].kind, IdOf(Expected(w, i + 1))))
    && (forall id :: id in byId ==> id in allIds)
  }

  lemma StoresDistinct(byId: map<string, Item>, allIds: seq<string>, w: seq<Entry>, last: nat, i: nat, j: nat)
    requires Stores(byId, allIds, w) && Increasing(w, last) && i < j < |w|
    ensures allIds[i] != allIds[j]
  {
    IdInjective(w[i].number, w[j].number);
  }

  lemma RemoveOldest(byId: map<string, Item>, allIds: seq<string>, w: seq<Entry>, last: nat)
    requires Stores(byId, allIds, w) && Increasing(w, last) && w != []
    ensures Shifting(byId - {allIds[0]}, allIds[1..], w)
  {
    hide Expected, Increasing;
    forall i | 0 < i < |w| ensures allIds[i] != allIds[0] {
      StoresDistinct(byId, allIds, w, last, 0, i);
    }
    forall id | id in byId - {allIds[0]} ensures id in allIds[1..] {
      var k :| 0 <= k < |allIds| && allIds[k] == id;
      assert allIds[1..][k - 1] == id;
    }
  }

  /** Clearing the one link to the removed item, or finding none, leaves the table of the shorter window. */
  lemma LinksRemoved(byId: map<string, Item>, allIds: seq<string>, w: seq<Entry>, last: nat, cleared: map<string, Item>)
    requires w != [] && Shifting(byId, allIds, w) && Increasing(w, last)
    requires cleared.Keys == byId.Keys
    requires forall id :: id in byId ==>
      cleared[id] ==
        if byId[id].previousItemId == Some(Id(w[0].number)) then byId[id].(previousItemId := None) else byId[id]
    ensures Stores(cleared, allIds, w[1..])
  {
    hide Expected, Increasing;
    forall i | 0 <= i < |w| - 1
      ensures allIds[i] == Id(w[1..][i].number) && allIds[i] in cleared
      ensures cleared[allIds[i]] == Item(w[1..][i].kind, IdOf(Expected(w[1..], i)))
    {
      ShiftedLinks(w, i + 1, last);
      SameId(Expected(w, i + 1), w[0].number);
    }
  }

  lemma SameId(a: Option<nat>, n: nat)
    ensures IdOf(a) == Some(Id(n)) <==> a == Some(n)
  {
    if a.Some? { IdInjective(a.value, n); }
  }

  /** Only one item links to the removed one. */
  lemma OneLinkStored(byId: map<string, Item>, allIds: seq<string>, w: seq<Entry>, last: nat, a: string, b: string)
    requires w != [] && Shifting(byId, allIds, w) && Increasing(w, last) && a in byId && b in byId
    requires byId[a].previousItemId == byId[b].previousItemId == Some(Id(w[0].number))
    ensures a == b
  {
    hide Expected, Increasing;
    var i :| 0 <= i < |allIds| && allIds[i] == a;
    var j :| 0 <= j < |allIds| && allIds[j] == b;
    SameId(Expected(w, i + 1), w[0].number);
    SameId(Expected(w, j + 1), w[0].number);
    if i < j { OneLink(w, i + 1, j + 1, last); }
    if j < i { OneLink(w, j + 1, i + 1, last); }
  }

  lemma ExpectedAppend(w: seq<Entry>, e: Entry, i: nat)
    requires i <= |w|
    ensures Expected(w + [e], i) == if i < |w| then Expected(w, i) else LinkFor(w, e.kind)
  {
    hide Newest;
    assert (w + [e])[..i] == w[..i];
    assert w[..|w|] == w;
  }

  function LinkFor(w: seq<Entry>, kind: Kind): Option<nat> {
    if kind.StateSet? && !kind.initial then Newest(w, kind.key) else None
  }

  /** Adding an item with the link it should have. */
  lemma Appended(byId: map<string, Item>, allIds: seq<string>, w: seq<Entry>, last: nat, e: Entry)
    requires Stores(byId, allIds, w) && Increasing(w, last) && e.number > last
    ensures Stores(byId[Id(e.number) := Item(e.kind, IdOf(LinkFor(w, e.kind)))], allIds + [Id(e.number)], w + [e])
  {
    hide LinkFor, Expected;
    var v, ids, rows := w + [e], allIds + [Id(e.number)], byId[Id(e.number) := Item(e.kind, IdOf(LinkFor(w, e.kind)))];
    forall i | 0 <= i < |v| ensures ids[i] == Id(v[i].number) && ids[i] in rows
      && rows[ids[i]] == Item(v[i].kind, IdOf(Expected(v, i))) {
      ExpectedAppend(w, e, i);
      IdInjective(v[i].number, e.number);
    }
    forall id | id in rows ensures id in ids {
      if id in byId {
        var k :| 0 <= k < |allIds| && allIds[k] == id;
        assert ids[k] == id;
      } else {
        assert ids[|w|] == id;
      }
    }
  }

  class History {
    var byId: map<string, Item>
    var allIds: seq<string>
    var idGenerator: nat
    // every item added since the history was cleared
    ghost var all: seq<Entry>

    /** The window is the last items added, with every link as expected. */
    ghost predicate Valid()
      reads this
    {
      Stores(byId, allIds, Last(all)) && Increasing(all, idGenerator)
    }

    constructor ()
      ensures Valid() && all == []
    {
      byId, allIds, idGenerator, all := map[], [], 0, [];
    }

    /** `CLEAR_NOTIFICATION`; ids go on from where they were. */
    method Clear()
      modifies this
      ensures Valid() && all == [] && idGenerator == old(idGenerator)
    {
      byId, allIds, all := map[], [], [];
    }

    /** `itemsShift`: drop the oldest item and the link to it. */
    method ItemsShift(ghost w: seq<Entry>)
      requires Stores(byId, allIds, w) && Increasing(w, idGenerator) && w != []
      modifies `byId, `allIds
      ensures Stores(byId, allIds, w[1..])
    {
      hide Stores, Shifting, Increasing;
      OldestIs(byId, allIds, w);
      RemoveOldest(byId, allIds, w, idGenerator);
      var removedId := allIds[0];
      var removedItem := byId[removedId];
      allIds := allIds[1..];
      byId := byId - {removedId};
      ghost var before, ids := byId, allIds;
      if !removedItem.kind.StateSet? {
        NoLinksToOthers(byId, allIds, w, idGenerator);
        LinksRemoved(before, allIds, w, idGenerator, byId);
        return;
      }
      var todo := byId.Keys;
      while todo != {}
        invariant todo <= byId.Keys && byId == before && allIds == ids
        invariant forall id :: id in byId && id !in todo ==> byId[id].previousItemId != Some(removedId)
        decreases |todo|
      {
        var id :| id in todo;
        todo := todo - {id};
        if byId[id].kind.StateSet? && byId[id].previousItemId == Some(removedId) {
          forall other | other in before && before[other].previousItemId == Some(removedId) ensures other == id {
            OneLinkStored(before, allIds, w, idGenerator, other, id);
          }
          byId := byId[id := byId[id].(previousItemId := None)];
          break;
        }
        OnlyStatesLink(before, allIds, w);
      }
      LinksRemoved(before, allIds, w, idGenerator, byId);
    }

    /** `findLast`, for the newest item about a state. */
    method FindLast(key: Key, ghost w: seq<Entry>) returns (id: Option<string>)
      requires Stores(byId, allIds, w)
      ensures id == IdOf(Newest(w, key))
    {
      hide Expected;
      assert w[..|w|] == w;
      var index := |allIds|;
      while index > 0
        invariant 0 <= index <= |allIds|
        invariant Newest(w, key) == Newest(w[..index], key)
      {
        index := index - 1;
        assert w[..index + 1][..index] == w[..index];
        assert byId[allIds[index]].kind == w[index].kind;
        if byId[allIds[index]].kind.StateSet? && byId[allIds[index]].kind.key == key {
          return Some(allIds[index]);
        }
      }
      return None;
    }

    /** `addItem`, with a fresh id from the generator. */
    method AddItem(kind: Kind)
      requires Valid()
      modifies this
      ensures Valid() && idGenerator == old(idGenerator) + 1
      ensures all == old(all) + [Entry(idGenerator, kind)]
    {
      hide Stores, Increasing, Newest;
      hide Last;
      ghost var w := Last(all);
      LastIncreasing(all, idGenerator);
      StoresLength(byId, allIds, w);
      if |allIds| == MAX_ITEMS {
        ItemsShift(w);
        w := w[1..];
        TailIncreasing(Last(all), idGenerator);
      }
      var previous: Option<string> := None;
      if kind.StateSet? && !kind.initial {
        var found := FindLast(kind.key, w);
        if found.Some? && found.value != "" {
          previous := found;
        }
      }
      ghost var e := Entry(idGenerator + 1, kind);
      Appended(byId, allIds, w, idGenerator, e);
      AllIncreasing(all, idGenerator, e);
      LastAppend(all, e);
      idGenerator := idGenerator + 1;
      byId := byId[Id(idGenerator) := Item(kind, previous)];
      allIds := allIds + [Id(idGenerator)];
      all := all + [e];
    }
  }

  lemma OldestIs(byId: map<string, Item>, allIds: seq<string>, w: seq<Entry>)
    requires Stores(byId, allIds, w) && w != []
    ensures allIds != [] && allIds[0] == Id(w[0].number) && allIds[0] in byId && byId[allIds[0]].kind == w[0].kind
  {
    hide Expected;
  }

  lemma StoresLength(byId: map<string, Item>, allIds: seq<string>, w: seq<Entry>)
    requires Stores(byId, allIds, w)
    ensures |allIds| == |w|
  {}

  lemma OnlyStatesLink(byId: map<string, Item>, allIds: seq<string>, w: seq<Entry>)
    requires Shifting(byId, allIds, w)
    ensures forall id :: id in byId && byId[id].previousItemId.Some? ==> byId[id].kind.StateSet?
  {
    forall id | id in byId && byId[id].previousItemId.Some? ensures byId[id].kind.StateSet? {
      var i :| 0 <= i < |allIds| && allIds[i] == id;
    }
  }

  /** An item that is not a state change is never a link's target. */
  lemma NoLinksToOthers(byId: map<string, Item>, allIds: seq<string>, w: seq<Entry>, last: nat)
    requires w != [] && Shifting(byId, allIds, w) && Increasing(w, last) && !w[0].kind.StateSet?
    ensures forall id :: id in byId ==> byId[id].previousItemId != Some(Id(w[0].number))
  {
    hide Expected;
    forall id | id in byId ensures byId[id].previousItemId != Some(Id(w[0].number)) {
      var i :| 0 <= i < |allIds| && allIds[i] == id;
      SameId(Expected(w, i + 1), w[0].number);
      TargetIsState(w, i + 1, last);
    }
  }

  lemma TargetIsState(w: seq<Entry>, i: nat, last: nat)
    requires Increasing(w, last) && 0 < i < |w| && !w[0].kind.StateSet?
    ensures Expected(w, i) != Some(w[0].number)
  {
    hide Newest;
    if Expected(w, i).Some? {
      var m := OlderThan(w, i, last);
      assert m > 0;
    }
  }

  lemma LastIncreasing(all: seq<Entry>, last: nat)
    requires Increasing(all, last)
    ensures Increasing(Last(all), last)
  {}

  lemma LastAppend(all: seq<Entry>, e: Entry)
    ensures |Last(all)| <= MAX_ITEMS
    ensures Last(all + [e]) == (if |Last(all)| == MAX_ITEMS then Last(all)[1..] else Last(all)) + [e]
  {}

  lemma TailIncreasing(w: seq<Entry>, last: nat)
    requires Increasing(w, last) && w != []
    ensures Increasing(w[1..], last)
  {}

  lemma AllIncreasing(all: seq<Entry>, last: nat, e: Entry)
    requires Increasing(all, last) && e.number == last + 1
    ensures Increasing(all + [e], last + 1)
  {}

  // ----- records and whole runs -----

  datatype Record =
    | ComponentSet(instanceName: string, componentId: string, states: seq<(string, string)>)
    | StateSetRecord(key: Key, value: string)
    | OtherRecord(text: string)

  /** `parseHistoryRecord`: a component that is set brings its initial states. */
  function KindsOf(r: Record): seq<Kind> {
    match r
    case ComponentSet(instance, component, states) =>
      [Other(component)] + seq(|states|,
        i requires 0 <= i < |states| => StateSet(Key(instance, component, states[i].0), states[i].1, true))
    case StateSetRecord(key, value) => [StateSet(key, value, false)]
    case OtherRecord(text) => [Other(text)]
  }

  /** The entries after `before` have these kinds, in order. */
  ghost predicate Appends(before: seq<Entry>, after: seq<Entry>, kinds: seq<Kind>) {
    && before <= after && |after| == |before| + |kinds|
    && forall i :: |before| <= i < |after| ==> after[i].kind == kinds[i - |before|]
  }

  method AddKinds(h: History, kinds: seq<Kind>)
    requires h.Valid()
    modifies h
    ensures h.Valid() && Appends(old(h.all), h.all, kinds)
  {
    hide Stores, Increasing;
    for i := 0 to |kinds|
      invariant h.Valid() && Appends(old(h.all), h.all, kinds[..i])
    {
      h.AddItem(kinds[i]);
    }
    assert kinds[..|kinds|] == kinds;
  }

  /**
   In every reachable history, a state change that is not initial links to the newest
   earlier item of its state in the window, at position `j`, or to nothing when there
   is none; no other item has a link.
   */
  lemma LinkMeans(h: History, i: nat) returns (j: int)
    requires h.Valid() && i < |h.allIds|
    ensures |h.allIds| <= MAX_ITEMS && (forall k :: 0 <= k < |h.allIds| ==> h.allIds[k] in h.byId)
    ensures -1 <= j < i
    ensures var item := h.byId[h.allIds[i]];
            if !item.kind.StateSet? || item.kind.initial then item.previousItemId == None
            else
              && item.previousItemId == (if j < 0 then None else Some(h.allIds[j]))
              && (j >= 0 ==> About(h.byId[h.allIds[j]], item.kind.key))
              && forall k :: j < k < i ==> !About(h.byId[h.allIds[k]], item.kind.key)
  {
    hide Newest, Increasing;
    var w := Last(h.all);
    if w[i].kind.StateSet? {
      j := NewestAt(w[..i], w[i].kind.key);
      forall k | j < k < i ensures !About(h.byId[h.allIds[k]], w[i].kind.key) {
        assert w[..i][k] == w[k];
        assert h.byId[h.allIds[k]].kind == w[k].kind;
      }
      assert j >= 0 ==> h.byId[h.allIds[j]].kind == w[j].kind;
    } else {
      j := -1;
    }
  }

  predicate About(item: Item, key: Key) { item.kind.StateSet? && item.kind.key == key }

  /** What a record adds to the items: one for itself, and one for each state a component comes with. */
  ghost predicate Adds(r: Record, before: seq<Entry>, after: seq<Entry>) {
    var n := |before|;
    && before <= after
    && match r
       case ComponentSet(instance, component, states) =>
         && |after| == n + 1 + |states| && after[n].kind == Other(component)
         && forall i :: n < i < |after| ==>
              after[i].kind == StateSet(Key(instance, component, states[i - n - 1].0), states[i - n - 1].1, true)
       case StateSetRecord(key, value) => |after| == n + 1 && after[n].kind == StateSet(key, value, false)
       case OtherRecord(text) => |after| == n + 1 && after[n].kind == Other(text)
  }

  lemma KindsAdd(r: Record, before: seq<Entry>, after: seq<Entry>)
    requires Appends(before, after, KindsOf(r))
    ensures Adds(r, before, after)
  {
    assert after[|before|].kind == KindsOf(r)[0];
  }

  /** The newest item is this state change, linked to the newest earlier item of its state: `j`, or none. */
  ghost predicate NewestIs(h: History, key: Key, value: string, j: int)
    reads h
  {
    var last := |h.allIds| - 1;
    && -1 <= j < last && (forall i :: 0 <= i <= last ==> h.allIds[i] in h.byId)
    && h.byId[h.allIds[last]] == Item(StateSet(key, value, false), if j < 0 then None else Some(h.allIds[j]))
    && (j >= 0 ==> About(h.byId[h.allIds[j]], key))
    && forall i :: j < i < last ==> !About(h.byId[h.allIds[i]], key)
  }

  /** One record. */
  method AddRecord(h: History, r: Record) returns (ghost j: int)
    requires h.Valid()
    modifies h
    ensures h.Valid() && Adds(r, old(h.all), h.all)
    ensures r.StateSetRecord? ==> NewestIs(h, r.key, r.value, j)
  {
    hide Stores, Increasing, Last;
    AddKinds(h, KindsOf(r));
    KindsAdd(r, old(h.all), h.all);
    j := -1;
    if r.StateSetRecord? {
      WindowMeans(h);
      j := LinkMeans(h, |h.allIds| - 1);
    }
  }

  /** Every run of records adds, in order, what each record adds; only the window limit ever drops an item. */
  method AddHistoryItems(h: History, records: seq<Record>) returns (ghost trail: seq<seq<Entry>>)
    requires h.Valid()
    modifies h
    ensures h.Valid() && |trail| == |records| + 1 && trail[0] == old(h.all) && trail[|records|] == h.all
    ensures forall i :: 0 <= i < |records| ==> Adds(records[i], trail[i], trail[i + 1])
  {
    hide Stores, Increasing, Adds, Last;
    trail := [h.all];
    for i := 0 to |records|
      invariant h.Valid() && |trail| == i + 1 && trail[0] == old(h.all) && trail[i] == h.all
      invariant forall k :: 0 <= k < i ==> Adds(records[k], trail[k], trail[k + 1])
    {
      ghost var _ := AddRecord(h, records[i]);
      trail := trail + [h.all];
    }
  }

  /** What is shown: the last items ever added, at most 2000, oldest first, and nothing else. */
  lemma WindowMeans(h: History)
    requires h.Valid()
    ensures |h.allIds| == if |h.all| < 2000 then |h.all| else 2000
    ensures var dropped := |h.all| - |h.allIds|;
            forall i :: 0 <= i < |h.allIds| ==>
              && h.allIds[i] == Id(h.all[dropped + i].number) && h.allIds[i] in h.byId
              && h.byId[h.allIds[i]].kind == h.all[dropped + i].kind
    ensures forall id :: id in h.byId ==> id in h.allIds
  {
    hide Stores, Increasing;
    StoresLength(h.byId, h.allIds, Last(h.all));
    forall i | 0 <= i < |h.allIds|
      ensures h.allIds[i] == Id(Last(h.all)[i].number) && h.allIds[i] in h.byId
      ensures h.byId[h.allIds[i]].kind == Last(h.all)[i].kind {
      StoredAt(h.byId, h.allIds, Last(h.all), i);
    }
    StoredOnly(h.byId, h.allIds, Last(h.all));
  }

  lemma StoredAt(byId: map<string, Item>, allIds: seq<string>, w: seq<Entry>, i: nat)
    requires Stores(byId, allIds, w) && i < |w|
    ensures i < |allIds| && allIds[i] == Id(w[i].number) && allIds[i] in byId && byId[allIds[i]].kind == w[i].kind
  {
    hide Expected;
  }

  lemma StoredOnly(byId: map<string, Item>, allIds: seq<string>, w: seq<Entry>)
    requires Stores(byId, allIds, w)
    ensures forall id :: id in byId ==> id in allIds
  {}
}
