/**
 The keyed debouncer of the designer calls (store/common/rx-operators.ts,
 DebounceTimeKeySubscriber). Arrivals, the due timer and the zero-delay timers are
 separate events in any interleaving; an empty key stands for `null`.
 */
module Debounce {
  import opened Options

  /** A contiguous part of the arrivals, `lo` inclusive and `hi` exclusive. */
  datatype Block = Block(lo: nat, hi: nat)

  ghost predicate InRange(b: Block, n: nat) {
    b.lo < b.hi <= n
  }

  /** The merge of a block of arrivals, in order. */
  ghost function MergeOf<T>(merge: (T, T) -> T, arrivals: seq<T>, b: Block): T
    requires InRange(b, |arrivals|)
    decreases b.hi
  {
    if b.hi == b.lo + 1 then arrivals[b.lo]
    else merge(MergeOf(merge, arrivals, Block(b.lo, b.hi - 1)), arrivals[b.hi - 1])
  }

  /** The blocks cut the arrivals into consecutive pieces. */
  ghost predicate Tiling(tiles: seq<Block>, n: nat) {
    && (tiles == [] <==> n == 0)
    && (tiles != [] ==> tiles[0].lo == 0 && tiles[|tiles| - 1].hi == n)
    && (forall i :: 0 <= i < |tiles| ==> tiles[i].lo < tiles[i].hi)
    && (forall i, j :: 0 <= i < j == i + 1 < |tiles| ==> tiles[i].hi == tiles[j].lo)
  }

  /** A piece is one arrival without key, or a run of arrivals with one key. */
  ghost predicate OneKey<T>(key: T -> string, arrivals: seq<T>, b: Block)
    requires InRange(b, |arrivals|)
  {
    if key(arrivals[b.lo]) == "" then b.hi == b.lo + 1
    else forall i :: b.lo <= i < b.hi ==> key(arrivals[i]) == key(arrivals[b.lo])
  }

  /** Some block comes before an older one. */
  ghost predicate Inverted(order: seq<Block>) {
    exists i, j :: 0 <= i < j < |order| && order[i].lo > order[j].lo
  }

  // ----- lemmas on sequences of blocks -----

  lemma {:induction false} TilesInRange(tiles: seq<Block>, n: nat, i: nat, j: nat)
    requires Tiling(tiles, n) && i <= j < |tiles|
    ensures tiles[i].lo <= tiles[j].lo && (i < j ==> tiles[i].hi <= tiles[j].lo) && tiles[j].hi <= n
    decreases j - i, |tiles| - j
  {
    if i < j {
      TilesInRange(tiles, n, i, j - 1);
    }
    if j < |tiles| - 1 {
      TilesUpTo(tiles, n, j);
    }
  }

  lemma {:induction false} TilesUpTo(tiles: seq<Block>, n: nat, j: nat)
    requires Tiling(tiles, n) && j < |tiles|
    ensures tiles[j].hi <= n
    decreases |tiles| - j
  {
    if j < |tiles| - 1 {
      TilesUpTo(tiles, n, j + 1);
    }
  }

  lemma TilingPrefix(tiles: seq<Block>, n: nat)
    requires Tiling(tiles, n) && tiles != []
    ensures Tiling(tiles[..|tiles| - 1], tiles[|tiles| - 1].lo) && tiles[|tiles| - 1].hi == n
  {
    var last := |tiles| - 1;
    if last > 0 {
      assert tiles[last - 1].hi == tiles[last].lo;
    }
  }

  lemma TilesNotInverted(tiles: seq<Block>, n: nat)
    requires Tiling(tiles, n)
    ensures !Inverted(tiles)
  {
    forall i, j | 0 <= i < j < |tiles| ensures tiles[i].lo <= tiles[j].lo {
      TilesInRange(tiles, n, i, j);
    }
  }

  lemma {:induction false} MergeOfExtended<T>(merge: (T, T) -> T, arrivals: seq<T>, more: seq<T>, b: Block)
    requires InRange(b, |arrivals|)
    ensures MergeOf(merge, arrivals + more, b) == MergeOf(merge, arrivals, b)
    decreases b.hi
  {
    if b.hi > b.lo + 1 {
      MergeOfExtended(merge, arrivals, more, Block(b.lo, b.hi - 1));
    }
  }

  /** Moving the newest block before older ones inverts the order, and keeps it inverted. */
  lemma MovedForward(out: seq<Block>, zero: seq<Block>, h: Block)
    requires forall b :: b in out + zero ==> b.lo < h.lo
    ensures zero != [] ==> Inverted(out + [h] + zero)
    ensures Inverted(out + zero + [h]) ==> Inverted(out + [h] + zero)
  {
    var before, after := out + zero + [h], out + [h] + zero;
    if zero != [] {
      assert after[|out|] == h && after[|out| + 1] == zero[0] && zero[0] in out + zero;
    }
    if Inverted(before) {
      var i, j :| 0 <= i < j < |before| && before[i].lo > before[j].lo;
      assert (out + zero)[i] in out + zero && before[i] == (out + zero)[i];
      assert j < |before| - 1;
      var i' := if i < |out| then i else i + 1;
      var j' := if j < |out| then j else j + 1;
      assert after[i'] == before[i] && after[j'] == before[j];
    }
  }

  lemma InvertedPrefix(order: seq<Block>, b: Block)
    requires Inverted(order)
    ensures Inverted(order + [b])
  {
    var i, j :| 0 <= i < j < |order| && order[i].lo > order[j].lo;
    assert (order + [b])[i] == order[i] && (order + [b])[j] == order[j];
  }

  // ----- the history of a run -----

  /**
   What became of the arrivals: `tiles` cuts them into blocks, `out` are the blocks
   emitted, `zero` those waiting on a zero-delay timer, `held` the one being debounced.
   `cuts` is where the due timer fired; `overtook` says that a held block was emitted
   while zero-delay timers were pending.
   */
  datatype Trace = Trace(tiles: seq<Block>, out: seq<Block>, zero: seq<Block>, held: seq<Block>, cuts: set<nat>,
    overtook: bool) {
    /** The blocks in the order they reach, or will reach, the destination. */
    function Order(): seq<Block> { out + zero + held }

    /** The blocks that are not held. */
    function Done(): seq<Block>
      requires |held| <= |tiles|
    {
      tiles[..|tiles| - |held|]
    }
  }

  /** Each block is a maximal run: it only ends at another key or where the due timer fired. */
  ghost predicate Runs<T>(key: T -> string, arrivals: seq<T>, tiles: seq<Block>, cuts: set<nat>) {
    forall i :: 0 <= i < |tiles| ==>
      && InRange(tiles[i], |arrivals|) && OneKey(key, arrivals, tiles[i])
      && (tiles[i].hi < |arrivals| && key(arrivals[tiles[i].lo]) != "" ==>
            key(arrivals[tiles[i].hi]) != key(arrivals[tiles[i].lo]) || tiles[i].hi in cuts)
  }

  /** Every arrival is in exactly one block, and every block is emitted or pending exactly once. */
  ghost predicate Conserved(tr: Trace, n: nat) {
    && Tiling(tr.tiles, n) && |tr.held| <= 1 && |tr.held| <= |tr.tiles| && tr.tiles == tr.Done() + tr.held
    && multiset(tr.out) + multiset(tr.zero) == multiset(tr.Done())
  }

  /** Blocks stay in arrival order exactly as long as no held block overtook. */
  ghost predicate OrderKnown(tr: Trace) {
    (tr.overtook ==> Inverted(tr.Order())) && (!tr.overtook ==> tr.Order() == tr.tiles)
  }

  lemma OvertookIffReordered(tr: Trace, n: nat)
    requires Conserved(tr, n) && OrderKnown(tr)
    ensures tr.Order() == tr.tiles <==> !tr.overtook
  {
    TilesNotInverted(tr.tiles, n);
  }

  /** Every block is emitted, pending or held, exactly once. */
  lemma BlocksArePermuted(tr: Trace, n: nat)
    requires Conserved(tr, n)
    ensures multiset(tr.Order()) == multiset(tr.tiles)
  {
    assert multiset(tr.Order()) == multiset(tr.out) + multiset(tr.zero) + multiset(tr.held);
    assert multiset(tr.tiles) == multiset(tr.Done()) + multiset(tr.held);
  }

  function Flush(tr: Trace): Trace {
    tr.(out := tr.out + tr.held, held := [], overtook := tr.overtook || (tr.held != [] && tr.zero != []))
  }

  lemma FlushConserved(tr: Trace, n: nat)
    requires Conserved(tr, n)
    ensures Conserved(Flush(tr), n)
  {
    assert multiset(tr.out + tr.held) == multiset(tr.out) + multiset(tr.held);
    assert multiset(tr.tiles) == multiset(tr.Done()) + multiset(tr.held);
    assert Flush(tr).Done() == tr.tiles;
  }

  lemma OthersAreOlder(tr: Trace, n: nat, b: Block)
    requires Conserved(tr, n) && tr.held != [] && b in tr.out + tr.zero
    ensures b.lo < tr.held[0].lo
  {
    assert b in multiset(tr.out) + multiset(tr.zero);
    assert b in multiset(tr.Done());
    var i :| 0 <= i < |tr.Done()| && tr.Done()[i] == b;
    assert tr.tiles[|tr.tiles| - 1] == tr.held[0];
    TilesInRange(tr.tiles, n, i, |tr.tiles| - 1);
  }

  lemma FlushOrder(tr: Trace)
    requires OrderKnown(tr) && |tr.held| <= 1
    requires (tr.held != [] ==> forall b :: b in tr.out + tr.zero ==> b.lo < tr.held[0].lo)
    ensures (tr.held == [] || tr.zero == []) ==> Flush(tr).Order() == tr.Order()
    ensures OrderKnown(Flush(tr))
  {
    if tr.held != [] {
      assert tr.held == [tr.held[0]];
      hide Inverted;
      MovedForward(tr.out, tr.zero, tr.held[0]);
      assert Flush(tr).Order() == tr.out + [tr.held[0]] + tr.zero;
      assert tr.Order() == tr.out + tr.zero + [tr.held[0]];
      assert tr.zero == [] ==> Flush(tr).Order() == tr.Order();
    } else {
      hide Inverted;
      assert Flush(tr).Order() == tr.Order();
    }
  }

  lemma FlushOk(tr: Trace, n: nat)
    requires Conserved(tr, n) && OrderKnown(tr)
    ensures Conserved(Flush(tr), n) && OrderKnown(Flush(tr))
  {
    hide OrderKnown, Tiling;
    FlushConserved(tr, n);
    if tr.held != [] {
      forall b | b in tr.out + tr.zero ensures b.lo < tr.held[0].lo {
        OthersAreOlder(tr, n, b);
      }
    }
    FlushOrder(tr);
  }

  /** A zero-delay timer fires: the oldest pending block goes out, the order does not change. */
  function FireZero(tr: Trace): Trace
    requires tr.zero != []
  {
    tr.(out := tr.out + [tr.zero[0]], zero := tr.zero[1..])
  }

  lemma FireZeroConserved(tr: Trace, n: nat)
    requires Conserved(tr, n) && tr.zero != []
    ensures Conserved(FireZero(tr), n)
  {
    hide Tiling;
    assert tr.zero == [tr.zero[0]] + tr.zero[1..];
    assert multiset(tr.zero) == multiset([tr.zero[0]]) + multiset(tr.zero[1..]);
    assert multiset(tr.out + [tr.zero[0]]) == multiset(tr.out) + multiset([tr.zero[0]]);
    assert FireZero(tr).Done() == tr.Done();
  }

  lemma FireZeroOk(tr: Trace, n: nat)
    requires Conserved(tr, n) && OrderKnown(tr) && tr.zero != []
    ensures Conserved(FireZero(tr), n) && OrderKnown(FireZero(tr))
  {
    hide Conserved, Inverted;
    FireZeroConserved(tr, n);
    assert FireZero(tr).Order() == tr.Order();
  }

  /** A new block for one arrival, pending on a zero-delay timer or held. */
  function Append(tr: Trace, n: nat, keyed: bool): Trace {
    var b := Block(n, n + 1);
    if keyed then tr.(tiles := tr.tiles + [b], held := [b]) else tr.(tiles := tr.tiles + [b], zero := tr.zero + [b])
  }

  lemma TilingAppend(tiles: seq<Block>, n: nat)
    requires Tiling(tiles, n)
    ensures Tiling(tiles + [Block(n, n + 1)], n + 1)
  {}

  lemma AppendConserved(tr: Trace, n: nat, keyed: bool)
    requires Conserved(tr, n) && tr.held == []
    ensures Conserved(Append(tr, n, keyed), n + 1)
  {
    TilingAppend(tr.tiles, n);
    hide Tiling;
    var b, s := Block(n, n + 1), Append(tr, n, keyed);
    assert tr.tiles == tr.Done();
    assert s.Done() == if keyed then tr.tiles else tr.tiles + [b];
    assert multiset(tr.zero + [b]) == multiset(tr.zero) + multiset([b]);
    assert multiset(tr.tiles + [b]) == multiset(tr.tiles) + multiset([b]);
  }

  lemma AppendOk(tr: Trace, n: nat, keyed: bool)
    requires Conserved(tr, n) && OrderKnown(tr) && tr.held == []
    ensures Conserved(Append(tr, n, keyed), n + 1) && OrderKnown(Append(tr, n, keyed))
  {
    hide Conserved, Inverted;
    AppendConserved(tr, n, keyed);
    assert Append(tr, n, keyed).Order() == tr.Order() + [Block(n, n + 1)];
    if tr.overtook {
      InvertedPrefix(tr.Order(), Block(n, n + 1));
    }
  }

  /** One more arrival for the held block. */
  function Extend(tr: Trace, n: nat): Trace
    requires tr.held != [] && tr.tiles != []
  {
    var b := Block(tr.held[0].lo, n + 1);
    tr.(tiles := tr.tiles[..|tr.tiles| - 1] + [b], held := [b])
  }

  lemma TilingExtend(tiles: seq<Block>, n: nat)
    requires Tiling(tiles, n) && tiles != []
    ensures Tiling(tiles[..|tiles| - 1] + [Block(tiles[|tiles| - 1].lo, n + 1)], n + 1)
  {}

  lemma ExtendConserved(tr: Trace, n: nat)
    requires Conserved(tr, n) && tr.held != []
    ensures Conserved(Extend(tr, n), n + 1)
    ensures tr.Done() == tr.tiles[..|tr.tiles| - 1] && tr.tiles == tr.tiles[..|tr.tiles| - 1] + [tr.held[0]]
  {
    hide Tiling;
    HeldIsLast(tr, n);
    TilingExtend(tr.tiles, n);
    assert tr.held == [tr.held[0]];
    LastReplaced(tr.Done(), tr.held[0], Block(tr.held[0].lo, n + 1));
  }

  lemma LastReplaced<T>(a: seq<T>, h: T, b: T)
    ensures (a + [h])[..|a + [h]| - 1] == a && (a + [b])[..|a + [b]| - 1] == a
  {}

  lemma ExtendOrder(tr: Trace, n: nat)
    requires |tr.held| == 1 && tr.tiles != [] && tr.tiles == tr.tiles[..|tr.tiles| - 1] + [tr.held[0]] && OrderKnown(tr)
    ensures OrderKnown(Extend(tr, n))
  {
    var before, after := tr.Order(), Extend(tr, n).Order();
    assert tr.held == [tr.held[0]];
    assert before == tr.out + tr.zero + [tr.held[0]] && after == tr.out + tr.zero + [Block(tr.held[0].lo, n + 1)];
    if tr.overtook {
      var i, j :| 0 <= i < j < |before| && before[i].lo > before[j].lo;
      assert after[i].lo == before[i].lo && after[j].lo == before[j].lo;
    } else {
      assert tr.out + tr.zero == before[..|before| - 1] == tr.tiles[..|tr.tiles| - 1];
    }
  }

  lemma ExtendOk(tr: Trace, n: nat)
    requires Conserved(tr, n) && OrderKnown(tr) && tr.held != []
    ensures Conserved(Extend(tr, n), n + 1) && OrderKnown(Extend(tr, n))
  {
    hide OrderKnown, Tiling;
    ExtendConserved(tr, n);
    ExtendOrder(tr, n);
  }

  // ----- runs under new arrivals -----

  lemma RunsAppend<T>(key: T -> string, arrivals: seq<T>, tiles: seq<Block>, cuts: set<nat>, value: T)
    requires Runs(key, arrivals, tiles, cuts) && Tiling(tiles, |arrivals|)
    requires (tiles != [] && key(arrivals[tiles[|tiles| - 1].lo]) != ""
              && key(value) == key(arrivals[tiles[|tiles| - 1].lo])) ==> |arrivals| in cuts
    ensures Runs(key, arrivals + [value], tiles + [Block(|arrivals|, |arrivals| + 1)], cuts)
  {
    var more, tiles' := arrivals + [value], tiles + [Block(|arrivals|, |arrivals| + 1)];
    forall i | 0 <= i < |tiles'|
      ensures InRange(tiles'[i], |more|) && OneKey(key, more, tiles'[i])
      ensures tiles'[i].hi < |more| && key(more[tiles'[i].lo]) != "" ==>
        key(more[tiles'[i].hi]) != key(more[tiles'[i].lo]) || tiles'[i].hi in cuts
    {
      if i < |tiles| {
        assert tiles'[i] == tiles[i];
        assert forall k :: 0 <= k < |arrivals| ==> more[k] == arrivals[k];
        if i < |tiles| - 1 {
          TilesInRange(tiles, |arrivals|, i, i + 1);
        }
      }
    }
  }

  lemma RunsExtend<T>(key: T -> string, arrivals: seq<T>, tiles: seq<Block>, cuts: set<nat>, value: T)
    requires Runs(key, arrivals, tiles, cuts) && Tiling(tiles, |arrivals|) && tiles != []
    requires key(value) == key(arrivals[tiles[|tiles| - 1].lo]) && key(value) != ""
    ensures Runs(key, arrivals + [value], tiles[..|tiles| - 1] + [Block(tiles[|tiles| - 1].lo, |arrivals| + 1)], cuts)
  {
    var last := |tiles| - 1;
    var more, tiles' := arrivals + [value], tiles[..last] + [Block(tiles[last].lo, |arrivals| + 1)];
    forall i | 0 <= i < |tiles'|
      ensures InRange(tiles'[i], |more|) && OneKey(key, more, tiles'[i])
      ensures tiles'[i].hi < |more| && key(more[tiles'[i].lo]) != "" ==>
        key(more[tiles'[i].hi]) != key(more[tiles'[i].lo]) || tiles'[i].hi in cuts
    {
      assert forall k :: 0 <= k < |arrivals| ==> more[k] == arrivals[k];
      if i < last {
        assert tiles'[i] == tiles[i];
        TilesInRange(tiles, |arrivals|, i, last);
      } else {
        assert OneKey(key, arrivals, tiles[last]);
      }
    }
  }

  lemma RunsMoreCuts<T>(key: T -> string, arrivals: seq<T>, tiles: seq<Block>, cuts: set<nat>, more: set<nat>)
    requires Runs(key, arrivals, tiles, cuts) && cuts <= more
    ensures Runs(key, arrivals, tiles, more)
  {}

  // ----- the subscriber -----

  /** The values of a list of blocks. */
  ghost predicate ValuesAre<T>(merge: (T, T) -> T, arrivals: seq<T>, blocks: seq<Block>, values: seq<T>) {
    |values| == |blocks| && forall i :: 0 <= i < |blocks| ==>
      InRange(blocks[i], |arrivals|) && values[i] == MergeOf(merge, arrivals, blocks[i])
  }

  lemma EmptyTrace()
    ensures var tr := Trace([], [], [], [], {}, false); Conserved(tr, 0) && OrderKnown(tr)
  {
    var tr := Trace([], [], [], [], {}, false);
    assert tr.Order() == [] && tr.Done() == [];
  }

  lemma NoBlocks<T>(key: T -> string, merge: (T, T) -> T, arrivals: seq<T>)
    ensures Runs(key, arrivals, [], {}) && ValuesAre(merge, arrivals, [], [])
  {}

  lemma ValuesStay<T>(merge: (T, T) -> T, arrivals: seq<T>, blocks: seq<Block>, values: seq<T>, more: T)
    requires ValuesAre(merge, arrivals, blocks, values)
    ensures ValuesAre(merge, arrivals + [more], blocks, values)
  {
    forall i | 0 <= i < |blocks| ensures InRange(blocks[i], |arrivals| + 1)
      && values[i] == MergeOf(merge, arrivals + [more], blocks[i]) {
      MergeOfExtended(merge, arrivals, [more], blocks[i]);
    }
  }

  class Subscriber<T(!new)> {
    const keyBuilder: T -> string
    const valueMerger: (T, T) -> T

    var lastValue: Option<T>
    var lastKey: string
    var hasValue: bool
    /** `debouncedSubscription !== null`. */
    var scheduled: bool
    /** Values handed to `setTimeout(..., 0)`, oldest first. */
    var zeroTimers: seq<T>
    /** What the destination received. */
    var output: seq<T>

    ghost var arrivals: seq<T>
    ghost var trace: Trace

    ghost predicate Valid()
      reads this
    {
      && (scheduled <==> hasValue)
      && Conserved(trace, |arrivals|) && OrderKnown(trace) && Runs(keyBuilder, arrivals, trace.tiles, trace.cuts)
      && ValuesAre(valueMerger, arrivals, trace.out, output)
      && ValuesAre(valueMerger, arrivals, trace.zero, zeroTimers)
      && (hasValue <==> trace.held != []) && (hasValue <==> lastValue.Some?)
      && (hasValue ==> ValuesAre(valueMerger, arrivals, trace.held, [lastValue.value])
                       && lastKey == keyBuilder(arrivals[trace.held[0].lo]) && lastKey != "")
    }

    /** Between events, a keyed block that is no longer held was cut off by the due timer. */
    ghost predicate Settled()
      reads this
    {
      && Valid()
      && (trace.held == [] && trace.tiles != [] && LastKey() != "" ==> |arrivals| in trace.cuts)
    }

    /** No value is held while zero-delay timers are pending. */
    predicate Apart()
      reads this
    {
      zeroTimers == [] || !scheduled
    }

    /** The key of the newest block. */
    ghost function LastKey(): string
      requires Valid() && trace.tiles != []
      reads this
    {
      keyBuilder(arrivals[trace.tiles[|trace.tiles| - 1].lo])
    }

    constructor (keyBuilder: T -> string, valueMerger: (T, T) -> T)
      ensures Settled() && arrivals == [] && output == [] && trace == Trace([], [], [], [], {}, false)
      ensures this.keyBuilder == keyBuilder && this.valueMerger == valueMerger
    {
      this.keyBuilder := keyBuilder;
      this.valueMerger := valueMerger;
      lastValue, lastKey, hasValue, scheduled := None, "", false, false;
      zeroTimers, output := [], [];
      arrivals, trace := [], Trace([], [], [], [], {}, false);
      new;
      hide Conserved, OrderKnown, Runs, ValuesAre;
      EmptyTrace();
      NoBlocks(keyBuilder, valueMerger, arrivals);
    }

    /** `debouncedNext`: emit the held value, if any, now. */
    method DebouncedNext()
      requires Valid()
      modifies `scheduled, `hasValue, `lastValue, `lastKey, `output, `trace
      ensures Valid() && !hasValue && trace == Flush(old(trace))
      ensures output == old(output) + (if old(hasValue) then [old(lastValue).value] else [])
    {
      hide Conserved, OrderKnown, Runs;
      FlushOk(trace, |arrivals|);
      scheduled := false;
      if hasValue {
        var value := lastValue.value;
        hasValue, lastValue, lastKey := false, None, "";
        output := output + [value];
      }
      trace := Flush(trace);
    }

    /** `_next`: a value arrives. */
    method Next(value: T)
      requires Settled()
      modifies `scheduled, `hasValue, `lastValue, `lastKey, `output, `zeroTimers, `arrivals, `trace
      ensures Settled() && arrivals == old(arrivals) + [value]
      ensures var tr := old(trace); var n := old(|arrivals|); var key := keyBuilder(value);
              trace == if key == "" then Append(Flush(tr), n, false)
                       else if old(hasValue && lastKey == key) then Extend(tr, n)
                       else Append(Flush(tr), n, true)
    {
      hide Conserved, OrderKnown, Runs;
      var key := keyBuilder(value);
      HeldIsLast(trace, |arrivals|);
      if hasValue && lastKey != key {
        DebouncedNext();
      } else if !hasValue {
        FlushNothing(trace);
      }
      if key == "" {
        Defer(value);
        return;
      }
      scheduled := false;
      Hold(value, key);
    }

    /** A value without key: `setTimeout(..., 0)`. */
    method Defer(value: T)
      requires Valid() && !hasValue && keyBuilder(value) == ""
      modifies `zeroTimers, `arrivals, `trace
      ensures Settled() && arrivals == old(arrivals) + [value] && trace == Append(old(trace), old(|arrivals|), false)
    {
      hide Conserved, OrderKnown, Runs;
      ghost var n := |arrivals|;
      HeldIsLast(trace, n);
      ValuesStay(valueMerger, arrivals, trace.out, output, value);
      ValuesStay(valueMerger, arrivals, trace.zero, zeroTimers, value);
      zeroTimers := zeroTimers + [value];
      AppendOk(trace, n, false);
      RunsAppend(keyBuilder, arrivals, trace.tiles, trace.cuts, value);
      arrivals, trace := arrivals + [value], Append(trace, n, false);
    }

    /** A keyed value: merged into the held one, or held itself; the due timer starts again. */
    method Hold(value: T, key: string)
      requires key == keyBuilder(value) != "" && !scheduled
      requires Conserved(trace, |arrivals|) && OrderKnown(trace) && Runs(keyBuilder, arrivals, trace.tiles, trace.cuts)
      requires ValuesAre(valueMerger, arrivals, trace.out, output)
      requires ValuesAre(valueMerger, arrivals, trace.zero, zeroTimers)
      requires (hasValue <==> trace.held != []) && (hasValue <==> lastValue.Some?)
      requires hasValue ==>
        ValuesAre(valueMerger, arrivals, trace.held, [lastValue.value]) && key == keyBuilder(arrivals[trace.held[0].lo])
      requires !hasValue && trace.tiles != [] ==>
                 InRange(trace.tiles[|trace.tiles| - 1], |arrivals|)
                 && (keyBuilder(arrivals[trace.tiles[|trace.tiles| - 1].lo]) != key || |arrivals| in trace.cuts)
      modifies `scheduled, `hasValue, `lastValue, `lastKey, `arrivals, `trace
      ensures Settled() && arrivals == old(arrivals) + [value]
      ensures trace ==
        if old(hasValue) then Extend(old(trace), old(|arrivals|)) else Append(old(trace), old(|arrivals|), true)
    {
      hide Conserved, OrderKnown, Runs, ValuesAre;
      ghost var n := |arrivals|;
      HeldIsLast(trace, n);
      ValuesStay(valueMerger, arrivals, trace.out, output, value);
      ValuesStay(valueMerger, arrivals, trace.zero, zeroTimers, value);
      NewValue(valueMerger, arrivals, value);
      if hasValue {
        ExtendedValue(valueMerger, arrivals, trace.held, lastValue.value, value);
        lastValue := Some(valueMerger(lastValue.value, value));
        ExtendOk(trace, n);
        RunsExtend(keyBuilder, arrivals, trace.tiles, trace.cuts, value);
        arrivals, trace := arrivals + [value], Extend(trace, n);
      } else {
        lastValue := Some(value);
        AppendOk(trace, n, true);
        RunsAppend(keyBuilder, arrivals, trace.tiles, trace.cuts, value);
        arrivals, trace := arrivals + [value], Append(trace, n, true);
      }
      lastKey := key;
      hasValue := true;
      scheduled := true;
    }

    /** The due timer fires (`dispatchNext`). */
    method DueTimer()
      requires Settled() && scheduled
      modifies `scheduled, `hasValue, `lastValue, `lastKey, `output, `trace
      ensures Settled() && trace == Flush(old(trace).(cuts := old(trace).cuts + {|arrivals|}))
    {
      hide Runs, Conserved, OrderKnown;
      RunsMoreCuts(keyBuilder, arrivals, trace.tiles, trace.cuts, trace.cuts + {|arrivals|});
      CutsKeepOrder(trace, |arrivals|, trace.cuts + {|arrivals|});
      trace := trace.(cuts := trace.cuts + {|arrivals|});
      DebouncedNext();
    }

    /** The oldest zero-delay timer fires: its value goes to the destination. */
    method ZeroTimer()
      requires Settled() && zeroTimers != []
      modifies `zeroTimers, `output, `trace
      ensures Settled() && trace == FireZero(old(trace))
      ensures output == old(output) + [old(zeroTimers)[0]] && zeroTimers == old(zeroTimers)[1..]
    {
      hide Conserved, OrderKnown, Runs;
      FireZeroOk(trace, |arrivals|);
      output := output + [zeroTimers[0]];
      zeroTimers := zeroTimers[1..];
      trace := FireZero(trace);
    }
  }

  // ----- whole runs -----

  /** A value arrives, the due timer fires, or a zero-delay timer fires. */
  datatype Event<T> = Arrive(value: T) | Due | Zero

  function Arrived<T>(events: seq<Event<T>>): seq<T> {
    if events == [] then [] else (if events[0].Arrive? then [events[0].value] else []) + Arrived(events[1..])
  }

  /** Zero-delay timers drain before the next arrival. */
  predicate Drained<T>(key: T -> string, events: seq<Event<T>>, pending: nat) {
    events == [] ||
    match events[0]
    case Arrive(v) => pending == 0 && Drained(key, events[1..], if key(v) == "" then 1 else 0)
    case Due => Drained(key, events[1..], pending)
    case Zero => Drained(key, events[1..], if pending == 0 then 0 else pending - 1)
  }

  /** One event; a timer that is not set does not fire. */
  method Handle<T(!new)>(s: Subscriber<T>, event: Event<T>)
    requires s.Settled()
    modifies s
    ensures s.Settled() && s.arrivals == old(s.arrivals) + (if event.Arrive? then [event.value] else [])
    ensures old(|s.zeroTimers|) == 0 || event.Zero? || (event.Due? && !old(s.scheduled)) ==>
      s.trace.overtook == old(s.trace.overtook)
    ensures s.scheduled == if event.Arrive? then s.keyBuilder(event.value) != "" else event.Zero? && old(s.scheduled)
    ensures |s.zeroTimers| == old(|s.zeroTimers|)
              + (if event.Arrive? && s.keyBuilder(event.value) == "" then 1 else if event.Zero?
                && old(|s.zeroTimers|) > 0 then -1 else 0)
  {
    hide Conserved, OrderKnown, Runs, ValuesAre;
    PendingCounts(s);
    match event {
      case Arrive(v) => s.Next(v);
      case Due => if s.scheduled { s.DueTimer(); }
      case Zero => if s.zeroTimers != [] { s.ZeroTimer(); }
    }
    PendingCounts(s);
  }

  /** Any run of events. */
  method Run<T(!new)>(s: Subscriber<T>, events: seq<Event<T>>)
    requires s.Settled()
    modifies s
    ensures s.Settled() && s.arrivals == old(s.arrivals) + Arrived(events)
    ensures Drained(s.keyBuilder, events, old(|s.zeroTimers|)) && old(s.Apart()) && !old(s.trace.overtook) ==>
      !s.trace.overtook
    ensures Drained(s.keyBuilder, events, old(|s.zeroTimers|)) && old(|s.zeroTimers|) <= 1 ==> |s.zeroTimers| <= 1
  {
    hide Conserved, OrderKnown, Runs, ValuesAre;
    ghost var drained, calm := Drained(s.keyBuilder, events, |s.zeroTimers|), s.Apart() && !s.trace.overtook;
    assert events[0..] == events;
    for i := 0 to |events|
      invariant s.Settled() && old(s.arrivals) + Arrived(events) == s.arrivals + Arrived(events[i..])
      invariant drained ==>
        Drained(s.keyBuilder, events[i..], |s.zeroTimers|) && (calm ==> s.Apart() && !s.trace.overtook)
      invariant drained && old(|s.zeroTimers|) <= 1 ==> |s.zeroTimers| <= 1
    {
      assert events[i..][0] == events[i] && events[i..][1..] == events[i + 1..];
      ghost var before := s.arrivals;
      Handle(s, events[i]);
      assert s.arrivals + Arrived(events[i + 1..]) == before + Arrived(events[i..]);
    }
    assert s.arrivals + [] == s.arrivals;
  }

  lemma PendingCounts<T(!new)>(s: Subscriber<T>)
    requires s.Settled()
    ensures |s.trace.zero| == |s.zeroTimers|
  {}

  // ----- meaning -----

  /** Applying the calls in order. */
  ghost function Fold<T, S>(apply: (T, S) -> S, calls: seq<T>, s: S): S {
    if calls == [] then s else apply(calls[|calls| - 1], Fold(apply, calls[..|calls| - 1], s))
  }

  /** Merging two calls with one key does what doing both does, and keeps the key. */
  ghost predicate MergeLaw<T(!new), S(!new)>(key: T -> string, merge: (T, T) -> T, apply: (T, S) -> S) {
    forall a, b :: key(a) != "" && key(a) == key(b) ==>
      key(merge(a, b)) == key(a) && forall s :: apply(merge(a, b), s) == apply(b, apply(a, s))
  }

  lemma {:induction false} FoldSplit<T, S>(apply: (T, S) -> S, a: seq<T>, b: seq<T>, s: S)
    ensures Fold(apply, a + b, s) == Fold(apply, b, Fold(apply, a, s))
  {
    if b == [] {
      assert a + b == a;
    } else {
      FoldSplit(apply, a, b[..|b| - 1], s);
      assert (a + b)[..|a + b| - 1] == a + b[..|b| - 1];
    }
  }

  lemma UseLaw<T(!new), S(!new)>(key: T -> string, merge: (T, T) -> T, apply: (T, S) -> S, a: T, b: T, s: S)
    requires MergeLaw(key, merge, apply) && key(a) != "" && key(a) == key(b)
    ensures key(merge(a, b)) == key(a) && apply(merge(a, b), s) == apply(b, apply(a, s))
  {}

  lemma {:induction false} BlockMeaning<T(
      !new), S(!new)>(key: T -> string, merge: (T, T) -> T, apply: (T, S) -> S, arrivals: seq<T>, b: Block, s: S)
    requires MergeLaw(key, merge, apply) && InRange(b, |arrivals|) && OneKey(key, arrivals, b)
    ensures apply(MergeOf(merge, arrivals, b), s) == Fold(apply, arrivals[b.lo..b.hi], s)
    ensures key(MergeOf(merge, arrivals, b)) == key(arrivals[b.lo])
    decreases b.hi
  {
    hide MergeLaw, Fold;
    if b.hi == b.lo + 1 {
      assert arrivals[b.lo..b.hi] == [arrivals[b.lo]];
      FoldOne(apply, arrivals[b.lo], s);
    } else {
      var rest := Block(b.lo, b.hi - 1);
      assert OneKey(key, arrivals, rest) && key(arrivals[b.hi - 1]) == key(arrivals[b.lo]) != "";
      hide OneKey;
      BlockMeaning(key, merge, apply, arrivals, rest, s);
      UseLaw(key, merge, apply, MergeOf(merge, arrivals, rest), arrivals[b.hi - 1], s);
      assert arrivals[b.lo..b.hi] == arrivals[b.lo..b.hi - 1] + [arrivals[b.hi - 1]];
      FoldSplit(apply, arrivals[b.lo..b.hi - 1], [arrivals[b.hi - 1]], s);
      FoldOne(apply, arrivals[b.hi - 1], Fold(apply, arrivals[b.lo..b.hi - 1], s));
    }
  }

  lemma {:induction false} TilesMeaning<T(!new), S(!new)>(
      key: T -> string, merge: (T, T) -> T, apply: (T, S) -> S, arrivals: seq<T>, tiles: seq<Block>, n: nat,
        values: seq<T>, s: S)
    requires MergeLaw(key, merge, apply) && n <= |arrivals| && Tiling(tiles, n)
    requires ValuesAre(merge, arrivals, tiles, values)
    requires forall i :: 0 <= i < |tiles| ==> OneKey(key, arrivals, tiles[i])
    ensures Fold(apply, values, s) == Fold(apply, arrivals[..n], s)
    decreases |tiles|
  {
    hide MergeLaw, OneKey, Fold;
    if tiles == [] {
      assert arrivals[..n] == [] && values == [];
    } else {
      var last := |tiles| - 1;
      var b := tiles[last];
      TilingPrefix(tiles, n);
      TilesMeaning(key, merge, apply, arrivals, tiles[..last], b.lo, values[..last], s);
      BlockMeaning(key, merge, apply, arrivals, b, Fold(apply, arrivals[..b.lo], s));
      assert arrivals[..n] == arrivals[..b.lo] + arrivals[b.lo..b.hi];
      FoldSplit(apply, arrivals[..b.lo], arrivals[b.lo..b.hi], s);
      assert values == values[..last] + [values[last]];
      FoldSplit(apply, values[..last], [values[last]], s);
      FoldOne(apply, values[last], Fold(apply, values[..last], s));
    }
  }

  lemma FoldOne<T, S>(apply: (T, S) -> S, v: T, s: S)
    ensures Fold(apply, [v], s) == apply(v, s)
  {
    assert [v][..0] == [];
  }

  /**
   Debouncing preserves meaning: unless a held value overtook, what was emitted and
   what is pending do, in order, what all the original calls do in order.
   */
  lemma DebounceMeaning<T(!new), S(!new)>(d: Subscriber<T>, apply: (T, S) -> S, s: S)
    requires d.Settled() && !d.trace.overtook && MergeLaw(d.keyBuilder, d.valueMerger, apply)
    ensures Fold(apply, d.output + d.zeroTimers + (if d.hasValue then [d.lastValue.value] else []), s)
      == Fold(apply, d.arrivals, s)
  {
    hide MergeLaw, OneKey, Fold, MergeOf, Inverted;
    var values := d.output + d.zeroTimers + (if d.hasValue then [d.lastValue.value] else []);
    assert d.trace.Order() == d.trace.tiles;
    assert ValuesAre(d.valueMerger, d.arrivals, d.trace.Order(), values);
    assert d.arrivals[..|d.arrivals|] == d.arrivals;
    TilesMeaning(d.keyBuilder, d.valueMerger, apply, d.arrivals, d.trace.tiles, |d.arrivals|, values, s);
  }

  /**
   Without draining, order can be lost: after a call without key and a keyed one, a
   call with another key flushes the held value past the pending timer.
   */
  method OvertakingRun<T(!new)>(s: Subscriber<T>, plain: T, keyed: T, other: T)
    requires s.Settled() && s.arrivals == [] && s.trace == Trace([], [], [], [], {}, false)
    requires s.keyBuilder(plain) == "" && s.keyBuilder(keyed) != "" && s.keyBuilder(other) != s.keyBuilder(keyed)
    modifies s
    ensures s.arrivals == [plain, keyed, other] && s.output == [keyed] && plain in s.zeroTimers
  {
    hide Conserved, OrderKnown, Runs, ValuesAre;
    s.Next(plain);
    assert s.trace == Trace([Block(0, 1)], [], [Block(0, 1)], [], {}, false);
    s.Next(keyed);
    assert s.trace == Trace([Block(0, 1), Block(1, 2)], [], [Block(0, 1)], [Block(1, 2)], {}, false);
    s.Next(other);
    assert s.trace.out == [Block(1, 2)] && s.trace.zero[0] == Block(0, 1);
    SingleValues(s.valueMerger, s.arrivals, s.trace.out, s.output);
    SingleValues(s.valueMerger, s.arrivals, s.trace.zero, s.zeroTimers);
  }

  lemma SingleValues<T>(merge: (T, T) -> T, arrivals: seq<T>, blocks: seq<Block>, values: seq<T>)
    requires ValuesAre(merge, arrivals, blocks, values)
    ensures |values| == |blocks| && forall i :: 0 <= i < |blocks| && blocks[i].hi == blocks[i].lo + 1 ==>
      blocks[i].lo < |arrivals| && values[i] == arrivals[blocks[i].lo]
  {}

  lemma CutsKeepOrder(tr: Trace, n: nat, cuts: set<nat>)
    requires Conserved(tr, n) && OrderKnown(tr)
    ensures Conserved(tr.(cuts := cuts), n) && OrderKnown(tr.(cuts := cuts))
  {
    assert tr.(cuts := cuts).Order() == tr.Order() && tr.(cuts := cuts).Done() == tr.Done();
    hide Inverted, Tiling;
  }

  lemma ExtendedValue<T>(merge: (T, T) -> T, arrivals: seq<T>, held: seq<Block>, last: T, value: T)
    requires |held| == 1 && ValuesAre(merge, arrivals, held, [last]) && held[0].hi == |arrivals|
    ensures ValuesAre(merge, arrivals + [value], [Block(held[0].lo, |arrivals| + 1)], [merge(last, value)])
    ensures held[0].lo < |arrivals|
  {
    MergeOfExtended(merge, arrivals, [value], held[0]);
    assert Block(held[0].lo, |arrivals|) == held[0];
  }

  lemma NewValue<T>(merge: (T, T) -> T, arrivals: seq<T>, value: T)
    ensures ValuesAre(merge, arrivals + [value], [Block(|arrivals|, |arrivals| + 1)], [value])
  {}

  lemma FlushNothing(tr: Trace)
    requires tr.held == []
    ensures Flush(tr) == tr
  {
    assert tr.out + [] == tr.out;
  }

  lemma HeldIsLast(tr: Trace, n: nat)
    requires Conserved(tr, n)
    ensures Tiling(tr.tiles, n)
    ensures tr.held != [] ==>
      |tr.held| == 1 && tr.tiles != [] && tr.held[0] == tr.tiles[|tr.tiles| - 1] && tr.held[0].hi == n
  {}
}
