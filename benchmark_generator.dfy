/**
  The bitmap trace script benchmarks/benchmark_generator.py.

  The script's module-level state (the trace lines, the allocated and freed
  index sets, the next index and the line count) is the state of a `Script`
  object, and the three phases of its main loop (a round of allocations, a
  batch of frees, the final free of everything still live) are its methods.
  The ghost field `events` records the trace, and `Valid()` says that the
  trace never allocates a live index nor frees one that is not live, that
  indices are handed out as 0, 1, 2, ... and that every size is in range.
*/
module BenchmarkGenerator {
  import opened Text
  import opened TraceEvents
  import opened PyRandom
  import opened Bits

  const MEMORY_SIZE: nat := 16276
  const NUM_LEVELS: nat := 10
  const MAX_LINES: nat := 1000
  /** The main loop stops this many lines short of MAX_LINES, leaving room for the final frees. */
  const RESERVE: nat := 100

  /** `max(16, memory_size // 2 ** (num_levels - 1))`. */
  function MinBucketSize(memorySize: nat, numLevels: nat): (r: nat)
    requires numLevels >= 1
    ensures r >= 16 && r * Pow2(numLevels - 1) >= memorySize - Pow2(numLevels - 1) + 1
  {
    var q := memorySize / Pow2(numLevels - 1);
    QuotientBound(memorySize, Pow2(numLevels - 1));
    if q < 16 then 16 else q
  }

  lemma QuotientBound(m: nat, p: nat)
    requires p >= 1
    ensures (m / p) * p >= m - p + 1
  {
    assert m == (m / p) * p + m % p;
  }

  /** `base_sizes`: int(num_levels * 7 / 10) sizes, starting at the minimum bucket size and doubling. */
  function BaseSizes(memorySize: nat, numLevels: nat): (r: seq<nat>)
    requires numLevels >= 1
    ensures |r| == numLevels * 7 / 10
    ensures forall k :: 0 <= k < |r| ==> r[k] == MinBucketSize(memorySize, numLevels) * Pow2(k)
  {
    var b := MinBucketSize(memorySize, numLevels);
    seq(numLevels * 7 / 10, k requires 0 <= k => b * Pow2(k))
  }

  /** The base sizes start at the minimum bucket size and each one doubles the one before. */
  lemma BaseSizesDouble(memorySize: nat, numLevels: nat)
    requires numLevels >= 1
    ensures var r := BaseSizes(memorySize, numLevels);
      && (|r| > 0 ==> r[0] == MinBucketSize(memorySize, numLevels))
      && forall k :: 0 < k < |r| ==> r[k] == 2 * r[k - 1]
  {
    var r := BaseSizes(memorySize, numLevels);
    var b := MinBucketSize(memorySize, numLevels);
    forall k | 0 < k < |r| ensures r[k] == 2 * r[k - 1] {
      assert r[k] == b * Pow2(k) && r[k - 1] == b * Pow2(k - 1);
      Doubled(b, k);
    }
  }

  lemma Doubled(b: nat, k: nat)
    requires k > 0
    ensures b * Pow2(k) == 2 * (b * Pow2(k - 1))
  {
    var p := Pow2(k - 1);
    assert Pow2(k) == 2 * p;
    assert b * (2 * p) == 2 * (b * p);
  }

  lemma ScriptBaseSizes()
    ensures BaseSizes(MEMORY_SIZE, NUM_LEVELS) == [31, 62, 124, 248, 496, 992, 1984]
  {
    assert Pow2(9) == 512;
    var r := BaseSizes(MEMORY_SIZE, NUM_LEVELS);
    assert |r| == 7 && r[0] == 31;
  }

  /** The smallest and the largest size an allocation line can carry. */
  const MIN_SIZE: nat := 8
  const MAX_SIZE: nat := 1984 + 1984 / 4

  /** `max(8, base + delta)` for a base size and a draw in [-base // 4, base // 4]. */
  function Size(base: nat, delta: int): (r: nat)
    requires (-(base as int)) / 4 <= delta <= base / 4
    ensures MIN_SIZE <= r && r <= if base + base / 4 < MIN_SIZE then MIN_SIZE else base + base / 4
  {
    if base + delta < 8 then 8 else base + delta
  }

  /** The indices of the allocation events, in trace order. */
  function AllocIdxs(events: seq<Event>): seq<nat> {
    if events == [] then []
    else
      var e := events[|events| - 1];
      AllocIdxs(events[..|events| - 1]) + (if e.Alloc? then [e.idx] else [])
  }

  lemma AllocIdxsAppend(events: seq<Event>, e: Event)
    ensures AllocIdxs(events + [e]) == AllocIdxs(events) + (if e.Alloc? then [e.idx] else [])
  {
    assert (events + [e])[..|events|] == events;
  }

  /** The k-th allocation names index k: indices are handed out 0, 1, 2, ... and never reused. */
  predicate InOrder(idxs: seq<nat>) {
    forall k :: 0 <= k < |idxs| ==> idxs[k] == k
  }

  /** Every allocation size is in [MIN_SIZE, MAX_SIZE]. */
  predicate SizesInRange(events: seq<Event>) {
    forall k :: 0 <= k < |events| && events[k].Alloc? ==> MIN_SIZE <= events[k].size <= MAX_SIZE
  }

  /** `sorted(s)` for a set whose elements are all below `bound`. */
  function Ascending(s: set<nat>, bound: nat): (r: seq<nat>)
    ensures forall k :: 0 <= k < |r| ==> r[k] in s && r[k] < bound
    ensures forall x :: x in s && x < bound ==> x in r
    ensures forall k, l :: 0 <= k < l < |r| ==> r[k] < r[l]
  {
    if bound == 0 then []
    else Ascending(s, bound - 1) + (if bound - 1 in s then [bound - 1] else [])
  }

  lemma AscendingDistinct(r: seq<nat>)
    requires forall k, l :: 0 <= k < l < |r| ==> r[k] < r[l]
    ensures Distinct(r)
  {
  }

  /**
    The script's invariant over its state: the trace lines are the rendered
    events, the allocated indices are exactly 0 .. issued-1 handed out in
    order, the freed ones are among them, the events replay, and the live
    indices of the replay are the allocated ones not freed.
  */
  ghost predicate ScriptInv(traceLines: seq<string>, lineCount: nat, alloc: set<nat>, gone: set<nat>,
                            events: seq<Event>, issued: nat)
  {
    && traceLines == RenderAll(events, "bitmap")
    && lineCount == |traceLines|
    && (forall j: nat :: j in alloc <==> j < issued)
    && gone <= alloc
    && |AllocIdxs(events)| == issued && InOrder(AllocIdxs(events))
    && LiveReplay(events).Some?
    && LiveReplay(events).value.Keys == alloc - gone
    && SizesInRange(events)
  }

  /** Allocating the next index keeps the invariant. */
  lemma ScriptInvAlloc(traceLines: seq<string>, lineCount: nat, alloc: set<nat>, gone: set<nat>,
                       events: seq<Event>, issued: nat, size: nat)
    requires ScriptInv(traceLines, lineCount, alloc, gone, events, issued)
    requires MIN_SIZE <= size <= MAX_SIZE
    ensures issued !in gone
    ensures var e := Alloc(issued, size);
      ScriptInv(traceLines + [Render(e, "bitmap")], lineCount + 1, alloc + {issued}, gone - {issued},
                events + [e], issued + 1)
  {
    var e := Alloc(issued, size);
    var events' := events + [e];
    LiveReplayAppend(events, e);
    RenderAllAppend(events, e, "bitmap");
    AllocIdxsAppend(events, e);
    var m := LiveReplay(events).value;
    assert issued !in alloc;
    assert issued !in m;
    assert LiveReplay(events') == Some(m[issued := size]);
    assert m[issued := size].Keys == (alloc + {issued}) - (gone - {issued});
    var idxs := AllocIdxs(events);
    assert AllocIdxs(events') == idxs + [issued];
    assert InOrder(idxs + [issued]) by {
      forall k | 0 <= k < |idxs| + 1
        ensures (idxs + [issued])[k] == k
      {
        if k < |idxs| {
          assert (idxs + [issued])[k] == idxs[k];
        }
      }
    }
    assert SizesInRange(events') by {
      forall k | 0 <= k < |events'| && events'[k].Alloc?
        ensures MIN_SIZE <= events'[k].size <= MAX_SIZE
      {
        if k < |events| {
          assert events'[k] == events[k];
        }
      }
    }
  }

  /** Freeing a live index keeps the invariant. */
  lemma ScriptInvFree(traceLines: seq<string>, lineCount: nat, alloc: set<nat>, gone: set<nat>,
                      events: seq<Event>, issued: nat, i: nat)
    requires ScriptInv(traceLines, lineCount, alloc, gone, events, issued)
    requires i in alloc && i !in gone
    ensures var e := Free(i);
      ScriptInv(traceLines + [Render(e, "bitmap")], lineCount + 1, alloc, gone + {i}, events + [e], issued)
  {
    var e := Free(i);
    LiveReplayAppend(events, e);
    RenderAllAppend(events, e, "bitmap");
    AllocIdxsAppend(events, e);
    var m := LiveReplay(events).value;
    assert (m - {i}).Keys == alloc - (gone + {i});
  }

  /**
    `random.sample(sorted(live), random.randint(3, min(maxFree, len(live))))`:
    between 3 and maxFree distinct live indices.
  */
  method PickToFree(rng: Rng, live: set<nat>, bound: nat, maxFree: nat) returns (toFree: seq<nat>)
    requires |live| > 10 && 3 <= maxFree
    requires forall x :: x in live ==> x < bound
    modifies rng
    ensures Distinct(toFree) && 3 <= |toFree| <= maxFree
    ensures forall j :: 0 <= j < |toFree| ==> toFree[j] in live
  {
    var numToFree := rng.RandInt(3, if maxFree < |live| then maxFree else |live|);
    var sorted := Ascending(live, bound);
    AscendingDistinct(sorted);
    assert live <= Elems(sorted);
    SetSizeBound(live, sorted);
    toFree := rng.Sample(sorted, numToFree);
    forall j | 0 <= j < |toFree|
      ensures toFree[j] in live
    {
      assert toFree[j] in sorted;
    }
  }

  /** The trace text is the rendering of the events, and the events replay. */
  ghost predicate TraceOk(traceLines: seq<string>, lineCount: nat, events: seq<Event>) {
    && traceLines == RenderAll(events, "bitmap")
    && lineCount == |traceLines|
    && LiveReplay(events).Some?
  }

  /** Appending the free line of a live index keeps the trace replayable and takes the index out of the live table. */
  lemma TraceOkFree(traceLines: seq<string>, lineCount: nat, events: seq<Event>, i: nat)
    requires TraceOk(traceLines, lineCount, events) && i in LiveReplay(events).value
    ensures var events' := events + [Free(i)];
      && TraceOk(traceLines + [Render(Free(i), "bitmap")], lineCount + 1, events')
      && LiveReplay(events').value == LiveReplay(events).value - {i}
      && AllocIdxs(events') == AllocIdxs(events)
      && (SizesInRange(events) ==> SizesInRange(events'))
  {
    LiveReplayAppend(events, Free(i));
    RenderAllAppend(events, Free(i), "bitmap");
    AllocIdxsAppend(events, Free(i));
  }

  /** `max(8, base_size + randint(-base_size // 4, base_size // 4))` with the base size picked by `index % len(base_sizes)`. */
  method DrawSize(rng: Rng, index: nat) returns (size: nat)
    modifies rng
    ensures MIN_SIZE <= size <= MAX_SIZE
  {
    ScriptBaseSizes();
    var baseSizes := BaseSizes(MEMORY_SIZE, NUM_LEVELS);
    var baseSize := baseSizes[index % |baseSizes|];
    var delta := rng.RandInt((-(baseSize as int)) / 4, baseSize / 4);
    size := Size(baseSize, delta);
  }

  /** The invariant of the final loop: the first k of the sorted live indices are freed, the rest are live. */
  ghost predicate RemainingInv(traceLines: seq<string>, lineCount: nat, events: seq<Event>,
                               remaining: seq<nat>, k: nat, idxs: seq<nat>)
  {
    && k <= |remaining|
    && TraceOk(traceLines, lineCount, events)
    && AllocIdxs(events) == idxs && SizesInRange(events)
    && LiveReplay(events).value.Keys == Elems(remaining[k..])
  }

  /** On entry to the final loop the sorted live indices, none freed yet, are the live table. */
  lemma RemainingStart(traceLines: seq<string>, lineCount: nat, alloc: set<nat>, gone: set<nat>,
                       events: seq<Event>, issued: nat)
    requires ScriptInv(traceLines, lineCount, alloc, gone, events, issued)
    ensures var remaining := Ascending(alloc - gone, issued);
      && Distinct(remaining)
      && RemainingInv(traceLines, lineCount, events, remaining, 0, AllocIdxs(events))
  {
    var remaining := Ascending(alloc - gone, issued);
    AscendingDistinct(remaining);
    assert remaining[0..] == remaining;
    assert Elems(remaining) == alloc - gone;
  }

  /** When the loop ran to the end every live index has been freed. */
  lemma RemainingDone(traceLines: seq<string>, lineCount: nat, events: seq<Event>,
                      remaining: seq<nat>, k: nat, idxs: seq<nat>)
    requires RemainingInv(traceLines, lineCount, events, remaining, k, idxs) && k == |remaining|
    ensures LiveReplay(events).value == map[]
  {
    assert remaining[k..] == [];
    assert Elems(remaining[k..]) == {};
  }

  lemma RemainingStep(traceLines: seq<string>, lineCount: nat, events: seq<Event>,
                      remaining: seq<nat>, k: nat, idxs: seq<nat>)
    requires RemainingInv(traceLines, lineCount, events, remaining, k, idxs)
    requires k < |remaining| && Distinct(remaining)
    ensures var e := Free(remaining[k]);
      RemainingInv(traceLines + [Render(e, "bitmap")], lineCount + 1, events + [e], remaining, k + 1, idxs)
  {
    var i := remaining[k];
    ElemsDrop(remaining, k);
    TraceOkFree(traceLines, lineCount, events, i);
  }

  class Script {
    var traceLines: seq<string>
    var allocatedIndices: set<nat>
    var freedIndices: set<nat>
    var index: int
    var lineCount: nat
    /** The events behind `traceLines`, and how many indices have been handed out. */
    ghost var events: seq<Event>
    ghost var issued: nat

    ghost predicate Valid()
      reads this
    {
      ScriptInv(traceLines, lineCount, allocatedIndices, freedIndices, events, issued)
    }

    /** The script state right after the `# Reinitialize` block. */
    constructor ()
      ensures Valid() && index == 0 && issued == 0 && traceLines == []
    {
      traceLines, allocatedIndices, freedIndices, index, lineCount := [], {}, {}, 0, 0;
      events, issued := [], 0;
    }

    /** Lines are only ever appended. */
    twostate predicate Grows()
      reads this
    {
      old(traceLines) <= traceLines && old(events) <= events
    }

    /** Appends an allocation line for `index`, the body of the `if` in the allocation loop. */
    method AllocOne(rng: Rng) returns (size: nat)
      requires Valid() && index == issued
      modifies this, rng
      ensures Valid() && Grows() && index == issued
      ensures index == old(index) + 1 && lineCount == old(lineCount) + 1 && freedIndices == old(freedIndices)
      ensures events == old(events) + [Alloc(old(index), size)] && MIN_SIZE <= size <= MAX_SIZE
    {
      size := DrawSize(rng, index);
      var e := Alloc(index, size);
      ScriptInvAlloc(traceLines, lineCount, allocatedIndices, freedIndices, events, issued, size);
      traceLines := traceLines + [Render(e, "bitmap")];
      events := events + [e];
      allocatedIndices := allocatedIndices + {index};
      freedIndices := freedIndices - {index};
      lineCount := lineCount + 1;
      index := index + 1;
      issued := issued + 1;
    }

    /**
      The allocation loop: randint(1, 5) attempts, each allocating the next
      index (never a live one), stopping at the reserve line.
    */
    method AllocRound(rng: Rng)
      requires Valid() && index == issued && lineCount < MAX_LINES - RESERVE
      modifies this, rng
      ensures Valid() && Grows() && index == issued
      ensures old(lineCount) < lineCount <= MAX_LINES - RESERVE
      ensures index - old(index) == lineCount - old(lineCount) && freedIndices == old(freedIndices)
    {
      var numAllocs := rng.RandInt(1, 5);
      var n := 0;
      while n < numAllocs
        invariant Valid() && Grows() && index == issued && freedIndices == old(freedIndices)
        invariant 0 <= n <= numAllocs && lineCount == old(lineCount) + n
        invariant index - old(index) == n && lineCount < MAX_LINES - RESERVE
      {
        if index !in allocatedIndices || index in freedIndices {
          var _ := AllocOne(rng);
          if lineCount >= MAX_LINES - RESERVE {
            break;
          }
        }
        n := n + 1;
      }
    }

    /** `int(3 + min(1.0, line_count / 900) * 27)`: the cap on a free batch, from 3 up to 30. */
    static function MaxFree(lineCount: nat): (r: nat)
      ensures 3 <= r <= 30
      ensures lineCount >= MAX_LINES - RESERVE ==> r == 30
    {
      3 + 27 * (if lineCount < MAX_LINES - RESERVE then lineCount else MAX_LINES - RESERVE) / (MAX_LINES - RESERVE)
    }

    /**
      The free batch: when more than ten indices are live, free between 3
      and min(MaxFree, live) of them, picked at random among the live ones,
      stopping at the reserve line.
    */
    method FreeBatch(rng: Rng)
      requires Valid() && index + 1 == issued
      modifies this, rng
      ensures Valid() && Grows() && index == old(index) && issued == old(issued)
      ensures allocatedIndices == old(allocatedIndices) && old(freedIndices) <= freedIndices
      ensures |old(allocatedIndices - freedIndices)| <= 10 ==> traceLines == old(traceLines)
      ensures |old(allocatedIndices - freedIndices)| > 10 && old(lineCount) < MAX_LINES - RESERVE ==>
        old(lineCount) + 1 <= lineCount <= MAX_LINES - RESERVE
      ensures old(lineCount) >= MAX_LINES - RESERVE ==> lineCount <= old(lineCount) + 1
    {
      var live := allocatedIndices - freedIndices;
      if live != {} && |live| > 10 {
        var toFree := PickToFree(rng, live, index + 1, MaxFree(lineCount));
        FreeEach(toFree);
      }
    }

    /** The loop over the sampled indices: one free line each, stopping at the reserve line. */
    method FreeEach(toFree: seq<nat>)
      requires Valid() && Distinct(toFree) && |toFree| >= 1
      requires forall j :: 0 <= j < |toFree| ==> toFree[j] in allocatedIndices - freedIndices
      modifies this
      ensures Valid() && Grows() && index == old(index) && issued == old(issued)
      ensures allocatedIndices == old(allocatedIndices) && old(freedIndices) <= freedIndices
      ensures old(lineCount) < MAX_LINES - RESERVE ==> old(lineCount) + 1 <= lineCount <= MAX_LINES - RESERVE
      ensures old(lineCount) >= MAX_LINES - RESERVE ==> lineCount == old(lineCount) + 1
    {
      traceLines, lineCount, freedIndices, events :=
        FreeSampled(traceLines, lineCount, allocatedIndices, freedIndices, events, issued, toFree);
    }

    /** `remaining_to_free`: free every live index in ascending order, stopping at MAX_LINES lines. */
    method FreeRemaining()
      requires Valid() && index == issued && lineCount < MAX_LINES
      modifies this
      ensures TraceOk(traceLines, lineCount, events) && Grows() && lineCount <= MAX_LINES
      ensures AllocIdxs(events) == old(AllocIdxs(events)) && SizesInRange(events)
      ensures lineCount < MAX_LINES ==> LiveReplay(events).value == map[]
    {
      var remaining := Ascending(allocatedIndices - freedIndices, index);
      RemainingStart(traceLines, lineCount, allocatedIndices, freedIndices, events, issued);
      traceLines, lineCount, events := FreeAll(traceLines, lineCount, events, remaining);
    }
  }

  /** The body of `FreeEach` on the script's state: the free lines of `toFree` in order, up to the reserve line. */
  method FreeSampled(lines: seq<string>, count: nat, alloc: set<nat>, gone: set<nat>,
                     ghost evs: seq<Event>, ghost issued: nat, toFree: seq<nat>)
    returns (lines': seq<string>, count': nat, gone': set<nat>, ghost evs': seq<Event>)
    requires ScriptInv(lines, count, alloc, gone, evs, issued) && Distinct(toFree) && |toFree| >= 1
    requires forall j :: 0 <= j < |toFree| ==> toFree[j] in alloc - gone
    ensures ScriptInv(lines', count', alloc, gone', evs', issued)
    ensures lines <= lines' && evs <= evs' && gone <= gone'
    ensures count < MAX_LINES - RESERVE ==> count + 1 <= count' <= MAX_LINES - RESERVE
    ensures count >= MAX_LINES - RESERVE ==> count' == count + 1
  {
    lines', count', gone', evs' := lines, count, gone, evs;
    var k := 0;
    while k < |toFree|
      invariant ScriptInv(lines', count', alloc, gone', evs', issued)
      invariant lines <= lines' && evs <= evs'
      invariant 0 <= k <= |toFree| && gone <= gone'
      invariant count' == count + k
      invariant count < MAX_LINES - RESERVE ==> count' < MAX_LINES - RESERVE
      invariant count >= MAX_LINES - RESERVE ==> k == 0
      invariant forall j :: k <= j < |toFree| ==> toFree[j] in alloc - gone'
    {
      var i := toFree[k];
      assert forall j :: k < j < |toFree| ==> toFree[j] != i;
      ScriptInvFree(lines', count', alloc, gone', evs', issued, i);
      lines' := lines' + [Render(Free(i), "bitmap")];
      evs' := evs' + [Free(i)];
      gone' := gone' + {i};
      count' := count' + 1;
      k := k + 1;
      if count' >= MAX_LINES - RESERVE {
        break;
      }
    }
  }

  /** The body of `FreeRemaining` on the trace: the free lines of `remaining` in order, up to MAX_LINES lines. */
  method FreeAll(lines: seq<string>, count: nat, ghost evs: seq<Event>, remaining: seq<nat>)
    returns (lines': seq<string>, count': nat, ghost evs': seq<Event>)
    requires RemainingInv(lines, count, evs, remaining, 0, AllocIdxs(evs)) && Distinct(remaining)
    requires count < MAX_LINES
    ensures TraceOk(lines', count', evs') && lines <= lines' && evs <= evs' && count' <= MAX_LINES
    ensures AllocIdxs(evs') == AllocIdxs(evs) && SizesInRange(evs')
    ensures count' < MAX_LINES ==> LiveReplay(evs').value == map[]
  {
    lines', count', evs' := lines, count, evs;
    ghost var idxs := AllocIdxs(evs);
    var k := 0;
    while k < |remaining|
      invariant RemainingInv(lines', count', evs', remaining, k, idxs)
      invariant lines <= lines' && evs <= evs' && count' < MAX_LINES
    {
      var i := remaining[k];
      RemainingStep(lines', count', evs', remaining, k, idxs);
      lines' := lines' + [Render(Free(i), "bitmap")];
      evs' := evs' + [Free(i)];
      count' := count' + 1;
      k := k + 1;
      if count' >= MAX_LINES {
        break;
      }
    }
    if count' < MAX_LINES {
      RemainingDone(lines', count', evs', remaining, k, idxs);
    }
  }

  /** The two header lines, `i,bitmap` and `p,16276,10`. */
  function Header(): seq<string> {
    ["i,bitmap", "p," + NatToString(MEMORY_SIZE) + "," + NatToString(NUM_LEVELS)]
  }

  /**
    The whole script without the file write: header, then between 900 and
    1000 event lines that allocate indices 0, 1, 2, ... in order with sizes
    in range, never allocate a live index nor free one that is not live, and
    leave nothing live unless the trace was cut at 1000 lines.
  */
  method Generate(rng: Rng) returns (lines: seq<string>, ghost events: seq<Event>)
    modifies rng
    ensures lines == Header() + RenderAll(events, "bitmap")
    ensures MAX_LINES - RESERVE <= |events| <= MAX_LINES
    ensures LiveReplay(events).Some?
    ensures |events| < MAX_LINES ==> LiveReplay(events).value == map[]
    ensures InOrder(AllocIdxs(events))
    ensures SizesInRange(events)
  {
    var s := new Script();
    while s.lineCount < MAX_LINES - RESERVE
      invariant s.Valid() && s.index == s.issued && s.lineCount <= MAX_LINES - RESERVE + 1
      decreases MAX_LINES - RESERVE - s.lineCount
    {
      s.AllocRound(rng);
      s.index := s.index - 1;
      s.FreeBatch(rng);
      s.index := s.index + 1;
    }
    s.FreeRemaining();
    lines := Header() + s.traceLines;
    events := s.events;
  }
}
