/**
  The workload-trace generator of benchmarks/benchmark.py.

  A `Generator` holds the two lists the Python functions share and mutate in
  place: `lines`, the trace text line by line, and `allocSizes`, the slot table
  (None for an empty slot, the size of its live allocation otherwise).  Every
  line after the header comes from one accepted `write_alloc` or `write_free`;
  the ghost field `events` records them, and `Valid()` ties the table to the
  replay of those events, which is how the budget and the alternation of
  alloc and free lines per slot are kept.

  The module-level `random` calls are drawn from an explicit `Rng` object, so
  every property holds for every sequence of draws.
*/
module TraceGenerator {
  import opened Text
  import opened TraceEvents
  import opened PyRandom
  import opened Bits

  const TARGET_LINE_COUNT: nat := 1000

  datatype Pattern = Ramp | Peak | Plateau

  function SizeOf(s: Option<nat>): nat {
    if s.Some? then s.value else 0
  }

  /** `sum(s for s in alloc_sizes if s)`: the total size of the live slots. */
  function LiveSum(t: seq<Option<nat>>): nat {
    if t == [] then 0 else LiveSum(t[..|t| - 1]) + SizeOf(t[|t| - 1])
  }

  /** The slot table `[None] * slots`. */
  function EmptyTable(slots: nat): (t: seq<Option<nat>>)
    ensures |t| == slots && forall i :: 0 <= i < slots ==> t[i] == None
  {
    seq(slots, _ => None)
  }

  /** One event applied to the slot table under the guards of `write_alloc` and `write_free`; None when the guard refuses it. */
  function Step(t: seq<Option<nat>>, e: Event, totalMem: nat): Option<seq<Option<nat>>> {
    match e
    case Alloc(i, s) =>
      if i < |t| && t[i] == None && s + LiveSum(t) <= totalMem then Some(t[i := Some(s)]) else None
    case Free(i) =>
      if i < |t| && t[i] != None then Some(t[i := None]) else None
  }

  /** The slot table after replaying `events` from an all-empty table, or None if some event is refused by its guard. */
  function Replay(events: seq<Event>, slots: nat, totalMem: nat): Option<seq<Option<nat>>>
  {
    if events == [] then Some(EmptyTable(slots))
    else
      match Replay(events[..|events| - 1], slots, totalMem)
      case None => None
      case Some(t) => Step(t, events[|events| - 1], totalMem)
  }

  lemma ReplayAppend(events: seq<Event>, e: Event, slots: nat, totalMem: nat)
    ensures Replay(events + [e], slots, totalMem) ==
      match Replay(events, slots, totalMem)
      case None => None
      case Some(t) => Step(t, e, totalMem)
  {
    assert (events + [e])[..|events|] == events;
  }

  /** Changing one slot changes the live total by the difference of the two sizes. */
  lemma {:induction false} LiveSumUpdate(t: seq<Option<nat>>, i: nat, x: Option<nat>)
    requires i < |t|
    ensures LiveSum(t[i := x]) + SizeOf(t[i]) == LiveSum(t) + SizeOf(x)
    decreases |t|
  {
    var n := |t| - 1;
    assert t[i := x][..n] == if i < n then t[..n][i := x] else t[..n];
    if i < n {
      LiveSumUpdate(t[..n], i, x);
    }
  }

  lemma {:induction false} LiveSumEmpty(slots: nat)
    ensures LiveSum(EmptyTable(slots)) == 0
  {
    if slots > 0 {
      assert EmptyTable(slots)[..slots - 1] == EmptyTable(slots - 1);
      LiveSumEmpty(slots - 1);
    }
  }

  /**
    Every replayable trace keeps the budget at every prefix: each prefix
    replays too, to a table of the same size whose live sizes sum to at most
    `totalMem`.
  */
  lemma {:induction false} ReplayWithinBudget(events: seq<Event>, slots: nat, totalMem: nat, p: nat)
    requires Replay(events, slots, totalMem).Some?
    requires p <= |events|
    ensures Replay(events[..p], slots, totalMem).Some?
    ensures |Replay(events[..p], slots, totalMem).value| == slots
    ensures LiveSum(Replay(events[..p], slots, totalMem).value) <= totalMem
    decreases |events|
  {
    if p < |events| {
      var n := |events| - 1;
      assert events[..n][..p] == events[..p];
      ReplayWithinBudget(events[..n], slots, totalMem, p);
    } else if events == [] {
      assert events[..p] == [];
      LiveSumEmpty(slots);
    } else {
      var n := |events| - 1;
      assert events[..p] == events;
      assert events[..n][..n] == events[..n];
      ReplayWithinBudget(events[..n], slots, totalMem, n);
      var t := Replay(events[..n], slots, totalMem).value;
      match events[n]
      case Alloc(i, s) =>
        LiveSumUpdate(t, i, Some(s));
      case Free(i) =>
        LiveSumUpdate(t, i, None);
    }
  }

  /** The live slots of a table as an index-to-size map. */
  function TableMap(t: seq<Option<nat>>): map<nat, nat> {
    map i: nat | i < |t| && t[i].Some? :: t[i].value
  }

  /**
    A trace the guards accept is also a well-formed trace for the replayer:
    it never allocates a live slot nor frees an empty one, and what it leaves
    live is exactly the table's live slots with their sizes.
  */
  lemma {:induction false} ReplayLive(events: seq<Event>, slots: nat, totalMem: nat)
    requires Replay(events, slots, totalMem).Some?
    ensures LiveReplay(events) == Some(TableMap(Replay(events, slots, totalMem).value))
    decreases |events|
  {
    if events == [] {
      assert TableMap(EmptyTable(slots)) == map[];
    } else {
      var n := |events| - 1;
      ReplayLive(events[..n], slots, totalMem);
      var t := Replay(events[..n], slots, totalMem).value;
      var m := TableMap(t);
      match events[n]
      case Alloc(i, s) =>
        assert TableMap(t[i := Some(s)]) == m[i := s];
      case Free(i) =>
        assert TableMap(t[i := None]) == m - {i};
    }
  }

  /** `available_idxs`: the empty slots (wantAlloc) or the live ones (not wantAlloc), in ascending order. */
  function AvailableIdxs(allocSizes: seq<Option<nat>>, wantAlloc: bool): (r: seq<nat>)
    ensures forall k :: 0 <= k < |r| ==> r[k] < |allocSizes| && (allocSizes[r[k]] == None) == wantAlloc
    ensures forall i :: 0 <= i < |allocSizes| && (allocSizes[i] == None) == wantAlloc ==> i in r
    ensures forall k, l :: 0 <= k < l < |r| ==> r[k] < r[l]
  {
    if allocSizes == [] then []
    else
      var n := |allocSizes| - 1;
      AvailableIdxs(allocSizes[..n], wantAlloc) + (if (allocSizes[n] == None) == wantAlloc then [n] else [])
  }

  /** The generator's invariant over its state: the trace is the header and the rendered events, which replay to the table. */
  ghost predicate GenInv(header: seq<string>, lines: seq<string>, events: seq<Event>, t: seq<Option<nat>>,
                         totalMem: nat, allocType: string)
  {
    && lines == header + RenderAll(events, allocType)
    && Replay(events, |t|, totalMem) == Some(t)
  }

  /** An event the guards accept extends the trace by its line and the replay by its effect on the table. */
  lemma GenInvStep(header: seq<string>, lines: seq<string>, events: seq<Event>, t: seq<Option<nat>>,
                   totalMem: nat, allocType: string, e: Event)
    requires GenInv(header, lines, events, t, totalMem, allocType)
    requires Step(t, e, totalMem).Some?
    ensures |Step(t, e, totalMem).value| == |t|
    ensures GenInv(header, lines + [Render(e, allocType)], events + [e], Step(t, e, totalMem).value, totalMem, allocType)
  {
    ReplayAppend(events, e, |t|, totalMem);
    RenderAllAppend(events, e, allocType);
  }

  /** The table with the slots in `gone` emptied. */
  function Emptied(t: seq<Option<nat>>, gone: set<nat>): (r: seq<Option<nat>>)
    ensures |r| == |t|
    ensures forall i :: 0 <= i < |t| ==> r[i] == if i in gone then None else t[i]
  {
    seq(|t|, i requires 0 <= i < |t| => if i in gone then None else t[i])
  }

  /** The entries of `used` that are not in `keep`. */
  function Dropped(used: seq<nat>, keep: seq<nat>): set<nat> {
    if used == [] then {}
    else
      var n := |used| - 1;
      Dropped(used[..n], keep) + (if used[n] in keep then {} else {used[n]})
  }

  lemma {:induction false} DroppedMembers(used: seq<nat>, keep: seq<nat>)
    ensures forall x :: x in Dropped(used, keep) <==> x in used && x !in keep
  {
    if used != [] {
      var n := |used| - 1;
      DroppedMembers(used[..n], keep);
      assert used == used[..n] + [used[n]];
    }
  }

  /** Emptying the listed live slots not kept leaves live exactly the kept ones. */
  lemma KeptLive(t0: seq<Option<nat>>, used: seq<nat>, keep: seq<nat>)
    requires forall i :: 0 <= i < |t0| ==> (t0[i] != None <==> i in used)
    requires forall i :: i in used ==> i < |t0|
    requires forall i :: i in keep ==> i in used
    ensures forall i :: 0 <= i < |t0| ==> (Emptied(t0, Dropped(used, keep))[i] != None <==> i in keep)
  {
    DroppedMembers(used, keep);
  }

  lemma EmptiedMore(t: seq<Option<nat>>, gone: set<nat>, i: nat)
    requires i < |t|
    ensures Emptied(t, gone)[i := None] == Emptied(t, gone + {i})
  {
  }

  class Generator {
    var lines: seq<string>
    var allocSizes: seq<Option<nat>>
    ghost var events: seq<Event>
    ghost const header: seq<string>
    const totalMem: nat
    const allocType: string

    /** The trace is the header followed by the rendered events, and the slot table is the replay of those events. */
    ghost predicate Valid()
      reads this
    {
      GenInv(header, lines, events, allocSizes, totalMem, allocType)
    }

    /** `lines` starting as `header` and `alloc_sizes = [None] * slots`, as `generate_file` sets them up. */
    constructor (header: seq<string>, slots: nat, totalMem: nat, allocType: string)
      ensures Valid()
      ensures this.header == header && lines == header && events == []
      ensures allocSizes == EmptyTable(slots)
      ensures this.totalMem == totalMem && this.allocType == allocType
    {
      this.header := header;
      lines := header;
      allocSizes := EmptyTable(slots);
      events := [];
      this.totalMem := totalMem;
      this.allocType := allocType;
    }

    /** The part of the state every operation keeps: the header, the table size and the trace written so far. */
    twostate predicate Extends()
      reads this
    {
      && |allocSizes| == old(|allocSizes|)
      && old(lines) <= lines
      && old(events) <= events
    }

    /**
      `write_alloc`: succeeds exactly when the slot is empty and the new size
      fits in the budget beside the live ones; then appends the alloc line
      and records the size, otherwise changes nothing.
    */
    method WriteAlloc(idx: nat, size: nat) returns (ok: bool)
      requires Valid() && idx < |allocSizes|
      modifies this
      ensures Valid() && Extends()
      ensures ok <==> old(allocSizes[idx]) == None && size + LiveSum(old(allocSizes)) <= totalMem
      ensures ok ==> && lines == old(lines) + [Render(Alloc(idx, size), allocType)]
                     && allocSizes == old(allocSizes)[idx := Some(size)]
                     && events == old(events) + [Alloc(idx, size)]
      ensures !ok ==> lines == old(lines) && allocSizes == old(allocSizes) && events == old(events)
    {
      if allocSizes[idx] != None || size + LiveSum(allocSizes) > totalMem {
        return false;
      }
      GenInvStep(header, lines, events, allocSizes, totalMem, allocType, Alloc(idx, size));
      lines := lines + [Render(Alloc(idx, size), allocType)];
      allocSizes := allocSizes[idx := Some(size)];
      events := events + [Alloc(idx, size)];
      ok := true;
    }

    /** `write_free`: succeeds exactly when the slot is live; then appends `f,idx` and empties that slot only. */
    method WriteFree(idx: nat) returns (ok: bool)
      requires Valid() && idx < |allocSizes|
      modifies this
      ensures Valid() && Extends()
      ensures ok <==> old(allocSizes[idx]) != None
      ensures allocSizes == old(allocSizes)[idx := None]
      ensures ok ==> && lines == old(lines) + ["f," + NatToString(idx)]
                     && allocSizes == old(allocSizes)[idx := None]
                     && events == old(events) + [Free(idx)]
      ensures !ok ==> lines == old(lines) && allocSizes == old(allocSizes) && events == old(events)
    {
      if allocSizes[idx] == None {
        return false;
      }
      GenInvStep(header, lines, events, allocSizes, totalMem, allocType, Free(idx));
      lines := lines + ["f," + NatToString(idx)];
      allocSizes := allocSizes[idx := None];
      events := events + [Free(idx)];
      ok := true;
    }

    /** Nothing written, nothing recorded. */
    twostate predicate Untouched()
      reads this
    {
      lines == old(lines) && allocSizes == old(allocSizes) && events == old(events)
    }

    /**
      One random allocation attempt: `random.choice` of the empty slots, a
      size from `random.randint(16, total_mem//4)`, then `write_alloc`.
      `idx` is -1 and nothing is drawn when no slot is empty; otherwise the
      alloc line is added exactly when the size fits in the budget.
    */
    method TryRandomAlloc(rng: Rng) returns (idx: int, size: nat)
      requires Valid() && 16 <= totalMem / 4
      modifies this, rng
      ensures Valid() && Extends()
      ensures |lines| <= old(|lines|) + 1
      ensures idx == -1 <==> AvailableIdxs(old(allocSizes), true) == []
      ensures idx == -1 ==> Untouched() && rng.drawn == old(rng.drawn)
      ensures idx != -1 ==> && var free := AvailableIdxs(old(allocSizes), true);
                            && |free| > 0 && idx == free[rng.draw(old(rng.drawn)) % |free|]
                            && 0 <= idx < |allocSizes| && old(allocSizes)[idx] == None
                            && 16 <= size <= totalMem / 4
      ensures idx != -1 && size + LiveSum(old(allocSizes)) <= totalMem ==>
                && lines == old(lines) + [Render(Alloc(idx, size), allocType)]
                && allocSizes == old(allocSizes)[idx := Some(size)]
                && events == old(events) + [Alloc(idx, size)]
      ensures idx == -1 || size + LiveSum(old(allocSizes)) > totalMem ==> Untouched()
    {
      var free := AvailableIdxs(allocSizes, true);
      idx, size := -1, 0;
      if free != [] {
        var i := rng.Choice(free);
        assert i in free;
        size := rng.RandInt(16, totalMem / 4);
        idx := i;
        var _ := WriteAlloc(i, size);
      }
    }

    /**
      One random free attempt: `random.choice` of the live slots, then
      `write_free`.  `idx` is -1 and nothing is drawn when no slot is live;
      otherwise that slot is emptied and its free line added.
    */
    method TryRandomFree(rng: Rng) returns (idx: int)
      requires Valid()
      modifies this, rng
      ensures Valid() && Extends()
      ensures |lines| <= old(|lines|) + 1
      ensures idx == -1 <==> AvailableIdxs(old(allocSizes), false) == []
      ensures idx == -1 ==> Untouched() && rng.drawn == old(rng.drawn)
      ensures idx != -1 ==> && var used := AvailableIdxs(old(allocSizes), false);
                            && |used| > 0 && idx == used[rng.draw(old(rng.drawn)) % |used|]
                            && 0 <= idx < |allocSizes| && old(allocSizes)[idx] != None
                            && lines == old(lines) + ["f," + NatToString(idx)]
                            && allocSizes == old(allocSizes)[idx := None]
                            && events == old(events) + [Free(idx)]
    {
      var used := AvailableIdxs(allocSizes, false);
      idx := -1;
      if used != [] {
        var i := rng.Choice(used);
        assert i in used;
        idx := i;
        var _ := WriteFree(i);
      }
    }

    /**
      `balance`: fills the trace towards TARGET_LINE_COUNT lines with
      alternating-chance alloc and free attempts.  The source loops until the
      target is reached, which need not happen; here at most `fuel` rounds run.
      It only appends, at most one line per round, never past the target, is a
      no-op on a trace already at the target, and stops short of the target
      only by running out of fuel.
    */
    method Balance(rng: Rng, fuel: nat) returns (rounds: nat)
      requires Valid() && 16 <= totalMem / 4
      modifies this, rng
      ensures Valid() && Extends()
      ensures rounds <= fuel && |lines| <= old(|lines|) + rounds
      ensures old(|lines|) >= TARGET_LINE_COUNT ==> lines == old(lines) && rounds == 0
      ensures old(|lines|) < TARGET_LINE_COUNT ==> |lines| <= TARGET_LINE_COUNT
      ensures |lines| < TARGET_LINE_COUNT ==> rounds == fuel
    {
      rounds := 0;
      while |lines| < TARGET_LINE_COUNT && rounds < fuel
        invariant Valid() && Extends()
        invariant rounds <= fuel && |lines| <= old(|lines|) + rounds
        invariant old(|lines|) >= TARGET_LINE_COUNT ==> lines == old(lines) && rounds == 0
        invariant old(|lines|) < TARGET_LINE_COUNT ==> |lines| <= TARGET_LINE_COUNT
      {
        var heads := rng.Coin();
        if heads {
          var _, _ := TryRandomAlloc(rng);
        } else {
          var _ := TryRandomFree(rng);
        }
        rounds := rounds + 1;
      }
    }

    /** One step of `ramp_pattern`: up to max_slots//20 alloc attempts, stopping when no slot is empty, then two free attempts. */
    method RampStep(rng: Rng, maxSlots: nat)
      requires Valid() && 16 <= totalMem / 4
      modifies this, rng
      ensures Valid() && Extends()
      ensures |lines| <= old(|lines|) + maxSlots / 20 + 2
    {
      var n := 0;
      while n < maxSlots / 20
        invariant n <= maxSlots / 20
        invariant Valid() && Extends()
        invariant |lines| <= old(|lines|) + n
      {
        if AvailableIdxs(allocSizes, true) == [] {
          break;
        }
        var _, _ := TryRandomAlloc(rng);
        n := n + 1;
      }
      var _ := TryRandomFree(rng);
      var _ := TryRandomFree(rng);
    }

    /** The twenty steps of `ramp_pattern`. */
    method RampSteps(rng: Rng, maxSlots: nat)
      requires Valid() && 16 <= totalMem / 4
      modifies this, rng
      ensures Valid() && Extends()
    {
      for step := 0 to 20
        invariant Valid() && Extends()
      {
        RampStep(rng, maxSlots);
      }
    }

    /** `ramp_pattern`: the twenty ramp steps, then `balance`. */
    method RampPattern(rng: Rng, maxSlots: nat, fuel: nat)
      requires Valid() && 16 <= totalMem / 4
      modifies this, rng
      ensures Valid() && Extends()
    {
      RampSteps(rng, maxSlots);
      var _ := Balance(rng, fuel);
    }

    /** The saturation loop of `peak_pattern` and `plateau_pattern`: up to max_slots alloc attempts, stopping when no slot is empty. */
    method Saturate(rng: Rng, maxSlots: nat)
      requires Valid() && 16 <= totalMem / 4
      modifies this, rng
      ensures Valid() && Extends()
      ensures |lines| <= old(|lines|) + maxSlots
    {
      var n := 0;
      while n < maxSlots
        invariant n <= maxSlots
        invariant Valid() && Extends()
        invariant |lines| <= old(|lines|) + n
      {
        if AvailableIdxs(allocSizes, true) == [] {
          break;
        }
        var _, _ := TryRandomAlloc(rng);
        n := n + 1;
      }
    }

    /**
      The drop phase of `peak_pattern`: keeps a random sample of
      min(live, max_slots//4) live slots and frees every other live slot.
      Afterwards the live slots are exactly the survivors.
    */
    method PeakDrop(rng: Rng, maxSlots: nat) returns (survivors: seq<nat>)
      requires Valid()
      modifies this, rng
      ensures Valid() && Extends()
      ensures Distinct(survivors)
      ensures |survivors| == if |AvailableIdxs(old(allocSizes), false)| < maxSlots / 4
                             then |AvailableIdxs(old(allocSizes), false)| else maxSlots / 4
      ensures forall i :: i in survivors ==> i < |allocSizes| && old(allocSizes)[i] != None
      ensures forall i :: 0 <= i < |allocSizes| ==> (allocSizes[i] != None <==> i in survivors)
    {
      var used := AvailableIdxs(allocSizes, false);
      var survivorsCount := maxSlots / 4;
      var k := if |used| < survivorsCount then |used| else survivorsCount;
      survivors := [];
      if k > 0 {
        survivors := rng.Sample(used, k);
      }
      ghost var t0 := allocSizes;
      forall i | 0 <= i < |t0| ensures t0[i] != None <==> i in used {
      }
      FreeExcept(used, survivors);
      KeptLive(t0, used, survivors);
    }

    /** The `for i in used: if i not in survivors: write_free(...)` loop of `peak_pattern`. */
    method FreeExcept(used: seq<nat>, keep: seq<nat>)
      requires Valid()
      requires forall m :: 0 <= m < |used| ==> used[m] < |allocSizes|
      modifies this
      ensures Valid() && Extends()
      ensures allocSizes == Emptied(old(allocSizes), Dropped(used, keep))
    {
      var n := 0;
      ghost var gone: set<nat> := {};
      ghost var t0 := allocSizes;
      while n < |used|
        invariant n <= |used| && Valid() && Extends()
        invariant gone == Dropped(used[..n], keep)
        invariant allocSizes == Emptied(t0, gone)
      {
        gone := FreeUnlessKept(used[n], keep, t0, gone);
        assert used[..n + 1][..n] == used[..n];
        n := n + 1;
      }
      assert used[..n] == used;
    }

    /** One round of that loop: `write_free(i)` unless `i` is kept. */
    method FreeUnlessKept(i: nat, keep: seq<nat>, ghost t0: seq<Option<nat>>, ghost gone: set<nat>)
        returns (ghost gone': set<nat>)
      requires Valid() && i < |allocSizes| && allocSizes == Emptied(t0, gone)
      modifies this
      ensures Valid() && Extends()
      ensures gone' == if i in keep then gone else gone + {i}
      ensures allocSizes == Emptied(t0, gone')
    {
      gone' := gone;
      if i !in keep {
        var _ := WriteFree(i);
        EmptiedMore(t0, gone, i);
        gone' := gone + {i};
      }
    }

    /** `peak_pattern`: saturation, the drop to the survivors, then `balance`. */
    method PeakPattern(rng: Rng, maxSlots: nat, fuel: nat)
      requires Valid() && 16 <= totalMem / 4
      modifies this, rng
      ensures Valid() && Extends()
    {
      Saturate(rng, maxSlots);
      var _ := PeakDrop(rng, maxSlots);
      var _ := Balance(rng, fuel);
    }

    /** The churn loop of `plateau_pattern`: 500 rounds of one free attempt followed by one alloc attempt. */
    method Churn(rng: Rng)
      requires Valid() && 16 <= totalMem / 4
      modifies this, rng
      ensures Valid() && Extends()
      ensures |lines| <= old(|lines|) + 2 * 500
    {
      var n := 0;
      while n < 500
        invariant n <= 500
        invariant Valid() && Extends()
        invariant |lines| <= old(|lines|) + 2 * n
      {
        ChurnRound(rng);
        n := n + 1;
      }
    }

    /** One churn round: a free attempt, then an alloc attempt. */
    method ChurnRound(rng: Rng)
      requires Valid() && 16 <= totalMem / 4
      modifies this, rng
      ensures Valid() && Extends()
      ensures |lines| <= old(|lines|) + 2
    {
      var _ := TryRandomFree(rng);
      var _, _ := TryRandomAlloc(rng);
    }

    /** `plateau_pattern`: saturation, the churn, then `balance`. */
    method PlateauPattern(rng: Rng, maxSlots: nat, fuel: nat)
      requires Valid() && 16 <= totalMem / 4
      modifies this, rng
      ensures Valid() && Extends()
    {
      Saturate(rng, maxSlots);
      Churn(rng);
      var _ := Balance(rng, fuel);
    }
  }

  /** The configuration `generate_file` picks: slab has 1000 slots of 64 bytes, the others a 2000-byte budget over 4 levels (16 slots). */
  function Config(allocType: string): (r: (nat, nat, nat, string))
    ensures var (totalMem, slots, maxSlots, _) := r;
      && maxSlots == slots / 2 && 16 <= totalMem / 4
      && (allocType == "slab" ==> totalMem == 64 * 1000 && slots == 1000)
      && (allocType != "slab" ==> totalMem == 2000 && slots == 16)
  {
    if allocType == "slab" then (64 * 1000, 1000, 1000 / 2, "p," + NatToString(64) + "," + NatToString(1000))
    else (2000, Pow2(4), Pow2(4) / 2, "p," + NatToString(2000) + "," + NatToString(4))
  }

  lemma Rendered64And1000()
    ensures NatToString(64) == "64" && NatToString(1000) == "1000"
  {
    assert NatToString(1) == "1";
    assert NatToString(10) == "1" + "0";
    assert NatToString(100) == "10" + "0";
  }

  lemma Rendered2000And4()
    ensures NatToString(2000) == "2000" && NatToString(4) == "4"
  {
    assert NatToString(2) == "2";
    assert NatToString(20) == "2" + "0";
    assert NatToString(200) == "20" + "0";
  }

  /** The parameter line reads `p,64,1000` for slab and `p,2000,4` otherwise. */
  lemma ConfigParamLine(allocType: string)
    ensures Config(allocType).3 == if allocType == "slab" then "p,64,1000" else "p,2000,4"
  {
    Rendered64And1000();
    Rendered2000And4();
  }

  /**
    `generate_file` without the file write: the trace starts with the `i,`
    and `p,` header lines, and every later line is the rendering of an event
    sequence that replays under the guards (budget kept, alloc and free
    alternating per slot).
  */
  method GenerateFile(pattern: Pattern, allocType: string, rng: Rng, fuel: nat)
      returns (lines: seq<string>, ghost events: seq<Event>)
    modifies rng
    ensures |lines| >= 2 && lines[0] == "i," + allocType && lines[1] == Config(allocType).3
    ensures lines[2..] == RenderAll(events, allocType)
    ensures Replay(events, Config(allocType).1, Config(allocType).0).Some?
    ensures LiveReplay(events).Some?
  {
    var (totalMem, slots, maxSlots, param) := Config(allocType);
    var g := new Generator(["i," + allocType, param], slots, totalMem, allocType);
    match pattern {
      case Ramp => g.RampPattern(rng, maxSlots, fuel);
      case Peak => g.PeakPattern(rng, maxSlots, fuel);
      case Plateau => g.PlateauPattern(rng, maxSlots, fuel);
    }
    lines := g.lines;
    events := g.events;
    ReplayLive(events, slots, totalMem);
  }
}
