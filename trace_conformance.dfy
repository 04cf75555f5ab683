/**
  How the traces written by benchmarks/benchmark.py read when
  `Allocator_benchmark` (src/helpers/file_benchmark.c) replays them: the
  header lines name the allocator and its parameters, every instruction
  line is an allocation into a NULL slot or a free of a non-NULL one, and
  the replayed pointer table is non-NULL exactly where the generator's slot
  table holds a size.  This holds when the pointer table has at least as
  many slots as the generator used and the allocator grants every request.
*/
module TraceConformance {
  import opened Text
  import opened Bits
  import opened Parse
  import opened TraceLines
  import opened TraceEvents
  import opened TraceGenerator
  import opened BenchmarkAllocator
  import opened FileBenchmark

  /** `10^k`. */
  function Pow10(k: nat): (r: nat)
    ensures r >= 1
  {
    if k == 0 then 1 else 10 * Pow10(k - 1)
  }

  /** A number below `10^k` is written with at most `k` digits. */
  lemma {:induction false} NatToStringLength(n: nat, k: nat)
    requires 0 < k && n < Pow10(k)
    ensures |NatToString(n)| <= k
    decreases k
  {
    if n >= 10 {
      NatToStringLength(n / 10, k - 1);
    }
  }

  /** The bound on indices and sizes under which every rendered line fits in the 256-byte line buffer. */
  const NUMBER_LIMIT: nat := Pow10(100)

  /**
    The replayer's pointer table `table` stands for the generator's slot
    table `t`: it has at least its slots, and a slot is non-NULL exactly
    when the generator has a size recorded for it.
  */
  predicate Agrees(t: seq<Option<nat>>, table: seq<nat>)
  {
    && |t| <= |table|
    && forall i :: 0 <= i < |table| ==> (table[i] != 0 <==> i < |t| && t[i].Some?)
  }

  /** What the handler sees in the line written for an event the generator accepted. */
  function Expected(e: Event, variableSize: bool): Verdict
  {
    match e
    case Alloc(i, s) => Grant(i, if variableSize then Some(s) else None)
    case Free(i) => Release(i)
  }

  /** A rendered line is two or three comma-separated fields: the type, the index and, for a sized allocation, the size. */
  lemma TokensOfRender(e: Event, allocType: string)
    ensures e.Free? ==> Tokens(Render(e, allocType)) == ["f", NatToString(e.idx)]
    ensures e.Alloc? && allocType == "slab" ==> Tokens(Render(e, allocType)) == ["a", NatToString(e.idx)]
    ensures e.Alloc? && allocType != "slab" ==>
              Tokens(Render(e, allocType)) == ["a", NatToString(e.idx), NatToString(e.size)]
  {
    var x := NatToString(e.idx);
    NatToStringHasNoComma(e.idx);
    TokensSingle(x);
    if e.Alloc? && allocType != "slab" {
      NatToStringHasNoComma(e.size);
      assert Render(e, allocType) == "a" + "," + x + "," + NatToString(e.size);
      TokensOfThree("a", x, NatToString(e.size));
    } else if e.Alloc? {
      assert Render(e, allocType) == "a" + "," + x;
      TokensCons("a", x);
    } else {
      assert Render(e, allocType) == "f" + "," + x;
      TokensCons("f", x);
    }
  }

  /** A rendered line is neither empty, nor a comment, nor too long, and holds no newline. */
  lemma RenderHandled(e: Event, allocType: string)
    requires e.idx < NUMBER_LIMIT && (e.Alloc? ==> e.size < NUMBER_LIMIT)
    ensures Handled(Render(e, allocType)) && '\n' !in Render(e, allocType)
  {
    var line := Render(e, allocType);
    NatToStringLength(e.idx, 100);
    if e.Alloc? {
      NatToStringLength(e.size, 100);
    }
    assert line[0] == 'a' || line[0] == 'f';
    NumberHasNoNewline(e.idx);
    if e.Alloc? {
      NumberHasNoNewline(e.size);
    }
  }

  lemma NumberHasNoNewline(n: nat)
    ensures '\n' !in NatToString(n)
  {
    assert !IsDigit('\n');
  }

  /** `atoi` reads back a number written in decimal. */
  lemma AtoiOfNat(n: nat)
    ensures Atoi(NatToString(n)) == n
  {
    AtoiNatToString(n, []);
    assert NatToString(n) + [] == NatToString(n);
  }

  /** An allocation line of a NULL slot in range, with a positive size in variable-size mode, is granted. */
  lemma ClassifyAlloc(line: string, variableSize: bool, table: seq<nat>, i: nat, size: nat)
    requires Tokens(line) == if variableSize then ["a", NatToString(i), NatToString(size)] else ["a", NatToString(i)]
    requires i < |table| && table[i] == 0 && (variableSize ==> size > 0)
    ensures Classify(line, variableSize, table) == Grant(i, if variableSize then Some(size) else None)
  {
    AtoiOfNat(i);
    if variableSize {
      AtoiOfNat(size);
    }
  }

  /** A free line of a non-NULL slot in range is released. */
  lemma ClassifyFree(line: string, variableSize: bool, table: seq<nat>, i: nat)
    requires Tokens(line) == ["f", NatToString(i)]
    requires i < |table| && table[i] != 0
    ensures Classify(line, variableSize, table) == Release(i)
  {
    AtoiOfNat(i);
    assert "f" != "a" by { assert "f"[0] != "a"[0]; }
  }

  /** The line written for an event the generator accepted is read as the matching allocation or free. */
  lemma ClassifyRendered(t: seq<Option<nat>>, table: seq<nat>, e: Event, allocType: string, totalMem: nat)
    requires Agrees(t, table) && Step(t, e, totalMem).Some?
    requires e.Alloc? && allocType != "slab" ==> e.size > 0
    ensures Classify(Render(e, allocType), allocType != "slab", table) == Expected(e, allocType != "slab")
  {
    TokensOfRender(e, allocType);
    var line := Render(e, allocType);
    match e
    case Alloc(i, size) =>
      ClassifyAlloc(line, allocType != "slab", table, i, size);
    case Free(i) =>
      ClassifyFree(line, allocType != "slab", table, i);
  }

  /**
    One event the generator's guards accepted, rendered and handed to the
    handler on a table that agrees with the generator's: it is classified
    as the matching allocation or free, the request succeeds, and the
    tables still agree afterwards.
  */
  lemma StepConforms(t: seq<Option<nat>>, table: seq<nat>, e: Event, allocType: string, totalMem: nat,
                     granted: nat, freeFails: bool)
    requires Agrees(t, table) && Step(t, e, totalMem).Some?
    requires e.Alloc? && allocType != "slab" ==> e.size > 0
    requires granted != 0 && !freeFails
    ensures var variableSize := allocType != "slab";
      var (ret, after) := Request(Render(e, allocType), variableSize, table, granted, freeFails);
      && Classify(Render(e, allocType), variableSize, table) == Expected(e, variableSize)
      && ret == 0
      && Agrees(Step(t, e, totalMem).value, after)
  {
    ClassifyRendered(t, table, e, allocType, totalMem);
    var (ret, after) := Request(Render(e, allocType), allocType != "slab", table, granted, freeFails);
    var t' := Step(t, e, totalMem).value;
    if e.Alloc? {
      assert after == table[e.idx := granted] && t' == t[e.idx := Some(e.size)];
    } else {
      assert after == table[e.idx := 0] && t' == t[e.idx := None];
    }
  }

  /**
    Replaying the rendered trace of a replayable event sequence on a table
    of `n >= slots` NULL slots, with an allocator that grants every
    request, ends in a table that agrees with the generator's slot table.
  */
  lemma {:induction false} ReplayConforms(events: seq<Event>, allocType: string, slots: nat, totalMem: nat,
                                          n: nat, backend: Backend)
    requires Replay(events, slots, totalMem).Some? && slots <= n
    requires forall k :: 0 <= k < |events| ==> events[k].Alloc? && allocType != "slab" ==> events[k].size > 0
    requires forall k: nat :: backend.grant(k) != 0 && !backend.freeFails(k)
    requires slots <= NUMBER_LIMIT && totalMem < NUMBER_LIMIT
    ensures Agrees(Replay(events, slots, totalMem).value,
                   ReplayAll(Zeros(n), RenderAll(events, allocType), allocType != "slab", backend))
    decreases |events|
  {
    var variableSize := allocType != "slab";
    if events == [] {
    } else {
      var m := |events| - 1;
      var e := events[m];
      assert events == events[..m] + [e];
      ReplayAppend(events[..m], e, slots, totalMem);
      ReplayConforms(events[..m], allocType, slots, totalMem, n, backend);
      var t := Replay(events[..m], slots, totalMem).value;
      var table := ReplayAll(Zeros(n), RenderAll(events[..m], allocType), variableSize, backend);
      ReplayLength(events[..m], slots, totalMem);
      StepBounds(t, e, totalMem);
      RenderHandled(e, allocType);
      StepConforms(t, table, e, allocType, totalMem, backend.grant(m), backend.freeFails(m));
      RenderAllAppend(events[..m], e, allocType);
      ReplayAllSnoc(Zeros(n), RenderAll(events[..m], allocType), Render(e, allocType), variableSize, backend);
    }
  }

  /** The generator's table keeps its number of slots. */
  lemma {:induction false} ReplayLength(events: seq<Event>, slots: nat, totalMem: nat)
    requires Replay(events, slots, totalMem).Some?
    ensures |Replay(events, slots, totalMem).value| == slots
    decreases |events|
  {
    if events != [] {
      ReplayLength(events[..|events| - 1], slots, totalMem);
    }
  }

  /** An accepted event names a slot of the table, and an accepted allocation fits the budget. */
  lemma StepBounds(t: seq<Option<nat>>, e: Event, totalMem: nat)
    requires Step(t, e, totalMem).Some?
    ensures e.idx < |t| && (e.Alloc? ==> e.size <= totalMem)
  {
  }

  /**
    The instruction part of a generated file, replayed by
    `Allocator_benchmark` under the same conditions, returns -1 exactly
    when the trace leaves some slot allocated.
  */
  lemma GeneratedTraceOutcome(events: seq<Event>, allocType: string, slots: nat, totalMem: nat,
                              n: nat, backend: Backend)
    requires events != []
    requires Replay(events, slots, totalMem).Some? && slots <= n
    requires forall k :: 0 <= k < |events| ==> events[k].Alloc? && allocType != "slab" ==> events[k].size > 0
    requires forall k: nat :: backend.grant(k) != 0 && !backend.freeFails(k)
    requires slots <= NUMBER_LIMIT && totalMem < NUMBER_LIMIT
    ensures var t := Replay(events, slots, totalMem).value;
      (Benchmark(Join(RenderAll(events, allocType)), n, allocType != "slab", backend) == -1
       <==> exists i :: 0 <= i < |t| && t[i].Some?)
  {
    var lines := RenderAll(events, allocType);
    var t := Replay(events, slots, totalMem).value;
    RenderedLines(events, allocType, slots, totalMem);
    SegmentsOfJoin(lines);
    ReplayConforms(events, allocType, slots, totalMem, n, backend);
    var table := ReplayAll(Zeros(n), lines, allocType != "slab", backend);
    if !AllFree(table) {
      var i :| 0 <= i < |table| && table[i] != 0;
      assert i < |t| && t[i].Some?;
    }
  }

  /** Every line written for a replayable trace is a non-empty line without a newline. */
  lemma RenderedLines(events: seq<Event>, allocType: string, slots: nat, totalMem: nat)
    requires Replay(events, slots, totalMem).Some?
    requires slots <= NUMBER_LIMIT && totalMem < NUMBER_LIMIT
    ensures forall k :: 0 <= k < |events| ==>
      |RenderAll(events, allocType)[k]| > 0 && '\n' !in RenderAll(events, allocType)[k]
  {
    forall k | 0 <= k < |events|
      ensures |Render(events[k], allocType)| > 0 && '\n' !in Render(events[k], allocType)
    {
      RenderedLine(events, k, allocType, slots, totalMem);
    }
  }

  lemma RenderedLine(events: seq<Event>, k: nat, allocType: string, slots: nat, totalMem: nat)
    requires k < |events| && Replay(events, slots, totalMem).Some?
    requires slots <= NUMBER_LIMIT && totalMem < NUMBER_LIMIT
    ensures Handled(Render(events[k], allocType)) && '\n' !in Render(events[k], allocType)
  {
    ReplayPrefixSome(events, k, slots, totalMem);
    ReplayAppend(events[..k], events[k], slots, totalMem);
    assert events[..k + 1] == events[..k] + [events[k]];
    var tk := Replay(events[..k], slots, totalMem).value;
    ReplayLength(events[..k], slots, totalMem);
    StepBounds(tk, events[k], totalMem);
    RenderHandled(events[k], allocType);
  }

  /** Every prefix of a replayable trace replays. */
  lemma {:induction false} ReplayPrefixSome(events: seq<Event>, k: nat, slots: nat, totalMem: nat)
    requires k < |events| && Replay(events, slots, totalMem).Some?
    ensures Replay(events[..k + 1], slots, totalMem).Some?
    decreases |events|
  {
    var m := |events| - 1;
    if k < m {
      assert events[..m][..k + 1] == events[..k + 1];
      ReplayPrefixSome(events[..m], k, slots, totalMem);
    } else {
      assert events[..k + 1] == events;
    }
  }

  /**
    The two header lines of a generated file, as `fgets` returns them with
    or without their newline, name the allocator and its parameters:
    64-byte slabs and 1000 of them, or 2000 bytes in 4 levels.
  */
  lemma HeaderConforms(k: AllocatorKind, eol: string)
    requires eol == "" || eol == "\n"
    ensures CreateCommand("i," + KindName(k) + eol) == Some(k)
    ensures CreateParameters(Config(KindName(k)).3 + eol, Some(k))
         == if k == SlabKind then Params(64, 1000) else Params(2000, 4)
  {
    CreateCommandOfHeader(k, eol);
    if k == SlabKind {
      CreateParametersOfHeader(64, 1000, k, eol);
    } else {
      CreateParametersOfHeader(2000, 4, k, eol);
    }
  }

  /**
    As written, both replay loops give a buddy allocator of 4 levels a
    table of 8 slots, while the generator lets its traces use 16: the line
    "a,8,16", which the generator writes for an allocation of 16 bytes into
    its slot 8, is rejected by the handler as out of range.
  */
  lemma BuddyTableTooSmall()
    ensures PointerCountAsWritten(BuddyKind, 0, 4) == 8 && PointerCountAsWritten(BitmapKind, 0, 4) == 8
    ensures TableSize(BuddyKind, 0, 4) == 8
    ensures Config("buddy").1 == 16 && Config("bitmap").1 == 16
    ensures Step(EmptyTable(16), Alloc(8, 16), Config("buddy").0).Some?
    ensures Render(Alloc(8, 16), "buddy") == "a,8,16"
    ensures Classify(Render(Alloc(8, 16), "buddy"), true, Zeros(8)) == Rejected
  {
    assert Pow2(4) == 16 by {
      assert Pow2(1) == 2 && Pow2(2) == 4 && Pow2(3) == 8;
    }
    assert NatToString(8) == "8";
    assert NatToString(16) == "16" by {
      assert NatToString(1) == "1" && NatToString(6) == "6";
    }
    assert LiveSum(EmptyTable(16)) == 0 by {
      LiveSumEmpty(16);
    }
    TokensOfRender(Alloc(8, 16), "buddy");
    AtoiOfNat(8);
  }

  /**
    Corrected: the table sized by `PointerCount` for the allocator a
    generated file names in its header has a slot for every index of the
    generator's table, so `GeneratedTraceOutcome` applies to it.  The
    second header parameter is `n_slabs` for the slab allocator and
    `num_levels` for the buddy allocators.
  */
  lemma CorrectedTableHoldsTrace(k: AllocatorKind)
    ensures var second := CreateParameters(Config(KindName(k)).3, Some(k)).second;
      second > 0 && Config(KindName(k)).1 == PointerCount(k, second, second)
  {
    HeaderConforms(k, "");
    assert Config(KindName(k)).3 + "" == Config(KindName(k)).3;
    assert Pow2(4) == 16 by {
      assert Pow2(1) == 2 && Pow2(2) == 4 && Pow2(3) == 8;
    }
  }
}
