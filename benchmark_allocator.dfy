/**
  `Allocator_malloc_free` of src/helpers/benchmark_allocator.c: replay the
  instruction lines of a trace against a pointer table, log one entry per
  instruction into a bounded log buffer, then report every slot still in use.
  Also the pointer-table size and the log-file path chosen by
  `Allocator_benchmark_initialize`.

  The allocator is represented by what it answers on each line (`Backend`):
  the pointer malloc returns (0 for NULL), whether free returns `(void*)-1`,
  and the two fragmentation counters logged in variable-size mode.
*/
module BenchmarkAllocator {
  import opened Text
  import opened Bits
  import opened Parse
  import opened TraceLines
  import opened BuddyTree

  /** The allocator's answers, indexed by the line number of the request. */
  datatype Backend = Backend(grant: nat -> nat, freeFails: nat -> bool, fragmentation: nat -> nat, sparse: nat -> nat)

  // ---------------------------------------------------------------------
  // The log buffer

  /** The first bytes of `t` that fit in a buffer of `capacity` bytes next to the terminating NUL. */
  function Clamp(capacity: nat, t: string): (r: string)
    requires capacity > 0
    ensures r <= t && |r| < capacity
    ensures |t| < capacity ==> r == t
    ensures |t| >= capacity ==> |r| == capacity - 1
  {
    if |t| < capacity then t else t[..capacity - 1]
  }

  /** Clamping once at the end is the same as clamping after every write. */
  lemma ClampAppend(capacity: nat, x: string, y: string)
    requires capacity > 0
    ensures Clamp(capacity, Clamp(capacity, x) + y) == Clamp(capacity, x + y)
  {
    if |x| >= capacity {
      assert (x[..capacity - 1] + y)[..capacity - 1] == x[..capacity - 1];
      assert (x + y)[..capacity - 1] == x[..capacity - 1];
    }
  }

  /**
    The mapped log file: `capacity` is `max_log_size` and `text` the bytes
    before `log_offset`, so `|text|` is the offset.
  */
  class LogBuffer {
    const capacity: nat
    var text: string

    ghost predicate Valid()
      reads this
    {
      |text| < capacity
    }

    constructor (capacity: nat)
      requires capacity > 0
      ensures Valid() && this.capacity == capacity && text == ""
    {
      this.capacity := capacity;
      text := "";
    }

    /**
      One `snprintf` into the rest of the buffer followed by advancing the
      offset over what was stored: the text is cut where the buffer ends.
    */
    method Write(s: string)
      requires Valid()
      modifies this
      ensures Valid() && text == Clamp(capacity, old(text) + s)
    {
      text := Clamp(capacity, text + s);
    }
  }

  /** The size of `size_t`'s range on LP64. */
  const SIZE_T_LIMIT: nat := 0x1_0000_0000_0000_0000

  /**
    `log_offset += snprintf(log_data + log_offset, max_log_size - log_offset, "%s", s)`
    as written for the header and leak lines: the offset grows by the whole
    length of `s` even when snprintf truncated it, and the size argument is a
    `size_t` difference.  The result is the new offset and the end of the
    bytes snprintf stores, its NUL included.
  */
  function SnprintfAsWritten(capacity: nat, offset: nat, s: string): (r: (nat, nat))
    ensures r.0 == offset + |s|
  {
    var size := (capacity - offset) % SIZE_T_LIMIT;
    var stored := if size == 0 then 0 else (if |s| < size then |s| else size - 1) + 1;
    (offset + |s|, offset + stored)
  }

  /**
    A line that does not fit leaves the offset past the buffer; the size
    argument of the next write then wraps round to nearly 2^64, and that
    write runs past the end of the buffer.
  */
  lemma UncheckedWritesOverrun(capacity: nat, offset: nat, s1: string, s2: string)
    requires offset < capacity < offset + |s1|
    requires |s2| > 0 && capacity + |s1| + |s2| < SIZE_T_LIMIT
    ensures SnprintfAsWritten(capacity, offset, s1).1 <= capacity
    ensures var next := SnprintfAsWritten(capacity, offset, s1).0;
      next > capacity && SnprintfAsWritten(capacity, next, s2).1 > capacity
  {
    var next := offset + |s1|;
    assert (capacity - next) % SIZE_T_LIMIT == SIZE_T_LIMIT + capacity - next;
  }

  /** The column header written before the first instruction. */
  function Header(variableSize: bool): string
  {
    if variableSize then "# instruction,<param1>,<param2>,...,failure,internal_fragmentation,sparse_free_space\n"
    else "# instruction,<param1>,<param2>,...,failure\n"
  }

  /**
    The log entry of a processed instruction: the instruction, 0 or 1 for
    success or failure, and in variable-size mode the two fragmentation
    counters.  The whole instruction is logged.
  */
  function Entry(line: string, ret: int, variableSize: bool, fragmentation: nat, sparse: nat): (r: string)
    ensures |r| >= |line| + 3
    ensures r[..|line|] == line && r[|line|] == ',' && r[|line| + 1] == (if ret == 0 then '0' else '1')
    ensures r[|r| - 1] == '\n'
    ensures !variableSize ==> |r| == |line| + 3
  {
    line + "," + (if ret == 0 then "0" else "1")
      + (if variableSize then "," + NatToString(fragmentation) + "," + NatToString(sparse) else "")
      + "\n"
  }

  /** How many ',' open `s`: `strtok` skips them before the first token. */
  function LeadingCommas(s: string): (k: nat)
    ensures k <= |s| && forall j :: 0 <= j < k ==> s[j] == ','
    ensures k < |s| ==> s[k] != ','
  {
    if s == [] || s[0] != ',' then 0 else 1 + LeadingCommas(s[1..])
  }

  /**
    The instruction as written to the log: `parse_allocator_request` has run
    `strtok` on the same buffer, which ends the string at the comma after the
    first token, so only that much of the line is logged.
  */
  function LoggedInstructionAsWritten(line: string): (r: string)
    ensures r <= line
  {
    var k := LeadingCommas(line);
    if k == |line| then line else line[..k + FieldLength(line[k..])]
  }

  /** Every request line loses its index and size in the log as written: only "a" or "f" is left. */
  lemma LoggedInstructionKeepsOnlyType(t: string, rest: string)
    requires t == "a" || t == "f"
    ensures LoggedInstructionAsWritten(t + "," + rest) == t
  {
    var line := t + "," + rest;
    assert LeadingCommas(line) == 0;
    FieldLengthOf(t, "," + rest);
    assert line == t + ("," + rest);
  }

  // ---------------------------------------------------------------------
  // The instruction loop

  /** The loop's state: the table, `result`, the log text, `line_number`, and whether it stopped early. */
  datatype Run = Run(table: seq<nat>, result: int, log: string, lineNumber: nat, stopped: bool)

  function Zeros(n: nat): (t: seq<nat>)
    ensures |t| == n && forall i :: 0 <= i < n ==> t[i] == 0
  {
    seq(n, _ => 0)
  }

  /** The state before the first line: an all-NULL table and the log as the header left it. */
  function Start(n: nat, log: string): Run
  {
    Run(Zeros(n), 0, log, 1, false)
  }

  /** One pass of the loop over one line. */
  function Process(run: Run, line: string, variableSize: bool, backend: Backend, capacity: nat): (r: Run)
    ensures |r.table| == |run.table|
    ensures run.stopped ==> r == run
    ensures r.result == 0 ==> run.result == 0
    ensures !run.stopped && Blank(line) ==> r == run.(lineNumber := run.lineNumber + 1)
    ensures !run.stopped && !Blank(line) && |line| >= LINE_BUFFER ==> r.result == -1 && r.table == run.table && r.log == run.log
    ensures !run.stopped && !Blank(line) && |line| < LINE_BUFFER ==>
      var (ret, after) := Request(line, variableSize, run.table, backend.grant(run.lineNumber), backend.freeFails(run.lineNumber));
      && r.table == after && (ret != 0 ==> r.result != 0)
      && (r.stopped || r.log == run.log + Entry(line, ret, variableSize, backend.fragmentation(run.lineNumber), backend.sparse(run.lineNumber)))
    ensures r.stopped && !run.stopped ==> r.result == -1 && r.log == run.log
    ensures |run.log| < capacity ==> |r.log| < capacity
  {
    if run.stopped then run
    else if Blank(line) then run.(lineNumber := run.lineNumber + 1)
    else if |line| >= LINE_BUFFER then run.(result := -1, lineNumber := run.lineNumber + 1)
    else
      var (ret, after) := Request(line, variableSize, run.table, backend.grant(run.lineNumber), backend.freeFails(run.lineNumber));
      var result := if ret != 0 then ret else run.result;
      if |run.log| + |line| + 4 >= capacity then run.(table := after, result := -1, stopped := true)
      else
        var entry := Entry(line, ret, variableSize, backend.fragmentation(run.lineNumber), backend.sparse(run.lineNumber));
        if |entry| > capacity - |run.log| - 1 then run.(table := after, result := -1, stopped := true)
        else Run(after, result, run.log + entry, run.lineNumber + 1, false)
  }

  /** The loop over a sequence of lines. */
  function ProcessAll(run: Run, lines: seq<string>, variableSize: bool, backend: Backend, capacity: nat): Run
    decreases |lines|
  {
    if lines == [] then run
    else Process(ProcessAll(run, lines[..|lines| - 1], variableSize, backend, capacity), lines[|lines| - 1], variableSize, backend, capacity)
  }

  lemma ProcessAllSnoc(run: Run, lines: seq<string>, line: string, variableSize: bool, backend: Backend, capacity: nat)
    ensures ProcessAll(run, lines + [line], variableSize, backend, capacity)
         == Process(ProcessAll(run, lines, variableSize, backend, capacity), line, variableSize, backend, capacity)
  {
    assert (lines + [line])[..|lines|] == lines;
  }

  /** Replaying two runs of lines one after the other is replaying them together. */
  lemma {:induction false} ProcessAllAppend(run: Run, a: seq<string>, b: seq<string>, variableSize: bool, backend: Backend, capacity: nat)
    ensures ProcessAll(run, a + b, variableSize, backend, capacity)
         == ProcessAll(ProcessAll(run, a, variableSize, backend, capacity), b, variableSize, backend, capacity)
    decreases |b|
  {
    if b == [] {
      assert a + b == a;
    } else {
      var b' := b[..|b| - 1];
      assert a + b == (a + b') + [b[|b| - 1]];
      assert b == b' + [b[|b| - 1]];
      ProcessAllSnoc(run, a + b', b[|b| - 1], variableSize, backend, capacity);
      ProcessAllSnoc(ProcessAll(run, a, variableSize, backend, capacity), b', b[|b| - 1], variableSize, backend, capacity);
      ProcessAllAppend(run, a, b', variableSize, backend, capacity);
    }
  }

  /** After the loop has broken off, later lines change nothing. */
  lemma {:induction false} ProcessAllStopped(run: Run, lines: seq<string>, variableSize: bool, backend: Backend, capacity: nat)
    requires run.stopped
    ensures ProcessAll(run, lines, variableSize, backend, capacity) == run
    decreases |lines|
  {
    if lines != [] {
      ProcessAllStopped(run, lines[..|lines| - 1], variableSize, backend, capacity);
    }
  }

  /** A loop that ended at a line boundary, either at the end or after a break, has replayed the whole text. */
  lemma FinishRun(start: Run, text: string, pos: nat, variableSize: bool, backend: Backend, capacity: nat)
    requires pos <= |text| && (pos == 0 || pos == |text| || text[pos - 1] == '\n')
    requires pos < |text| ==> ProcessAll(start, Segments(text[..pos]), variableSize, backend, capacity).stopped
    ensures ProcessAll(start, Segments(text), variableSize, backend, capacity)
         == ProcessAll(start, Segments(text[..pos]), variableSize, backend, capacity)
  {
    var run := ProcessAll(start, Segments(text[..pos]), variableSize, backend, capacity);
    if pos < |text| {
      assert text[..pos] + text[pos..] == text;
      SegmentsSplit(text[..pos], text[pos..]);
      ProcessAllAppend(start, Segments(text[..pos]), Segments(text[pos..]), variableSize, backend, capacity);
      ProcessAllStopped(run, Segments(text[pos..]), variableSize, backend, capacity);
    } else {
      assert text[..pos] == text;
    }
  }

  /**
    Once `result` is non-zero it stays non-zero: every assignment to it in
    the loop stores a non-zero value.
  */
  lemma {:induction false} ResultSticky(run: Run, lines: seq<string>, k: nat, variableSize: bool, backend: Backend, capacity: nat)
    requires k <= |lines|
    ensures ProcessAll(run, lines[..k], variableSize, backend, capacity).result != 0 ==>
            ProcessAll(run, lines, variableSize, backend, capacity).result != 0
    decreases |lines| - k
  {
    if k < |lines| {
      assert lines[..k + 1] == lines[..k] + [lines[k]];
      ProcessAllSnoc(run, lines[..k], lines[k], variableSize, backend, capacity);
      ResultSticky(run, lines, k + 1, variableSize, backend, capacity);
    } else {
      assert lines[..k] == lines;
    }
  }

  /** The loop only breaks off after setting `result` to -1. */
  lemma {:induction false} StopMeansFailure(run: Run, lines: seq<string>, variableSize: bool, backend: Backend, capacity: nat)
    ensures var r := ProcessAll(run, lines, variableSize, backend, capacity);
      r.stopped ==> run.stopped || r.result != 0
    decreases |lines|
  {
    if lines != [] {
      StopMeansFailure(run, lines[..|lines| - 1], variableSize, backend, capacity);
    }
  }

  /**
    A run that ends with `result` 0 never broke off, never met a line too
    long for the buffer, and every instruction in it succeeded.
  */
  lemma CleanRun(run: Run, lines: seq<string>, k: nat, variableSize: bool, backend: Backend, capacity: nat)
    requires !run.stopped && k < |lines|
    requires ProcessAll(run, lines, variableSize, backend, capacity).result == 0
    ensures var before := ProcessAll(run, lines[..k], variableSize, backend, capacity);
      && !before.stopped && before.result == 0
      && (!Blank(lines[k]) ==>
            && |lines[k]| < LINE_BUFFER
            && Request(lines[k], variableSize, before.table, backend.grant(before.lineNumber), backend.freeFails(before.lineNumber)).0 == 0)
  {
    assert lines[..k + 1] == lines[..k] + [lines[k]];
    ProcessAllSnoc(run, lines[..k], lines[k], variableSize, backend, capacity);
    ResultSticky(run, lines, k, variableSize, backend, capacity);
    ResultSticky(run, lines, k + 1, variableSize, backend, capacity);
    StopMeansFailure(run, lines[..k], variableSize, backend, capacity);
  }

  /** The log never outgrows its buffer, and the loop only appends to it. */
  lemma {:induction false} LogBounded(run: Run, lines: seq<string>, variableSize: bool, backend: Backend, capacity: nat)
    requires |run.log| < capacity
    ensures var r := ProcessAll(run, lines, variableSize, backend, capacity);
      |r.log| < capacity && run.log <= r.log && |r.table| == |run.table|
    decreases |lines|
  {
    if lines != [] {
      LogBounded(run, lines[..|lines| - 1], variableSize, backend, capacity);
    }
  }

  // ---------------------------------------------------------------------
  // The leak report

  const HEX_DIGITS: string := "0123456789abcdef"

  function Hex(n: nat): (s: string)
    ensures |s| > 0
  {
    if n < 16 then [HEX_DIGITS[n]] else Hex(n / 16) + [HEX_DIGITS[n % 16]]
  }

  /** `# leak: index=%d ptr=%p`, with `%p` printed the way glibc prints a non-NULL pointer. */
  function LeakLine(i: nat, p: nat): string
  {
    "# leak: index=" + NatToString(i) + " ptr=0x" + Hex(p) + "\n"
  }

  /** The leak lines for the slots below `upTo`, in index order. */
  function LeakLines(table: seq<nat>, upTo: nat): string
    requires upTo <= |table|
  {
    if upTo == 0 then "" else LeakLines(table, upTo - 1) + (if table[upTo - 1] != 0 then LeakLine(upTo - 1, table[upTo - 1]) else "")
  }

  /** Everything the leak scan writes: a line per live slot and, when there is one, the total. */
  function LeakReport(table: seq<nat>): string
  {
    LeakLines(table, |table|) + (if Live(table) > 0 then "# total_leaks=" + NatToString(Live(table)) + "\n" else "")
  }

  /** A slot in use gets its own line; no line names a free slot; a table with none in use writes nothing. */
  lemma {:induction false} LeakLinesExact(table: seq<nat>, upTo: nat)
    requires upTo <= |table|
    ensures LeakLines(table, upTo) == "" <==> Live(table[..upTo]) == 0
    decreases upTo
  {
    if upTo > 0 {
      assert table[..upTo][..upTo - 1] == table[..upTo - 1];
      LeakLinesExact(table, upTo - 1);
    }
  }

  lemma LeakReportEmpty(table: seq<nat>)
    ensures LeakReport(table) == "" <==> Live(table) == 0
  {
    LeakLinesExact(table, |table|);
    assert table[..|table|] == table;
  }

  /**
    `Allocator_malloc_free`: write the header, replay every line of `text`
    on an all-NULL table of `n` slots, then scan for leaks.  The table, the
    result and the log are those of `ProcessAll`; the return value is -1 when
    some slot is still in use, else the loop's result.
  */
  method MallocFree(log: LogBuffer, variableSize: bool, text: string, n: nat, backend: Backend) returns (r: int)
    requires log.Valid()
    modifies log
    ensures log.Valid()
    ensures var run := ProcessAll(Start(n, Clamp(log.capacity, old(log.text) + Header(variableSize))), Segments(text),
                                  variableSize, backend, log.capacity);
      && r == (if Live(run.table) > 0 then -1 else run.result)
      && log.text == Clamp(log.capacity, run.log + LeakReport(run.table))
  {
    log.Write(Header(variableSize));
    var pointers := new nat[n](_ => 0);
    var counter := 0;
    var result := 0;
    var lineNumber: nat := 1;
    var stopped := false;
    ghost var start := Start(n, log.text);
    assert pointers[..] == Zeros(n);
    LiveZero(pointers[..]);
    var pos := 0;
    while pos < |text| && !stopped
      invariant 0 <= pos <= |text| && (pos == 0 || pos == |text| || text[pos - 1] == '\n')
      invariant log.Valid() && pointers.Length == n
      invariant Run(pointers[..], result, log.text, lineNumber, stopped)
             == ProcessAll(start, Segments(text[..pos]), variableSize, backend, log.capacity)
      invariant counter == Live(pointers[..])
      decreases |text| - pos
    {
      var e := ScanLine(text, pos);
      var line := text[pos..e];
      var next := if e < |text| then e + 1 else e;
      NextLine(text, pos, e, next);
      ProcessAllSnoc(start, Segments(text[..pos]), line, variableSize, backend, log.capacity);
      counter, result, lineNumber, stopped := ReplayLine(log, pointers, line, variableSize, backend, counter, result, lineNumber);
      pos := next;
    }
    FinishRun(start, text, pos, variableSize, backend, log.capacity);
    r := LeakScan(log, pointers, result);
  }

  /** The inner scan: from `pos` to the next '\n', or to the end of the text. */
  method ScanLine(text: string, pos: nat) returns (e: nat)
    requires pos <= |text|
    ensures pos <= e <= |text| && '\n' !in text[pos..e] && (e < |text| ==> text[e] == '\n')
  {
    e := pos;
    while e < |text| && text[e] != '\n'
      invariant pos <= e <= |text| && '\n' !in text[pos..e]
    {
      assert text[pos..e + 1] == text[pos..e] + [text[e]];
      e := e + 1;
    }
  }

  /**
    The body of the loop for one line that is not after a break: the
    table, `result`, the log and the line number become what `Process` says,
    and the counter keeps counting the slots in use.
  */
  method ReplayLine(log: LogBuffer, pointers: array<nat>, line: string, variableSize: bool, backend: Backend,
                    counter: int, result: int, lineNumber: nat)
      returns (counter': int, result': int, lineNumber': nat, stopped: bool)
    requires log.Valid() && counter == Live(pointers[..])
    modifies log, pointers
    ensures log.Valid() && counter' == Live(pointers[..])
    ensures Run(pointers[..], result', log.text, lineNumber', stopped)
         == Process(Run(old(pointers[..]), result, old(log.text), lineNumber, false), line, variableSize, backend, log.capacity)
  {
    counter', result', lineNumber', stopped := counter, result, lineNumber + 1, false;
    if |line| == 0 || line[0] == '%' {
      return;
    }
    if |line| >= LINE_BUFFER {
      result' := -1;
      return;
    }
    var ret;
    ret, counter' := ParseRequest(line, variableSize, pointers, counter, backend.grant(lineNumber), backend.freeFails(lineNumber));
    if ret != 0 {
      result' := ret;
    }
    if |log.text| + |line| + 4 >= log.capacity {
      result', lineNumber', stopped := -1, lineNumber, true;
      return;
    }
    var entry := Entry(line, ret, variableSize, backend.fragmentation(lineNumber), backend.sparse(lineNumber));
    if |entry| > log.capacity - |log.text| - 1 {
      result', lineNumber', stopped := -1, lineNumber, true;
      return;
    }
    log.text := log.text + entry;
  }

  /** The line from `pos` to `e`, with its newline when there is one, is the next line of the text. */
  lemma NextLine(text: string, pos: nat, e: nat, next: nat)
    requires pos < |text| && (pos == 0 || text[pos - 1] == '\n')
    requires pos <= e <= |text| && '\n' !in text[pos..e] && (e < |text| ==> text[e] == '\n')
    requires next == (if e < |text| then e + 1 else e)
    ensures next == |text| || text[next - 1] == '\n'
    ensures Segments(text[..next]) == Segments(text[..pos]) + [text[pos..e]]
  {
    if e < |text| {
      BrokenLine(text, pos, e);
    } else {
      assert text[..next] == text;
      FinalLine(text, pos);
    }
  }

  lemma BrokenLine(text: string, pos: nat, e: nat)
    requires pos <= e < |text| && (pos == 0 || text[pos - 1] == '\n')
    requires '\n' !in text[pos..e] && text[e] == '\n'
    ensures Segments(text[..e + 1]) == Segments(text[..pos]) + [text[pos..e]]
  {
    assert text[..e + 1] == text[..pos] + (text[pos..e] + "\n");
    SegmentsSplit(text[..pos], text[pos..e] + "\n");
    SegmentsOfLine(text[pos..e]);
  }

  lemma FinalLine(text: string, pos: nat)
    requires pos < |text| && (pos == 0 || text[pos - 1] == '\n') && '\n' !in text[pos..]
    ensures Segments(text) == Segments(text[..pos]) + [text[pos..]]
  {
    assert text == text[..pos] + text[pos..];
    SegmentsSplit(text[..pos], text[pos..]);
    SegmentsOfLine(text[pos..]);
  }

  /** The leak scan after the loop: one clamped write per slot in use, then the total. */
  method LeakScan(log: LogBuffer, pointers: array<nat>, result: int) returns (r: int)
    requires log.Valid()
    modifies log
    ensures log.Valid() && log.text == Clamp(log.capacity, old(log.text) + LeakReport(pointers[..]))
    ensures r == if Live(pointers[..]) > 0 then -1 else result
  {
    ghost var table := pointers[..];
    ghost var base := log.text;
    var i := 0;
    var leakCount := 0;
    assert Clamp(log.capacity, base + "") == base;
    while i < pointers.Length
      invariant 0 <= i <= pointers.Length && log.Valid()
      invariant log.text == Clamp(log.capacity, base + LeakLines(table, i))
      invariant leakCount == Live(table[..i])
    {
      assert table[..i + 1][..i] == table[..i];
      if pointers[i] != 0 {
        var leak := LeakLine(i, pointers[i]);
        log.Write(leak);
        ClampAppend(log.capacity, base + LeakLines(table, i), leak);
        AppendAssoc(base, LeakLines(table, i), leak);
        leakCount := leakCount + 1;
      } else {
        assert LeakLines(table, i + 1) == LeakLines(table, i) + "";
      }
      i := i + 1;
    }
    assert table[..i] == table;
    if leakCount > 0 {
      var total := "# total_leaks=" + NatToString(leakCount) + "\n";
      log.Write(total);
      ClampAppend(log.capacity, base + LeakLines(table, i), total);
      AppendAssoc(base, LeakLines(table, i), total);
    } else {
      assert LeakReport(table) == LeakLines(table, i) + "";
    }
    r := if leakCount > 0 then -1 else result;
  }

  // ---------------------------------------------------------------------
  // Set-up: the pointer table and the log path

  /**
    The number of pointer slots as written: `num_slabs` for slab, and
    `1 << (num_levels - 1)` for both buddy allocators.
  */
  function PointerCountAsWritten(kind: AllocatorKind, numSlabs: nat, numLevels: nat): (r: nat)
    requires kind == SlabKind || numLevels > 0
    ensures kind != SlabKind ==> 2 * r == Pow2(numLevels)
  {
    match kind
    case SlabKind => numSlabs
    case _ => Pow2(numLevels - 1)
  }

  /**
    Corrected: a slot for every index a trace for this allocator can name.
    The trace generator gives the buddy allocators `2 ** num_levels` slots,
    which for the bitmap buddy is also its number of smallest blocks (the
    leaves of its tree of `num_levels + 1` levels); the slab trace uses one
    slot per slab.
  */
  function PointerCount(kind: AllocatorKind, numSlabs: nat, numLevels: nat): (r: nat)
    requires kind == SlabKind || numLevels > 0
    ensures kind == SlabKind ==> r == numSlabs
    ensures kind != SlabKind ==> r == Pow2(numLevels) == 2 * PointerCountAsWritten(kind, numSlabs, numLevels)
    ensures kind == BitmapKind ==> r == FirstIdx(numLevels + 1) - FirstIdx(numLevels)
  {
    match kind
    case SlabKind => numSlabs
    case _ =>
      Pow2Add(numLevels, 1);
      Pow2(numLevels)
  }

  /** The trace files' folder for logs, `BENCHMARK_FOLDER "/logs"`. */
  const LOG_FOLDER: string := "./benchmarks/logs"

  /** Where the last '.' of `s` is, `strrchr(s, '.')`. */
  function LastDot(s: string): (r: Option<nat>)
    ensures r.Some? ==> r.value < |s| && s[r.value] == '.' && '.' !in s[r.value + 1..]
    ensures r.None? <==> '.' !in s
  {
    if s == [] then None
    else if s[|s| - 1] == '.' then Some(|s| - 1)
    else
      var r := LastDot(s[..|s| - 1]);
      assert r.Some? ==> s[r.value + 1..] == s[..|s| - 1][r.value + 1..] + [s[|s| - 1]];
      assert r.None? ==> s == s[..|s| - 1] + [s[|s| - 1]];
      r
  }

  lemma {:induction false} LastDotAppend(p: string, f: string)
    ensures LastDot(f).Some? ==> LastDot(p + f) == Some(|p| + LastDot(f).value)
    ensures LastDot(f).None? ==> LastDot(p + f) == LastDot(p)
    decreases |f|
  {
    if f == [] {
      assert p + f == p;
    } else {
      var g := f[..|f| - 1];
      assert (p + f)[..|p + f| - 1] == p + g && (p + f)[|p + f| - 1] == f[|f| - 1];
      LastDotAppend(p, g);
    }
  }

  /**
    The log path as written: `<LOG_FOLDER>/<file name>`, with everything
    from its last '.' replaced by ".log", or ".log" appended when there is
    no '.'.  The search covers the folder part too.
  */
  function LogPathAsWritten(fileName: string): string
  {
    var path := LOG_FOLDER + "/" + fileName;
    match LastDot(path)
    case Some(i) => path[..i] + ".log"
    case None => path + ".log"
  }

  /** With no '.' in the file name, the last '.' of the path is the one that opens the folder. */
  lemma FolderDot(fileName: string)
    requires '.' !in fileName
    ensures LastDot(LOG_FOLDER + "/" + fileName) == Some(0)
  {
    var rest := "/benchmarks/logs/" + fileName;
    assert forall j :: 0 <= j < |rest| ==> rest[j] != '.' by {
      forall j | 0 <= j < |rest|
        ensures rest[j] != '.'
      {
        if j >= 17 {
          assert rest[j] == fileName[j - 17];
        }
      }
    }
    AppendAssoc(".", "/benchmarks/logs/", fileName);
    assert LOG_FOLDER + "/" == "." + "/benchmarks/logs/";
    LastDotAppend(".", rest);
  }

  /** The folder has a '.', so the append branch is never taken. */
  lemma LogFolderHasDot(fileName: string)
    ensures LastDot(LOG_FOLDER + "/" + fileName).Some?
  {
    if LastDot(fileName).Some? {
      LastDotAppend(LOG_FOLDER + "/", fileName);
    } else {
      FolderDot(fileName);
    }
  }

  /** A file name without a '.' makes the whole path ".log". */
  lemma LogPathWithoutExtension(fileName: string)
    requires '.' !in fileName
    ensures LogPathAsWritten(fileName) == ".log"
  {
    FolderDot(fileName);
  }

  /** Corrected: the extension of the file name is replaced by ".log", or ".log" appended when it has none. */
  function LogPath(fileName: string): (r: string)
    ensures LastDot(fileName).None? ==> r == LOG_FOLDER + "/" + fileName + ".log"
    ensures LastDot(fileName).Some? ==> r == LOG_FOLDER + "/" + fileName[..LastDot(fileName).value] + ".log"
  {
    match LastDot(fileName)
    case Some(i) => LOG_FOLDER + "/" + fileName[..i] + ".log"
    case None => LOG_FOLDER + "/" + fileName + ".log"
  }

  lemma PrefixOfAppend(p: string, f: string, i: nat)
    requires i <= |f|
    ensures (p + f)[..|p| + i] == p + f[..i]
  {
  }

  /** When the file name has an extension, as written and corrected agree. */
  lemma LogPathAgrees(fileName: string)
    requires LastDot(fileName).Some?
    ensures LogPathAsWritten(fileName) == LogPath(fileName)
  {
    var pre := LOG_FOLDER + "/";
    var i := LastDot(fileName).value;
    LastDotAppend(pre, fileName);
    PrefixOfAppend(pre, fileName, i);
  }
}
