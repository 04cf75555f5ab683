/**
  `Allocator_benchmark` of src/helpers/file_benchmark.c: size a pointer
  table for the allocator, hand every line of the mapped instruction buffer
  that is neither empty, too long nor a '%' comment to the request handler,
  and report whether any slot is still in use at the end.

  Unlike `Allocator_malloc_free`, this loop keeps no log and never breaks
  off: the handler's return value is ignored.  The allocator is represented
  by its answers (`Backend`), indexed here by the position of the line in
  the buffer.
*/
module FileBenchmark {
  import opened Bits
  import opened Parse
  import opened TraceLines
  import opened BuddyTree
  import opened BenchmarkAllocator

  /**
    The table size: the slab allocator's `free_list_size_max`, `1 << (num_levels - 1)`
    for the buddy allocator and the bitmap's `num_bits` for the bitmap buddy.
    The bitmap buddy's table has a slot for every node of its tree, so it
    is at least as large as the number of blocks it can hand out at once.
  */
  function TableSize(kind: AllocatorKind, numSlabs: nat, numLevels: nat): (r: nat)
    requires kind == SlabKind || numLevels > 0
    ensures kind == SlabKind ==> r == numSlabs
    ensures kind == BuddyKind ==> 2 * r == Pow2(numLevels)
    ensures kind == BitmapKind ==> r == FirstIdx(numLevels + 1) && r >= PointerCount(kind, numSlabs, numLevels)
  {
    match kind
    case SlabKind => numSlabs
    case BuddyKind => Pow2(numLevels - 1)
    case BitmapKind =>
      Pow2Add(numLevels, 1);
      Pow2(numLevels + 1) - 1
  }

  /** A line the loop passes to the handler: `0 < len < 256` and not starting with '%'. */
  predicate Handled(line: string)
  {
    !Blank(line) && |line| < LINE_BUFFER
  }

  /** One line: the handler's effect on the table when the line is handled, else nothing. */
  function Handle(table: seq<nat>, line: string, k: nat, variableSize: bool, backend: Backend): (r: seq<nat>)
    ensures |r| == |table|
    ensures !Handled(line) ==> r == table
    ensures Handled(line) ==> r == Request(line, variableSize, table, backend.grant(k), backend.freeFails(k)).1
  {
    if Handled(line) then Request(line, variableSize, table, backend.grant(k), backend.freeFails(k)).1 else table
  }

  /** The table after the lines `lines`, the k-th line answered by the backend's k-th answers. */
  function ReplayAll(table: seq<nat>, lines: seq<string>, variableSize: bool, backend: Backend): (r: seq<nat>)
    ensures |r| == |table|
    decreases |lines|
  {
    if lines == [] then table
    else
      var n := |lines| - 1;
      Handle(ReplayAll(table, lines[..n], variableSize, backend), lines[n], n, variableSize, backend)
  }

  lemma ReplayAllSnoc(table: seq<nat>, lines: seq<string>, line: string, variableSize: bool, backend: Backend)
    ensures ReplayAll(table, lines + [line], variableSize, backend)
         == Handle(ReplayAll(table, lines, variableSize, backend), line, |lines|, variableSize, backend)
  {
    assert (lines + [line])[..|lines|] == lines;
  }

  /** Lines the handler never sees leave the table as it was. */
  lemma {:induction false} ReplayAllSkipped(table: seq<nat>, lines: seq<string>, variableSize: bool, backend: Backend)
    requires forall k :: 0 <= k < |lines| ==> !Handled(lines[k])
    ensures ReplayAll(table, lines, variableSize, backend) == table
    decreases |lines|
  {
    if lines != [] {
      ReplayAllSkipped(table, lines[..|lines| - 1], variableSize, backend);
    }
  }

  /** Every slot of the table is NULL. */
  predicate AllFree(table: seq<nat>)
  {
    forall i :: 0 <= i < |table| ==> table[i] == 0
  }

  /**
    What `Allocator_benchmark` returns for the buffer `text` and a table of
    `n` slots: -1 for an empty buffer or when a slot is still in use after
    the last line, 0 otherwise.
  */
  function Benchmark(text: string, n: nat, variableSize: bool, backend: Backend): (r: int)
    ensures r == 0 || r == -1
    ensures r == -1 <==> |text| == 0 || !AllFree(ReplayAll(Zeros(n), Segments(text), variableSize, backend))
  {
    if |text| == 0 then -1
    else
      var table := ReplayAll(Zeros(n), Segments(text), variableSize, backend);
      LiveIsZero(table);
      if Live(table) > 0 then -1 else 0
  }

  /** The count of slots in use is zero exactly when every slot is NULL. */
  lemma {:induction false} LiveIsZero(s: seq<nat>)
    ensures Live(s) == 0 <==> AllFree(s)
    decreases |s|
  {
    if s != [] {
      var n := |s| - 1;
      LiveIsZero(s[..n]);
      if Live(s) == 0 {
        assert forall i :: 0 <= i < n ==> s[..n][i] == s[i];
      } else if AllFree(s) {
        LiveZero(s);
      }
    }
  }

  /** A buffer of comments and blank lines leaks nothing. */
  lemma CommentsOnlyPass(text: string, n: nat, variableSize: bool, backend: Backend)
    requires |text| > 0
    requires forall k :: 0 <= k < |Segments(text)| ==> Blank(Segments(text)[k])
    ensures Benchmark(text, n, variableSize, backend) == 0
  {
    ReplayAllSkipped(Zeros(n), Segments(text), variableSize, backend);
  }

  /**
    `Allocator_benchmark`: an empty buffer is refused; otherwise the table
    of `n` NULL slots is replayed over the buffer's lines and then scanned.
    `counter` is `pointer_count`, the number of slots in use.
  */
  method AllocatorBenchmark(text: string, n: nat, variableSize: bool, backend: Backend) returns (r: int, counter: int)
    ensures r == Benchmark(text, n, variableSize, backend)
    ensures |text| > 0 ==> counter == Live(ReplayAll(Zeros(n), Segments(text), variableSize, backend))
  {
    counter := 0;
    if |text| == 0 {
      return -1, counter;
    }
    var pointers := NullTable(n);
    LiveZero(pointers[..]);
    counter := ReplayBuffer(text, pointers, variableSize, backend, counter);
    r := LeakCheck(pointers);
    LiveIsZero(pointers[..]);
  }

  /** The table of `n` slots, each set to NULL one by one. */
  method NullTable(n: nat) returns (pointers: array<nat>)
    ensures fresh(pointers) && pointers[..] == Zeros(n)
  {
    pointers := new nat[n];
    var j := 0;
    while j < n
      invariant 0 <= j <= n && pointers.Length == n
      invariant forall i :: 0 <= i < j ==> pointers[i] == 0
    {
      pointers[j] := 0;
      j := j + 1;
    }
  }

  /**
    The loop over the buffer: `start` is where the current line begins,
    every '\n' ends a line, and a final line without a '\n' is handled
    after the loop.  `k` is the position of the current line.
  */
  method ReplayBuffer(text: string, pointers: array<nat>, variableSize: bool, backend: Backend, counter: int)
      returns (counterOut: int)
    requires counter == Live(pointers[..])
    modifies pointers
    ensures pointers[..] == ReplayAll(old(pointers[..]), Segments(text), variableSize, backend)
    ensures counterOut == Live(pointers[..])
  {
    ghost var table := pointers[..];
    counterOut := counter;
    var start: nat := 0;
    var k: nat := 0;
    var i: nat := 0;
    while i < |text|
      invariant i <= |text| && Scanned(text, start, i, k, table, pointers[..], variableSize, backend)
      invariant counterOut == Live(pointers[..])
    {
      start, k, counterOut := Advance(text, start, i, k, pointers, table, variableSize, backend, counterOut);
      i := i + 1;
    }
    if start < |text| {
      var line := text[start..];
      FinalLine(text, start);
      ReplayAllSnoc(table, Segments(text[..start]), line, variableSize, backend);
      counterOut := HandleLine(pointers, line, k, variableSize, backend, counterOut);
    } else {
      assert text[..start] == text;
    }
  }

  /** `start` begins a line, and no '\n' lies between it and `i`. */
  predicate LineOpen(text: string, start: nat, i: nat)
  {
    && start <= i <= |text|
    && (start == 0 || text[start - 1] == '\n')
    && forall j :: start <= j < i ==> text[j] != '\n'
  }

  /**
    The state of the loop at position `i`: the lines before `start` have
    been handed to the handler, `k` counts them, and `current` is the table
    they leave.
  */
  ghost predicate Scanned(text: string, start: nat, i: nat, k: nat, table: seq<nat>, current: seq<nat>,
                          variableSize: bool, backend: Backend)
  {
    && LineOpen(text, start, i)
    && k == |Segments(text[..start])|
    && current == ReplayAll(table, Segments(text[..start]), variableSize, backend)
  }

  /** One pass of the loop: the character at `i` either ends the current line or extends it. */
  method Advance(text: string, start: nat, i: nat, k: nat, pointers: array<nat>, ghost table: seq<nat>,
                 variableSize: bool, backend: Backend, counter: int) returns (start': nat, k': nat, counterOut: int)
    requires i < |text| && Scanned(text, start, i, k, table, pointers[..], variableSize, backend)
    requires counter == Live(pointers[..])
    modifies pointers
    ensures Scanned(text, start', i + 1, k', table, pointers[..], variableSize, backend)
    ensures counterOut == Live(pointers[..])
  {
    if text[i] == '\n' {
      counterOut := LineEnd(text, start, i, pointers, table, k, variableSize, backend, counter);
      k' := k + 1;
      start' := i + 1;
    } else {
      Extend(text, start, i, k, table, pointers[..], variableSize, backend);
      start', k', counterOut := start, k, counter;
    }
  }

  /** A character other than '\n' leaves the current line open and nothing handled. */
  lemma Extend(text: string, start: nat, i: nat, k: nat, table: seq<nat>, current: seq<nat>,
               variableSize: bool, backend: Backend)
    requires i < |text| && text[i] != '\n' && Scanned(text, start, i, k, table, current, variableSize, backend)
    ensures Scanned(text, start, i + 1, k, table, current, variableSize, backend)
  {
  }

  /** A '\n' at `i`: the line from `start` to `i` goes to the handler. */
  method LineEnd(text: string, start: nat, i: nat, pointers: array<nat>, ghost table: seq<nat>, k: nat,
                 variableSize: bool, backend: Backend, counter: int) returns (counterOut: int)
    requires i < |text| && text[i] == '\n' && Scanned(text, start, i, k, table, pointers[..], variableSize, backend)
    requires counter == Live(pointers[..])
    modifies pointers
    ensures Scanned(text, i + 1, i + 1, k + 1, table, pointers[..], variableSize, backend)
    ensures counterOut == Live(pointers[..])
  {
    var line := text[start..i];
    BrokenLine(text, start, i);
    ReplayAllSnoc(table, Segments(text[..start]), line, variableSize, backend);
    counterOut := HandleLine(pointers, line, k, variableSize, backend, counter);
  }

  /** The handled-line test and the call of the handler for one line. */
  method HandleLine(pointers: array<nat>, line: string, k: nat, variableSize: bool, backend: Backend, counter: int)
      returns (counterOut: int)
    modifies pointers
    ensures pointers[..] == Handle(old(pointers[..]), line, k, variableSize, backend)
    ensures counterOut - counter == Live(pointers[..]) - Live(old(pointers[..]))
  {
    counterOut := counter;
    if |line| > 0 && |line| < LINE_BUFFER && line[0] != '%' {
      var ret, c := ParseRequest(line, variableSize, pointers, counter, backend.grant(k), backend.freeFails(k));
      counterOut := c;
    }
  }

  /** The final scan: -1 at the first slot still in use, 0 when there is none. */
  method LeakCheck(pointers: array<nat>) returns (r: int)
    ensures r == (if Live(pointers[..]) > 0 then -1 else 0)
  {
    LiveIsZero(pointers[..]);
    var i := 0;
    while i < pointers.Length
      invariant 0 <= i <= pointers.Length
      invariant forall j :: 0 <= j < i ==> pointers[j] == 0
    {
      if pointers[i] != 0 {
        return -1;
      }
      i := i + 1;
    }
    return 0;
  }
}
