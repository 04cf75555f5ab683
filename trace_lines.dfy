/**
  How the two replay loops (src/helpers/benchmark_allocator.c and
  src/helpers/file_benchmark.c) cut the instruction buffer into lines, and
  how the Python generator joins its lines into a file.  A line is the text
  between two '\n'; the buffer may or may not end in '\n', and no empty line
  is produced after a final '\n'.
*/
module TraceLines {
  /** `sizeof(instruction_str)`: a line must be shorter than this to be copied. */
  const LINE_BUFFER: nat := 256

  /** Where the first '\n' of `text` is, or `|text|` when there is none. */
  function LineLength(text: string): (k: nat)
    ensures k <= |text| && '\n' !in text[..k]
    ensures k < |text| ==> text[k] == '\n'
  {
    if text == [] || text[0] == '\n' then 0
    else
      var k := LineLength(text[1..]);
      assert text[..k + 1] == [text[0]] + text[1..][..k];
      k + 1
  }

  /** The lines of `text` in order. */
  function Segments(text: string): (r: seq<string>)
    ensures forall k :: 0 <= k < |r| ==> '\n' !in r[k]
    decreases |text|
  {
    if text == [] then []
    else
      var k := LineLength(text);
      [text[..k]] + (if k < |text| then Segments(text[k + 1..]) else [])
  }

  /** A line the loops skip without looking further: empty, or a '%' comment. */
  predicate Blank(line: string)
  {
    |line| == 0 || line[0] == '%'
  }

  /** `"\n".join(lines)`: what the Python generator writes to a trace file. */
  function Join(lines: seq<string>): string
  {
    if lines == [] then ""
    else if |lines| == 1 then lines[0]
    else lines[0] + "\n" + Join(lines[1..])
  }

  lemma {:induction false} LineLengthOf(a: string, rest: string)
    requires '\n' !in a
    requires rest == [] || rest[0] == '\n'
    ensures LineLength(a + rest) == |a|
    decreases |a|
  {
    if a == [] {
      assert a + rest == rest;
    } else {
      assert (a + rest)[1..] == a[1..] + rest;
      LineLengthOf(a[1..], rest);
    }
  }

  lemma {:induction false} LineLengthPrefix(p: string, q: string)
    requires LineLength(p) < |p|
    ensures LineLength(p + q) == LineLength(p)
    decreases |p|
  {
    if p[0] != '\n' {
      assert (p + q)[1..] == p[1..] + q;
      LineLengthPrefix(p[1..], q);
    }
  }

  /** Splitting after a newline splits the lines: the loops can treat the buffer a line at a time. */
  lemma {:induction false} SegmentsSplit(p: string, q: string)
    requires p == [] || p[|p| - 1] == '\n'
    ensures Segments(p + q) == Segments(p) + Segments(q)
    decreases |p|
  {
    if p == [] {
      assert p + q == q;
    } else {
      var k := FirstLineEnds(p);
      SegmentsSplit(p[k + 1..], q);
      SegmentsSplitStep(p, q);
    }
  }

  /** A text ending in '\n' has a '\n' inside it, and what follows the first one still ends in '\n'. */
  lemma FirstLineEnds(p: string) returns (k: nat)
    requires p != [] && p[|p| - 1] == '\n'
    ensures k == LineLength(p) < |p|
    ensures p[k + 1..] == [] || p[k + 1..][|p[k + 1..]| - 1] == '\n'
  {
    k := LineLength(p);
  }

  lemma SegmentsSplitStep(p: string, q: string)
    requires LineLength(p) < |p|
    requires var k := LineLength(p); Segments(p[k + 1..] + q) == Segments(p[k + 1..]) + Segments(q)
    ensures Segments(p + q) == Segments(p) + Segments(q)
  {
    var k := LineLength(p);
    var r := p[k + 1..];
    LineLengthPrefix(p, q);
    SliceAppend(p, q, k);
    SegmentsUnfold(p);
    SegmentsUnfold(p + q);
    ConsAssoc(p[..k], Segments(r), Segments(q));
  }

  lemma SliceAppend(p: string, q: string, k: nat)
    requires k < |p|
    ensures (p + q)[..k] == p[..k] && (p + q)[k + 1..] == p[k + 1..] + q
  {
  }

  lemma ConsAssoc(x: string, a: seq<string>, b: seq<string>)
    ensures [x] + (a + b) == [x] + a + b
  {
  }

  lemma SegmentsUnfold(text: string)
    requires LineLength(text) < |text|
    ensures Segments(text) == [text[..LineLength(text)]] + Segments(text[LineLength(text) + 1..])
  {
  }

  /** One line on its own, with or without its newline. */
  lemma SegmentsOfLine(line: string)
    requires '\n' !in line
    ensures Segments(line + "\n") == [line]
    ensures line != [] ==> Segments(line) == [line]
  {
    LineLengthOf(line, "\n");
    assert (line + "\n")[..|line|] == line;
    assert (line + "\n")[|line| + 1..] == [];
    if line != [] {
      LineLengthOf(line, []);
      assert line + [] == line;
    }
  }

  /** Splitting the text the generator writes gives back its lines. */
  lemma {:induction false} SegmentsOfJoin(lines: seq<string>)
    requires forall k :: 0 <= k < |lines| ==> |lines[k]| > 0 && '\n' !in lines[k]
    ensures Segments(Join(lines)) == lines
    decreases |lines|
  {
    if |lines| == 1 {
      SegmentsOfLine(lines[0]);
    } else if |lines| > 1 {
      var a, rest := lines[0], lines[1..];
      assert Join(lines) == (a + "\n") + Join(rest);
      SegmentsOfLine(a);
      SegmentsSplit(a + "\n", Join(rest));
      SegmentsOfJoin(rest);
    }
  }
}
