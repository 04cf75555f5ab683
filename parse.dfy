/**
  The trace parser of src/helpers/parse.c.  A trace file starts with an
  `i,<kind>` line naming the allocator and a `p,<a>,<b>` line with its two
  parameters; `%` lines before either are comments.  Every later instruction
  is `a,<index>[,<size>]` or `f,<index>`, applied to a table of pointers in
  which 0 stands for NULL.

  File lines are modelled as the strings `fgets` returns, each ending in its
  '\n' when the file has one; the allocator behind a request is represented
  by what its `malloc` and `free` return.
*/
module Parse {
  import opened Text

  datatype AllocatorKind = SlabKind | BuddyKind | BitmapKind

  /** The name an `i,` line gives each kind. */
  function KindName(k: AllocatorKind): string
  {
    match k
    case SlabKind => "slab"
    case BuddyKind => "buddy"
    case BitmapKind => "bitmap"
  }

  /** A line `fgets` returned that starts with '%'. */
  predicate IsComment(line: string)
  {
    |line| > 0 && line[0] == '%'
  }

  /** The first line at or after `pos` that is not a comment, or `|lines|` when there is none. */
  function FirstCommand(lines: seq<string>, pos: nat): (k: nat)
    requires pos <= |lines|
    ensures pos <= k <= |lines|
    ensures forall j :: pos <= j < k ==> IsComment(lines[j])
    ensures k < |lines| ==> !IsComment(lines[k])
    decreases |lines| - pos
  {
    if pos == |lines| || !IsComment(lines[pos]) then pos else FirstCommand(lines, pos + 1)
  }

  /** The `fgets` loop both header parsers open with: read lines until one does not start with '%'. */
  method NextCommand(lines: seq<string>, pos: nat) returns (k: nat)
    requires pos <= |lines|
    ensures k == FirstCommand(lines, pos)
  {
    k := pos;
    while k < |lines| && IsComment(lines[k])
      invariant pos <= k <= |lines|
      invariant FirstCommand(lines, pos) == FirstCommand(lines, k)
    {
      k := k + 1;
    }
  }

  /**
    The line the `line` buffer holds once the loop ends: the first command,
    else the last line read; nothing when no line was read at all.
  */
  function LastRead(lines: seq<string>, pos: nat, k: nat): string
    requires pos <= k <= |lines|
  {
    if k < |lines| then lines[k] else if pos < |lines| then lines[|lines| - 1] else ""
  }

  /** `token[strcspn(token, "\r\n")] = 0`: the characters before the first '\r' or '\n'. */
  function StripLineEnd(s: string): (r: string)
    ensures r <= s && '\r' !in r && '\n' !in r
    ensures |r| < |s| ==> s[|r|] == '\r' || s[|r|] == '\n'
  {
    if s == [] || s[0] == '\r' || s[0] == '\n' then [] else [s[0]] + StripLineEnd(s[1..])
  }

  /**
    The checks of `parse_allocator_create` on its line: the first token must
    be "i" and the second, without its line end, must name a kind.
  */
  function CreateCommand(line: string): (r: Option<AllocatorKind>)
    ensures r.Some? ==> && |Tokens(line)| >= 2 && Tokens(line)[0] == "i"
                        && StripLineEnd(Tokens(line)[1]) == KindName(r.value)
    ensures r.None? && |Tokens(line)| >= 2 && Tokens(line)[0] == "i" ==>
              forall k :: StripLineEnd(Tokens(line)[1]) != KindName(k)
  {
    var t := Tokens(line);
    if |t| == 0 || t[0] != "i" || |t| < 2 then None
    else
      var name := StripLineEnd(t[1]);
      if name == "slab" then Some(SlabKind)
      else if name == "buddy" then Some(BuddyKind)
      else if name == "bitmap" then Some(BitmapKind)
      else None
  }

  /** A comment line never creates an allocator: its first token starts with '%'. */
  lemma CommentCreatesNothing(line: string)
    requires IsComment(line)
    ensures CreateCommand(line) == None
  {
    var k := FieldLength(line);
    assert Tokens(line)[0] == line[..k] && line[..k][0] == '%';
  }

  lemma KindNameHasNoComma(k: AllocatorKind)
    ensures |KindName(k)| > 0 && ',' !in KindName(k) && StripLineEnd(KindName(k)) == KindName(k)
  {
  }

  /** The header line `i,<kind>` the generators write, with or without its newline, creates that kind. */
  lemma CreateCommandOfHeader(k: AllocatorKind, eol: string)
    requires eol == "" || eol == "\n"
    ensures CreateCommand("i," + KindName(k) + eol) == Some(k)
  {
    var name := KindName(k);
    KindNameHasNoComma(k);
    assert ',' !in name + eol;
    TokensSingle(name + eol);
    assert "i," == "i" + ",";
    AppendAssoc("i,", name, eol);
    TokensCons("i", name + eol);
    assert StripLineEnd(name + eol) == name by {
      StripBeforeEol(name, eol);
    }
  }

  lemma {:induction false} StripBeforeEol(s: string, eol: string)
    requires '\r' !in s && '\n' !in s && (eol == "" || eol == "\n")
    ensures StripLineEnd(s + eol) == s
    decreases |s|
  {
    if s == [] {
      assert s + eol == eol;
    } else {
      assert (s + eol)[1..] == s[1..] + eol;
      StripBeforeEol(s[1..], eol);
    }
  }

  /**
    `parse_allocator_create`: skip comment lines, then read the command on
    the first other line; None stands for -1.  `next` is where reading goes on.
  */
  method ParseAllocatorCreate(lines: seq<string>, pos: nat) returns (kind: Option<AllocatorKind>, next: nat)
    requires pos <= |lines|
    ensures var k := FirstCommand(lines, pos);
      && kind == (if k < |lines| then CreateCommand(lines[k]) else None)
      && next == (if k < |lines| then k + 1 else k)
  {
    var k := NextCommand(lines, pos);
    var line := LastRead(lines, pos, k);
    if k == |lines| && pos < |lines| {
      CommentCreatesNothing(line);
    }
    kind := CreateCommand(line);
    next := if k < |lines| then k + 1 else k;
  }

  /** The two numbers of the `p,` line: slab size and slab count, or total size and level count. */
  datatype Params = Params(first: nat, second: nat)

  /**
    The fields of `parse_allocator_create_parameters`: for a known kind, the
    second and third tokens read with `strtoul`; a missing field and every
    field after it stay 0.  The first token is not checked.
  */
  function CreateParameters(line: string, kind: Option<AllocatorKind>): (p: Params)
    ensures kind.None? || |Tokens(line)| < 2 ==> p == Params(0, 0)
    ensures |Tokens(line)| < 3 ==> p.second == 0
    ensures kind.Some? && |Tokens(line)| >= 2 ==> p.first == Strtoul(Tokens(line)[1])
    ensures kind.Some? && |Tokens(line)| >= 3 ==> p.second == Strtoul(Tokens(line)[2])
  {
    var t := Tokens(line);
    if kind.None? || |t| < 2 then Params(0, 0)
    else if |t| < 3 then Params(Strtoul(t[1]), 0)
    else Params(Strtoul(t[1]), Strtoul(t[2]))
  }

  lemma AppendAssoc(a: string, b: string, c: string)
    ensures a + b + c == a + (b + c)
  {
  }

  /** Three comma-free fields joined by commas are read back as three tokens. */
  lemma TokensOfThree(x: string, y: string, z: string)
    requires |x| > 0 && |y| > 0 && |z| > 0 && ',' !in x && ',' !in y && ',' !in z
    ensures Tokens(x + "," + y + "," + z) == [x, y, z]
  {
    TokensSingle(z);
    TokensCons(y, z);
    assert x + "," + y + "," + z == x + "," + (y + "," + z);
    TokensCons(x, y + "," + z);
  }

  /** The header line `p,<a>,<b>` the generators write gives back `a` and `b`. */
  lemma CreateParametersOfHeader(a: nat, b: nat, k: AllocatorKind, eol: string)
    requires a <= ULONG_MAX && b <= ULONG_MAX && (eol == "" || eol == "\n")
    ensures CreateParameters("p," + NatToString(a) + "," + NatToString(b) + eol, Some(k)) == Params(a, b)
  {
    var sa, sb := NatToString(a), NatToString(b);
    NatToStringHasNoComma(a);
    NatToStringHasNoComma(b);
    assert ',' !in sb + eol;
    TokensOfThree("p", sa, sb + eol);
    assert "p," == "p" + ",";
    AppendAssoc("p," + sa + ",", sb, eol);
    AtoiNatToString(a, "");
    assert sa + "" == sa;
    AtoiNatToString(b, eol);
  }

  /** `parse_allocator_create_parameters`: skip comment lines, then read the fields of the line the buffer holds. */
  method ParseAllocatorCreateParameters(lines: seq<string>, pos: nat, kind: Option<AllocatorKind>)
      returns (p: Params, next: nat)
    requires pos <= |lines|
    ensures var k := FirstCommand(lines, pos);
      && p == CreateParameters(LastRead(lines, pos, k), kind)
      && next == (if k < |lines| then k + 1 else k)
  {
    var k := NextCommand(lines, pos);
    p := CreateParameters(LastRead(lines, pos, k), kind);
    next := if k < |lines| then k + 1 else k;
  }

  // ---------------------------------------------------------------------
  // Requests

  /** What a request line asks of the pointer table, before the allocator is called. */
  datatype Verdict =
    | Rejected                              // malformed, index out of range, or bad size
    | Occupied(index: nat)                  // an allocation into a non-NULL slot
    | Vacant(index: nat)                    // a free of a NULL slot
    | Grant(index: nat, size: Option<nat>)  // call malloc, with the size in variable-size mode
    | Release(index: nat)                   // call free on the slot's pointer

  /**
    The checks of `parse_allocator_request`, in its order: the first token is
    "a" or "f"; an index token is there and `0 <= index < |table|`; an
    allocation needs a NULL slot and, in variable-size mode, a size token
    above 0; a free needs a non-NULL slot.
  */
  function Classify(line: string, variableSize: bool, table: seq<nat>): (v: Verdict)
    ensures v.Occupied? || v.Vacant? || v.Grant? || v.Release? ==>
              && |Tokens(line)| >= 2 && 0 <= Atoi(Tokens(line)[1]) < |table|
              && v.index == Atoi(Tokens(line)[1])
    ensures v.Occupied? || v.Grant? ==> Tokens(line)[0] == "a" && (v.Occupied? <==> table[v.index] != 0)
    ensures v.Vacant? || v.Release? ==> Tokens(line)[0] == "f" && (v.Vacant? <==> table[v.index] == 0)
    ensures v.Grant? ==> (variableSize <==> v.size.Some?)
    ensures v.Grant? && variableSize ==> |Tokens(line)| >= 3 && v.size.value == Atoi(Tokens(line)[2]) > 0
  {
    var t := Tokens(line);
    if |t| == 0 || (t[0] != "a" && t[0] != "f") || |t| < 2 then Rejected
    else
      var index := Atoi(t[1]);
      if index < 0 || index >= |table| then Rejected
      else if t[0] == "a" then
        if table[index] != 0 then Occupied(index)
        else if !variableSize then Grant(index, None)
        else if |t| < 3 || Atoi(t[2]) <= 0 then Rejected
        else Grant(index, Some(Atoi(t[2])))
      else if table[index] == 0 then Vacant(index)
      else Release(index)
  }

  /** The number of non-NULL entries. */
  function Live(s: seq<nat>): (c: nat)
    ensures c <= |s|
  {
    if s == [] then 0 else Live(s[..|s| - 1]) + (if s[|s| - 1] != 0 then 1 else 0)
  }

  /** Setting one entry changes the count by what the entry was and what it becomes. */
  lemma {:induction false} LiveUpdate(s: seq<nat>, i: nat, x: nat)
    requires i < |s|
    ensures Live(s[i := x]) + (if s[i] != 0 then 1 else 0) == Live(s) + (if x != 0 then 1 else 0)
    decreases |s|
  {
    var n := |s| - 1;
    assert s[i := x][..n] == if i < n then s[..n][i := x] else s[..n];
    if i < n {
      LiveUpdate(s[..n], i, x);
    }
  }

  /** An all-NULL table has nothing live. */
  lemma {:induction false} LiveZero(s: seq<nat>)
    requires forall i :: 0 <= i < |s| ==> s[i] == 0
    ensures Live(s) == 0
    decreases |s|
  {
    if s != [] {
      LiveZero(s[..|s| - 1]);
    }
  }

  /**
    What `parse_allocator_request` does to the table, given what the
    allocator's malloc returns (0 for NULL) and whether its free returns
    `(void*)-1`: 0 and the updated table when the call succeeds, -1 and the
    table unchanged otherwise.
  */
  function Request(line: string, variableSize: bool, table: seq<nat>, granted: nat, freeFails: bool): (r: (int, seq<nat>))
    ensures |r.1| == |table|
    ensures var v := Classify(line, variableSize, table);
      && (r.0 == 0 <==> (v.Grant? && granted != 0) || (v.Release? && !freeFails))
      && (r.0 != 0 ==> r.0 == -1 && r.1 == table)
      && (r.0 == 0 && v.Grant? ==> r.1 == table[v.index := granted])
      && (r.0 == 0 && v.Release? ==> r.1 == table[v.index := 0])
  {
    match Classify(line, variableSize, table)
    case Grant(i, _) => if granted != 0 then (0, table[i := granted]) else (-1, table)
    case Release(i) => if !freeFails then (0, table[i := 0]) else (-1, table)
    case _ => (-1, table)
  }

  /** A successful request changes the number of live slots by one: up for an allocation, down for a free. */
  lemma RequestLive(line: string, variableSize: bool, table: seq<nat>, granted: nat, freeFails: bool)
    ensures var (ret, after) := Request(line, variableSize, table, granted, freeFails);
      var v := Classify(line, variableSize, table);
      Live(after) == Live(table) + (if ret == 0 && v.Grant? then 1 else 0) - (if ret == 0 && v.Release? then 1 else 0)
  {
    var v := Classify(line, variableSize, table);
    if v.Grant? && granted != 0 {
      LiveUpdate(table, v.index, granted);
    } else if v.Release? && !freeFails {
      LiveUpdate(table, v.index, 0);
    }
  }

  /**
    `parse_allocator_request` on the `pointers` array and the allocation
    counter: the table becomes what `Request` says, and the counter moves
    with the number of live slots, so a counter that counted them still does.
  */
  method ParseRequest(line: string, variableSize: bool, pointers: array<nat>, counter: int, granted: nat, freeFails: bool)
      returns (r: int, counterOut: int)
    modifies pointers
    ensures (r, pointers[..]) == Request(line, variableSize, old(pointers[..]), granted, freeFails)
    ensures counterOut - counter == Live(pointers[..]) - Live(old(pointers[..]))
  {
    var t := Tokens(line);
    if |t| == 0 {
      return -1, counter;
    }
    var isAlloc: bool;
    if t[0] == "a" {
      isAlloc := true;
    } else if t[0] == "f" {
      isAlloc := false;
    } else {
      return -1, counter;
    }
    if |t| < 2 {
      return -1, counter;
    }
    var index := Atoi(t[1]);
    if index < 0 || index >= pointers.Length {
      return -1, counter;
    }
    ghost var before := pointers[..];
    if isAlloc {
      if pointers[index] != 0 {
        return -1, counter;
      }
      if variableSize {
        if |t| < 3 {
          return -1, counter;
        }
        var size := Atoi(t[2]);
        if size <= 0 {
          return -1, counter;
        }
      }
      pointers[index] := granted;
      if pointers[index] == 0 {
        assert pointers[..] == before;
        return -1, counter;
      }
      counterOut := counter + 1;
      LiveUpdate(before, index, granted);
    } else {
      if pointers[index] == 0 {
        return -1, counter;
      }
      if freeFails {
        return -1, counter;
      }
      counterOut := counter - 1;
      pointers[index] := 0;
      LiveUpdate(before, index, 0);
    }
    r := 0;
  }

  /**
    The request type as written: the first `strtok` token goes to `strcmp`
    unchecked, so the code needs the line to have a token at all.
  */
  function RequestTypeAsWritten(line: string): (t: string)
    requires |Tokens(line)| > 0
    ensures |t| > 0 && ',' !in t && t == Tokens(line)[0]
  {
    Tokens(line)[0]
  }

  /**
    The line "," reaches the parser (it is neither empty nor a comment) but
    has no token, so `RequestTypeAsWritten` cannot be applied to it: `strtok`
    returns NULL and `strcmp` reads through it.
  */
  lemma CommaLineHasNoToken()
    ensures |","| > 0 && !IsComment(",") && Tokens(",") == []
  {
    assert FieldLength(",") == 0;
  }

  /** Corrected: a line without tokens is rejected like any other malformed request. */
  lemma TokenlessLineRejected(line: string, variableSize: bool, table: seq<nat>, granted: nat, freeFails: bool)
    requires Tokens(line) == []
    ensures Classify(line, variableSize, table) == Rejected
    ensures Request(line, variableSize, table, granted, freeFails) == (-1, table)
  {
  }
}
