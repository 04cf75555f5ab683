/**
  The lines of a trace file as both generators write them and the replayer
  reads them: "a,<index>,<size>" (the size left out for a slab trace) for an
  allocation and "f,<index>" for a free, together with the live table a
  trace leaves behind when it is replayed in order.
*/
module TraceEvents {
  import opened Text

  /** One accepted allocation-table change, in trace order. */
  datatype Event = Alloc(idx: nat, size: nat) | Free(idx: nat)

  /** The text written for an event: the size is written unless the allocator type is "slab". */
  function Render(e: Event, allocType: string): string {
    match e
    case Alloc(i, s) => "a," + NatToString(i) + (if allocType != "slab" then "," + NatToString(s) else "")
    case Free(i) => "f," + NatToString(i)
  }

  function RenderAll(events: seq<Event>, allocType: string): (r: seq<string>)
    ensures |r| == |events|
    ensures forall k :: 0 <= k < |events| ==> r[k] == Render(events[k], allocType)
  {
    seq(|events|, k requires 0 <= k < |events| => Render(events[k], allocType))
  }

  lemma RenderAllAppend(events: seq<Event>, e: Event, allocType: string)
    ensures RenderAll(events + [e], allocType) == RenderAll(events, allocType) + [Render(e, allocType)]
  {
    assert (events + [e])[..|events|] == events;
  }

  /**
    The live table (index to size) after the events, or None when an event
    allocates a live index or frees one that is not live.
  */
  function LiveReplay(events: seq<Event>): Option<map<nat, nat>>
    decreases |events|
  {
    if events == [] then Some(map[])
    else
      match LiveReplay(events[..|events| - 1])
      case None => None
      case Some(m) =>
        match events[|events| - 1]
        case Alloc(i, s) => if i in m then None else Some(m[i := s])
        case Free(i) => if i !in m then None else Some(m - {i})
  }

  lemma LiveReplayAppend(events: seq<Event>, e: Event)
    ensures LiveReplay(events + [e]) ==
      match LiveReplay(events)
      case None => None
      case Some(m) =>
        match e
        case Alloc(i, s) => if i in m then None else Some(m[i := s])
        case Free(i) => if i !in m then None else Some(m - {i})
  {
    assert (events + [e])[..|events|] == events;
  }

  /** Every prefix of a replayable trace replays too. */
  lemma {:induction false} LiveReplayPrefix(events: seq<Event>, n: nat)
    requires n <= |events|
    requires LiveReplay(events).Some?
    ensures LiveReplay(events[..n]).Some?
    decreases |events|
  {
    if n < |events| {
      var m := |events| - 1;
      assert events[..m][..n] == events[..n];
      LiveReplayPrefix(events[..m], n);
    } else {
      assert events[..n] == events;
    }
  }

  /** The events of the trace that name index `i`, in order. */
  function Project(events: seq<Event>, i: nat): (r: seq<Event>)
    ensures |r| <= |events|
    ensures forall k :: 0 <= k < |r| ==> r[k].idx == i
  {
    if events == [] then []
    else
      var e := events[|events| - 1];
      Project(events[..|events| - 1], i) + (if e.idx == i then [e] else [])
  }

  /** Alloc and free strictly alternate, starting with an alloc. */
  predicate Alternates(p: seq<Event>) {
    forall k :: 0 <= k < |p| ==> (p[k].Alloc? <==> k % 2 == 0)
  }

  /**
    In a replayable trace the alloc and free events of every index strictly
    alternate starting with an alloc, and the index is live at the end
    exactly when its last event is an alloc, of the size the table holds.
  */
  lemma {:induction false} ReplayAlternates(events: seq<Event>, i: nat)
    requires LiveReplay(events).Some?
    ensures var m := LiveReplay(events).value;
      && Alternates(Project(events, i))
      && (i in m <==> |Project(events, i)| % 2 == 1)
      && (i in m ==> Project(events, i)[|Project(events, i)| - 1] == Alloc(i, m[i]))
    decreases |events|
  {
    if events != [] {
      ReplayAlternates(events[..|events| - 1], i);
    }
  }

  /**
    Conversely, a trace in which every index alternates alloc/free starting
    with an alloc replays without a rejected event.
  */
  lemma {:induction false} AlternatesReplays(events: seq<Event>)
    requires forall i: nat :: Alternates(Project(events, i))
    ensures LiveReplay(events).Some?
    ensures forall i: nat :: i in LiveReplay(events).value <==> |Project(events, i)| % 2 == 1
    decreases |events|
  {
    if events != [] {
      var n := |events| - 1;
      var e := events[n];
      forall i: nat ensures Alternates(Project(events[..n], i)) {
        var p := Project(events[..n], i);
        assert Project(events, i)[..|p|] == p;
      }
      AlternatesReplays(events[..n]);
      var m := LiveReplay(events[..n]).value;
      var p := Project(events[..n], e.idx);
      var q := Project(events, e.idx);
      assert q == p + [e];
      assert q[|p|] == e;
      forall i: nat ensures i in LiveReplay(events).value <==> |Project(events, i)| % 2 == 1 {
        if i != e.idx {
          assert Project(events, i) == Project(events[..n], i);
        }
      }
    }
  }
}
