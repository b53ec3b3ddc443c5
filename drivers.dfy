/** The two drivers over already decoded messages: the mid-change gate,
    infer_events_from_lines and parse_file. */
module Drivers {
  import opened OrderBook
  import opened Events
  import opened Extractor

  datatype MessageKind = SnapshotMsg | DeltaMsg | OtherMsg

  /** A decoded line: its "type" and its "a" and "b" level lists. */
  datatype Message = Message(kind: MessageKind, asks: seq<Level>, bids: seq<Level>)

  /** Python's float `!=` on two mid prices: NaN differs from everything,
      itself included. */
  predicate MidDiffers(a: MidPrice, b: MidPrice) {
    a.Invalid? || b.Invalid? || a.value != b.value
  }

  /** The gate of infer_events_from_lines: record the new mid when nothing
      was recorded yet or when it differs from the last recorded one. It
      holds back exactly a valid mid equal to the last recorded valid mid;
      an invalid mid after an invalid one is recorded (NaN != NaN). */
  function MidChanged(last: Option<MidPrice>, mid: MidPrice): (c: bool)
    ensures !c <==> last.Some? && last.value.Valid? && last.value == mid
    ensures last.None? ==> c
    ensures last.Some? && last.value.Invalid? && mid.Valid? ==> c
  {
    last.None? || MidDiffers(last.value, mid)
  }

  /** The gate of parse_file: an invalid -> valid transition first, then the
      same test as MidChanged. (On its first line the source calls isnan
      on None, which raises; that crash is not modelled.) */
  function ParseFileGate(last: Option<MidPrice>, mid: MidPrice): (c: bool)
    ensures !c <==> last.Some? && last.value.Valid? && last.value == mid
  {
    if last.Some? && last.value.Invalid? && mid.Valid? then true
    else last.None? || MidDiffers(last.value, mid)
  }

  /** The state a driver carries from line to line. */
  datatype Replay = Replay(book: Book, last: Option<MidPrice>, events: seq<LobEvent>, mids: seq<MidPrice>)

  /** The recorded mid trace agrees with the last recorded mid, and no two
      consecutive entries of it are the same valid mid. */
  ghost predicate TraceConsistent(r: Replay) {
    && (r.mids == [] <==> r.last.None?)
    && (r.mids != [] ==> r.last == Some(r.mids[|r.mids| - 1]))
    && (forall k :: 0 < k < |r.mids| ==> MidChanged(Some(r.mids[k - 1]), r.mids[k]))
  }

  /** One line of infer_events_from_lines: a snapshot replaces the book and
      leaves the gate alone; any other line is a delta whose events are kept
      only if the mid after it passes the gate. */
  function InferStep(r: Replay, m: Message, idx: int): Replay {
    if m.kind == SnapshotMsg then
      Replay(Book(BuildLevels(m.asks), BuildLevels(m.bids)), r.last, r.events, r.mids)
    else
      var o := ApplyDelta(r.book, m.asks, m.bids, idx, DefaultMaxDepth);
      var mid := o.book.Mid();
      if MidChanged(r.last, mid) then Replay(o.book, Some(mid), r.events + o.events, r.mids + [mid])
      else Replay(o.book, r.last, r.events, r.mids)
  }

  /** infer_events_from_lines over a whole message list (line i has index i). */
  function InferRun(msgs: seq<Message>): (r: Replay)
    ensures TraceConsistent(r)
    ensures |r.mids| <= |msgs|
    decreases |msgs|
  {
    if msgs == [] then Replay(Book(map[], map[]), None, [], [])
    else InferStep(InferRun(msgs[..|msgs| - 1]), msgs[|msgs| - 1], |msgs| - 1)
  }

  /** What parse_file yields for a line that passes the gate. */
  datatype Emission = Emission(index: int, events: seq<LobEvent>, mid: MidPrice)

  datatype ParseState = ParseState(book: Book, last: Option<MidPrice>, out: seq<Emission>)

  /** One line of parse_file: a snapshot or a delta is applied (any other
      type is ignored), then the gate is evaluated for every line. */
  function ParseStep(s: ParseState, m: Message, idx: int, maxDepth: int): ParseState {
    var o :=
      if m.kind == SnapshotMsg then Outcome(Book(BuildLevels(m.asks), BuildLevels(m.bids)), [])
      else if m.kind == DeltaMsg then ApplyDelta(s.book, m.asks, m.bids, idx, maxDepth)
      else Outcome(s.book, []);
    var mid := o.book.Mid();
    if ParseFileGate(s.last, mid) then ParseState(o.book, Some(mid), s.out + [Emission(idx, o.events, mid)])
    else ParseState(o.book, s.last, s.out)
  }

  /** parse_file over a whole message list: the lines that pass the gate,
      in order, each with its own index and mid; consecutive emissions
      never repeat a valid mid. */
  function ParseRun(msgs: seq<Message>, maxDepth: int): (s: ParseState)
    ensures |s.out| <= |msgs|
    ensures s.out == [] <==> s.last.None?
    ensures s.out != [] ==> s.last == Some(s.out[|s.out| - 1].mid)
    ensures forall k :: 0 <= k < |s.out| ==> 0 <= s.out[k].index < |msgs|
    ensures forall k, l :: 0 <= k < l < |s.out| ==> s.out[k].index < s.out[l].index
    ensures forall k :: 0 < k < |s.out| ==> MidChanged(Some(s.out[k - 1].mid), s.out[k].mid)
    decreases |msgs|
  {
    if msgs == [] then ParseState(Book(map[], map[]), None, [])
    else ParseStep(ParseRun(msgs[..|msgs| - 1], maxDepth), msgs[|msgs| - 1], |msgs| - 1, maxDepth)
  }

  /** Over whole runs of parse_file: line |msgs| is yielded exactly when
      the mid after it passes the gate, carrying that line's own index, its
      delta events (none for a snapshot or any other line) and that mid;
      otherwise nothing is yielded. The book always moves on. */
  lemma ParseRunExtend(msgs: seq<Message>, m: Message, maxDepth: int)
    ensures var s := ParseRun(msgs, maxDepth);
            var s' := ParseRun(msgs + [m], maxDepth);
            var o :=
              if m.kind == SnapshotMsg then Outcome(Book(BuildLevels(m.asks), BuildLevels(m.bids)), [])
              else if m.kind == DeltaMsg then ApplyDelta(s.book, m.asks, m.bids, |msgs|, maxDepth)
              else Outcome(s.book, []);
      && s'.book == o.book
      && (ParseFileGate(s.last, o.book.Mid()) ==>
            s'.out == s.out + [Emission(|msgs|, o.events, o.book.Mid())] && s'.last == Some(o.book.Mid()))
      && (!ParseFileGate(s.last, o.book.Mid()) ==> s'.out == s.out && s'.last == s.last)
  {
    assert (msgs + [m])[..|msgs|] == msgs;
  }

  /** The run over the first idx + 1 lines is one more step of
      infer_events_from_lines. */
  lemma InferRunPrefix(msgs: seq<Message>, idx: nat)
    requires idx < |msgs|
    ensures InferRun(msgs[..idx + 1]) == InferStep(InferRun(msgs[..idx]), msgs[idx], idx)
  {
    assert msgs[..idx + 1][..idx] == msgs[..idx];
  }

  /** The run over the first idx + 1 lines is one more step of parse_file. */
  lemma ParseRunPrefix(msgs: seq<Message>, idx: nat, maxDepth: int)
    requires idx < |msgs|
    ensures ParseRun(msgs[..idx + 1], maxDepth)
         == ParseStep(ParseRun(msgs[..idx], maxDepth), msgs[idx], idx, maxDepth)
  {
    assert msgs[..idx + 1][..idx] == msgs[..idx];
  }

  /** The two drivers' gates agree: parse_file's special case for
      invalid -> valid is already covered by the inequality. */
  lemma GatesAgree(last: Option<MidPrice>, mid: MidPrice)
    ensures ParseFileGate(last, mid) == MidChanged(last, mid)
  {
  }

  /** Over whole runs of infer_events_from_lines: appending a snapshot
      replaces the book with the snapshot's maps and leaves the recorded
      mid, the events and the trace as they were;
      appending any other line applies it as a delta whose events and mid
      are appended exactly when the mid passes the gate. */
  lemma InferRunExtend(msgs: seq<Message>, m: Message)
    ensures var r := InferRun(msgs);
            var r' := InferRun(msgs + [m]);
      && (m.kind == SnapshotMsg ==>
            && r'.book == Book(BuildLevels(m.asks), BuildLevels(m.bids))
            && r'.last == r.last && r'.events == r.events && r'.mids == r.mids)
      && (m.kind != SnapshotMsg ==>
            var o := ApplyDelta(r.book, m.asks, m.bids, |msgs|, DefaultMaxDepth);
            && r'.book == o.book
            && (MidChanged(r.last, o.book.Mid()) ==>
                  && r'.events == r.events + o.events && r'.mids == r.mids + [o.book.Mid()]
                  && r'.last == Some(o.book.Mid()))
            && (!MidChanged(r.last, o.book.Mid()) ==>
                  r'.events == r.events && r'.mids == r.mids && r'.last == r.last))
  {
    assert (msgs + [m])[..|msgs|] == msgs;
  }

  /** The first non-snapshot line after construction is always recorded. */
  lemma FirstDeltaRecorded(msgs: seq<Message>)
    requires msgs != [] && msgs[|msgs| - 1].kind != SnapshotMsg
    requires forall i :: 0 <= i < |msgs| - 1 ==> msgs[i].kind == SnapshotMsg
    ensures |InferRun(msgs).mids| == 1
  {
    var init := msgs[..|msgs| - 1];
    NoMidsAfterSnapshots(init);
  }

  lemma {:induction false} NoMidsAfterSnapshots(msgs: seq<Message>)
    requires forall i :: 0 <= i < |msgs| ==> msgs[i].kind == SnapshotMsg
    ensures InferRun(msgs).mids == [] && InferRun(msgs).events == []
    decreases |msgs|
  {
    if msgs != [] {
      var init := msgs[..|msgs| - 1];
      forall i | 0 <= i < |init| ensures init[i].kind == SnapshotMsg {
        assert init[i] == msgs[i];
      }
      NoMidsAfterSnapshots(init);
    }
  }

  /** infer_events_from_lines: a fresh extractor with the default depth,
      fed line by line. */
  method InferEventsFromLines(msgs: seq<Message>) returns (events: seq<LobEvent>, mids: seq<MidPrice>)
    ensures events == InferRun(msgs).events && mids == InferRun(msgs).mids
  {
    var ex := new LobEventExtractor(DefaultMaxDepth);
    events, mids := [], [];
    for idx := 0 to |msgs|
      invariant ex.Valid() && ex.maxDepth == DefaultMaxDepth
      invariant InferRun(msgs[..idx]) == Replay(Book(ex.asks, ex.bids), ex.lastMidPrice, events, mids)
    {
      InferRunPrefix(msgs, idx);
      var m := msgs[idx];
      if m.kind == SnapshotMsg {
        ex.ProcessSnapshot(m.asks, m.bids);
        continue;
      }
      var evs := ex.ProcessDelta(m.asks, m.bids, idx);
      var mid := ex.MidPrice();
      if ex.lastMidPrice.None? || MidDiffers(ex.lastMidPrice.value, mid) {
        ex.lastMidPrice := Some(mid);
        mids := mids + [mid];
        events := events + evs;
      }
    }
    assert msgs[..|msgs|] == msgs;
  }

  /** parse_file: a fresh extractor with the given depth; every line that
      passes the gate yields its index, its events (none for a snapshot)
      and the mid after it. */
  method ParseFile(msgs: seq<Message>, maxDepth: int) returns (out: seq<Emission>)
    ensures out == ParseRun(msgs, maxDepth).out
  {
    var ex := new LobEventExtractor(maxDepth);
    out := [];
    for idx := 0 to |msgs|
      invariant ex.Valid() && ex.maxDepth == maxDepth
      invariant ParseRun(msgs[..idx], maxDepth) == ParseState(Book(ex.asks, ex.bids), ex.lastMidPrice, out)
    {
      ParseRunPrefix(msgs, idx, maxDepth);
      var m := msgs[idx];
      var newEvents := [];
      if m.kind == SnapshotMsg {
        ex.ProcessSnapshot(m.asks, m.bids);
      } else if m.kind == DeltaMsg {
        newEvents := ex.ProcessDelta(m.asks, m.bids, idx);
      }
      var mid := ex.MidPrice();
      var changed;
      if ex.lastMidPrice.Some? && ex.lastMidPrice.value.Invalid? && mid.Valid? {
        changed := true;
      } else {
        changed := ex.lastMidPrice.None? || MidDiffers(ex.lastMidPrice.value, mid);
      }
      if changed {
        ex.lastMidPrice := Some(mid);
        out := out + [Emission(idx, newEvents, mid)];
      }
    }
    assert msgs[..|msgs|] == msgs;
  }
}
