// That the writing side gets on with what it was given.
//
//   WritesCounted   without a failure, the writes completed are those of the messages written and
//                   of the header of the one under way
//   AlwaysReady     until everything sent is written one write is in flight, unless one failed
//   AllDelivered    as many completions as the messages sent have parts put exactly them on the
//                   wire, whatever the order of sends and completions
module PipelineProgress {
  import opened Words
  import opened Seqs
  import opened WritePipeline

  // What the run was told to send, in order.
  function SentIn(es: seq<Event>): seq<Message> {
    if es == [] then [] else SentIn(es[..|es| - 1]) + if es[|es| - 1].Send? then [es[|es| - 1].m] else []
  }

  function Completions(es: seq<Event>): nat {
    if es == [] then 0 else Completions(es[..|es| - 1]) + if es[|es| - 1].Done? then 1 else 0
  }

  // The writes of a message: its header, and its body if there is one.
  function Parts(m: Message): nat {
    if m.body == [] then 1 else 2
  }

  function AllParts(ms: seq<Message>): nat {
    if ms == [] then 0 else AllParts(ms[..|ms| - 1]) + Parts(ms[|ms| - 1])
  }

  ghost predicate NoFailure(es: seq<Event>) {
    forall k :: 0 <= k < |es| ==> !es[k].Fail?
  }

  lemma {:induction false} RunSplit(c: Conn, es: seq<Event>, d: Conn) returns (b: Conn)
    requires Run(c, es, d) && es != []
    ensures Run(c, es[..|es| - 1], b) && Enabled(b, es[|es| - 1]) && d == Step(b, es[|es| - 1])
    decreases |es|
  {
    hide Step, Enabled;
    if |es| == 1 {
      b := c;
      assert es[1..] == [] && es[..0] == [];
    } else {
      b := RunSplit(Step(c, es[0]), es[1..], d);
      assert es[1..][..|es| - 2] == es[..|es| - 1][1..];
    }
  }

  lemma PartsAppend(ms: seq<Message>, m: Message)
    ensures AllParts(ms + [m]) == AllParts(ms) + Parts(m)
  {
    assert (ms + [m])[..|ms + [m]| - 1] == ms;
  }

  // How far the front message is.
  function Begun(c: Conn): nat {
    if c.inflight == [BodyWrite] then 1 else 0
  }

  lemma SafeWrites(c: Conn)
    requires Safe(c)
    ensures |c.inflight| <= 1 && (c.queue == [] ==> c.inflight == [])
    ensures c.inflight == [BodyWrite] ==> c.queue != [] && c.queue[0].body != []
  {
    hide Frames;
  }

  lemma DoneCounts(c: Conn)
    requires c.queue != [] && |c.inflight| == 1 && (c.inflight == [BodyWrite] ==> c.queue[0].body != [])
    ensures var d, m := Step(c, Done(0)), c.queue[0];
      if c.inflight == [HeaderWrite] && m.body != [] then d.written == c.written && Begun(c) == 0 && Begun(d) == 1
      else d.written == c.written + [m] && Begun(d) == 0 && Begun(c) + 1 == Parts(m)
  {
    hide Frames, Frame, HeaderBytes;
    OnlyWrite(c.inflight, 0);
    DropNone([BodyWrite]);
    DropNone([HeaderWrite]);
    assert [HeaderWrite][0] != [BodyWrite][0];
  }

  lemma StepCounts(c: Conn, e: Event)
    requires Safe(c) && Enabled(c, e) && !e.Fail?
    ensures var d := Step(c, e);
      && d.failed == c.failed
      && d.sent == c.sent + (if e.Send? then [e.m] else [])
      && AllParts(d.written) + Begun(d) == AllParts(c.written) + Begun(c) + if e.Done? then 1 else 0
  {
    hide Frames, Frame, HeaderBytes, AllParts, Safe;
    SafeWrites(c);
    match e
    case Done(i) =>
      OnlyWrite(c.inflight, i);
      PartsAppend(c.written, c.queue[0]);
      DoneCounts(c);
    case Send(m) =>
      DropNone(c.inflight);
      assert c.inflight == [] ==> (c.inflight + [HeaderWrite])[0] == HeaderWrite;
    case Close => DropNone(c.sent);
  }

  lemma {:induction false} WritesCounted(es: seq<Event>, c: Conn)
    requires Run(START, es, c) && NoFailure(es)
    ensures Safe(c) && !c.failed && c.sent == SentIn(es)
    ensures Completions(es) == AllParts(c.written) + Begun(c)
  {
    hide Step, Safe, Enabled;
    StartSafe();
    if es != [] {
      var b := RunSplit(START, es, c);
      WritesCounted(es[..|es| - 1], b);
      StepCounts(b, es[|es| - 1]);
      StepSafe(b, es[|es| - 1]);
    }
  }

  lemma AlwaysReady(es: seq<Event>, c: Conn)
    requires Run(START, es, c)
    ensures c.failed || c.written == c.sent || (|c.inflight| == 1 && Enabled(c, Done(0)))
  {
    hide Run, Frames;
    StartSafe();
    RunSafe(START, es, c);
    DropNone(c.written);
  }

  lemma {:induction false} PartsOfPrefix(a: seq<Message>, b: seq<Message>)
    ensures AllParts(a + b) >= AllParts(a) + |b|
    decreases |b|
  {
    if b == [] {
      DropNone(a);
    } else {
      var front, last := b[..|b| - 1], b[|b| - 1];
      PartsOfPrefix(a, front);
      assert front + [last] == b;
      Assoc(a, front, [last]);
      PartsAppend(a + front, last);
    }
  }

  lemma Unfinished(c: Conn)
    requires Safe(c) && !c.failed && c.queue != []
    ensures AllParts(c.sent) > AllParts(c.written) + Begun(c)
  {
    hide Frames;
    var front, rest := c.queue[0], c.queue[1..];
    assert c.queue == [front] + rest;
    Assoc(c.written, [front], rest);
    PartsAppend(c.written, front);
    PartsOfPrefix(c.written + [front], rest);
  }

  // Sends and completions may come in any order, and the socket may be closed to further ones.
  lemma AllDelivered(es: seq<Event>, c: Conn)
    requires Run(START, es, c) && NoFailure(es)
    ensures Completions(es) <= AllParts(SentIn(es))
    ensures Completions(es) == AllParts(SentIn(es)) <==> c.written == SentIn(es)
    ensures Completions(es) == AllParts(SentIn(es)) ==> c.wire == Frames(SentIn(es)) && c.inflight == []
  {
    hide Run, Frames, AllParts;
    WritesCounted(es, c);
    if c.queue == [] {
      DropNone(c.written);
      QuietEnd(c);
    } else {
      Unfinished(c);
      assert c.written != c.sent;
    }
  }

  lemma QuietEnd(c: Conn)
    requires Safe(c) && !c.failed && c.queue == []
    ensures c.inflight == [] && c.wire == Frames(c.written)
  {
    hide Frames;
    DropNone(Frames(c.written));
  }

  // The socket is open until it is closed or a write fails.
  lemma {:induction false} OpenUntilClosed(es: seq<Event>, c: Conn)
    requires Run(START, es, c)
    ensures c.open <==> forall k :: 0 <= k < |es| ==> !es[k].Close? && !es[k].Fail?
  {
    hide Step, Enabled;
    if es != [] {
      var b := RunSplit(START, es, c);
      OpenUntilClosed(es[..|es| - 1], b);
      OpenStep(b, es[|es| - 1]);
    }
  }

  lemma OpenStep(c: Conn, e: Event)
    requires Enabled(c, e)
    ensures Step(c, e).open <==> c.open && !e.Close? && !e.Fail?
  {
  }
}
