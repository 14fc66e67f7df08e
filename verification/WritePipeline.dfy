// The writing side of a connection: include/networking/net_connection.h with the messages of
// net_message.h and the queue of net_tsqueue.h.
//
//   RunSafe          what every interleaving of sends, completions, failures and closes keeps
//   OneWriteAtATime  while the socket is open a write is in flight exactly when the queue is
//                    not empty, and never more than one
//   WireDecodes      a reader that honours the size field recovers exactly the messages
//                    written so far, in the order they were sent
module WritePipeline {
  import opened Words
  import opened Seqs

  // ---------- Messages ----------

  datatype Header = Header(id: uint32, size: uint32)

  datatype Message = Message(header: Header, body: seq<byte>)

  // operator<< appends the object's bytes and stores the body size in the header.
  function Pushed(m: Message, bytes: seq<byte>): Message {
    var body := m.body + bytes;
    Message(m.header.(size := |body| % WORD), body)
  }

  // operator>> takes the last bytes off.
  function Popped(m: Message, n: nat): (r: (Message, seq<byte>))
    requires n <= |m.body|
  {
    var i := |m.body| - n;
    (Message(m.header.(size := i % WORD), m.body[..i]), m.body[i..])
  }

  // The size field says how long the body is.
  predicate SizeStored(m: Message) {
    m.header.size == |m.body| % WORD
  }

  function PushAll(m: Message, objects: seq<seq<byte>>): Message {
    if objects == [] then m else Pushed(PushAll(m, objects[..|objects| - 1]), objects[|objects| - 1])
  }

  // Pops objects of the given sizes, the last one first.
  function PopAll(m: Message, sizes: seq<nat>): (r: (Message, seq<seq<byte>>))
    requires TotalSize(sizes) <= |m.body|
    decreases |sizes|
  {
    if sizes == [] then (m, []) else
    var last := sizes[|sizes| - 1];
    var (rest, bytes) := Popped(m, last);
    var (rest', objects) := PopAll(rest, sizes[..|sizes| - 1]);
    (rest', objects + [bytes])
  }

  function TotalSize(sizes: seq<nat>): nat {
    if sizes == [] then 0 else TotalSize(sizes[..|sizes| - 1]) + sizes[|sizes| - 1]
  }

  function Sizes(objects: seq<seq<byte>>): seq<nat> {
    seq(|objects|, k requires 0 <= k < |objects| => |objects[k]|)
  }

  lemma PopUndoesPush(m: Message, bytes: seq<byte>)
    requires SizeStored(m)
    ensures Popped(Pushed(m, bytes), |bytes|) == (m, bytes)
  {
    var p := Pushed(m, bytes);
    assert p.body[..|m.body|] == m.body && p.body[|m.body|..] == bytes;
  }

  lemma {:induction false} PushedTotal(m: Message, objects: seq<seq<byte>>)
    ensures |PushAll(m, objects).body| == |m.body| + TotalSize(Sizes(objects))
    ensures SizeStored(m) ==> SizeStored(PushAll(m, objects))
  {
    if objects != [] {
      var front := objects[..|objects| - 1];
      PushedTotal(m, front);
      assert Sizes(objects)[..|objects| - 1] == Sizes(front);
    }
  }

  // Whatever was streamed in comes out again, last in first out, and leaves the message as it was.
  lemma {:induction false} PopAllUndoesPushAll(m: Message, objects: seq<seq<byte>>)
    requires SizeStored(m)
    ensures TotalSize(Sizes(objects)) <= |PushAll(m, objects).body|
    ensures PopAll(PushAll(m, objects), Sizes(objects)) == (m, objects)
  {
    PushedTotal(m, objects);
    if objects != [] {
      var front, last := objects[..|objects| - 1], objects[|objects| - 1];
      assert Sizes(objects)[..|objects| - 1] == Sizes(front);
      PushedTotal(m, front);
      PopUndoesPush(PushAll(m, front), last);
      PopAllUndoesPushAll(m, front);
      assert front + [last] == objects;
    }
  }

  class MutableMessage {
    var header: Header
    var body: seq<byte>

    function Value(): Message
      reads this
    {
      Message(header, body)
    }

    constructor (id: uint32)
      ensures Value() == Message(Header(id, 0), [])
    {
      header, body := Header(id, 0), [];
    }

    method Push(data: seq<byte>)
      modifies this
      ensures Value() == Pushed(old(Value()), data)
    {
      body := body + data;
      header := header.(size := |body| % WORD);
    }

    method Pop(n: nat) returns (data: seq<byte>)
      requires n <= |body|
      modifies this
      ensures (Value(), data) == Popped(old(Value()), n)
    {
      var i := |body| - n;
      data := body[i..];
      body := body[..i];
      header := header.(size := |body| % WORD);
    }
  }

  // ---------- The queue ----------

  class TsQueue<T> {
    var deQueue: seq<T>

    constructor ()
      ensures deQueue == []
    {
      deQueue := [];
    }

    method Front() returns (t: T)
      requires deQueue != []
      ensures t == deQueue[0]
    {
      t := deQueue[0];
    }

    method PopFront() returns (t: T)
      requires deQueue != []
      modifies this
      ensures [t] + deQueue == old(deQueue)
    {
      t := deQueue[0];
      deQueue := deQueue[1..];
    }

    method PushBack(item: T)
      modifies this
      ensures deQueue == old(deQueue) + [item]
    {
      deQueue := deQueue + [item];
    }

    method Empty() returns (r: bool)
      ensures r <==> deQueue == []
    {
      r := deQueue == [];
    }
  }

  // ---------- The connection as a transition system ----------

  datatype Write = HeaderWrite | BodyWrite

  // inflight: asynchronous writes started and not completed; wire: the bytes the socket took;
  // sent: messages in the order their Send handlers ran; written: messages completely written.
  datatype Conn = Conn(queue: seq<Message>, open: bool, inflight: seq<Write>,
                       wire: seq<byte>, sent: seq<Message>, written: seq<Message>, failed: bool)

  datatype Event =
    | Send(m: Message)
    | Done(i: nat)
    | Fail(i: nat, taken: nat)
    | Close

  function HeaderBytes(h: Header): (s: seq<byte>)
    ensures |s| == 8
  {
    Le32(h.id) + Le32(h.size)
  }

  function Frame(m: Message): seq<byte> {
    HeaderBytes(m.header) + m.body
  }

  function Frames(ms: seq<Message>): seq<byte> {
    if ms == [] then [] else Frames(ms[..|ms| - 1]) + Frame(ms[|ms| - 1])
  }

  // The buffer of a write: a part of the front message.
  function Buffer(c: Conn, w: Write): seq<byte>
    requires c.queue != []
  {
    if w.HeaderWrite? then HeaderBytes(c.queue[0].header) else c.queue[0].body
  }

  // Completions belong to a started write. Its buffer is the front message, which is there in
  // every reachable state. A failed write may have put a part of its buffer on the wire.
  predicate Enabled(c: Conn, e: Event) {
    match e
    case Send(_) => true
    case Done(i) => i < |c.inflight| && c.queue != []
    case Fail(i, taken) => i < |c.inflight| && c.queue != [] && taken <= |Buffer(c, c.inflight[i])|
    case Close => true
  }

  function Without(ws: seq<Write>, i: nat): seq<Write>
    requires i < |ws|
  {
    ws[..i] + ws[i + 1..]
  }

  // The handlers' common end: drop the front, and write the next header if there is one.
  function PopAndContinue(c: Conn): Conn
    requires c.queue != []
  {
    var rest := c.queue[1..];
    c.(queue := rest, written := c.written + [c.queue[0]],
       inflight := c.inflight + if rest != [] then [HeaderWrite] else [])
  }

  function Step(c: Conn, e: Event): Conn
    requires Enabled(c, e)
  {
    match e
    case Send(m) =>
      c.(queue := c.queue + [m], sent := c.sent + [m],
         inflight := c.inflight + if c.queue == [] then [HeaderWrite] else [])
    case Done(i) =>
      var w := c.inflight[i];
      var d := c.(inflight := Without(c.inflight, i), wire := c.wire + Buffer(c, w));
      if w.HeaderWrite? && |c.queue[0].body| > 0 then d.(inflight := d.inflight + [BodyWrite]) else PopAndContinue(d)
    case Fail(i, taken) =>
      c.(inflight := Without(c.inflight, i), wire := c.wire + Buffer(c, c.inflight[i])[..taken],
         open := false, failed := true)
    case Close => c.(open := false)
  }

  const START: Conn := Conn([], true, [], [], [], [], false)

  ghost predicate Run(c: Conn, es: seq<Event>, d: Conn)
    decreases |es|
  {
    if es == [] then d == c else Enabled(c, es[0]) && Run(Step(c, es[0]), es[1..], d)
  }

  // What is on the wire behind the complete frames.
  predicate PartialFrame(c: Conn, tail: seq<byte>) {
    if c.failed then c.queue != [] && tail <= Frame(c.queue[0])
    else if c.inflight == [BodyWrite] then c.queue != [] && tail == HeaderBytes(c.queue[0].header)
    else tail == []
  }

  // Safety of the pipeline.
  ghost predicate Safe(c: Conn) {
    && c.sent == c.written + c.queue
    && |c.inflight| <= 1
    && (c.failed ==> c.inflight == [] && c.queue != [] && !c.open)
    && (!c.failed ==> (c.inflight != [] <==> c.queue != []))
    && (c.inflight == [BodyWrite] ==> c.queue[0].body != [])
    && exists tail :: c.wire == Frames(c.written) + tail && PartialFrame(c, tail)
  }

  lemma FramesAppend(ms: seq<Message>, m: Message)
    ensures Frames(ms + [m]) == Frames(ms) + Frame(m)
  {
    assert (ms + [m])[..|ms + [m]| - 1] == ms;
  }

  lemma SendSafe(c: Conn, m: Message)
    requires Safe(c)
    ensures Safe(Step(c, Send(m)))
  {
    hide Frames, Frame;
    var d := Step(c, Send(m));
    Assoc(c.written, c.queue, [m]);
    var tail :| c.wire == Frames(c.written) + tail && PartialFrame(c, tail);
    DropNone(c.inflight);
    assert c.queue == [] ==> d.inflight == [HeaderWrite] && d.inflight[0] != BodyWrite;
    assert PartialFrame(d, tail);
  }

  // The front message is complete: its frame joins the written ones.
  lemma PopSafe(c: Conn, tail: seq<byte>)
    requires c.queue != [] && c.inflight == [] && !c.failed
    requires c.sent == c.written + c.queue
    requires c.wire == Frames(c.written) + tail && tail == Frame(c.queue[0])
    ensures Safe(PopAndContinue(c))
  {
    hide Frames, Frame;
    var d := PopAndContinue(c);
    FramesAppend(c.written, c.queue[0]);
    assert c.queue == [c.queue[0]] + c.queue[1..];
    Assoc(c.written, [c.queue[0]], c.queue[1..]);
    DropNone(d.wire);
    assert d.inflight == [] || d.inflight[0] == HeaderWrite;
    assert PartialFrame(d, []);
  }

  lemma OnlyWrite(ws: seq<Write>, i: nat)
    requires |ws| <= 1 && i < |ws|
    ensures i == 0 && ws == [ws[0]] && Without(ws, 0) == []
  {
  }

  lemma DoneSafe(c: Conn, i: nat)
    requires Safe(c) && Enabled(c, Done(i))
    ensures Safe(Step(c, Done(i)))
  {
    hide Frames;
    var w, front := c.inflight[i], c.queue[0];
    OnlyWrite(c.inflight, i);
    var tail :| c.wire == Frames(c.written) + tail && PartialFrame(c, tail);
    var d := c.(inflight := [], wire := c.wire + Buffer(c, w));
    Assoc(Frames(c.written), tail, Buffer(c, w));
    if w.HeaderWrite? && |front.body| > 0 {
      DropNone(HeaderBytes(front.header));
      assert PartialFrame(d.(inflight := [BodyWrite]), tail + Buffer(c, w));
    } else {
      if w.HeaderWrite? {
        DropNone(HeaderBytes(front.header));
        assert front.body == [];
      }
      assert tail + Buffer(c, w) == Frame(front);
      PopSafe(d, tail + Buffer(c, w));
    }
  }

  lemma FailSafe(c: Conn, i: nat, taken: nat)
    requires Safe(c) && Enabled(c, Fail(i, taken))
    ensures Safe(Step(c, Fail(i, taken)))
  {
    hide Frames;
    var w, front := c.inflight[i], c.queue[0];
    OnlyWrite(c.inflight, i);
    var tail :| c.wire == Frames(c.written) + tail && PartialFrame(c, tail);
    var part := Buffer(c, w)[..taken];
    Assoc(Frames(c.written), tail, part);
    DropNone(part);
    assert tail + part <= Frame(front);
    assert PartialFrame(Step(c, Fail(i, taken)), tail + part);
  }

  lemma StepSafe(c: Conn, e: Event)
    requires Safe(c) && Enabled(c, e)
    ensures Safe(Step(c, e))
  {
    match e
    case Send(m) => SendSafe(c, m);
    case Done(i) => DoneSafe(c, i);
    case Fail(i, taken) => FailSafe(c, i, taken);
    case Close =>
      var tail :| c.wire == Frames(c.written) + tail && PartialFrame(c, tail);
      assert PartialFrame(Step(c, e), tail);
  }

  lemma {:induction false} RunSafe(c: Conn, es: seq<Event>, d: Conn)
    requires Safe(c) && Run(c, es, d)
    ensures Safe(d)
    decreases |es|
  {
    hide Safe, Step, Enabled;
    if es != [] {
      StepSafe(c, es[0]);
      RunSafe(Step(c, es[0]), es[1..], d);
    }
  }

  lemma StartSafe()
    ensures Safe(START)
  {
    DropNone(Frames([]));
    assert PartialFrame(START, []);
  }

  // In every state an interleaving can reach from the start.
  lemma OneWriteAtATime(es: seq<Event>, c: Conn)
    requires Run(START, es, c)
    ensures |c.inflight| <= 1
    ensures c.open ==> (c.inflight != [] <==> c.queue != [])
    ensures c.failed ==> c.inflight == []
    ensures c.sent == c.written + c.queue
  {
    hide Run;
    StartSafe();
    RunSafe(START, es, c);
  }

  // After a failed write nothing is started any more, whatever is sent later.
  lemma {:induction false} NothingAfterFailure(c: Conn, es: seq<Event>, d: Conn)
    requires Safe(c) && c.failed && Run(c, es, d)
    ensures d.failed && d.inflight == [] && d.wire == c.wire && d.written == c.written
    decreases |es|
  {
    hide Safe, Step, Enabled;
    if es != [] {
      StepSafe(c, es[0]);
      FailedStep(c, es[0]);
      NothingAfterFailure(Step(c, es[0]), es[1..], d);
    } else {
      FailedIsQuiet(c);
    }
  }

  lemma FailedIsQuiet(c: Conn)
    ensures Safe(c) && c.failed ==> c.inflight == [] && c.queue != []
  {
  }

  lemma FailedStep(c: Conn, e: Event)
    requires Safe(c) && c.failed && Enabled(c, e)
    ensures var d := Step(c, e); d.failed && d.wire == c.wire && d.written == c.written
  {
  }

  // ---------- The handlers ----------

  // m_qMessagesOut and m_socket; the pending completion handlers and the history of the wire
  // are kept beside them.
  class Connection {
    const messagesOut: TsQueue<Message>
    var socketOpen: bool
    var pending: seq<Write>
    ghost var wire: seq<byte>
    ghost var sent: seq<Message>
    ghost var written: seq<Message>
    ghost var failed: bool

    ghost function State(): Conn
      reads this, messagesOut
    {
      Conn(messagesOut.deQueue, socketOpen, pending, wire, sent, written, failed)
    }

    constructor ()
      ensures fresh(messagesOut) && State() == START
    {
      messagesOut := new TsQueue<Message>();
      socketOpen, pending := true, [];
      wire, sent, written, failed := [], [], [], false;
    }

    // The handler Send posts.
    method SendHandler(msg: Message)
      modifies this, messagesOut
      ensures State() == Step(old(State()), Send(msg))
    {
      var empty := messagesOut.Empty();
      var writingMessage := !empty;
      messagesOut.PushBack(msg);
      sent := sent + [msg];
      if !writingMessage {
        WriteHeader();
      }
      assert writingMessage ==> pending + [] == old(pending);
    }

    method WriteHeader()
      modifies this`pending
      ensures pending == old(pending) + [HeaderWrite]
    {
      pending := pending + [HeaderWrite];
    }

    method WriteBody()
      modifies this`pending
      ensures pending == old(pending) + [BodyWrite]
    {
      pending := pending + [BodyWrite];
    }

    method PopAndContinueWriting()
      requires messagesOut.deQueue != []
      modifies this, messagesOut
      ensures State() == PopAndContinue(old(State()))
    {
      var done := messagesOut.PopFront();
      written := written + [done];
      var empty := messagesOut.Empty();
      if !empty {
        WriteHeader();
      }
    }

    // The completion handler of the i-th pending write, without an error.
    method WriteCompleted(i: nat)
      requires Enabled(State(), Done(i))
      modifies this, messagesOut
      ensures State() == Step(old(State()), Done(i))
    {
      var w := pending[i];
      wire := wire + Buffer(State(), w);
      pending := pending[..i] + pending[i + 1..];
      if w == HeaderWrite {
        var front := messagesOut.Front();
        if |front.body| > 0 {
          WriteBody();
        } else {
          PopAndContinueWriting();
        }
      } else {
        PopAndContinueWriting();
      }
    }

    // The same with an error; taken bytes of the buffer had reached the wire.
    method WriteFailed(i: nat, ghost taken: nat)
      requires Enabled(State(), Fail(i, taken))
      modifies this
      ensures State() == Step(old(State()), Fail(i, taken))
    {
      wire := wire + Buffer(State(), pending[i])[..taken];
      pending := pending[..i] + pending[i + 1..];
      socketOpen := false;
      failed := true;
    }

    method CloseSocket()
      modifies this`socketOpen
      ensures State() == Step(old(State()), Close)
    {
      socketOpen := false;
    }
  }

  // ---------- Reading the wire by its size fields ----------

  function ParseFrames(w: seq<byte>): seq<Message>
    decreases |w|
  {
    if |w| < 8 then [] else
    var header := Header(FromLe32(w[..4]), FromLe32(w[4..8]));
    if |w| < 8 + header.size then [] else
    [Message(header, w[8..8 + header.size])] + ParseFrames(w[8 + header.size..])
  }

  ghost predicate AllSized(ms: seq<Message>) {
    forall k :: 0 <= k < |ms| ==> ms[k].header.size == |ms[k].body|
  }

  lemma HeaderReads(h: Header, rest: seq<byte>)
    ensures var w := HeaderBytes(h) + rest;
      |w| >= 8 && FromLe32(w[..4]) == h.id && FromLe32(w[4..8]) == h.size && w[8..] == rest
  {
    hide Le32, FromLe32;
    var w := HeaderBytes(h) + rest;
    assert w[..4] == Le32(h.id) && w[4..8] == Le32(h.size);
    Le32Inverse(h.id);
    Le32Inverse(h.size);
  }

  lemma ParseOne(m: Message, rest: seq<byte>)
    requires m.header.size == |m.body|
    ensures ParseFrames(Frame(m) + rest) == [m] + ParseFrames(rest)
  {
    hide HeaderBytes, FromLe32;
    var w, n := Frame(m) + rest, m.header.size;
    Assoc(HeaderBytes(m.header), m.body, rest);
    HeaderReads(m.header, m.body + rest);
    assert w[8..8 + n] == w[8..][..n] == m.body;
    assert w[8 + n..] == w[8..][n..] == rest;
  }

  lemma ParseIncomplete(m: Message, part: seq<byte>)
    requires m.header.size == |m.body|
    requires part <= Frame(m) && part != Frame(m)
    ensures ParseFrames(part) == []
  {
    hide HeaderBytes, FromLe32;
    if |part| >= 8 {
      HeaderReads(m.header, m.body);
      assert part[..4] == Frame(m)[..4] && part[4..8] == Frame(m)[4..8];
    }
  }

  lemma {:induction false} ParseRecovers(ms: seq<Message>, rest: seq<byte>)
    requires AllSized(ms)
    ensures ParseFrames(Frames(ms) + rest) == ms + ParseFrames(rest)
    decreases |ms|
  {
    hide ParseFrames, Frame;
    if ms == [] {
      DropNone(rest);
      DropNone(ParseFrames(rest));
    } else {
      var front, last := ms[..|ms| - 1], ms[|ms| - 1];
      Assoc(Frames(front), Frame(last), rest);
      ParseRecovers(front, Frame(last) + rest);
      ParseOne(last, rest);
      Assoc(front, [last], ParseFrames(rest));
      assert front + [last] == ms;
    }
  }

  // Provided every message sent stores its body size, which << does. (A write that failed may
  // still have put the rest of its frame on the wire.)
  lemma WireDecodes(es: seq<Event>, c: Conn)
    requires Run(START, es, c) && AllSized(c.sent)
    ensures ParseFrames(c.wire) == c.written
      || (c.failed && c.queue != [] && ParseFrames(c.wire) == c.written + [c.queue[0]])
    ensures ParseFrames(c.wire) <= c.sent
  {
    hide Run, ParseFrames, Frames, Frame;
    StartSafe();
    RunSafe(START, es, c);
    assert AllSized(c.written) && AllSized(c.queue) by {
      assert forall k :: 0 <= k < |c.written| ==> c.written[k] == c.sent[k];
      assert forall k :: 0 <= k < |c.queue| ==> c.queue[k] == c.sent[|c.written| + k];
    }
    var tail :| c.wire == Frames(c.written) + tail && PartialFrame(c, tail);
    ParseRecovers(c.written, tail);
    TailParses(c, tail);
    DropNone(c.written);
  }

  lemma TailParses(c: Conn, tail: seq<byte>)
    requires Safe(c) && AllSized(c.queue) && PartialFrame(c, tail)
    ensures ParseFrames(tail) == [] || (c.failed && ParseFrames(tail) == [c.queue[0]])
  {
    hide ParseFrames, HeaderBytes;
    ParseNothing();
    if c.failed && tail == Frame(c.queue[0]) {
      DropNone(tail);
      ParseOne(c.queue[0], []);
      DropNone([c.queue[0]]);
    } else if c.failed {
      ParseIncomplete(c.queue[0], tail);
    } else if c.inflight == [BodyWrite] {
      assert HeaderBytes(c.queue[0].header) <= Frame(c.queue[0]);
      ParseIncomplete(c.queue[0], tail);
    }
  }

  lemma ParseNothing()
    ensures ParseFrames([]) == []
  {
  }

  // ---------- The reader's expectation ----------

  const SIZE_T: int := 0x1_0000_0000_0000_0000

  // The body length ReadHeader prepares for: header.size less the header's own 8 bytes, in
  // unsigned arithmetic, or none when the size is 0.
  function ExpectedBody(h: Header): nat {
    if h.size > 0 then (h.size - 8) % SIZE_T else 0
  }

  // It is the length the writer sends only for messages without a body.
  lemma ReaderAgreesOnlyOnEmpty(m: Message)
    requires SizeStored(m) && |m.body| < WORD
    ensures ExpectedBody(m.header) == |m.body| <==> m.body == []
  {
    var n := m.header.size;
    if n > 8 {
      assert (n - 8) % SIZE_T == n - 8;
    }
  }

  // For one byte it prepares for 2^64 - 7.
  lemma OneByteMisread()
    ensures var m := Pushed(Message(Header(0, 0), []), [1]);
      |m.body| == 1 && ExpectedBody(m.header) == SIZE_T - 7
  {
  }
}
