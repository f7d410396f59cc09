/** Records on their whole way: packed by the extension, sent as messages, cut into pieces by the stream,
    received into the tool's reused buffer and unpacked there (extension/trace.c:909-1040; src/trace.c:50-93). */
module Delivery {
  import opened Basics
  import opened Wire
  import opened Codec
  import opened Packing
  import opened Framing
  import opened Comm

  const FRAME: nat := USER + 4

  function FrameMessage(f: Frame, pid: nat): Message
    requires FrameFits(f)
  {
    Message(FRAME, pid, FrameBytes(f, []))
  }

  /** frame_send: the length is predicted, the header written and the frame packed behind it. */
  method FrameSend(f: Frame, pid: nat, buf: Buffer, sock: Socket)
    requires FrameFits(f) && Proper(FrameMessage(f, pid))
    modifies buf, buf.data, sock
    ensures sock.stream == old(sock.stream) + OnWire(FrameMessage(f, pid), [])
    ensures buf.data == old(buf.data) || fresh(buf.data)
  {
    hide PutInt, FrameBytes, FrameFits, FrameLen;
    ghost var m := FrameMessage(f, pid);
    var len := LenFrame(f);
    FrameLenExact(f, []);
    buf.Prepare(HEADER + len);
    ghost var t2 := PutInt(pid, 4, m.body);
    ghost var whole := PutInt(len, 4, PutInt(FRAME, 4, t2));
    assert buf.data[..0] + whole == whole;
    var p := StoreInt(buf.data, 0, len, 4, PutInt(FRAME, 4, t2));
    p := StoreInt(buf.data, p, FRAME, 4, t2);
    p := StoreInt(buf.data, p, pid, 4, m.body);
    p := PackFrame(f, buf.data, p, []);
    assert m.body + [] == m.body && buf.data[..p] + [] == buf.data[..p] == whole;
    assert buf.Holds(m);
    buf.SendMsg(sock, m);
  }

  /** What the receiver's buffer holds behind the message does not matter. */
  lemma FrameReadFromBuffer(f: Frame, pid: nat, data: seq<byte>)
    requires FrameFits(f) && Proper(FrameMessage(f, pid))
    requires OnWire(FrameMessage(f, pid), []) <= data
    ensures GetFrame(data[HEADER..]) == Got(NormFrame(f), data[HEADER + FrameLen(f)..])
  {
    hide FrameBytes, GetFrame, FrameFits, OnWire;
    var m := FrameMessage(f, pid);
    var wire := OnWire(m, []);
    var stale := data[|wire|..];
    FrameLenExact(f, []);
    HeaderOf(m, []);
    assert data == wire + stale && wire[HEADER..] == m.body + [] == m.body;
    assert data[HEADER..] == m.body + stale;
    FrameOnto(f, [], stale);
    assert [] + stale == stale;
    FrameRoundTrip(f, stale);
  }

  /** Every frame sent on an empty stream: for every chunking that gets the message through the tool unpacks
      that frame, with empty strings absent; for every other it takes nothing for a frame. */
  method FrameDelivered(f: Frame, pid: nat, sender: Buffer, receiver: Buffer, sock: Socket, os: seq<Outcome>)
    returns (got: Option<Frame>)
    requires FrameFits(f) && Proper(FrameMessage(f, pid))
    requires sender != receiver && sender.data != receiver.data && sock.stream == []
    modifies sender, sender.data, receiver, receiver.data, sock
    ensures got == if GetsThrough(FrameMessage(f, pid), os) then Some(NormFrame(f)) else None
  {
    hide FrameBytes, GetFrame, FrameFits, NormFrame, OnWire, Receive, GetsThrough;
    ghost var m := FrameMessage(f, pid);
    FrameSend(f, pid, sender, sock);
    ReceiveExact(m, [], os);
    DeliveredIff(m, [], os);
    StopCodes(OnWire(m, []), os);
    assert sock.stream == OnWire(m, []);
    var code := receiver.RecvMsg(sock, os);
    if code == FRAME {
      assert receiver.data[..HEADER + |m.body|] == OnWire(m, []);
      FrameReadFromBuffer(f, pid, receiver.data[..]);
      assert receiver.data[..][HEADER..] == receiver.data[HEADER..];
      var frame, p := UnpackFrame(receiver.data, HEADER);
      got := Some(frame);
    } else {
      got := None;
    }
  }

  // ----- any sequence of records

  const REQ: nat := USER + 5
  const STATUS: nat := USER + 6

  /** What the extension sends. */
  datatype Record = AFrame(f: Frame) | ARequest(r: Request) | AStatus(x: Status)

  predicate RecordFits(d: Record) {
    match d
    case AFrame(f) => FrameFits(f)
    case ARequest(r) => RequestFits(r)
    case AStatus(x) => StatusFits(x)
  }

  function RecordBytes(d: Record, t: seq<byte>): seq<byte>
    requires RecordFits(d)
  {
    match d
    case AFrame(f) => FrameBytes(f, t)
    case ARequest(r) => RequestBytes(r, t)
    case AStatus(x) => StatusBytes(x, t)
  }

  function NormRecord(d: Record): Record {
    match d
    case AFrame(f) => AFrame(NormFrame(f))
    case ARequest(r) => ARequest(NormRequest(r))
    case AStatus(x) => AStatus(NormStatus(x))
  }

  /** frame_send, request_send and status_send: the type tells what the body is. */
  function RecordMessage(d: Record, pid: nat): Message
    requires RecordFits(d)
  {
    Message(if d.AFrame? then FRAME else if d.ARequest? then REQ else STATUS, pid, RecordBytes(d, []))
  }

  /** What a receiver unpacks, by the message's type, from a buffer that begins with the body. */
  function Unpacked(kind: nat, data: seq<byte>): Got<Record> {
    if kind == FRAME then
      var (f, t) :- GetFrame(data);
      Got(AFrame(f), t)
    else if kind == REQ then
      var (r, t) :- GetRequest(data);
      Got(ARequest(r), t)
    else if kind == STATUS then
      var (x, t) :- GetStatus(data);
      Got(AStatus(x), t)
    else Fail
  }

  lemma RecordReads(d: Record, pid: nat, stale: seq<byte>)
    requires RecordFits(d)
    ensures var m := RecordMessage(d, pid);
            && m.kind == (match d case AFrame(_) => 0x8000_0004 case ARequest(_) => 0x8000_0005 case AStatus(_) => 0x8000_0006)
            && m.pid == pid && Unpacked(m.kind, m.body + stale) == Got(NormRecord(d), stale)
  {
    hide FrameFits, FrameBytes, GetFrame, RequestFits, RequestBytes, GetRequest, StatusFits, StatusBytes, GetStatus;
    hide NormFrame, NormRequest, NormStatus;
    assert [] + stale == stale;
    match d
    case AFrame(f) =>
      FrameOnto(f, [], stale);
      FrameRoundTrip(f, stale);
    case ARequest(r) =>
      RequestOnto(r, [], stale);
      RequestRoundTrip(r, stale);
    case AStatus(x) =>
      StatusOnto(x, [], stale);
      StatusRoundTrip(x, stale);
  }

  ghost predicate AllSendable(ds: seq<Record>, pid: nat) {
    forall d <- ds :: RecordFits(d) && Proper(RecordMessage(d, pid))
  }

  function Messages(ds: seq<Record>, pid: nat): (ms: seq<Message>)
    requires forall d <- ds :: RecordFits(d)
    ensures |ms| == |ds|
  {
    seq(|ds|, i requires 0 <= i < |ds| => RecordMessage(ds[i], pid))
  }

  /** For any sequence of frames, requests and status records, every chunking of the stream and every failure:
      the listener gets exactly the first records, as many as get through, and whatever its buffer held
      behind each message, unpacking yields the record that was sent. */
  lemma RecordsDelivered(ds: seq<Record>, pid: nat, runs: seq<seq<Outcome>>, i: nat, stale: seq<byte>)
    requires AllSendable(ds, pid)
    ensures var got := Listen(AllOnWire(Messages(ds, pid)), runs);
            && |got| == Through(Messages(ds, pid), runs)
            && (i < |got| ==> Unpacked(got[i].kind, got[i].body + stale) == Got(NormRecord(ds[i]), stale))
  {
    hide Unpacked, RecordFits, Listen, Through, AllOnWire;
    var ms := Messages(ds, pid);
    forall m | m in ms ensures Proper(m) {
      var j :| 0 <= j < |ms| && ms[j] == m;
      assert ds[j] in ds;
    }
    ListenExact(ms, runs);
    if i < |Listen(AllOnWire(ms), runs)| {
      assert ds[i] in ds;
      RecordReads(ds[i], pid, stale);
    }
  }
}
