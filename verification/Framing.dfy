/** Messages on a byte stream: what is sent and what a receiver makes of it, however the stream is cut
    into pieces (common/trace_comm.c:129-242; common/trace_comm.h:22-56). */
module Framing {
  import opened Basics
  import opened Wire

  const HEADER: nat := 12
  const MAXRECV: nat := 10
  const SIZE_MAX: nat := 1024 * 1024
  const USER: nat := 0x8000_0000

  /** Return codes that are not message types. */
  const EMPTY: nat := 0
  const PEERDOWN: nat := 1
  const ERR_SOCK: nat := 2
  const INVALID: nat := 4

  /** A message: its type and its sender's process id as unsigned words, and its body. */
  datatype Message = Message(kind: nat, pid: nat, body: seq<byte>)

  /** What the senders produce: a user type, and a length that is not negative as a 32-bit integer. */
  predicate Proper(m: Message) { USER <= m.kind < U32 && m.pid < U32 && |m.body| < 0x8000_0000 }

  /** The message on the stream, followed by `t`. */
  function OnWire(m: Message, t: seq<byte>): (s: seq<byte>)
    ensures |s| == HEADER + |m.body| + |t|
  {
    PutInt(|m.body|, 4, PutInt(m.kind, 4, PutInt(m.pid, 4, m.body + t)))
  }

  function AllOnWire(ms: seq<Message>): seq<byte> {
    if ms == [] then [] else OnWire(ms[0], AllOnWire(ms[1..]))
  }

  // ----- receiving

  /** What one recv call does: fail, find nothing for now, find the peer gone, or deliver at most `k` bytes. */
  datatype Outcome = Error | Again | Down | Chunk(k: nat)

  /** How many bytes a recv for `n` bytes delivers. */
  function Taken(k: nat, n: nat, available: nat): (r: nat)
    ensures r <= n && r <= available && (n > 0 && available > 0 ==> r > 0)
  {
    var m := if n < available then n else available;
    if k == 0 && m > 0 then 1 else if k < m then k else m
  }

  function Next(os: seq<Outcome>): Outcome { if os == [] then Down else os[0] }

  function Later(os: seq<Outcome>): seq<Outcome> { if os == [] then [] else os[1..] }

  /** A message, or a code; either way what is left of the stream. */
  datatype Received = Stop(code: nat, left: seq<byte>) | Full(msg: Message, left: seq<byte>)

  /** The body loop, with `got` of `n` bytes received and `tries` receives left. */
  function ReceiveBody(kind: nat, pid: nat, got: seq<byte>, n: nat, stream: seq<byte>,
                       os: seq<Outcome>, tries: nat): Received
    requires |got| < n
    decreases tries
  {
    if tries == 0 then Stop(INVALID, stream) else
      match Next(os)
      case Error => Stop(ERR_SOCK, stream)
      case Again => Stop(ERR_SOCK, stream)
      case Down => Stop(PEERDOWN, stream)
      case Chunk(k) =>
        var r := Taken(k, n - |got|, |stream|);
        var more := got + stream[..r];
        if r == 0 then Stop(PEERDOWN, stream)
        else if |more| == n then Full(Message(kind, pid, more), stream[r..])
        else ReceiveBody(kind, pid, more, n, stream[r..], Later(os), tries - 1)
  }

  /** pt_comm_recv_msg. */
  function Receive(stream: seq<byte>, os: seq<Outcome>): Received {
    match Next(os)
    case Error => Stop(ERR_SOCK, stream)
    case Again => Stop(EMPTY, stream)
    case Down => Stop(PEERDOWN, stream)
    case Chunk(k) =>
      var r := Taken(k, HEADER, |stream|);
      if r == 0 then Stop(PEERDOWN, stream)
      else if r != HEADER then Stop(INVALID, stream[r..])
      else
        var len, kind, pid, rest := IntOf(stream, 4), IntOf(stream[4..], 4), IntOf(stream[8..], 4), stream[HEADER..];
        if len > SIZE_MAX then Stop(INVALID, rest)
        else if len == 0 then Full(Message(kind, pid, []), rest)
        else ReceiveBody(kind, pid, [], len, rest, Later(os), MAXRECV)
  }

  // ----- a receiver gets what was sent

  lemma HeaderOf(m: Message, t: seq<byte>)
    requires Proper(m)
    ensures var s := OnWire(m, t);
            && IntOf(s, 4) == |m.body| && IntOf(s[4..], 4) == m.kind && IntOf(s[8..], 4) == m.pid
            && s[HEADER..] == m.body + t
  {
    hide PutInt, IntOf;
    Widths();
    var s := OnWire(m, t);
    IntRoundTrip(|m.body|, 4, PutInt(m.kind, 4, PutInt(m.pid, 4, m.body + t)));
    IntRoundTrip(m.kind, 4, PutInt(m.pid, 4, m.body + t));
    IntRoundTrip(m.pid, 4, m.body + t);
    assert s[4..][4..] == s[8..] && s[8..][4..] == s[HEADER..];
  }

  lemma {:induction false} BodyExact(m: Message, i: nat, t: seq<byte>, os: seq<Outcome>, tries: nat)
    requires i < |m.body|
    ensures var r := ReceiveBody(m.kind, m.pid, m.body[..i], |m.body|, m.body[i..] + t, os, tries);
            if r.Full? then r.msg == m && r.left == t else r.code != EMPTY
    decreases tries
  {
    if tries > 0 && Next(os).Chunk? {
      var stream := m.body[i..] + t;
      var r := Taken(Next(os).k, |m.body| - i, |stream|);
      assert m.body[..i] + stream[..r] == m.body[..i + r];
      assert stream[r..] == m.body[i + r..] + t;
      if i + r < |m.body| { BodyExact(m, i + r, t, Later(os), tries - 1); }
    }
  }

  /** For every way the stream may be cut: if a message is returned, it is the one that was sent first and
      exactly its bytes are consumed; if nothing was there, nothing is consumed. */
  lemma ReceiveExact(m: Message, t: seq<byte>, os: seq<Outcome>)
    requires Proper(m)
    ensures var r := Receive(OnWire(m, t), os);
            && (r.Full? ==> r.msg == m && r.left == t && |m.body| <= SIZE_MAX)
            && (r.Stop? && r.code == EMPTY <==> Next(os).Again?)
            && (r.Stop? && r.code == EMPTY ==> r.left == OnWire(m, t))
  {
    hide OnWire, IntOf, ReceiveBody, Carried, Later;
    HeaderOf(m, t);
    if m.body == [] {
      assert m.body + t == t;
    } else {
      assert m.body[..0] == [] && m.body[0..] == m.body;
      BodyExact(m, 0, t, Later(os), MAXRECV);
    }
  }

  /** A receiver that goes on until an error: the messages it got. */
  function Listen(stream: seq<byte>, runs: seq<seq<Outcome>>): seq<Message>
    decreases runs
  {
    if runs == [] then [] else
      match Receive(stream, runs[0])
      case Full(m, left) => [m] + Listen(left, runs[1..])
      case Stop(code, left) => if code == EMPTY then Listen(left, runs[1..]) else []
  }

  // ----- when a message gets through

  /** The bytes the first `tries` pieces can carry. */
  function Carried(os: seq<Outcome>, tries: nat): nat
    decreases tries
  {
    if tries == 0 || !Next(os).Chunk? then 0
    else (if Next(os).k == 0 then 1 else Next(os).k) + Carried(Later(os), tries - 1)
  }

  lemma {:induction false} BodyArrives(m: Message, i: nat, t: seq<byte>, os: seq<Outcome>, tries: nat)
    requires i < |m.body|
    ensures ReceiveBody(m.kind, m.pid, m.body[..i], |m.body|, m.body[i..] + t, os, tries).Full?
            <==> i + Carried(os, tries) >= |m.body|
    decreases tries
  {
    if tries > 0 && Next(os).Chunk? {
      var stream := m.body[i..] + t;
      var r := Taken(Next(os).k, |m.body| - i, |stream|);
      assert m.body[..i] + stream[..r] == m.body[..i + r];
      assert stream[r..] == m.body[i + r..] + t;
      if i + r < |m.body| { BodyArrives(m, i + r, t, Later(os), tries - 1); }
    }
  }

  /** The header comes in one piece, the body is at most 1 MiB, and the next ten pieces carry it. */
  predicate GetsThrough(m: Message, os: seq<Outcome>) {
    && Next(os).Chunk? && Next(os).k >= 12 && |m.body| <= 1_048_576
    && (m.body == [] || Carried(Later(os), 10) >= |m.body|)
  }

  /** Exactly when the message at the front of the stream is received. */
  lemma DeliveredIff(m: Message, t: seq<byte>, os: seq<Outcome>)
    requires Proper(m)
    ensures Receive(OnWire(m, t), os).Full? <==> GetsThrough(m, os)
  {
    hide OnWire, IntOf, ReceiveBody, Carried, Later;
    HeaderOf(m, t);
    if m.body != [] {
      assert m.body[..0] == [] && m.body[0..] == m.body;
      BodyArrives(m, 0, t, Later(os), MAXRECV);
    }
  }

  // ----- why a message does not get through

  /** The first of `tries` receives that delivers nothing. */
  function Hitch(os: seq<Outcome>, tries: nat): Option<Outcome>
    decreases tries
  {
    if tries == 0 then None else if !Next(os).Chunk? then Some(Next(os)) else Hitch(Later(os), tries - 1)
  }

  lemma {:induction false} BodyFailure(m: Message, i: nat, t: seq<byte>, os: seq<Outcome>, tries: nat)
    requires i + Carried(os, tries) < |m.body|
    ensures var r := ReceiveBody(m.kind, m.pid, m.body[..i], |m.body|, m.body[i..] + t, os, tries);
            r.Stop? && r.code == match Hitch(os, tries) case None => 4 case Some(Down) => 1 case Some(_) => 2
    decreases tries
  {
    if tries > 0 && Next(os).Chunk? {
      var stream := m.body[i..] + t;
      var r := Taken(Next(os).k, |m.body| - i, |stream|);
      assert m.body[..i] + stream[..r] == m.body[..i + r];
      assert stream[r..] == m.body[i + r..] + t;
      BodyFailure(m, i + r, t, Later(os), tries - 1);
    }
  }

  /** The code for a message that does not get through: nothing there yet 0, the peer gone 1, a socket error 2, and
      4 for a header in pieces, a body that is too long, or more than ten pieces; while the body is awaited,
      finding nothing counts as a socket error. */
  lemma FailureCode(m: Message, t: seq<byte>, os: seq<Outcome>)
    requires Proper(m) && !GetsThrough(m, os)
    ensures var r := Receive(OnWire(m, t), os);
            r.Stop? && r.code == match Next(os)
                                 case Again => 0
                                 case Down => 1
                                 case Error => 2
                                 case Chunk(k) =>
                                   if k < 12 || |m.body| > 1_048_576 then 4
                                   else match Hitch(Later(os), 10) case None => 4 case Some(Down) => 1 case Some(_) => 2
  {
    hide OnWire, IntOf, ReceiveBody, Carried, Later, Hitch;
    HeaderOf(m, t);
    if m.body != [] {
      assert m.body[..0] == [] && m.body[0..] == m.body;
      if Carried(Later(os), 10) < |m.body| { BodyFailure(m, 0, t, Later(os), MAXRECV); }
    }
  }

  lemma {:induction false} BodyCutShort(kind: nat, pid: nat, got: seq<byte>, n: nat, stream: seq<byte>,
                                        os: seq<Outcome>, tries: nat)
    requires |got| + |stream| < n
    ensures ReceiveBody(kind, pid, got, n, stream, os, tries).Stop?
    decreases tries
  {
    if tries > 0 && Next(os).Chunk? {
      var r := Taken(Next(os).k, n - |got|, |stream|);
      if r > 0 { BodyCutShort(kind, pid, got + stream[..r], n, stream[r..], Later(os), tries - 1); }
    }
  }

  /** A message whose sender went away in the middle of it is never received. */
  lemma CutShort(m: Message, n: nat, os: seq<Outcome>)
    requires Proper(m) && n < |OnWire(m, [])|
    ensures Receive(OnWire(m, [])[..n], os).Stop?
  {
    hide OnWire, IntOf, ReceiveBody, Later;
    var s := OnWire(m, []);
    if n >= 12 {
      HeaderOf(m, []);
      IntOfPrefix(s, 4);
      IntOfPrefix(s[..n], 4);
      assert s[..n][..4] == s[..4];
      var kind, pid := IntOf(s[..n][4..], 4), IntOf(s[..n][8..], 4);
      if m.body != [] { BodyCutShort(kind, pid, [], |m.body|, s[..n][HEADER..], Later(os), MAXRECV); }
    }
  }

  /** The order of the header's words. */
  lemma HeaderLayout(m: Message)
    ensures OnWire(m, []) == PutInt(|m.body|, 4, []) + (PutInt(m.kind, 4, []) + (PutInt(m.pid, 4, []) + m.body))
  {
    hide PutInt;
    assert m.body + [] == m.body;
    assert forall t: seq<byte> :: [] + t == t;
    PutIntOnto(|m.body|, 4, [], PutInt(m.kind, 4, PutInt(m.pid, 4, m.body)));
    PutIntOnto(m.kind, 4, [], PutInt(m.pid, 4, m.body));
    PutIntOnto(m.pid, 4, [], m.body);
  }

  // ----- whole streams

  /** How many of the messages `ms` get through in `runs` receives: each run that finds nothing yet is
      repeated, each other run must get the next message through or ends the connection. */
  function Through(ms: seq<Message>, runs: seq<seq<Outcome>>): (n: nat)
    ensures n <= |ms|
    decreases runs
  {
    if ms == [] || runs == [] then 0
    else if Next(runs[0]).Again? then Through(ms, runs[1..])
    else if GetsThrough(ms[0], runs[0]) then 1 + Through(ms[1..], runs[1..])
    else 0
  }

  lemma {:induction false} ListenToNothing(runs: seq<seq<Outcome>>)
    ensures Listen([], runs) == []
    decreases runs
  {
    hide ReceiveBody, IntOf;
    if runs != [] { ListenToNothing(runs[1..]); }
  }

  /** For every chunking and every failure: what a listener receives are exactly the first messages sent, as
      many as get through; none is lost in between, merged or split. */
  lemma {:induction false} ListenExact(ms: seq<Message>, runs: seq<seq<Outcome>>)
    requires forall m <- ms :: Proper(m)
    ensures Listen(AllOnWire(ms), runs) == ms[..Through(ms, runs)]
    decreases runs
  {
    hide OnWire, Receive, GetsThrough;
    if ms == [] {
      ListenToNothing(runs);
    } else if runs != [] {
      assert ms[0] in ms;
      ReceiveExact(ms[0], AllOnWire(ms[1..]), runs[0]);
      DeliveredIff(ms[0], AllOnWire(ms[1..]), runs[0]);
      ListenExact(ms, runs[1..]);
      ListenExact(ms[1..], runs[1..]);
      var n := Through(ms[1..], runs[1..]);
      assert [ms[0]] + ms[1..][..n] == ms[..n + 1];
    }
  }

  /** If every message gets through in its run, all of them are received. */
  lemma {:induction false} ListenGetsAll(ms: seq<Message>, runs: seq<seq<Outcome>>)
    requires |ms| <= |runs| && forall i | 0 <= i < |ms| :: Proper(ms[i]) && GetsThrough(ms[i], runs[i])
    ensures Listen(AllOnWire(ms), runs) == ms
  {
    AllThrough(ms, runs);
    ListenExact(ms, runs);
  }

  lemma {:induction false} AllThrough(ms: seq<Message>, runs: seq<seq<Outcome>>)
    requires |ms| <= |runs| && forall i | 0 <= i < |ms| :: GetsThrough(ms[i], runs[i])
    ensures Through(ms, runs) == |ms|
    decreases runs
  {
    if ms != [] {
      assert GetsThrough(ms[0], runs[0]);
      forall i | 0 <= i < |ms| - 1 ensures GetsThrough(ms[1..][i], runs[1..][i]) {
        assert GetsThrough(ms[i + 1], runs[i + 1]);
      }
      AllThrough(ms[1..], runs[1..]);
    }
  }
}
