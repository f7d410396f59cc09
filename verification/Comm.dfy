/** Sending and receiving through the one static buffer that both directions share
    (common/trace_comm.c:26-57, 129-242). */
module Comm {
  import opened Basics
  import opened Wire
  import opened Framing
  import opened Packing

  /** The bytes on their way to the reader of a stream socket. */
  class Socket {
    var stream: seq<byte>

    constructor ()
      ensures stream == []
    {
      stream := [];
    }

    /** recv for at most `n` bytes: -1, or the number of bytes and the bytes. */
    method Recv(n: nat, o: Outcome) returns (r: int, bytes: seq<byte>)
      modifies this
      ensures match o
              case Chunk(k) => r == Taken(k, n, old(|stream|)) && bytes == old(stream)[..r] && stream == old(stream)[r..]
              case Down => r == 0 && bytes == [] && stream == old(stream)
              case _ => r == -1 && bytes == [] && stream == old(stream)
    {
      match o {
        case Chunk(k) =>
          r := Taken(k, n, |stream|);
          bytes, stream := stream[..r], stream[r..];
        case Down => r, bytes := 0, [];
        case _ => r, bytes := -1, [];
      }
    }
  }

  class Buffer {
    var data: array<byte>

    constructor ()
      ensures fresh(data) && data.Length == 0
    {
      data := new byte[0];
    }

    /** buf_prepare: growing keeps what the buffer holds. */
    method Prepare(require_: nat)
      modifies this
      ensures data.Length == if old(data.Length) >= require_ then old(data.Length)
                             else if 2 * require_ < 4096 then 4096 else 2 * require_
      ensures data[..old(data.Length)] == old(data[..])
      ensures data == old(data) || fresh(data)
    {
      if data.Length >= require_ { return; }
      var size := require_ * 2;
      if size < 4096 { size := 4096; }
      var grown := new byte[size];
      forall i | 0 <= i < data.Length { grown[i] := data[i]; }
      data := grown;
    }

    /** Copy received bytes to `at`; the caller has made room. */
    method Write(at: nat, bytes: seq<byte>)
      requires at + |bytes| <= data.Length
      modifies data
      ensures data[..at + |bytes|] == old(data[..at]) + bytes
    {
      forall i | 0 <= i < |bytes| { data[at + i] := bytes[i]; }
    }

    /** The buffer begins with message `m`. */
    ghost predicate Holds(m: Message)
      reads this, data
    {
      HEADER + |m.body| <= data.Length && data[..HEADER + |m.body|] == OnWire(m, [])
    }

    /** pt_comm_recv_msg: the code, and for a message its bytes at the front of the buffer. */
    method RecvMsg(sock: Socket, os: seq<Outcome>) returns (code: nat)
      modifies this, data, sock
      ensures match Receive(old(sock.stream), os)
              case Stop(c, left) => code == c && sock.stream == left
              case Full(m, left) => code == m.kind && sock.stream == left && Holds(m)
      ensures data == old(data) || fresh(data)
    {
      hide IntOf, PutInt, OnWire, ReceiveBody, Later, Taken;
      Prepare(HEADER);
      ghost var stream := sock.stream;
      var r, bytes := sock.Recv(HEADER, Next(os));
      if r == -1 {
        if Next(os).Again? { return EMPTY; } else { return ERR_SOCK; }
      } else if r == 0 {
        return PEERDOWN;
      }
      Write(0, bytes);
      if r != HEADER { return INVALID; }
      var len, kind := IntOf(bytes, 4), IntOf(bytes[4..], 4);
      HeaderBytes(stream);
      if len > SIZE_MAX { return INVALID; }
      ghost var pid := IntOf(stream[8..], 4);
      if len == 0 {
        HeldMessage(Message(kind, pid, []), bytes);
        assert bytes + [] == bytes;
        return kind;
      }
      ghost var before := data[..];
      assert before[..HEADER] == bytes;
      Prepare(HEADER + len);
      assert data[..HEADER] == data[..|before|][..HEADER] == bytes;
      code := RecvBody(sock, Later(os), len, kind, pid);
    }

    /** The body loop, with the header already in the buffer. */
    method RecvBody(sock: Socket, os: seq<Outcome>, len: nat, kind: nat, ghost pid: nat) returns (code: nat)
      requires 0 < len && HEADER + len <= data.Length
      requires data[..HEADER] == PutInt(len, 4, PutInt(kind, 4, PutInt(pid, 4, [])))
      modifies data, sock
      ensures match ReceiveBody(kind, pid, [], len, old(sock.stream), os, MAXRECV)
              case Stop(c, left) => code == c && sock.stream == left
              case Full(m, left) => code == m.kind && sock.stream == left && Holds(m)
    {
      hide PutInt, OnWire, Later, Next, ReceiveBody, Taken;
      var i, recvlen, todo := 0, 0, os;
      ghost var header, got := data[..HEADER], [];
      while i < MAXRECV
        invariant i <= MAXRECV && recvlen == |got| < len
        invariant data[..HEADER + recvlen] == header + got
        invariant ReceiveBody(kind, pid, got, len, sock.stream, todo, MAXRECV - i)
                  == ReceiveBody(kind, pid, [], len, old(sock.stream), os, MAXRECV)
      {
        BodyStep(kind, pid, got, len, sock.stream, todo, MAXRECV - i);
        var r, bytes := sock.Recv(len - recvlen, Next(todo));
        if r == -1 {
          return ERR_SOCK;
        } else if r == 0 {
          return PEERDOWN;
        }
        Write(HEADER + recvlen, bytes);
        assert header + got + bytes == header + (got + bytes);
        recvlen, got, todo := recvlen + r, got + bytes, Later(todo);
        if recvlen == len {
          HeldMessage(Message(kind, pid, got), header);
          return kind;
        }
        i := i + 1;
      }
      BodyEnd(kind, pid, got, len, sock.stream, todo);
      return INVALID;
    }

    /** pt_comm_build_msg followed by packing the body and setting the process id, as all senders do. */
    method BuildMsg(m: Message)
      requires Proper(m)
      modifies this, data
      ensures Holds(m) && (data == old(data) || fresh(data))
    {
      hide PutInt;
      Prepare(HEADER + |m.body|);
      ghost var t2 := PutInt(m.pid, 4, m.body);
      var p := StoreInt(data, 0, |m.body|, 4, PutInt(m.kind, 4, t2));
      p := StoreInt(data, p, m.kind, 4, t2);
      p := StoreInt(data, p, m.pid, 4, m.body);
      ghost var front := data[..HEADER];
      Write(HEADER, m.body);
      assert m.body + [] == m.body;
    }

    /** pt_comm_send_msg: header, then the body if there is one; every byte is delivered. */
    method SendMsg(sock: Socket, ghost m: Message)
      requires Proper(m) && Holds(m)
      modifies sock
      ensures sock.stream == old(sock.stream) + OnWire(m, [])
    {
      hide PutInt, IntOf;
      HeaderOf(m, []);
      HeaderBytes(data[..HEADER + |m.body|]);
      assert data[..HEADER + |m.body|][..HEADER] == data[..HEADER];
      sock.stream := sock.stream + data[..HEADER];
      var len := IntOf(data[..HEADER], 4);
      assert data[..HEADER + len] == data[..HEADER] + data[HEADER..HEADER + len];
      if len == 0 { return; }
      sock.stream := sock.stream + data[HEADER..HEADER + len];
    }
  }

  lemma BodyStep(kind: nat, pid: nat, got: seq<byte>, n: nat, stream: seq<byte>, os: seq<Outcome>, tries: nat)
    requires |got| < n && tries > 0
    ensures var body := ReceiveBody(kind, pid, got, n, stream, os, tries);
            match Next(os)
            case Down => body == Stop(PEERDOWN, stream)
            case Chunk(k) =>
              var r := Taken(k, n - |got|, |stream|);
              var more := got + stream[..r];
              body == (if r == 0 then Stop(PEERDOWN, stream)
                       else if |more| == n then Full(Message(kind, pid, more), stream[r..])
                       else ReceiveBody(kind, pid, more, n, stream[r..], Later(os), tries - 1))
            case _ => body == Stop(ERR_SOCK, stream)
  {
  }

  lemma BodyEnd(kind: nat, pid: nat, got: seq<byte>, n: nat, stream: seq<byte>, os: seq<Outcome>)
    requires |got| < n
    ensures ReceiveBody(kind, pid, got, n, stream, os, 0) == Stop(INVALID, stream)
  {
  }

  /** The first twelve bytes of a stream are the header it is read as. */
  lemma HeaderBytes(s: seq<byte>)
    requires |s| >= HEADER
    ensures var h := s[..HEADER];
            && IntOf(h, 4) == IntOf(s, 4) && IntOf(h[4..], 4) == IntOf(s[4..], 4)
            && h == PutInt(IntOf(s, 4), 4, PutInt(IntOf(s[4..], 4), 4, PutInt(IntOf(s[8..], 4), 4, [])))
  {
    hide PutInt, IntOf;
    var h := s[..HEADER];
    IntOfPrefix(s, 4);
    IntOfPrefix(h, 4);
    IntOfPrefix(s[4..], 4);
    IntOfPrefix(h[4..], 4);
    IntOfPrefix(s[8..], 4);
    IntOfPrefix(h[8..], 4);
    assert s[..4] == h[..4] && s[4..][..4] == h[4..][..4] && s[8..][..4] == h[8..][..4];
    PutIntBack(h, 4);
    PutIntBack(h[4..], 4);
    PutIntBack(h[8..], 4);
    assert h[4..][4..] == h[8..] && h[8..][4..] == [];
  }

  lemma {:induction false} PutIntBack(s: seq<byte>, k: nat)
    requires k <= |s|
    ensures PutInt(IntOf(s, k), k, s[k..]) == s
    decreases k
  {
    if k > 0 {
      PutIntBack(s[1..], k - 1);
      assert s[1..][k - 1..] == s[k..];
      assert IntOf(s, k) % 256 == s[0] && IntOf(s, k) / 256 == IntOf(s[1..], k - 1);
    }
  }

  lemma HeldMessage(m: Message, header: seq<byte>)
    requires header == PutInt(|m.body|, 4, PutInt(m.kind, 4, PutInt(m.pid, 4, [])))
    ensures header + m.body == OnWire(m, [])
  {
    hide PutInt;
    PutIntOnto(|m.body|, 4, PutInt(m.kind, 4, PutInt(m.pid, 4, [])), m.body);
    PutIntOnto(m.kind, 4, PutInt(m.pid, 4, []), m.body);
    PutIntOnto(m.pid, 4, [], m.body);
    assert [] + m.body == m.body == m.body + [];
  }

  /** Any message sent by one side and received whole by the other is the message: the two directions
      compose, whatever the receiver's buffer held before. */
  method Transfer(m: Message, sender: Buffer, receiver: Buffer, sock: Socket, os: seq<Outcome>) returns (code: nat)
    requires Proper(m) && sender != receiver && sender.data != receiver.data && sock.stream == []
    modifies sender, sender.data, receiver, receiver.data, sock
    ensures code == m.kind <==> GetsThrough(m, os)
    ensures code == m.kind ==> receiver.Holds(m) && sock.stream == []
  {
    hide Receive, OnWire, GetsThrough;
    sender.BuildMsg(m);
    sender.SendMsg(sock, m);
    assert sock.stream == OnWire(m, []);
    ReceiveExact(m, [], os);
    StopCodes(OnWire(m, []), os);
    DeliveredIff(m, [], os);
    code := receiver.RecvMsg(sock, os);
  }

  lemma {:induction false} BodyStopCodes(kind: nat, pid: nat, got: seq<byte>, n: nat, stream: seq<byte>,
                                         os: seq<Outcome>, tries: nat)
    requires |got| < n
    ensures var r := ReceiveBody(kind, pid, got, n, stream, os, tries); r.Stop? ==> r.code < USER
    decreases tries
  {
    if tries > 0 && Next(os).Chunk? {
      var r := Taken(Next(os).k, n - |got|, |stream|);
      if 0 < r < n - |got| { BodyStopCodes(kind, pid, got + stream[..r], n, stream[r..], Later(os), tries - 1); }
    }
  }

  /** No error code can be taken for a user message. */
  lemma StopCodes(stream: seq<byte>, os: seq<Outcome>)
    ensures var r := Receive(stream, os); r.Stop? ==> r.code < USER
  {
    hide ReceiveBody, IntOf;
    if Next(os).Chunk? && |stream| >= HEADER {
      var len := IntOf(stream, 4);
      if len > 0 {
        BodyStopCodes(IntOf(stream[4..], 4), IntOf(stream[8..], 4), [], len, stream[HEADER..], Later(os), MAXRECV);
      }
    }
  }
}
