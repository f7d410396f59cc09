/** Packing and unpacking as the source does it: one buffer, one cursor advanced field by field
    (common/trace_type.c:41-127, 227-298, 359-435; common/trace_filter.c:45-60; common/trace_type.h:43-75).

    Each store is told, as ghost argument `t`, what will follow it; what is in the buffer so far and what
    is still to come then always make up the same whole. */
module Packing {
  import opened Basics
  import opened Wire
  import opened Codec

  /** From `at` to `p` the buffer received the bytes that, in front of `t`, make up `whole`. */
  twostate predicate Stored(buf: array<byte>, at: nat, p: nat, whole: seq<byte>, t: seq<byte>)
    reads buf
  {
    && at <= p <= buf.Length
    && buf[..p] + t == old(buf[..at]) + whole
    && (forall i | p <= i < buf.Length :: buf[i] == old(buf[i]))
  }

  method StoreByte(buf: array<byte>, at: nat, b: byte, ghost t: seq<byte>) returns (p: nat)
    requires at + 1 + |t| <= buf.Length
    modifies buf
    ensures Stored(buf, at, p, PutByte(b, t), t)
  {
    buf[at] := b;
    p := at + 1;
  }

  method StoreInt(buf: array<byte>, at: nat, n: nat, k: nat, ghost t: seq<byte>) returns (p: nat)
    requires at + k + |t| <= buf.Length
    modifies buf
    ensures Stored(buf, at, p, PutInt(n, k, t), t)
  {
    ghost var whole := buf[..at] + PutInt(n, k, t);
    var rest := n;
    for i := 0 to k
      invariant buf[..at + i] + PutInt(rest, k - i, t) == whole
      invariant forall j | at + i <= j < buf.Length :: buf[j] == old(buf[j])
    {
      ghost var before, more := buf[..at + i], PutInt(rest / 256, k - i - 1, t);
      buf[at + i] := rest % 256;
      assert buf[..at + i + 1] == before + [rest % 256];
      assert before + [rest % 256] + more == before + ([rest % 256] + more);
      rest := rest / 256;
    }
    p := at + k;
  }

  method StoreI64(buf: array<byte>, at: nat, x: int, ghost t: seq<byte>) returns (p: nat)
    requires IsI64(x) && at + 8 + |t| <= buf.Length
    modifies buf
    ensures Stored(buf, at, p, PutI64(x, t), t)
  {
    p := StoreInt(buf, at, if x < 0 then x + U64 else x, 8, t);
  }

  method StoreText(buf: array<byte>, at: nat, x: Text, ghost t: seq<byte>) returns (p: nat)
    requires at + TextLen(x) + |t| <= buf.Length
    modifies buf
    ensures Stored(buf, at, p, PutText(x, t), t)
  {
    if x.None? {
      p := StoreInt(buf, at, 0, 4, t);
    } else {
      var n := |x.value|;
      p := StoreInt(buf, at, n, 4, x.value + t);
      ghost var before := buf[..p];
      forall i | 0 <= i < n { buf[p + i] := x.value[i]; }
      assert buf[..p + n] == before + x.value;
      assert before + x.value + t == before + (x.value + t);
      p := p + n;
    }
  }

  method StoreTexts(buf: array<byte>, at: nat, xs: seq<Text>, ghost t: seq<byte>) returns (p: nat)
    requires at + TextsLen(xs) + |t| <= buf.Length
    modifies buf
    ensures Stored(buf, at, p, PutTexts(xs, t), t)
  {
    hide PutText, TextLen;
    ghost var whole := buf[..at] + PutTexts(xs, t);
    p := at;
    for i := 0 to |xs|
      invariant at <= p <= buf.Length
      invariant buf[..p] + PutTexts(xs[i..], t) == whole
      invariant forall j | p <= j < buf.Length :: buf[j] == old(buf[j])
    {
      assert xs[i..][1..] == xs[i + 1..];
      assert |buf[..p] + PutTexts(xs[i..], t)| == |whole|;
      p := StoreText(buf, p, xs[i], PutTexts(xs[i + 1..], t));
    }
  }

  /** pt_type_len_frame. */
  method LenFrame(f: Frame) returns (size: nat)
    requires FrameFits(f)
    ensures size == |FrameBytes(f, [])|
  {
    size := 1 + 1 + 4 + TextLen(f.filename) + TextLen(f.cls) + TextLen(f.function_) + 4 + 4;
    ghost var base := size;
    for i := 0 to |f.args|
      invariant size + TextsLen(f.args[i..]) == base + TextsLen(f.args)
    {
      assert f.args[i..][1..] == f.args[i + 1..];
      size := size + TextLen(f.args[i]);
    }
    size := size + TextLen(f.retval) + 8 + 8;
    FrameLenExact(f, []);
  }

  /** pt_type_len_request. */
  method LenRequest(r: Request) returns (size: nat)
    requires RequestFits(r)
    ensures size == |RequestBytes(r, [])|
  {
    size := 1 + TextLen(CText(r.sapi)) + TextLen(CText(r.script)) + 8;
    size := size + TextLen(CText(r.method_)) + TextLen(CText(r.uri)) + 4;
    ghost var base, argv := size, CTexts(r.argv);
    for i := 0 to |r.argv|
      invariant size + TextsLen(argv[i..]) == base + TextsLen(argv)
    {
      assert argv[i..][1..] == argv[i + 1..];
      size := size + TextLen(CText(r.argv[i]));
    }
    RequestLenExact(r, []);
  }

  /** pt_type_len_status. */
  method LenStatus(x: Status) returns (size: nat)
    requires StatusFits(x)
    ensures size == |StatusBytes(x, [])|
  {
    hide FrameFits, FrameBytes, RequestFits, RequestBytes, GetStatus, NormStatus;
    var n := LenRequest(x.request);
    RequestLenExact(x.request, []);
    size := TextLen(CText(x.version)) + 8 + 8 + 8 + 8 + n + 4;
    ghost var base := size;
    for i := 0 to |x.frames|
      invariant size + FramesLen(x.frames[i..]) == base + FramesLen(x.frames)
    {
      assert x.frames[i..][1..] == x.frames[i + 1..] && x.frames[i] in x.frames;
      n := LenFrame(x.frames[i]);
      FrameLenExact(x.frames[i], []);
      size := size + n;
    }
    StatusRoundTrip(x, []);
  }

  /** pt_type_pack_frame: the predicted number of bytes, and no byte beyond them. */
  method PackFrame(f: Frame, buf: array<byte>, at: nat, ghost t: seq<byte>) returns (p: nat)
    requires FrameFits(f) && at + FrameLen(f) + |t| <= buf.Length
    modifies buf
    ensures Stored(buf, at, p, FrameBytes(f, t), t)
  {
    hide PutByte, PutInt, PutText, PutTexts, PutI64, TextsLen;
    FrameLenExact(f, t);
    ghost var r := PutText(f.retval, PutI64(f.inc, PutI64(f.exc, t)));
    p := PackFrameHead(f, buf, at, FrameTail(f, t));
    p := StoreInt(buf, p, f.level, 4, PutInt(|f.args|, 4, PutTexts(f.args, r)));
    p := StoreInt(buf, p, |f.args|, 4, PutTexts(f.args, r));
    p := StoreTexts(buf, p, f.args, r);
    p := StoreText(buf, p, f.retval, PutI64(f.inc, PutI64(f.exc, t)));
    p := StoreI64(buf, p, f.inc, PutI64(f.exc, t));
    p := StoreI64(buf, p, f.exc, t);
  }

  method PackFrameHead(f: Frame, buf: array<byte>, at: nat, ghost t: seq<byte>) returns (p: nat)
    requires at + |FrameHead(f, t)| <= buf.Length
    modifies buf
    ensures Stored(buf, at, p, FrameHead(f, t), t)
  {
    hide PutByte, PutInt, PutText;
    ghost var r := PutText(f.filename, PutText(f.cls, PutText(f.function_, t)));
    p := StoreByte(buf, at, f.kind, PutByte(f.functype, PutInt(f.lineno, 4, r)));
    p := StoreByte(buf, p, f.functype, PutInt(f.lineno, 4, r));
    p := StoreInt(buf, p, f.lineno, 4, r);
    p := StoreText(buf, p, f.filename, PutText(f.cls, PutText(f.function_, t)));
    p := StoreText(buf, p, f.cls, PutText(f.function_, t));
    p := StoreText(buf, p, f.function_, t);
  }

  method PackRequest(r: Request, buf: array<byte>, at: nat, ghost t: seq<byte>) returns (p: nat)
    requires RequestFits(r) && at + RequestLen(r) + |t| <= buf.Length
    modifies buf
    ensures Stored(buf, at, p, RequestBytes(r, t), t)
  {
    hide PutByte, PutInt, PutText, PutTexts, PutI64, CText, CTexts, TextsLen, TextLen, Fits, AllFit;
    RequestLenExact(r, t);
    ghost var r2 := PutInt(|r.argv|, 4, PutTexts(CTexts(r.argv), t));
    ghost var r1 := PutI64(r.time, PutText(CText(r.method_), PutText(CText(r.uri), r2)));
    p := StoreByte(buf, at, r.kind, PutText(CText(r.sapi), PutText(CText(r.script), r1)));
    p := StoreText(buf, p, CText(r.sapi), PutText(CText(r.script), r1));
    p := StoreText(buf, p, CText(r.script), r1);
    p := StoreI64(buf, p, r.time, PutText(CText(r.method_), PutText(CText(r.uri), r2)));
    p := StoreText(buf, p, CText(r.method_), PutText(CText(r.uri), r2));
    p := StoreText(buf, p, CText(r.uri), r2);
    p := StoreInt(buf, p, |r.argv|, 4, PutTexts(CTexts(r.argv), t));
    p := StoreTexts(buf, p, CTexts(r.argv), t);
  }

  method PackStatus(x: Status, buf: array<byte>, at: nat) returns (p: nat)
    requires StatusFits(x) && at + StatusLen(x) <= buf.Length
    modifies buf
    ensures p == at + StatusLen(x) && Stored(buf, at, p, StatusBytes(x, []), [])
  {
    hide PutInt, PutText, PutI64, CText, RequestBytes, RequestFits, RequestLen, FrameFits, FrameLen, FrameBytes;
    StatusRoundTrip(x, []);
    ghost var whole := buf[..at] + StatusBytes(x, []);
    ghost var r2 := FramesBytes(x.frames, []);
    ghost var r1 := RequestBytes(x.request, PutInt(|x.frames|, 4, r2));
    RequestLenExact(x.request, PutInt(|x.frames|, 4, r2));
    ghost var r0 := PutI64(x.mempeak, PutI64(x.memReal, PutI64(x.mempeakReal, r1)));
    p := StoreText(buf, at, CText(x.version), PutI64(x.mem, r0));
    p := StoreI64(buf, p, x.mem, r0);
    p := StoreI64(buf, p, x.mempeak, PutI64(x.memReal, PutI64(x.mempeakReal, r1)));
    p := StoreI64(buf, p, x.memReal, PutI64(x.mempeakReal, r1));
    p := StoreI64(buf, p, x.mempeakReal, r1);
    p := PackRequest(x.request, buf, p, PutInt(|x.frames|, 4, r2));
    p := StoreInt(buf, p, |x.frames|, 4, r2);
    for i := 0 to |x.frames|
      invariant at <= p <= buf.Length
      invariant buf[..p] + FramesBytes(x.frames[i..], []) == whole
      invariant forall j | p <= j < buf.Length :: buf[j] == old(buf[j])
    {
      ghost var more := x.frames[i + 1..];
      assert x.frames[i..][1..] == more && x.frames[i] in x.frames;
      assert |buf[..p] + FramesBytes(x.frames[i..], [])| == |whole|;
      FrameLenExact(x.frames[i], FramesBytes(more, []));
      p := PackFrame(x.frames[i], buf, p, FramesBytes(more, []));
    }
  }

  // ----- unpacking: the source does not check bounds, so it needs a well-formed record at the cursor

  method LoadInt(buf: array<byte>, at: nat, k: nat) returns (n: nat, p: nat)
    requires at + k <= buf.Length
    ensures p == at + k && GetInt(buf[at..], k) == Got(n, buf[p..])
  {
    n, p := IntOf(buf[at..at + k], k), at + k;
    IntOfPrefix(buf[at..], k);
    assert buf[at..][..k] == buf[at..at + k] && buf[at..][k..] == buf[p..];
  }

  method LoadI64(buf: array<byte>, at: nat) returns (x: int, p: nat)
    requires at + 8 <= buf.Length
    ensures p <= buf.Length && GetI64(buf[at..]) == Got(x, buf[p..])
  {
    hide GetInt;
    var n;
    n, p := LoadInt(buf, at, 8);
    x := if n < I64 then n else n - U64;
  }

  method LoadText(buf: array<byte>, at: nat) returns (x: Text, p: nat)
    requires at <= buf.Length && GetText(buf[at..]).Got?
    ensures p <= buf.Length && GetText(buf[at..]) == Got(x, buf[p..])
  {
    var len;
    len, p := LoadInt(buf, at, 4);
    if len != 0 {
      x := Some(buf[p..p + len]);
      assert buf[p..][..len] == buf[p..p + len] && buf[p..][len..] == buf[p + len..];
      p := p + len;
    } else {
      x := None;
    }
  }

  method LoadTexts(buf: array<byte>, at: nat, n: nat) returns (xs: seq<Text>, p: nat)
    requires at <= buf.Length && GetTexts(buf[at..], n).Got?
    ensures p <= buf.Length && GetTexts(buf[at..], n) == Got(xs, buf[p..])
  {
    hide GetText;
    xs, p := [], at;
    assert xs + GetTexts(buf[at..], n).value == GetTexts(buf[at..], n).value;
    for i := 0 to n
      invariant p <= buf.Length
      invariant var more := GetTexts(buf[p..], n - i);
                more.Got? && GetTexts(buf[at..], n) == Got(xs + more.value, more.rest)
    {
      ghost var before := GetTexts(buf[p..], n - i).value;
      var x;
      x, p := LoadText(buf, p);
      assert xs + before == xs + [x] + GetTexts(buf[p..], n - i - 1).value;
      xs := xs + [x];
    }
    assert xs + [] == xs;
  }

  /** pt_type_unpack_frame. */
  method UnpackFrame(buf: array<byte>, at: nat) returns (f: Frame, p: nat)
    requires at <= buf.Length && GetFrame(buf[at..]).Got?
    ensures p <= buf.Length && GetFrame(buf[at..]) == Got(f, buf[p..])
  {
    hide GetText, GetTexts, IntOf;
    var kind, functype := buf[at], buf[at + 1];
    assert buf[at..][1..] == buf[at + 1..] && buf[at + 1..][1..] == buf[at + 2..];
    var lineno, level, count, inc, exc, filename, cls, function_, args, retval;
    lineno, p := LoadInt(buf, at + 2, 4);
    filename, p := LoadText(buf, p);
    cls, p := LoadText(buf, p);
    function_, p := LoadText(buf, p);
    level, p := LoadInt(buf, p, 4);
    count, p := LoadInt(buf, p, 4);
    args, p := LoadTexts(buf, p, count);
    retval, p := LoadText(buf, p);
    inc, p := LoadI64(buf, p);
    exc, p := LoadI64(buf, p);
    f := Frame(kind, functype, lineno, filename, cls, function_, level, args, retval, inc, exc);
  }

  method UnpackRequest(buf: array<byte>, at: nat) returns (r: Request, p: nat)
    requires at <= buf.Length && GetRequest(buf[at..]).Got?
    ensures p <= buf.Length && GetRequest(buf[at..]) == Got(r, buf[p..])
  {
    hide GetText, GetTexts, IntOf;
    var kind := buf[at];
    assert buf[at..][1..] == buf[at + 1..];
    var sapi, script, time, method_, uri, argc, argv;
    sapi, p := LoadText(buf, at + 1);
    script, p := LoadText(buf, p);
    time, p := LoadI64(buf, p);
    method_, p := LoadText(buf, p);
    uri, p := LoadText(buf, p);
    argc, p := LoadInt(buf, p, 4);
    argv, p := LoadTexts(buf, p, argc);
    r := Request(kind, sapi, script, time, method_, uri, argv);
  }

  method UnpackStatus(buf: array<byte>, at: nat) returns (x: Status, p: nat)
    requires at <= buf.Length && GetStatus(buf[at..]).Got?
    ensures p <= buf.Length && GetStatus(buf[at..]) == Got(x, buf[p..])
  {
    hide GetText, IntOf, GetFrame, GetRequest;
    var version, mem, mempeak, memReal, mempeakReal, request, count;
    version, p := LoadText(buf, at);
    mem, p := LoadI64(buf, p);
    mempeak, p := LoadI64(buf, p);
    memReal, p := LoadI64(buf, p);
    mempeakReal, p := LoadI64(buf, p);
    request, p := UnpackRequest(buf, p);
    count, p := LoadInt(buf, p, 4);
    var frames;
    frames, p := UnpackFrames(buf, p, count);
    x := Status(version, mem, mempeak, memReal, mempeakReal, request, frames);
  }

  method UnpackFrames(buf: array<byte>, at: nat, n: nat) returns (fs: seq<Frame>, p: nat)
    requires at <= buf.Length && GetFrames(buf[at..], n).Got?
    ensures p <= buf.Length && GetFrames(buf[at..], n) == Got(fs, buf[p..])
  {
    hide GetFrame;
    fs, p := [], at;
    assert fs + GetFrames(buf[at..], n).value == GetFrames(buf[at..], n).value;
    for i := 0 to n
      invariant p <= buf.Length
      invariant var more := GetFrames(buf[p..], n - i);
                more.Got? && GetFrames(buf[at..], n) == Got(fs + more.value, more.rest)
    {
      ghost var before := GetFrames(buf[p..], n - i).value;
      var f;
      f, p := UnpackFrame(buf, p);
      assert fs + before == fs + [f] + GetFrames(buf[p..], n - i - 1).value;
      fs := fs + [f];
    }
    assert fs + [] == fs;
  }

  // ----- filters

  method PackFilter(f: Filter, buf: array<byte>, at: nat) returns (p: nat)
    requires at + 1 + TextLen(f.content) <= buf.Length && Fits(f.content)
    modifies buf
    ensures p == at + 1 + TextLen(f.content) && Stored(buf, at, p, FilterBytes(f, []), [])
  {
    hide PutText;
    p := StoreByte(buf, at, f.kind, PutText(f.content, []));
    p := StoreText(buf, p, f.content, []);
  }

  method UnpackFilter(buf: array<byte>, at: nat) returns (f: Filter, p: nat)
    requires at <= buf.Length && GetFilter(buf[at..]).Got?
    ensures p <= buf.Length && GetFilter(buf[at..]) == Got(f, buf[p..])
  {
    hide GetText;
    var kind := buf[at];
    assert buf[at..][1..] == buf[at + 1..];
    var content;
    content, p := LoadText(buf, at + 1);
    f := Filter(kind, content);
  }
}
