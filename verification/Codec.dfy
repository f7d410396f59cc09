/** The packed form of frames, requests, status records and filters
    (common/trace_type.c:41-127, 227-298, 359-435; common/trace_filter.c:45-60). */
module Codec {
  import opened Basics
  import opened Wire

  datatype Frame = Frame(kind: byte, functype: byte, lineno: nat, filename: Text, cls: Text, function_: Text, level: nat,
                         args: seq<Text>, retval: Text, inc: int, exc: int)

  datatype Request = Request(kind: byte, sapi: Text, script: Text, time: int, method_: Text, uri: Text, argv: seq<Text>)

  datatype Status = Status(version: Text, mem: int, mempeak: int, memReal: int, mempeakReal: int,
                           request: Request, frames: seq<Frame>)

  datatype Filter = Filter(kind: byte, content: Text)

  predicate IsI64(x: int) { -0x8000_0000_0000_0000 <= x < 0x8000_0000_0000_0000 }

  // ----- frames

  /** Every field is within its width. */
  predicate FrameFits(f: Frame) {
    && f.lineno < U32 && f.level < U32 && |f.args| < U32 && IsI64(f.inc) && IsI64(f.exc)
    && Fits(f.filename) && Fits(f.cls) && Fits(f.function_) && Fits(f.retval) && AllFit(f.args)
  }

  function FrameHead(f: Frame, t: seq<byte>): seq<byte> {
    PutByte(f.kind, PutByte(f.functype, PutInt(f.lineno, 4,
      PutText(f.filename, PutText(f.cls, PutText(f.function_, t))))))
  }

  function FrameTail(f: Frame, t: seq<byte>): seq<byte>
    requires IsI64(f.inc) && IsI64(f.exc)
  {
    PutInt(f.level, 4, PutInt(|f.args|, 4, PutTexts(f.args, PutText(f.retval, PutI64(f.inc, PutI64(f.exc, t))))))
  }

  function FrameBytes(f: Frame, t: seq<byte>): seq<byte>
    requires FrameFits(f)
  {
    FrameHead(f, FrameTail(f, t))
  }

  function FrameLen(f: Frame): nat {
    1 + 1 + 4 + TextLen(f.filename) + TextLen(f.cls) + TextLen(f.function_)
    + 4 + 4 + TextsLen(f.args) + TextLen(f.retval) + 8 + 8
  }

  function GetFrame(s: seq<byte>): Got<Frame> {
    var (kind, s) :- GetByte(s);
    var (functype, s) :- GetByte(s);
    var (lineno, s) :- GetInt(s, 4);
    var (filename, s) :- GetText(s);
    var (cls, s) :- GetText(s);
    var (function_, s) :- GetText(s);
    var (level, s) :- GetInt(s, 4);
    var (count, s) :- GetInt(s, 4);
    var (args, s) :- GetTexts(s, count);
    var (retval, s) :- GetText(s);
    var (inc, s) :- GetI64(s);
    var (exc, s) :- GetI64(s);
    Got(Frame(kind, functype, lineno, filename, cls, function_, level, args, retval, inc, exc), s)
  }

  function NormFrame(f: Frame): Frame {
    f.(filename := Norm(f.filename), cls := Norm(f.cls), function_ := Norm(f.function_),
       args := NormAll(f.args), retval := Norm(f.retval))
  }

  lemma FrameLenExact(f: Frame, t: seq<byte>)
    requires FrameFits(f)
    ensures |FrameBytes(f, t)| == FrameLen(f) + |t|
  {
    hide PutByte, PutInt, PutText, PutTexts, PutI64;
  }

  /** Unpacking a packed frame, whatever follows it, yields the frame with empty strings absent and
      stops exactly at its end. */
  lemma FrameRoundTrip(f: Frame, t: seq<byte>)
    requires FrameFits(f)
    ensures GetFrame(FrameBytes(f, t)) == Got(NormFrame(f), t)
  {
    hide PutByte, PutInt, PutText, PutTexts, PutI64, GetByte, GetInt, GetText, GetTexts, GetI64, Norm, NormAll;
    Widths();
    var s := FrameBytes(f, t);
    var tail := FrameTail(f, t);
    var s3 := PutText(f.filename, PutText(f.cls, PutText(f.function_, tail)));
    ByteRoundTrip(f.kind, PutByte(f.functype, PutInt(f.lineno, 4, s3)));
    ByteRoundTrip(f.functype, PutInt(f.lineno, 4, s3));
    IntRoundTrip(f.lineno, 4, s3);
    TextRoundTrip(f.filename, PutText(f.cls, PutText(f.function_, tail)));
    TextRoundTrip(f.cls, PutText(f.function_, tail));
    TextRoundTrip(f.function_, tail);
    var s7 := PutTexts(f.args, PutText(f.retval, PutI64(f.inc, PutI64(f.exc, t))));
    IntRoundTrip(f.level, 4, PutInt(|f.args|, 4, s7));
    IntRoundTrip(|f.args|, 4, s7);
    TextsRoundTrip(f.args, PutText(f.retval, PutI64(f.inc, PutI64(f.exc, t))));
    TextRoundTrip(f.retval, PutI64(f.inc, PutI64(f.exc, t)));
    I64RoundTrip(f.inc, PutI64(f.exc, t));
    I64RoundTrip(f.exc, t);
  }

  lemma FrameOnto(f: Frame, t: seq<byte>, u: seq<byte>)
    requires FrameFits(f)
    ensures FrameBytes(f, t) + u == FrameBytes(f, t + u)
  {
    hide PutByte, PutInt, PutText, PutTexts, FrameTail;
    var s3 := FrameTail(f, t);
    var s2 := PutText(f.function_, s3);
    var s1 := PutText(f.cls, s2);
    var s0 := PutText(f.filename, s1);
    PutByteOnto(f.kind, PutByte(f.functype, PutInt(f.lineno, 4, s0)), u);
    PutByteOnto(f.functype, PutInt(f.lineno, 4, s0), u);
    PutIntOnto(f.lineno, 4, s0, u);
    PutTextOnto(f.filename, s1, u);
    PutTextOnto(f.cls, s2, u);
    PutTextOnto(f.function_, s3, u);
    FrameTailOnto(f, t, u);
  }

  lemma FrameTailOnto(f: Frame, t: seq<byte>, u: seq<byte>)
    requires FrameFits(f)
    ensures FrameTail(f, t) + u == FrameTail(f, t + u)
  {
    hide PutInt, PutText, PutTexts, PutI64;
    var s2 := PutI64(f.inc, PutI64(f.exc, t));
    var s1 := PutText(f.retval, s2);
    PutIntOnto(f.level, 4, PutInt(|f.args|, 4, PutTexts(f.args, s1)), u);
    PutIntOnto(|f.args|, 4, PutTexts(f.args, s1), u);
    PutTextsOnto(f.args, s1, u);
    PutTextOnto(f.retval, s2, u);
    PutI64Onto(f.inc, PutI64(f.exc, t), u);
    PutI64Onto(f.exc, t, u);
  }

  /** The order of the fields on the wire. */
  lemma FrameLayout(f: Frame)
    requires FrameFits(f)
    ensures FrameBytes(f, []) ==
            [f.kind] + ([f.functype] + (PutInt(f.lineno, 4, [])
            + (PutText(f.filename, []) + (PutText(f.cls, []) + (PutText(f.function_, [])
            + (PutInt(f.level, 4, []) + (PutInt(|f.args|, 4, []) + (PutTexts(f.args, [])
            + (PutText(f.retval, []) + (PutI64(f.inc, []) + PutI64(f.exc, [])))))))))))
  {
    hide PutInt, PutText, PutTexts, PutI64;
    var tail := FrameTail(f, []);
    var s1 := PutText(f.cls, PutText(f.function_, tail));
    var s2 := PutI64(f.inc, PutI64(f.exc, []));
    var s3 := PutText(f.retval, s2);
    var s4 := PutInt(|f.args|, 4, PutTexts(f.args, s3));
    assert forall t: seq<byte> :: [] + t == t;
    PutIntOnto(f.lineno, 4, [], PutText(f.filename, s1));
    PutTextOnto(f.filename, [], s1);
    PutTextOnto(f.cls, [], PutText(f.function_, tail));
    PutTextOnto(f.function_, [], tail);
    PutIntOnto(f.level, 4, [], s4);
    PutIntOnto(|f.args|, 4, [], PutTexts(f.args, s3));
    PutTextsOnto(f.args, [], s3);
    PutTextOnto(f.retval, [], s2);
    PutI64Onto(f.inc, [], PutI64(f.exc, []));
  }

  /** Packed frames are prefix-free up to empty strings: the bytes determine the frame and its end. */
  lemma FramePrefixFree(f: Frame, g: Frame, t: seq<byte>, u: seq<byte>)
    requires FrameFits(f) && FrameFits(g) && FrameBytes(f, t) == FrameBytes(g, u)
    ensures NormFrame(f) == NormFrame(g) && t == u
  {
    hide GetFrame, FrameBytes;
    FrameRoundTrip(f, t);
    FrameRoundTrip(g, u);
  }

  function NormFrames(fs: seq<Frame>): seq<Frame> { seq(|fs|, i requires 0 <= i < |fs| => NormFrame(fs[i])) }

  predicate AllFramesFit(fs: seq<Frame>) { forall f <- fs :: FrameFits(f) }

  function FramesBytes(fs: seq<Frame>, t: seq<byte>): seq<byte>
    requires AllFramesFit(fs)
  {
    if fs == [] then t else FrameBytes(fs[0], FramesBytes(fs[1..], t))
  }

  function FramesLen(fs: seq<Frame>): nat { if fs == [] then 0 else FrameLen(fs[0]) + FramesLen(fs[1..]) }

  function GetFrames(s: seq<byte>, n: nat): Got<seq<Frame>>
    decreases n
  {
    if n == 0 then Got([], s) else
      var (f, r) :- GetFrame(s);
      var (fs, u) :- GetFrames(r, n - 1);
      Got([f] + fs, u)
  }

  lemma {:induction false} FramesRoundTrip(fs: seq<Frame>, t: seq<byte>)
    requires AllFramesFit(fs)
    ensures GetFrames(FramesBytes(fs, t), |fs|) == Got(NormFrames(fs), t)
    ensures |FramesBytes(fs, t)| == FramesLen(fs) + |t|
    decreases |fs|
  {
    hide FrameBytes, GetFrame, NormFrame, FrameLen, FrameFits;
    if fs == [] {
      assert NormFrames(fs) == [];
    } else {
      assert fs[0] in fs;
      FrameRoundTrip(fs[0], FramesBytes(fs[1..], t));
      FrameLenExact(fs[0], FramesBytes(fs[1..], t));
      FramesRoundTrip(fs[1..], t);
      assert NormFrames(fs) == [NormFrame(fs[0])] + NormFrames(fs[1..]);
    }
  }

  lemma {:induction false} FramesOnto(fs: seq<Frame>, t: seq<byte>, u: seq<byte>)
    requires AllFramesFit(fs)
    ensures FramesBytes(fs, t) + u == FramesBytes(fs, t + u)
    decreases |fs|
  {
    hide FrameBytes, FrameFits;
    if fs != [] {
      assert fs[0] in fs;
      FrameOnto(fs[0], FramesBytes(fs[1..], t), u);
      FramesOnto(fs[1..], t, u);
    }
  }

  // ----- requests: strings are packed as C strings

  predicate RequestFits(r: Request) {
    && IsI64(r.time) && |r.argv| < 0x8000_0000
    && Fits(r.sapi) && Fits(r.script) && Fits(r.method_) && Fits(r.uri) && AllFit(r.argv)
  }

  function RequestBytes(r: Request, t: seq<byte>): seq<byte>
    requires RequestFits(r)
  {
    PutByte(r.kind, PutText(CText(r.sapi), PutText(CText(r.script), PutI64(r.time,
      PutText(CText(r.method_), PutText(CText(r.uri), PutInt(|r.argv|, 4, PutTexts(CTexts(r.argv), t))))))))
  }

  function RequestLen(r: Request): nat {
    1 + TextLen(CText(r.sapi)) + TextLen(CText(r.script)) + 8 + TextLen(CText(r.method_)) + TextLen(CText(r.uri))
    + 4 + TextsLen(CTexts(r.argv))
  }

  function GetRequest(s: seq<byte>): Got<Request> {
    var (kind, s) :- GetByte(s);
    var (sapi, s) :- GetText(s);
    var (script, s) :- GetText(s);
    var (time, s) :- GetI64(s);
    var (method_, s) :- GetText(s);
    var (uri, s) :- GetText(s);
    var (argc, s) :- GetInt(s, 4);
    var (argv, s) :- GetTexts(s, argc);
    Got(Request(kind, sapi, script, time, method_, uri, argv), s)
  }

  /** Strings end at their first NUL, and empty ones are absent. */
  function NormRequest(r: Request): Request {
    r.(sapi := Norm(CText(r.sapi)), script := Norm(CText(r.script)), method_ := Norm(CText(r.method_)),
       uri := Norm(CText(r.uri)), argv := NormAll(CTexts(r.argv)))
  }

  lemma CTextsFit(xs: seq<Text>)
    requires AllFit(xs)
    ensures AllFit(CTexts(xs))
  {
    forall x | x in CTexts(xs) ensures Fits(x) {
      var i :| 0 <= i < |xs| && CTexts(xs)[i] == x;
      assert xs[i] in xs;
    }
  }

  lemma RequestLenExact(r: Request, t: seq<byte>)
    requires RequestFits(r)
    ensures |RequestBytes(r, t)| == RequestLen(r) + |t|
  {
    hide PutByte, PutInt, PutText, PutTexts, PutI64, CText, CTexts;
  }

  /** Unpacking a packed request yields it with strings cut at their first NUL and empty ones absent; a
      request without NULs and empty strings comes back as it was. */
  lemma RequestRoundTrip(r: Request, t: seq<byte>)
    requires RequestFits(r)
    ensures GetRequest(RequestBytes(r, t)) == Got(NormRequest(r), t)
  {
    hide PutByte, PutInt, PutText, PutTexts, PutI64, GetByte, GetInt, GetText, GetTexts, GetI64, Norm, NormAll, CTexts, UpToNul;
    Widths();
    CTextsFit(r.argv);
    var s4 := PutTexts(CTexts(r.argv), t);
    var s3 := PutText(CText(r.method_), PutText(CText(r.uri), PutInt(|r.argv|, 4, s4)));
    var s2 := PutText(CText(r.sapi), PutText(CText(r.script), PutI64(r.time, s3)));
    ByteRoundTrip(r.kind, s2);
    TextRoundTrip(CText(r.sapi), PutText(CText(r.script), PutI64(r.time, s3)));
    TextRoundTrip(CText(r.script), PutI64(r.time, s3));
    I64RoundTrip(r.time, s3);
    TextRoundTrip(CText(r.method_), PutText(CText(r.uri), PutInt(|r.argv|, 4, s4)));
    TextRoundTrip(CText(r.uri), PutInt(|r.argv|, 4, s4));
    IntRoundTrip(|r.argv|, 4, s4);
    TextsRoundTrip(CTexts(r.argv), t);
  }

  lemma RequestOnto(r: Request, t: seq<byte>, u: seq<byte>)
    requires RequestFits(r)
    ensures RequestBytes(r, t) + u == RequestBytes(r, t + u)
  {
    hide PutByte, PutInt, PutText, PutTexts, PutI64, CText, CTexts;
    var s4 := PutInt(|r.argv|, 4, PutTexts(CTexts(r.argv), t));
    var s3 := PutText(CText(r.uri), s4);
    var s2 := PutI64(r.time, PutText(CText(r.method_), s3));
    var s1 := PutText(CText(r.script), s2);
    PutByteOnto(r.kind, PutText(CText(r.sapi), s1), u);
    PutTextOnto(CText(r.sapi), s1, u);
    PutTextOnto(CText(r.script), s2, u);
    PutI64Onto(r.time, PutText(CText(r.method_), s3), u);
    PutTextOnto(CText(r.method_), s3, u);
    PutTextOnto(CText(r.uri), s4, u);
    PutIntOnto(|r.argv|, 4, PutTexts(CTexts(r.argv), t), u);
    PutTextsOnto(CTexts(r.argv), t, u);
  }

  /** The order of a request's fields. */
  lemma RequestLayout(r: Request)
    requires RequestFits(r)
    ensures RequestBytes(r, []) ==
            [r.kind] + (PutText(CText(r.sapi), []) + (PutText(CText(r.script), []) + (PutI64(r.time, [])
            + (PutText(CText(r.method_), []) + (PutText(CText(r.uri), [])
            + (PutInt(|r.argv|, 4, []) + PutTexts(CTexts(r.argv), [])))))))
  {
    hide PutInt, PutText, PutTexts, PutI64, CText, CTexts;
    var s4 := PutInt(|r.argv|, 4, PutTexts(CTexts(r.argv), []));
    var s3 := PutText(CText(r.uri), s4);
    var s2 := PutI64(r.time, PutText(CText(r.method_), s3));
    assert forall t: seq<byte> :: [] + t == t;
    PutTextOnto(CText(r.sapi), [], PutText(CText(r.script), s2));
    PutTextOnto(CText(r.script), [], s2);
    PutI64Onto(r.time, [], PutText(CText(r.method_), s3));
    PutTextOnto(CText(r.method_), [], s3);
    PutTextOnto(CText(r.uri), [], s4);
    PutIntOnto(|r.argv|, 4, [], PutTexts(CTexts(r.argv), []));
  }

  /** Packed requests are prefix-free in the same way. */
  lemma RequestPrefixFree(q: Request, r: Request, t: seq<byte>, u: seq<byte>)
    requires RequestFits(q) && RequestFits(r) && RequestBytes(q, t) == RequestBytes(r, u)
    ensures NormRequest(q) == NormRequest(r) && t == u
  {
    hide GetRequest, RequestBytes;
    RequestRoundTrip(q, t);
    RequestRoundTrip(r, u);
  }

  // ----- status records

  predicate StatusFits(x: Status) {
    && Fits(x.version) && IsI64(x.mem) && IsI64(x.mempeak) && IsI64(x.memReal) && IsI64(x.mempeakReal)
    && RequestFits(x.request) && |x.frames| < U32 && AllFramesFit(x.frames)
  }

  function StatusBytes(x: Status, t: seq<byte>): seq<byte>
    requires StatusFits(x)
  {
    PutText(CText(x.version), PutI64(x.mem, PutI64(x.mempeak, PutI64(x.memReal, PutI64(x.mempeakReal,
      RequestBytes(x.request, PutInt(|x.frames|, 4, FramesBytes(x.frames, t))))))))
  }

  function StatusLen(x: Status): nat {
    TextLen(CText(x.version)) + 8 + 8 + 8 + 8 + RequestLen(x.request) + 4 + FramesLen(x.frames)
  }

  function GetStatus(s: seq<byte>): Got<Status> {
    var (version, s) :- GetText(s);
    var (mem, s) :- GetI64(s);
    var (mempeak, s) :- GetI64(s);
    var (memReal, s) :- GetI64(s);
    var (mempeakReal, s) :- GetI64(s);
    var (request, s) :- GetRequest(s);
    var (count, s) :- GetInt(s, 4);
    var (frames, s) :- GetFrames(s, count);
    Got(Status(version, mem, mempeak, memReal, mempeakReal, request, frames), s)
  }

  function NormStatus(x: Status): Status {
    x.(version := Norm(CText(x.version)), request := NormRequest(x.request), frames := NormFrames(x.frames))
  }

  /** The same for a whole status record, with its nested request and any number of frames. */
  lemma StatusRoundTrip(x: Status, t: seq<byte>)
    requires StatusFits(x)
    ensures GetStatus(StatusBytes(x, t)) == Got(NormStatus(x), t) && |StatusBytes(x, t)| == StatusLen(x) + |t|
  {
    hide PutByte, PutInt, PutText, PutI64, GetByte, GetInt, GetText, GetI64, Norm, UpToNul;
    hide RequestBytes, GetRequest, NormRequest, RequestFits, RequestLen, FramesBytes, GetFrames, NormFrames, FramesLen;
    Widths();
    var s3 := PutInt(|x.frames|, 4, FramesBytes(x.frames, t));
    var s2 := RequestBytes(x.request, s3);
    TextRoundTrip(CText(x.version), PutI64(x.mem, PutI64(x.mempeak, PutI64(x.memReal, PutI64(x.mempeakReal, s2)))));
    I64RoundTrip(x.mem, PutI64(x.mempeak, PutI64(x.memReal, PutI64(x.mempeakReal, s2))));
    I64RoundTrip(x.mempeak, PutI64(x.memReal, PutI64(x.mempeakReal, s2)));
    I64RoundTrip(x.memReal, PutI64(x.mempeakReal, s2));
    I64RoundTrip(x.mempeakReal, s2);
    RequestRoundTrip(x.request, s3);
    RequestLenExact(x.request, s3);
    IntRoundTrip(|x.frames|, 4, FramesBytes(x.frames, t));
    FramesRoundTrip(x.frames, t);
  }

  lemma StatusOnto(x: Status, t: seq<byte>, u: seq<byte>)
    requires StatusFits(x)
    ensures StatusBytes(x, t) + u == StatusBytes(x, t + u)
  {
    hide PutInt, PutText, PutI64, CText, RequestBytes, RequestFits, FramesBytes;
    var s5 := PutInt(|x.frames|, 4, FramesBytes(x.frames, t));
    var s4 := RequestBytes(x.request, s5);
    var s3 := PutI64(x.mempeakReal, s4);
    var s2 := PutI64(x.memReal, s3);
    var s1 := PutI64(x.mempeak, s2);
    PutTextOnto(CText(x.version), PutI64(x.mem, s1), u);
    PutI64Onto(x.mem, s1, u);
    PutI64Onto(x.mempeak, s2, u);
    PutI64Onto(x.memReal, s3, u);
    PutI64Onto(x.mempeakReal, s4, u);
    RequestOnto(x.request, s5, u);
    PutIntOnto(|x.frames|, 4, FramesBytes(x.frames, t), u);
    FramesOnto(x.frames, t, u);
  }

  /** The order of a status record's fields. */
  lemma StatusLayout(x: Status)
    requires StatusFits(x)
    ensures StatusBytes(x, []) ==
            PutText(CText(x.version), []) + (PutI64(x.mem, []) + (PutI64(x.mempeak, []) + (PutI64(x.memReal, [])
            + (PutI64(x.mempeakReal, []) + (RequestBytes(x.request, [])
            + (PutInt(|x.frames|, 4, []) + FramesBytes(x.frames, [])))))))
  {
    hide PutInt, PutText, PutI64, CText, RequestBytes, RequestFits, FramesBytes;
    var s5 := PutInt(|x.frames|, 4, FramesBytes(x.frames, []));
    var s4 := RequestBytes(x.request, s5);
    var s3 := PutI64(x.mempeakReal, s4);
    var s2 := PutI64(x.memReal, s3);
    var s1 := PutI64(x.mempeak, s2);
    assert forall t: seq<byte> :: [] + t == t;
    PutTextOnto(CText(x.version), [], PutI64(x.mem, s1));
    PutI64Onto(x.mem, [], s1);
    PutI64Onto(x.mempeak, [], s2);
    PutI64Onto(x.memReal, [], s3);
    PutI64Onto(x.mempeakReal, [], s4);
    RequestOnto(x.request, [], s5);
    PutIntOnto(|x.frames|, 4, [], FramesBytes(x.frames, []));
  }

  /** Packed status records are prefix-free in the same way. */
  lemma StatusPrefixFree(x: Status, y: Status, t: seq<byte>, u: seq<byte>)
    requires StatusFits(x) && StatusFits(y) && StatusBytes(x, t) == StatusBytes(y, u)
    ensures NormStatus(x) == NormStatus(y) && t == u
  {
    hide GetStatus, StatusBytes;
    StatusRoundTrip(x, t);
    StatusRoundTrip(y, u);
  }

  // ----- filters

  /** The declared body size of a filter message: the size of the filter record on a 64-bit host. */
  const FILTER_SIZE: nat := 16

  function FilterBytes(f: Filter, t: seq<byte>): seq<byte>
    requires Fits(f.content)
  {
    PutByte(f.kind, PutText(f.content, t))
  }

  function GetFilter(s: seq<byte>): Got<Filter> {
    var (kind, s) :- GetByte(s);
    var (content, s) :- GetText(s);
    Got(Filter(kind, content), s)
  }

  lemma FilterRoundTrip(f: Filter, t: seq<byte>)
    requires Fits(f.content)
    ensures GetFilter(FilterBytes(f, t)) == Got(f.(content := Norm(f.content)), t)
  {
    hide PutByte, GetByte, PutInt, GetInt, PutText, GetText;
    Widths();
    ByteRoundTrip(f.kind, PutText(f.content, t));
    TextRoundTrip(f.content, t);
  }

  /** The bytes of content that lie within the declared size, behind the type and the length. */
  const FILTER_ROOM: nat := FILTER_SIZE - 5

  /** The tool packs its filter into the message buffer and sends the first FILTER_SIZE bytes of it; the
      extension unpacks from its own buffer, where whatever was there before, `stale`, follows those bytes.
      A filter with at most 11 bytes of content arrives. Of a longer one only the first 11 bytes do; the
      rest of the content is read from the stale bytes, so it arrives only if those happen to be right. */
  lemma FilterAsRead(f: Filter, t: seq<byte>, stale: seq<byte>)
    requires Fits(f.content) && FILTER_SIZE <= |FilterBytes(f, t)|
    requires f.content.Some? ==> |f.content.value| <= 11 + |stale|
    ensures var got := GetFilter(FilterBytes(f, t)[..FILTER_SIZE] + stale);
            && got.Got? && got.value.kind == f.kind
            && if f.content.None? || |f.content.value| <= 11 then got.value == f.(content := Norm(f.content))
               else
                 var x := f.content.value; var n := |x| - 11;
                 && got.value.content == Some(x[..11] + stale[..n])
                 && (got.value == f <==> stale[..n] == x[11..])
  {
    hide PutInt, GetInt;
    Widths();
    var text := if f.content.Some? then f.content.value else [];
    var packed := PutByte(f.kind, PutInt(|text|, 4, text + t));
    assert FilterBytes(f, t) == packed by { assert [] + t == t; }
    var cut := (text + t)[..FILTER_ROOM] + stale;
    PutIntPrefix(|text|, 4, text + t, 4 + FILTER_ROOM);
    PutIntOnto(|text|, 4, (text + t)[..FILTER_ROOM], stale);
    assert packed[..FILTER_SIZE] + stale == PutByte(f.kind, PutInt(|text|, 4, cut));
    ByteRoundTrip(f.kind, PutInt(|text|, 4, cut));
    IntRoundTrip(|text|, 4, cut);
    if |text| <= FILTER_ROOM {
      assert cut[..|text|] == text;
    } else {
      var n := |text| - FILTER_ROOM;
      assert cut[..|text|] == text[..FILTER_ROOM] + stale[..n];
      assert text == text[..FILTER_ROOM] + text[FILTER_ROOM..];
      assert stale[..n] == cut[..|text|][FILTER_ROOM..];
    }
  }

  lemma {:induction false} PutIntPrefix(n: nat, k: nat, t: seq<byte>, m: nat)
    requires k <= m <= k + |t|
    ensures PutInt(n, k, t)[..m] == PutInt(n, k, t[..m - k])
    decreases k
  {
    if k > 0 {
      PutIntPrefix(n / 256, k - 1, t, m - 1);
      assert PutInt(n, k, t)[..m] == [n % 256] + PutInt(n / 256, k - 1, t)[..m - 1];
    }
  }
}
