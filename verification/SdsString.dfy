/** The dynamic string itself: a length, the unused room, and a NUL-terminated buffer changed in place
    (deps/sds/sds.c:51-66, 112-147, 200-284, 355-415, 552-575). */
module SdsString {
  import opened Basics
  import opened Quoting
  import opened SdsSpec

  class Sds {
    var len: nat
    var free: nat
    var buf: array<byte>
    ghost var moved: nat

    ghost predicate Sized()
      reads this
    {
      buf.Length == len + free + 1
    }

    ghost predicate Valid()
      reads this, buf
    {
      Sized() && buf[len] == 0
    }

    ghost function Contents(): seq<byte>
      requires Valid()
      reads this, buf
    {
      buf[..len]
    }

    ghost function Size(): Room
      reads this
    {
      Room(len, free, moved)
    }

    constructor (init: seq<byte>)
      ensures Valid() && Contents() == init && Size() == Room(|init|, 0, 0) && fresh(buf)
    {
      var b := new byte[|init| + 1](i requires 0 <= i => if i < |init| then init[i] else 0);
      len, free, buf, moved := |init|, 0, b, 0;
    }

    method MakeRoomFor(add: nat)
      requires Valid()
      modifies this
      ensures Valid() && Contents() == old(Contents()) && Size() == MakeRoom(old(Size()), add)
      ensures buf == old(buf) || fresh(buf)
    {
      if free >= add { return; }
      var n := len + add;
      if n < MAX_PREALLOC { n := 2 * n; } else { n := n + MAX_PREALLOC; }
      var b := new byte[n + 1];
      forall i | 0 <= i <= len { b[i] := buf[i]; }
      moved := moved + len;
      buf, free := b, n - len;
    }

    method CatLen(t: seq<byte>)
      requires Valid()
      modifies this, buf
      ensures Valid() && Contents() == old(Contents()) + t && Size() == Append(old(Size()), |t|)
      ensures buf == old(buf) || fresh(buf)
    {
      MakeRoomFor(|t|);
      forall i | 0 <= i < |t| { buf[len + i] := t[i]; }
      len, free := len + |t|, free - |t|;
      buf[len] := 0;
    }

    method CpyLen(t: seq<byte>)
      requires Valid()
      modifies this, buf
      ensures Valid() && Contents() == t && len + free >= old(len + free)
      ensures buf == old(buf) || fresh(buf)
    {
      if len + free < |t| { MakeRoomFor(|t| - len); }
      var total := len + free;
      forall i | 0 <= i < |t| { buf[i] := t[i]; }
      buf[|t|] := 0;
      len, free := |t|, total - |t|;
    }

    method GrowTo(n: nat)
      requires Valid()
      modifies this, buf
      ensures Valid() && Contents() == (if n <= old(len) then old(Contents()) else old(Contents()) + Zeros(n - old(len)))
      ensures buf == old(buf) || fresh(buf)
    {
      if n <= len { return; }
      MakeRoomFor(n - len);
      forall i | len <= i <= n { buf[i] := 0; }
      var total := len + free;
      len, free := n, total - n;
    }

    method Clear()
      requires Valid()
      modifies this`len, this`free, buf
      ensures Valid() && Contents() == [] && len + free == old(len + free)
    {
      free, len := free + len, 0;
      buf[0] := 0;
    }

    /** Called after the bytes past the end were written, so the old terminator may be gone. The source
        asserts only the upper bound; below minus the length it would write before the buffer. */
    method IncrLen(incr: int)
      requires Sized() && 0 <= len + incr && incr <= free
      modifies this`len, this`free, buf
      ensures Valid() && Contents() == old(buf[..len + incr]) && len + free == old(len + free)
    {
      len, free := len + incr, free - incr;
      buf[len] := 0;
    }

    /** Keep only `buf[start..start + n]`, moved to the front. */
    method Keep(start: nat, n: nat)
      requires Valid() && start + n <= len
      modifies this`len, this`free, buf
      ensures Valid() && Contents() == old(Contents())[start..start + n] && len + free == old(len + free)
    {
      ghost var was := buf[..];
      assert was[..len] == Contents() && was[..len][start..start + n] == was[start..start + n];
      if start != 0 {
        forall i | 0 <= i < n { buf[i] := buf[start + i]; }
      }
      assert buf[..n] == was[start..start + n];
      buf[n] := 0;
      free, len := free + (len - n), n;
      assert buf[..n] == was[start..start + n];
    }

    method TrimChars(cset: CString)
      requires Valid()
      modifies this`len, this`free, buf
      ensures Valid() && Contents() == Trim(old(Contents()), cset) && len + free == old(len + free)
    {
      var sp, ep := 0, len - 1;
      while sp <= len - 1 && Trimmable(cset, buf[sp])
        invariant 0 <= sp <= len
        invariant forall k | 0 <= k < sp :: Trimmable(cset, buf[k])
      {
        sp := sp + 1;
      }
      while ep > 0 && Trimmable(cset, buf[ep])
        invariant -1 <= ep < len && (len > 0 ==> ep >= 0)
        invariant forall k | ep < k < len :: Trimmable(cset, buf[k])
      {
        ep := ep - 1;
      }
      var n := if sp > ep then 0 else ep - sp + 1;
      ghost var s := Contents();
      TrimIsMiddle(s, cset, sp, if sp > ep then sp else ep + 1);
      Keep(if sp > ep then 0 else sp, n);
    }

    method RangeInPlace(start: int, end: int)
      requires Valid()
      modifies this`len, this`free, buf
      ensures Valid() && Contents() == Range(old(Contents()), start, end) && len + free == old(len + free)
    {
      if len == 0 { return; }
      var a, b := start, end;
      if a < 0 {
        a := len + a;
        if a < 0 { a := 0; }
      }
      if b < 0 {
        b := len + b;
        if b < 0 { b := 0; }
      }
      var n := if a > b then 0 else b - a + 1;
      if n != 0 {
        if a >= len {
          n := 0;
        } else if b >= len {
          b := len - 1;
          n := if a > b then 0 else b - a + 1;
        }
      } else {
        a := 0;
      }
      Keep(if n != 0 then a else 0, n);
    }

    /** The documented way to read bytes from outside straight into the string. */
    method ReadInto(data: seq<byte>)
      requires Valid()
      modifies this, buf
      ensures Valid() && Contents() == old(Contents()) + data
      ensures buf == old(buf) || fresh(buf)
    {
      MakeRoomFor(|data|);
      forall i | 0 <= i < |data| { buf[len + i] := data[i]; }
      assert buf[..len + |data|] == old(Contents()) + data;
      IncrLen(|data|);
    }

    /** Append the quoted representation of `p`. */
    method CatRepr(p: seq<byte>, isPrint: byte -> bool)
      requires Valid()
      modifies this, buf
      ensures Valid() && Contents() == old(Contents()) + Quote(isPrint, p)
      ensures buf == old(buf) || fresh(buf)
    {
      hide EscapeByte, Append;
      CatLen([DQUOTE]);
      ghost var whole := Contents() + Escape(isPrint, p);
      assert p[0..] == p;
      var i := 0;
      while i < |p|
        invariant i <= |p| && Valid() && (buf == old(buf) || fresh(buf))
        invariant Contents() + Escape(isPrint, p[i..]) == whole
      {
        ghost var before, rest := Contents(), Escape(isPrint, p[i + 1..]);
        var e := EscapeByte(isPrint, p[i]);
        assert p[i..][1..] == p[i + 1..];
        CatLen(e);
        assert before + e + rest == before + (e + rest);
        i := i + 1;
      }
      assert Escape(isPrint, p[i..]) == [] && Contents() + [] == Contents();
      CatLen([DQUOTE]);
      assert whole + [DQUOTE] == old(Contents()) + Quote(isPrint, p);
    }

    /** Any number of appends: the contents, the room and the bytes moved; from a string without spare room
        that stays below the preallocation limit at most twice its length is moved in all. */
    method CatAll(ts: seq<seq<byte>>)
      requires Valid()
      modifies this, buf
      ensures Valid() && Contents() == old(Contents()) + Concat(ts) && Size() == AppendAll(old(Size()), Sizes(ts))
      ensures old(Size()) == Room(old(len), 0, 0) && len < MAX_PREALLOC ==> moved <= 2 * len
      ensures buf == old(buf) || fresh(buf)
    {
      ghost var whole, sizes := Contents() + Concat(ts), Sizes(ts);
      assert ts[0..] == ts && sizes[0..] == sizes;
      var i := 0;
      while i < |ts|
        invariant i <= |ts| && Valid() && (buf == old(buf) || fresh(buf))
        invariant Contents() + Concat(ts[i..]) == whole
        invariant AppendAll(Size(), sizes[i..]) == AppendAll(old(Size()), sizes)
      {
        ghost var before, more := Contents(), Concat(ts[i + 1..]);
        assert ts[i..][1..] == ts[i + 1..] && sizes[i..][1..] == sizes[i + 1..];
        CatLen(ts[i]);
        assert before + ts[i] + more == before + (ts[i] + more);
        i := i + 1;
      }
      assert Contents() + [] == Contents();
      if old(Size()) == Room(old(len), 0, 0) && len < MAX_PREALLOC { AmortisedGrowth(old(len), sizes); }
    }

    method Do(op: Op)
      requires Valid() && Allowed(Contents(), op)
      modifies this, buf
      ensures Valid() && Contents() == Apply(old(Contents()), op)
      ensures buf == old(buf) || fresh(buf)
    {
      match op {
        case Cat(t) => CatLen(t);
        case Copy(t) => CpyLen(t);
        case GrowZero(n) => GrowTo(n);
        case Clear => Clear();
        case TrimBy(cset) => TrimChars(cset);
        case RangeOf(start, end) => RangeInPlace(start, end);
        case Feed(data) => ReadInto(data);
        case Shorten(n) => IncrLen(0 - n);
      }
    }

    /** Any sequence of operations: the string stays well formed and holds what the same operations make
        of a plain byte sequence. */
    method DoAll(ops: seq<Op>)
      requires Valid() && AllAllowed(Contents(), ops)
      modifies this, buf
      ensures Valid() && Contents() == ApplyAll(old(Contents()), ops)
    {
      var i := 0;
      while i < |ops|
        invariant i <= |ops| && Valid() && (buf == old(buf) || fresh(buf))
        invariant AllAllowed(Contents(), ops[i..]) && ApplyAll(Contents(), ops[i..]) == ApplyAll(old(Contents()), ops)
      {
        assert ops[i..][1..] == ops[i + 1..];
        Do(ops[i]);
        i := i + 1;
      }
    }
  }
}
