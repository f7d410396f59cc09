/** Integers and strings in a packed buffer (common/trace_type.h:43-75). Writers put their bytes in front
    of what follows; readers return what is left. Integers are stored in one fixed host order. */
module Wire {
  import opened Basics

  /** A string that may be absent: an sds or C pointer that may be NULL. */
  type Text = Option<seq<byte>>

  datatype Got<+T> = Fail | Got(value: T, rest: seq<byte>) {
    predicate IsFailure() { Fail? }
    function PropagateFailure<U>(): Got<U>
      requires Fail?
    {
      Fail
    }
    function Extract(): (T, seq<byte>)
      requires Got?
    {
      (value, rest)
    }
  }

  const U32: nat := 0x1_0000_0000
  const U64: nat := 0x1_0000_0000_0000_0000
  const I64: int := 0x8000_0000_0000_0000

  function Pow256(k: nat): (n: nat)
    ensures n > 0
  {
    if k == 0 then 1 else 256 * Pow256(k - 1)
  }

  function PutByte(b: byte, t: seq<byte>): (s: seq<byte>)
    ensures |s| == 1 + |t|
  {
    [b] + t
  }

  function GetByte(s: seq<byte>): Got<byte> { if s == [] then Fail else Got(s[0], s[1..]) }

  lemma ByteRoundTrip(b: byte, t: seq<byte>)
    ensures GetByte(PutByte(b, t)) == Got(b, t)
  {
    assert ([b] + t)[1..] == t;
  }

  lemma PutByteOnto(b: byte, t: seq<byte>, u: seq<byte>)
    ensures PutByte(b, t) + u == PutByte(b, t + u)
  {
  }

  /** The low `k` bytes of `n`, then `t`. */
  function PutInt(n: nat, k: nat, t: seq<byte>): (s: seq<byte>)
    ensures |s| == k + |t|
    decreases k
  {
    if k == 0 then t else [n % 256] + PutInt(n / 256, k - 1, t)
  }

  function IntOf(s: seq<byte>, k: nat): nat
    requires k <= |s|
    decreases k
  {
    if k == 0 then 0 else s[0] + 256 * IntOf(s[1..], k - 1)
  }

  lemma {:induction false} IntOfPrefix(s: seq<byte>, k: nat)
    requires k <= |s|
    ensures IntOf(s[..k], k) == IntOf(s, k)
    decreases k
  {
    if k > 0 {
      IntOfPrefix(s[1..], k - 1);
      assert s[..k][1..] == s[1..][..k - 1];
    }
  }

  function GetInt(s: seq<byte>, k: nat): Got<nat> {
    if |s| < k then Fail else Got(IntOf(s, k), s[k..])
  }

  /** The lowest byte comes first. */
  lemma {:induction false} IntLayout(n: nat, k: nat, i: nat)
    requires i < k
    ensures PutInt(n, k, [])[i] == n / Pow256(i) % 256
    decreases k
  {
    if i > 0 {
      IntLayout(n / 256, k - 1, i - 1);
      DivTwice(n, Pow256(i - 1));
    }
  }

  lemma DivTwice(n: nat, m: nat)
    requires m > 0
    ensures n / 256 / m == n / (256 * m)
  {
    var q, r := n / 256 / m, n / 256 % m;
    assert n == (q * m + r) * 256 + n % 256 == q * (256 * m) + (r * 256 + n % 256);
    DivUnique(n, 256 * m, q, r * 256 + n % 256);
  }

  lemma DivUnique(n: nat, d: nat, q: nat, r: nat)
    requires n == q * d + r && r < d
    ensures n / d == q
  {
    var k := n / d - q;
    assert k * d == r - n % d by { assert k * d == (n / d) * d - q * d; }
    AwayFromZero(k, d);
  }

  lemma AwayFromZero(k: int, d: nat)
    ensures (k > 0 ==> k * d >= d) && (k < 0 ==> k * d + d <= 0)
  {
    if k > 0 { assert (k - 1) * d >= 0; }
    if k < 0 { assert (-k - 1) * d >= 0; }
  }

  lemma {:induction false} IntRoundTrip(n: nat, k: nat, t: seq<byte>)
    requires n < Pow256(k)
    ensures GetInt(PutInt(n, k, t), k) == Got(n, t)
    decreases k
  {
    var s := PutInt(n, k, t);
    if k > 0 {
      IntRoundTrip(n / 256, k - 1, t);
      assert s[1..] == PutInt(n / 256, k - 1, t);
      assert s[k..] == s[1..][k - 1..];
    }
  }

  /** What is put in front of `t` is in front of `t + u` when `u` follows. */
  lemma {:induction false} PutIntOnto(n: nat, k: nat, t: seq<byte>, u: seq<byte>)
    ensures PutInt(n, k, t) + u == PutInt(n, k, t + u)
    decreases k
  {
    if k > 0 {
      PutIntOnto(n / 256, k - 1, t, u);
      var more := PutInt(n / 256, k - 1, t);
      assert [n % 256] + more + u == [n % 256] + (more + u);
    }
  }

  lemma Widths()
    ensures Pow256(4) == U32 && Pow256(8) == U64
  {
    assert Pow256(2) == 0x1_0000;
    assert Pow256(4) == U32;
    assert Pow256(6) == 0x1_0000_0000_0000;
  }

  /** Two's complement in eight bytes. */
  function PutI64(x: int, t: seq<byte>): (s: seq<byte>)
    requires -I64 <= x < I64
    ensures |s| == 8 + |t|
  {
    PutInt(if x < 0 then x + U64 else x, 8, t)
  }

  function GetI64(s: seq<byte>): Got<int> {
    var (v, r) :- GetInt(s, 8);
    Got(if v < I64 then v else v - U64, r)
  }

  lemma PutI64Onto(x: int, t: seq<byte>, u: seq<byte>)
    requires -I64 <= x < I64
    ensures PutI64(x, t) + u == PutI64(x, t + u)
  {
    PutIntOnto(if x < 0 then x + U64 else x, 8, t, u);
  }

  lemma I64RoundTrip(x: int, t: seq<byte>)
    requires -I64 <= x < I64
    ensures GetI64(PutI64(x, t)) == Got(x, t)
  {
    Widths();
    IntRoundTrip(if x < 0 then x + U64 else x, 8, t);
  }

  /** What is read back for a packed string: an empty one comes back absent. */
  function Norm(x: Text): Text { if x == Some([]) then None else x }

  predicate Fits(x: Text) { x.Some? ==> |x.value| < U32 }

  function TextLen(x: Text): nat { 4 + if x.Some? then |x.value| else 0 }

  function PutText(x: Text, t: seq<byte>): (s: seq<byte>)
    ensures |s| == TextLen(x) + |t|
  {
    if x.None? then PutInt(0, 4, t) else PutInt(|x.value|, 4, x.value + t)
  }

  function GetText(s: seq<byte>): Got<Text> {
    var (n, r) :- GetInt(s, 4);
    if n == 0 then Got(None, r) else if |r| < n then Fail else Got(Some(r[..n]), r[n..])
  }

  lemma TextRoundTrip(x: Text, t: seq<byte>)
    requires Fits(x)
    ensures GetText(PutText(x, t)) == Got(Norm(x), t)
  {
    hide PutInt, GetInt;
    Widths();
    if x.Some? {
      IntRoundTrip(|x.value|, 4, x.value + t);
      assert (x.value + t)[..|x.value|] == x.value && (x.value + t)[|x.value|..] == t;
    } else {
      IntRoundTrip(0, 4, t);
    }
  }

  lemma PutTextOnto(x: Text, t: seq<byte>, u: seq<byte>)
    ensures PutText(x, t) + u == PutText(x, t + u)
  {
    hide PutInt;
    if x.None? {
      PutIntOnto(0, 4, t, u);
    } else {
      PutIntOnto(|x.value|, 4, x.value + t, u);
      assert x.value + t + u == x.value + (t + u);
    }
  }

  // ----- lists of strings

  function NormAll(xs: seq<Text>): seq<Text> { seq(|xs|, i requires 0 <= i < |xs| => Norm(xs[i])) }

  predicate AllFit(xs: seq<Text>) { forall x <- xs :: Fits(x) }

  function TextsLen(xs: seq<Text>): nat { if xs == [] then 0 else TextLen(xs[0]) + TextsLen(xs[1..]) }

  function PutTexts(xs: seq<Text>, t: seq<byte>): (s: seq<byte>)
    ensures |s| == TextsLen(xs) + |t|
  {
    if xs == [] then t else PutText(xs[0], PutTexts(xs[1..], t))
  }

  function GetTexts(s: seq<byte>, n: nat): Got<seq<Text>>
    decreases n
  {
    if n == 0 then Got([], s) else
      var (x, r) :- GetText(s);
      var (xs, u) :- GetTexts(r, n - 1);
      Got([x] + xs, u)
  }

  lemma {:induction false} TextsRoundTrip(xs: seq<Text>, t: seq<byte>)
    requires AllFit(xs)
    ensures GetTexts(PutTexts(xs, t), |xs|) == Got(NormAll(xs), t)
    decreases |xs|
  {
    hide PutText, GetText, Norm;
    if xs == [] {
      assert NormAll(xs) == [];
    } else {
      assert xs[0] in xs;
      TextRoundTrip(xs[0], PutTexts(xs[1..], t));
      TextsRoundTrip(xs[1..], t);
      assert NormAll(xs) == [Norm(xs[0])] + NormAll(xs[1..]);
    }
  }

  lemma {:induction false} PutTextsOnto(xs: seq<Text>, t: seq<byte>, u: seq<byte>)
    ensures PutTexts(xs, t) + u == PutTexts(xs, t + u)
    decreases |xs|
  {
    hide PutText;
    if xs != [] {
      PutTextOnto(xs[0], PutTexts(xs[1..], t), u);
      PutTextsOnto(xs[1..], t, u);
    }
  }

  // ----- C strings

  /** The bytes before the first NUL, which is all strlen and memcpy see of a C string. */
  function UpToNul(x: seq<byte>): (s: seq<byte>)
    ensures 0 !in s && |s| <= |x| && (0 !in x ==> s == x)
  {
    if x == [] || x[0] == 0 then [] else
      assert 0 !in x ==> [x[0]] + x[1..] == x;
      [x[0]] + UpToNul(x[1..])
  }

  function CText(x: Text): Text { if x.None? then None else Some(UpToNul(x.value)) }

  function CTexts(xs: seq<Text>): (r: seq<Text>)
    ensures |r| == |xs|
  {
    seq(|xs|, i requires 0 <= i < |xs| => CText(xs[i]))
  }
}
