/** What the dynamic-string operations do to a plain byte sequence and to the allocated room
    (deps/sds/sds.c:112-147, 200-284, 355-415). */
module SdsSpec {
  import opened Basics
  import opened Quoting

  const MAX_PREALLOC: nat := 1024 * 1024

  // ----- allocation

  /** Length, unused room, and the bytes all reallocations so far had to move. */
  datatype Room = Room(len: nat, free: nat, moved: nat)

  function MakeRoom(r: Room, add: nat): (t: Room)
    ensures t.len == r.len && t.free >= add
  {
    if r.free >= add then r else
      var n := r.len + add;
      Room(r.len, (if n < MAX_PREALLOC then 2 * n else n + MAX_PREALLOC) - r.len, r.moved + r.len)
  }

  function Append(r: Room, add: nat): Room {
    var t := MakeRoom(r, add);
    Room(t.len + add, t.free - add, t.moved)
  }

  function AppendAll(r: Room, sizes: seq<nat>): Room
    decreases sizes
  {
    if sizes == [] then r else AppendAll(Append(r, sizes[0]), sizes[1..])
  }

  lemma {:induction false} AppendsGrow(r: Room, sizes: seq<nat>)
    ensures r.len <= AppendAll(r, sizes).len
    decreases sizes
  {
    if sizes != [] { AppendsGrow(Append(r, sizes[0]), sizes[1..]); }
  }

  lemma {:induction false} MovedBound(r: Room, sizes: seq<nat>)
    requires r.moved <= 2 * r.len && r.moved <= r.len + r.free
    requires AppendAll(r, sizes).len < MAX_PREALLOC
    ensures var t := AppendAll(r, sizes); t.moved <= 2 * t.len && t.moved <= t.len + t.free
    decreases sizes
  {
    if sizes != [] {
      AppendsGrow(Append(r, sizes[0]), sizes[1..]);
      MovedBound(Append(r, sizes[0]), sizes[1..]);
    }
  }

  /** Amortised growth: as long as a new string stays below the preallocation limit, all the
      reallocations of any sequence of appends together move at most twice its length. */
  lemma AmortisedGrowth(start: nat, sizes: seq<nat>)
    requires AppendAll(Room(start, 0, 0), sizes).len < MAX_PREALLOC
    ensures var t := AppendAll(Room(start, 0, 0), sizes); t.moved <= 2 * t.len
  {
    MovedBound(Room(start, 0, 0), sizes);
  }

  /** An append that fits moves nothing; at any size, one that does not moves the string once and leaves exactly
      min(length, 1 MiB) unused. */
  lemma WasteBound(r: Room, add: nat)
    ensures var t := Append(r, add);
            && t.len == r.len + add
            && if add <= r.free then t.len + t.free == r.len + r.free && t.moved == r.moved
               else t.free == (if t.len < 1_048_576 then t.len else 1_048_576) && t.moved == r.moved + r.len
  {
  }

  // ----- trimming

  /** strchr(cset, b) != NULL: the terminator of the set counts, so NUL is always trimmed. */
  predicate Trimmable(cset: CString, b: byte) { b == 0 || b in cset }

  function TrimLeft(s: seq<byte>, cset: CString): seq<byte> {
    if s != [] && Trimmable(cset, s[0]) then TrimLeft(s[1..], cset) else s
  }

  function TrimRight(s: seq<byte>, cset: CString): seq<byte> {
    if s != [] && Trimmable(cset, s[|s| - 1]) then TrimRight(s[..|s| - 1], cset) else s
  }

  function Trim(s: seq<byte>, cset: CString): seq<byte> { TrimRight(TrimLeft(s, cset), cset) }

  /** `s[i..j]` is what is left when everything trimmable is taken off both ends. */
  ghost predicate Middle(s: seq<byte>, cset: CString, i: int, j: int) {
    && 0 <= i <= j <= |s|
    && (forall k | 0 <= k < i || j <= k < |s| :: Trimmable(cset, s[k]))
    && (i < j ==> !Trimmable(cset, s[i]) && !Trimmable(cset, s[j - 1]))
  }

  lemma {:induction false} TrimLeftFrom(s: seq<byte>, cset: CString, i: nat)
    requires i <= |s| && (forall k | 0 <= k < i :: Trimmable(cset, s[k])) && (i < |s| ==> !Trimmable(cset, s[i]))
    ensures TrimLeft(s, cset) == s[i..]
    decreases i
  {
    if i > 0 {
      TrimLeftFrom(s[1..], cset, i - 1);
      assert s[1..][i - 1..] == s[i..];
    }
  }

  lemma {:induction false} TrimRightTo(s: seq<byte>, cset: CString, j: nat)
    requires j <= |s| && (forall k | j <= k < |s| :: Trimmable(cset, s[k])) && (j > 0 ==> !Trimmable(cset, s[j - 1]))
    ensures TrimRight(s, cset) == s[..j]
    decreases |s| - j
  {
    if j < |s| {
      TrimRightTo(s[..|s| - 1], cset, j);
      assert s[..|s| - 1][..j] == s[..j];
    }
  }

  /** The maximal middle segment is unique, and trimming yields it. */
  lemma TrimIsMiddle(s: seq<byte>, cset: CString, i: int, j: int)
    requires Middle(s, cset, i, j)
    ensures Trim(s, cset) == s[i..j]
  {
    if i < j {
      TrimLeftFrom(s, cset, i);
      TrimRightTo(s[i..], cset, j - i);
      assert s[i..][..j - i] == s[i..j];
    } else {
      TrimLeftFrom(s, cset, |s|);
    }
  }

  // ----- ranges

  /** A signed index counted from the end if negative, and never below zero. */
  function Clamp(n: nat, i: int): nat { if i >= 0 then i else if n + i < 0 then 0 else n + i }

  function Range(s: seq<byte>, start: int, end: int): seq<byte> {
    var lo, hi := Clamp(|s|, start), Clamp(|s|, end);
    if lo > hi || lo >= |s| then [] else s[lo..if hi < |s| then hi + 1 else |s|]
  }

  /** Position `i` of `n` lies in an inclusive range with ends counted from the end of the string if negative;
      an end before the beginning still keeps the first byte. */
  predicate Kept(n: nat, start: int, end: int, i: nat) {
    && (if start >= 0 then start <= i else n + start <= i)
    && (if end >= 0 then i <= end else i <= n + end || i == 0)
  }

  /** The range is the contiguous part of the string, from `k` on, at exactly the positions kept. */
  lemma RangeKeepsInclusive(s: seq<byte>, start: int, end: int) returns (k: nat)
    ensures var r := Range(s, start, end);
            && k + |r| <= |s| && r == s[k..k + |r|]
            && forall i: nat | i < |s| :: k <= i < k + |r| <==> Kept(|s|, start, end, i)
  {
    k := if Range(s, start, end) == [] then 0 else Clamp(|s|, start);
  }

  // ----- many appends

  function Concat(ts: seq<seq<byte>>): seq<byte> { if ts == [] then [] else ts[0] + Concat(ts[1..]) }

  function Sizes(ts: seq<seq<byte>>): (r: seq<nat>)
    ensures |r| == |ts|
  {
    seq(|ts|, i requires 0 <= i < |ts| => |ts[i]|)
  }

  // ----- all operations

  datatype Op =
    | Cat(t: seq<byte>)
    | Copy(t: seq<byte>)
    | GrowZero(n: nat)
    | Clear
    | TrimBy(cset: CString)
    | RangeOf(start: int, end: int)
    | Feed(data: seq<byte>)  // make room, write past the end, then adjust the length up
    | Shorten(n: nat)        // adjust the length down

  predicate Allowed(s: seq<byte>, op: Op) { op.Shorten? ==> op.n <= |s| }

  function Zeros(n: nat): seq<byte> { seq(n, _ => 0) }

  function Apply(s: seq<byte>, op: Op): seq<byte>
    requires Allowed(s, op)
  {
    match op
    case Cat(t) => s + t
    case Copy(t) => t
    case GrowZero(n) => if n <= |s| then s else s + Zeros(n - |s|)
    case Clear => []
    case TrimBy(cset) => Trim(s, cset)
    case RangeOf(start, end) => Range(s, start, end)
    case Feed(data) => s + data
    case Shorten(n) => s[..|s| - n]
  }

  predicate AllAllowed(s: seq<byte>, ops: seq<Op>)
    decreases ops
  {
    ops != [] ==> Allowed(s, ops[0]) && AllAllowed(Apply(s, ops[0]), ops[1..])
  }

  function ApplyAll(s: seq<byte>, ops: seq<Op>): seq<byte>
    requires AllAllowed(s, ops)
    decreases ops
  {
    if ops == [] then s else ApplyAll(Apply(s, ops[0]), ops[1..])
  }
}
