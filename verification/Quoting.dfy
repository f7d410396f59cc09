/** Quoted string representations and the argument splitter that reads them back
    (deps/sds/sds.c:546-735; extension/trace.c:1080-1086). */
module Quoting {
  import opened Basics

  const BELL: byte := 7
  const BACKSPACE: byte := 8
  const TAB: byte := 9
  const NEWLINE: byte := 10
  const RETURN: byte := 13
  const SPACE: byte := 32
  const DQUOTE: byte := 34
  const SQUOTE: byte := 39
  const DOT: byte := 46
  const BACKSLASH: byte := 92
  const LOWER_X: byte := 120

  /** The contents of a NUL-terminated string. */
  type CString = s: seq<byte> | 0 !in s

  predicate IsSpace(b: byte) { b == SPACE || 9 <= b <= 13 }

  /** The bytes that end an unquoted word; unlike IsSpace they leave out vertical tab and form feed. */
  predicate EndsWord(b: byte) { b == SPACE || b == NEWLINE || b == RETURN || b == TAB }

  predicate IsHex(b: byte) { 48 <= b <= 57 || 97 <= b <= 102 || 65 <= b <= 70 }

  function HexValue(b: byte): (v: byte)
    ensures v < 16
  {
    if 48 <= b <= 57 then b - 48 else if 97 <= b <= 102 then b - 87 else if 65 <= b <= 70 then b - 55 else 0
  }

  /** The meaning of a letter after a backslash. */
  function Unescape(b: byte): byte {
    if b == 110 then NEWLINE else if b == 114 then RETURN else if b == 116 then TAB
    else if b == 98 then BACKSPACE else if b == 97 then BELL else b
  }

  // ----- the printer

  function HexDigit(n: byte): (d: byte)
    requires n < 16
    ensures IsHex(d) && HexValue(d) == n
  {
    if n < 10 then 48 + n else 87 + n
  }

  /** The letter that stands for `b` after a backslash, for the bytes that have one. */
  function Shorthand(b: byte): (r: Option<byte>)
    ensures r.Some? ==> Unescape(r.value) == b && r.value != 0 && r.value != LOWER_X
    ensures r.None? ==> b != BACKSLASH && b != DQUOTE
  {
    if b == BACKSLASH || b == DQUOTE then Some(b)
    else if b == NEWLINE then Some(110)
    else if b == RETURN then Some(114)
    else if b == TAB then Some(116)
    else if b == BELL then Some(97)
    else if b == BACKSPACE then Some(98)
    else None
  }

  function EscapeByte(isPrint: byte -> bool, b: byte): (e: seq<byte>)
    ensures 1 <= |e| <= 4
  {
    if Shorthand(b).Some? then [BACKSLASH, Shorthand(b).value]
    else if isPrint(b) then [b]
    else [BACKSLASH, LOWER_X, HexDigit(b / 16), HexDigit(b % 16)]
  }

  function Escape(isPrint: byte -> bool, x: seq<byte>): seq<byte> {
    if x == [] then [] else EscapeByte(isPrint, x[0]) + Escape(isPrint, x[1..])
  }

  /** What sdscatrepr appends. */
  function Quote(isPrint: byte -> bool, x: seq<byte>): seq<byte> {
    [DQUOTE] + Escape(isPrint, x) + [DQUOTE]
  }

  /** Quoted arguments separated by single spaces. */
  function QuoteAll(isPrint: byte -> bool, xs: seq<seq<byte>>): seq<byte> {
    if xs == [] then []
    else if |xs| == 1 then Quote(isPrint, xs[0])
    else Quote(isPrint, xs[0]) + [SPACE] + QuoteAll(isPrint, xs[1..])
  }

  // ----- the grammar: what a line is made of, independently of how it is scanned

  /** The inside of double quotes, up to and including the closing one. */
  datatype Double =
    | DClose
    | DPlain(b: byte, rest: Double)
    | DEscape(b: byte, rest: Double)
    | DHex(h: byte, l: byte, rest: Double)

  /** The inside of single quotes, up to and including the closing one. */
  datatype Single = SClose | SPlain(b: byte, rest: Single) | SEscape(rest: Single)

  /** A word: unquoted bytes, then nothing or one quoted part. */
  datatype Word = End | Letter(b: byte, rest: Word) | Dq(d: Double) | Sq(s: Single)

  /** A line: words with blanks before, between and after them. */
  datatype Line = Blank(gap: seq<byte>) | Then(gap: seq<byte>, word: Word, next: Line)

  function DText(d: Double): (t: seq<byte>)
    ensures |t| >= 1 && (|t| == 1 ==> t[0] == DQUOTE)
  {
    match d
    case DClose => [DQUOTE]
    case DPlain(b, rest) => [b] + DText(rest)
    case DEscape(b, rest) => [BACKSLASH, b] + DText(rest)
    case DHex(h, l, rest) => [BACKSLASH, LOWER_X, h, l] + DText(rest)
  }

  predicate DGood(d: Double) {
    match d
    case DClose => true
    case DPlain(b, rest) => b !in {0, DQUOTE, BACKSLASH} && DGood(rest)
    case DEscape(b, rest) =>
      var t := DText(rest);
      b != 0 && !(b == LOWER_X && |t| >= 2 && IsHex(t[0]) && IsHex(t[1])) && DGood(rest)
    case DHex(h, l, rest) => IsHex(h) && IsHex(l) && DGood(rest)
  }

  function DValue(d: Double): seq<byte> {
    match d
    case DClose => []
    case DPlain(b, rest) => [b] + DValue(rest)
    case DEscape(b, rest) => [Unescape(b)] + DValue(rest)
    case DHex(h, l, rest) => [HexValue(h) * 16 + HexValue(l)] + DValue(rest)
  }

  function SText(s: Single): (t: seq<byte>)
    ensures |t| >= 1
  {
    match s
    case SClose => [SQUOTE]
    case SPlain(b, rest) => [b] + SText(rest)
    case SEscape(rest) => [BACKSLASH, SQUOTE] + SText(rest)
  }

  predicate SGood(s: Single) {
    match s
    case SClose => true
    case SPlain(b, rest) => b !in {0, SQUOTE} && !(b == BACKSLASH && SText(rest)[0] == SQUOTE) && SGood(rest)
    case SEscape(rest) => SGood(rest)
  }

  function SValue(s: Single): seq<byte> {
    match s
    case SClose => []
    case SPlain(b, rest) => [b] + SValue(rest)
    case SEscape(rest) => [SQUOTE] + SValue(rest)
  }

  function WText(w: Word): seq<byte> {
    match w
    case End => []
    case Letter(b, rest) => [b] + WText(rest)
    case Dq(d) => [DQUOTE] + DText(d)
    case Sq(s) => [SQUOTE] + SText(s)
  }

  /** The word is well formed when followed by `after`. */
  predicate WGood(w: Word, after: seq<byte>) {
    match w
    case End => after == [] || EndsWord(after[0])
    case Letter(b, rest) => b !in {0, DQUOTE, SQUOTE} && !EndsWord(b) && WGood(rest, after)
    case Dq(d) => DGood(d) && (after == [] || IsSpace(after[0]))
    case Sq(s) => SGood(s) && (after == [] || IsSpace(after[0]))
  }

  function WValue(w: Word): seq<byte> {
    match w
    case End => []
    case Letter(b, rest) => [b] + WValue(rest)
    case Dq(d) => DValue(d)
    case Sq(s) => SValue(s)
  }

  predicate IsGap(g: seq<byte>) { forall b <- g :: IsSpace(b) }

  function LText(l: Line): seq<byte> {
    match l
    case Blank(gap) => gap
    case Then(gap, word, next) => gap + (WText(word) + LText(next))
  }

  /** The line is well formed when followed by `after`. */
  predicate LGood(l: Line, after: seq<byte>) {
    match l
    case Blank(gap) => IsGap(gap)
    case Then(gap, word, next) =>
      && IsGap(gap) && LGood(next, after) && WGood(word, LText(next) + after)
      && !word.End? && (word.Letter? ==> !IsSpace(word.b))
  }

  function LValues(l: Line): seq<seq<byte>> {
    match l
    case Blank(_) => []
    case Then(_, word, next) => [WValue(word)] + LValues(next)
  }

  // ----- the scanner as recursive functions on what is left of the line

  datatype Lexed = Bad | Lexed(value: seq<byte>, rest: seq<byte>)

  function Prefixed(v: seq<byte>, x: Lexed): Lexed {
    if x.Bad? then Bad else Lexed(v + x.value, x.rest)
  }

  function Closed(s: seq<byte>): Lexed {
    if s != [] && !IsSpace(s[0]) then Bad else Lexed([], s)
  }

  function InDouble(s: seq<byte>): (x: Lexed)
    ensures x.Lexed? ==> |x.rest| < |s|
    decreases |s|
  {
    if |s| >= 4 && s[0] == BACKSLASH && s[1] == LOWER_X && IsHex(s[2]) && IsHex(s[3]) then
      Prefixed([HexValue(s[2]) * 16 + HexValue(s[3])], InDouble(s[4..]))
    else if |s| >= 2 && s[0] == BACKSLASH then Prefixed([Unescape(s[1])], InDouble(s[2..]))
    else if s == [] then Bad
    else if s[0] == DQUOTE then Closed(s[1..])
    else Prefixed([s[0]], InDouble(s[1..]))
  }

  function InSingle(s: seq<byte>): (x: Lexed)
    ensures x.Lexed? ==> |x.rest| < |s|
    decreases |s|
  {
    if |s| >= 2 && s[0] == BACKSLASH && s[1] == SQUOTE then Prefixed([SQUOTE], InSingle(s[2..]))
    else if s == [] then Bad
    else if s[0] == SQUOTE then Closed(s[1..])
    else Prefixed([s[0]], InSingle(s[1..]))
  }

  function InWord(s: seq<byte>): (x: Lexed)
    ensures x.Lexed? ==> |x.rest| < |s| || s == []
    decreases |s|
  {
    if s == [] then Lexed([], [])
    else if EndsWord(s[0]) then Lexed([], s[1..])
    else if s[0] == DQUOTE then InDouble(s[1..])
    else if s[0] == SQUOTE then InSingle(s[1..])
    else Prefixed([s[0]], InWord(s[1..]))
  }

  function Skip(s: seq<byte>): (t: seq<byte>)
    ensures |t| <= |s| && (t != [] ==> !IsSpace(t[0]))
  {
    if s != [] && IsSpace(s[0]) then Skip(s[1..]) else s
  }

  /** The arguments of a line, or None where sdssplitargs returns NULL. */
  function Args(s: seq<byte>): Option<seq<seq<byte>>>
    decreases |s|
  {
    var t := Skip(s);
    if t == [] then Some([]) else
      var x := InWord(t);
      if x.Bad? then None else
        var more := Args(x.rest);
        if more.None? then None else Some([x.value] + more.value)
  }

  // ----- the scanner accepts exactly the grammar

  // What the double-quote mode does with each form of its input.

  lemma CloseStep(t: seq<byte>)
    ensures InDouble([DQUOTE] + t) == Closed(t)
  {
    hide IsHex, Closed;
    assert ([DQUOTE] + t)[1..] == t;
  }

  lemma PlainStep(b: byte, t: seq<byte>)
    requires b != DQUOTE && b != BACKSLASH
    ensures InDouble([b] + t) == Prefixed([b], InDouble(t))
  {
    hide IsHex, Closed, Prefixed;
    assert ([b] + t)[1..] == t;
  }

  lemma EscapeStep(b: byte, t: seq<byte>)
    requires !(b == LOWER_X && |t| >= 2 && IsHex(t[0]) && IsHex(t[1]))
    ensures InDouble([BACKSLASH, b] + t) == Prefixed([Unescape(b)], InDouble(t))
  {
    hide IsHex, Closed, Prefixed, Unescape, HexValue;
    assert ([BACKSLASH, b] + t)[2..] == t;
  }

  lemma HexStep(h: byte, l: byte, t: seq<byte>)
    requires IsHex(h) && IsHex(l)
    ensures InDouble([BACKSLASH, LOWER_X, h, l] + t) == Prefixed([HexValue(h) * 16 + HexValue(l)], InDouble(t))
  {
    hide IsHex, Closed, Prefixed, Unescape, HexValue;
    assert ([BACKSLASH, LOWER_X, h, l] + t)[4..] == t;
  }

  lemma {:induction false} DoubleAccepts(d: Double, after: seq<byte>)
    requires DGood(d)
    ensures InDouble(DText(d) + after) == if after == [] || IsSpace(after[0]) then Lexed(DValue(d), after) else Bad
  {
    hide InDouble, HexValue, Unescape, IsSpace;
    match d
    case DClose => CloseStep(after);
    case DPlain(b, rest) =>
      DoubleAccepts(rest, after);
      PlainStep(b, DText(rest) + after);
      assert DText(d) + after == [b] + (DText(rest) + after);
    case DEscape(b, rest) =>
      DoubleAccepts(rest, after);
      EscapeStep(b, DText(rest) + after);
      assert DText(d) + after == [BACKSLASH, b] + (DText(rest) + after);
    case DHex(h, l, rest) =>
      DoubleAccepts(rest, after);
      HexStep(h, l, DText(rest) + after);
      assert DText(d) + after == [BACKSLASH, LOWER_X, h, l] + (DText(rest) + after);
  }

  lemma {:induction false} SingleAccepts(q: Single, after: seq<byte>)
    requires SGood(q)
    ensures InSingle(SText(q) + after) == if after == [] || IsSpace(after[0]) then Lexed(SValue(q), after) else Bad
  {
    var s := SText(q) + after;
    match q
    case SClose => assert s[1..] == after;
    case SPlain(b, rest) =>
      SingleAccepts(rest, after);
      assert s[1..] == SText(rest) + after;
    case SEscape(rest) =>
      SingleAccepts(rest, after);
      assert s[2..] == SText(rest) + after;
  }

  /** A word ended by a blank takes the blank with it. */
  lemma {:induction false} WordAccepts(w: Word, after: seq<byte>)
    requires WGood(w, after)
    ensures var x := InWord(WText(w) + after);
            && x.Lexed? && x.value == WValue(w)
            && (x.rest == after || (after != [] && IsSpace(after[0]) && x.rest == after[1..]))
  {
    hide DText, SText, DGood, SGood, DValue, SValue, InDouble, InSingle;
    var s := WText(w) + after;
    match w
    case End => assert s == after;
    case Letter(b, rest) =>
      WordAccepts(rest, after);
      assert s[1..] == WText(rest) + after;
    case Dq(d) =>
      DoubleAccepts(d, after);
      assert s[1..] == DText(d) + after;
    case Sq(q) =>
      SingleAccepts(q, after);
      assert s[1..] == SText(q) + after;
  }

  lemma {:induction false} SkipGap(g: seq<byte>, s: seq<byte>)
    requires IsGap(g) && (s == [] || !IsSpace(s[0]))
    ensures Skip(g + s) == s
  {
    if g == [] {
      assert g + s == s;
    } else {
      assert IsSpace(g[0]) && (g + s)[1..] == g[1..] + s;
      SkipGap(g[1..], s);
    }
  }

  /** Completeness: a line of the grammar is split into its values. */
  lemma {:induction false} ScannerAccepts(l: Line)
    requires LGood(l, [])
    ensures Args(LText(l)) == Some(LValues(l))
  {
    match l
    case Blank(gap) =>
      SkipGap(gap, []);
      assert gap + [] == gap;
    case Then(gap, word, next) =>
      ScannerAccepts(next);
      var after := LText(next);
      assert after + [] == after;
      SkipGap(gap, WText(word) + after);
      WordAccepts(word, after);
      assert after != [] && IsSpace(after[0]) ==> Skip(after) == Skip(after[1..]);
  }

  lemma LoneBackslash(s: seq<byte>)
    requires |s| == 0 || (|s| == 1 && s[0] == BACKSLASH)
    ensures InDouble(s).Bad?
  {
    if |s| == 1 { assert InDouble(s[1..]).Bad?; }
  }

  lemma {:induction false} DoubleReads(s: CString) returns (d: Double)
    requires InDouble(s).Lexed?
    ensures DGood(d) && s == DText(d) + InDouble(s).rest && DValue(d) == InDouble(s).value
    ensures var r := InDouble(s).rest; r == [] || IsSpace(r[0])
    decreases |s|
  {
    hide HexValue, Unescape, IsSpace, InDouble, IsHex;
    if |s| == 0 || (|s| == 1 && s[0] == BACKSLASH) {
      LoneBackslash(s);
    } else if |s| >= 4 && s[0] == BACKSLASH && s[1] == LOWER_X && IsHex(s[2]) && IsHex(s[3]) {
      Headed(s, [BACKSLASH, LOWER_X, s[2], s[3]]);
      HexStep(s[2], s[3], s[4..]);
      var r := DoubleReads(s[4..]);
      d := DHex(s[2], s[3], r);
      Assembled(s, [BACKSLASH, LOWER_X, s[2], s[3]], DText(r), InDouble(s).rest);
    } else if |s| >= 2 && s[0] == BACKSLASH {
      Headed(s, [BACKSLASH, s[1]]);
      EscapeStep(s[1], s[2..]);
      var r := DoubleReads(s[2..]);
      d := DEscape(s[1], r);
      Assembled(s, [BACKSLASH, s[1]], DText(r), InDouble(s).rest);
      assert |DText(r)| >= 2 ==> s[2] == DText(r)[0] && s[3] == DText(r)[1];
    } else if s[0] == DQUOTE {
      Headed(s, [DQUOTE]);
      CloseStep(s[1..]);
      d := DClose;
    } else {
      Headed(s, [s[0]]);
      PlainStep(s[0], s[1..]);
      var r := DoubleReads(s[1..]);
      d := DPlain(s[0], r);
      Assembled(s, [s[0]], DText(r), InDouble(s).rest);
    }
  }

  lemma Headed(s: seq<byte>, head: seq<byte>)
    requires head <= s
    ensures s == head + s[|head|..]
  {
  }

  lemma Assembled(s: seq<byte>, head: seq<byte>, text: seq<byte>, rest: seq<byte>)
    requires head <= s && s[|head|..] == text + rest
    ensures s == head + text + rest
  {
    assert s == head + (text + rest);
  }

  lemma {:induction false} SingleReads(s: CString) returns (q: Single)
    requires InSingle(s).Lexed?
    ensures SGood(q) && s == SText(q) + InSingle(s).rest && SValue(q) == InSingle(s).value
    ensures var r := InSingle(s).rest; r == [] || IsSpace(r[0])
    decreases |s|
  {
    if |s| >= 2 && s[0] == BACKSLASH && s[1] == SQUOTE {
      var r := SingleReads(s[2..]);
      q := SEscape(r);
    } else if s[0] == SQUOTE {
      q := SClose;
    } else {
      var r := SingleReads(s[1..]);
      q := SPlain(s[0], r);
      assert s[1..] == SText(r) + InSingle(s).rest;
    }
  }

  /** The word read, followed by `after`: what is left, with the blank that ended the word put back. */
  lemma {:induction false} WordReads(s: CString) returns (w: Word, after: CString)
    requires InWord(s).Lexed?
    ensures WGood(w, after) && s == WText(w) + after && WValue(w) == InWord(s).value
    ensures var r := InWord(s).rest; after == r || (after != [] && IsSpace(after[0]) && r == after[1..])
    ensures w.End? ==> s == [] || EndsWord(s[0])
    ensures w.Letter? ==> s != [] && w.b == s[0]
    decreases |s|
  {
    hide DText, SText, DGood, SGood, DValue, SValue, InDouble, InSingle;
    if s == [] || EndsWord(s[0]) {
      w, after := End, s;
    } else if s[0] == DQUOTE {
      var d := DoubleReads(s[1..]);
      w, after := Dq(d), InDouble(s[1..]).rest;
      assert s == [s[0]] + s[1..];
    } else if s[0] == SQUOTE {
      var q := SingleReads(s[1..]);
      w, after := Sq(q), InSingle(s[1..]).rest;
      assert s == [s[0]] + s[1..];
    } else {
      var r;
      r, after := WordReads(s[1..]);
      w := Letter(s[0], r);
      assert s == [s[0]] + s[1..];
    }
  }

  lemma {:induction false} SkipReads(s: seq<byte>) returns (g: seq<byte>)
    ensures IsGap(g) && s == g + Skip(s)
  {
    if s != [] && IsSpace(s[0]) {
      var r := SkipReads(s[1..]);
      g := [s[0]] + r;
      assert s == [s[0]] + s[1..] == g + Skip(s);
    } else {
      g := [];
    }
  }

  /** Soundness: a line that is split is a line of the grammar, with these values. */
  lemma {:induction false} ScannerReads(s: CString) returns (l: Line)
    requires Args(s).Some?
    ensures LGood(l, []) && LText(l) == s && LValues(l) == Args(s).value
    decreases |s|
  {
    var g := SkipReads(s);
    var t := Skip(s);
    if t == [] {
      l := Blank(g);
    } else {
      var w, after := WordReads(t);
      assert after != [] && IsSpace(after[0]) ==> Skip(after) == Skip(after[1..]);
      assert Args(after) == Args(InWord(t).rest);
      var next := ScannerReads(after);
      l := Then(g, w, next);
      assert after + [] == after;
    }
  }

  /** sdssplitargs yields given arguments exactly for the lines of the grammar with those values. */
  lemma SplitIffInGrammar(s: CString, vs: seq<seq<byte>>)
    ensures Args(s) == Some(vs) <==> exists l :: LGood(l, []) && LText(l) == s && LValues(l) == vs
  {
    if Args(s) == Some(vs) { var l := ScannerReads(s); }
    forall l | LGood(l, []) && LText(l) == s { ScannerAccepts(l); }
  }

  /** Scanning fails inside a quoted part exactly when its closing quote is missing or is followed by
      something other than a blank. */
  ghost predicate BrokenDouble(t: seq<byte>) {
    || (forall d :: DGood(d) ==> !(DText(d) <= t))
    || (exists d :: DGood(d) && DText(d) < t && !IsSpace(t[|DText(d)|]))
  }

  ghost predicate BrokenSingle(t: seq<byte>) {
    || (forall q :: SGood(q) ==> !(SText(q) <= t))
    || (exists q :: SGood(q) && SText(q) < t && !IsSpace(t[|SText(q)|]))
  }

  lemma DoubleFailsIffBroken(t: CString)
    ensures InDouble(t).Bad? <==> BrokenDouble(t)
  {
    hide InDouble, DText, DGood, DValue, IsSpace;
    forall d | DGood(d) && DText(d) <= t
      ensures var n := |DText(d)|; InDouble(t).Bad? <==> n < |t| && !IsSpace(t[n])
    {
      var n := |DText(d)|;
      assert t == DText(d) + t[n..];
      DoubleAccepts(d, t[n..]);
    }
    if InDouble(t).Lexed? { var d := DoubleReads(t); }
  }

  lemma SingleFailsIffBroken(t: CString)
    ensures InSingle(t).Bad? <==> BrokenSingle(t)
  {
    hide InSingle, SText, SGood, SValue, IsSpace;
    forall q | SGood(q) && SText(q) <= t
      ensures var n := |SText(q)|; InSingle(t).Bad? <==> n < |t| && !IsSpace(t[n])
    {
      var n := |SText(q)|;
      assert t == SText(q) + t[n..];
      SingleAccepts(q, t[n..]);
    }
    if InSingle(t).Lexed? { var q := SingleReads(t); }
  }

  /** A quoted part that begins at position `i` of `s` is broken. */
  ghost predicate BrokenAt(s: seq<byte>, i: nat) {
    i < |s| && ((s[i] == DQUOTE && BrokenDouble(s[i + 1..])) || (s[i] == SQUOTE && BrokenSingle(s[i + 1..])))
  }

  /** Unquoted bytes of a word. */
  predicate AreLetters(u: seq<byte>) { forall b <- u :: b != DQUOTE && b != SQUOTE && !EndsWord(b) }

  /** The scanner opens a quoted part at position `i`: before it lie a well-formed line and the unquoted
      beginning of one more word. */
  ghost predicate OpensAt(s: seq<byte>, i: nat) {
    exists l, u :: Opening(l, u, s, i)
  }

  ghost predicate Opening(l: Line, u: seq<byte>, s: seq<byte>, i: nat) {
    && i <= |s| && s[..i] == LText(l) + u && LGood(l, u + s[i..])
    && AreLetters(u) && (u != [] ==> !IsSpace(u[0]))
  }

  lemma {:induction false} WordFailsAtQuote(s: CString) returns (i: nat)
    requires InWord(s).Bad?
    ensures BrokenAt(s, i) && AreLetters(s[..i])
    decreases |s|
  {
    hide BrokenDouble, BrokenSingle, InDouble, InSingle;
    if s[0] == DQUOTE {
      DoubleFailsIffBroken(s[1..]);
      i := 0;
    } else if s[0] == SQUOTE {
      SingleFailsIffBroken(s[1..]);
      i := 0;
    } else {
      var j := WordFailsAtQuote(s[1..]);
      i := j + 1;
      assert s[1..][j + 1..] == s[i + 1..];
      assert s[..i] == [s[0]] + s[1..][..j];
    }
  }

  lemma {:induction false} BrokenWordFails(u: seq<byte>, t: CString)
    requires AreLetters(u) && BrokenAt(t, 0)
    ensures InWord(u + t).Bad?
    decreases |u|
  {
    hide BrokenDouble, BrokenSingle, InDouble, InSingle;
    if u == [] {
      assert u + t == t;
      if t[0] == DQUOTE { DoubleFailsIffBroken(t[1..]); } else { SingleFailsIffBroken(t[1..]); }
    } else {
      BrokenWordFails(u[1..], t);
      assert u[0] in u && (u + t)[1..] == u[1..] + t;
    }
  }

  /** `s` is the line `l`, the unquoted beginning `u` of a word, and `t`, which begins with a broken quote. */
  ghost predicate Failure(s: seq<byte>, l: Line, u: seq<byte>, t: seq<byte>) {
    && s == LText(l) + (u + t) && LGood(l, u + t)
    && AreLetters(u) && (u != [] ==> !IsSpace(u[0])) && BrokenAt(t, 0)
  }

  lemma FailureHere(g: seq<byte>, r: CString) returns (u: seq<byte>, t: CString)
    requires IsGap(g) && r != [] && !IsSpace(r[0]) && InWord(r).Bad?
    ensures Failure(g + r, Blank(g), u, t)
  {
    hide BrokenAt, InWord, IsGap;
    var i := WordFailsAtQuote(r);
    BrokenFront(r, i);
    u, t := r[..i], r[i..];
    assert r == u + t;
  }

  lemma FailureLater(g: seq<byte>, w: Word, after: seq<byte>, l: Line, u: seq<byte>, t: seq<byte>)
    requires Failure(after, l, u, t)
    requires IsGap(g) && WGood(w, after) && !w.End? && (w.Letter? ==> !IsSpace(w.b))
    ensures Failure(g + (WText(w) + after), Then(g, w, l), u, t)
  {
    hide BrokenAt, AreLetters, IsGap, WGood;
    Regrouped(g, WText(w), LText(l), u + t);
  }

  lemma {:induction false} SplitFailure(s: CString) returns (l: Line, u: seq<byte>, t: CString)
    requires Args(s).None?
    ensures Failure(s, l, u, t)
    decreases |s|
  {
    hide Failure, InWord, IsGap, WGood, LGood;
    var g := SkipReads(s);
    var r := Skip(s);
    if InWord(r).Bad? {
      u, t := FailureHere(g, r);
      l := Blank(g);
    } else {
      var w, after := WordReads(r);
      SkipOne(after);
      l, u, t := SplitFailure(after);
      FailureLater(g, w, after, l, u, t);
      l := Then(g, w, l);
    }
  }

  lemma BrokenFront(s: seq<byte>, i: nat)
    requires BrokenAt(s, i)
    ensures i < |s| && BrokenAt(s[i..], 0) && (s[i] == DQUOTE || s[i] == SQUOTE)
  {
    hide BrokenDouble, BrokenSingle;
    assert s[i..][1..] == s[i + 1..];
  }

  lemma Regrouped(a: seq<byte>, b: seq<byte>, c: seq<byte>, d: seq<byte>)
    ensures a + (b + (c + d)) == a + (b + c) + d
  {
  }

  lemma SkipOne(s: seq<byte>)
    ensures s != [] && IsSpace(s[0]) ==> Args(s) == Args(s[1..])
  {
    assert s != [] && IsSpace(s[0]) ==> Skip(s) == Skip(s[1..]);
  }

  lemma {:induction false} FailureFails(s: seq<byte>, l: Line, u: seq<byte>, t: CString)
    requires Failure(s, l, u, t)
    ensures Args(s).None?
    decreases l
  {
    hide BrokenDouble, BrokenSingle, InWord;
    match l
    case Blank(gap) =>
      SkipGap(gap, u + t);
      BrokenWordFails(u, t);
    case Then(gap, word, next) =>
      var after := LText(next) + (u + t);
      FailureFails(after, next, u, t);
      Regrouped(gap, WText(word), LText(next), u + t);
      SkipGap(gap, WText(word) + after);
      WordAccepts(word, after);
      SkipOne(after);
  }

  lemma SplitFailsAtQuote(s: CString) returns (i: nat)
    requires Args(s).None?
    ensures OpensAt(s, i) && BrokenAt(s, i)
  {
    hide Args, LText, LGood, BrokenDouble, BrokenSingle;
    var l, u, t := SplitFailure(s);
    i := |LText(l)| + |u|;
    assert s == LText(l) + u + t && s[i..] == t && s[..i] == LText(l) + u;
    assert t[1..] == s[i + 1..];
    assert Opening(l, u, s, i);
  }

  lemma QuoteFailsSplit(s: CString, i: nat)
    requires OpensAt(s, i) && BrokenAt(s, i)
    ensures Args(s).None?
  {
    hide Args, LText, LGood, BrokenDouble, BrokenSingle;
    var l, u :| Opening(l, u, s, i);
    var t := s[i..];
    assert t[1..] == s[i + 1..] && s == LText(l) + u + t == LText(l) + (u + t);
    FailureFails(s, l, u, t);
  }

  /** Exactly when sdssplitargs fails: the scanner opens a quoted part that is not closed, or whose closing
      quote is followed by something other than a blank. */
  lemma SplitFailsIff(s: CString)
    ensures Args(s).None? <==> exists i: nat :: OpensAt(s, i) && BrokenAt(s, i)
  {
    hide Args, OpensAt, BrokenAt;
    if Args(s).None? { var i := SplitFailsAtQuote(s); }
    forall i: nat | OpensAt(s, i) && BrokenAt(s, i) { QuoteFailsSplit(s, i); }
  }

  // ----- the printer's output is in the grammar, so it reads back

  function DoubleOf(isPrint: byte -> bool, x: seq<byte>): Double {
    if x == [] then DClose else PieceOf(isPrint, x[0], DoubleOf(isPrint, x[1..]))
  }

  function PieceOf(isPrint: byte -> bool, b: byte, rest: Double): Double {
    if Shorthand(b).Some? then DEscape(Shorthand(b).value, rest)
    else if isPrint(b) then DPlain(b, rest)
    else DHex(HexDigit(b / 16), HexDigit(b % 16), rest)
  }

  lemma PieceInGrammar(isPrint: byte -> bool, b: byte, rest: Double)
    requires !isPrint(0) && DGood(rest)
    ensures var d := PieceOf(isPrint, b, rest);
            DGood(d) && DText(d) == EscapeByte(isPrint, b) + DText(rest) && DValue(d) == [b] + DValue(rest)
  {
    hide HexDigit, HexValue, IsHex, Shorthand, Unescape;
    if Shorthand(b).None? && !isPrint(b) {
      assert HexValue(HexDigit(b / 16)) * 16 + HexValue(HexDigit(b % 16)) == b;
    }
  }

  lemma {:induction false} QuoteInGrammar(isPrint: byte -> bool, x: seq<byte>)
    requires !isPrint(0)
    ensures var d := DoubleOf(isPrint, x); DGood(d) && DText(d) == Escape(isPrint, x) + [DQUOTE] && DValue(d) == x
  {
    hide PieceOf, EscapeByte;
    if x != [] {
      QuoteInGrammar(isPrint, x[1..]);
      assert x == [x[0]] + x[1..];
      PieceInGrammar(isPrint, x[0], DoubleOf(isPrint, x[1..]));
    }
  }

  function LineOf(isPrint: byte -> bool, gap: seq<byte>, xs: seq<seq<byte>>): Line
    decreases |xs|
  {
    if xs == [] then Blank([]) else Then(gap, Dq(DoubleOf(isPrint, xs[0])), LineOf(isPrint, [SPACE], xs[1..]))
  }

  lemma {:induction false} LineOfGood(isPrint: byte -> bool, gap: seq<byte>, xs: seq<seq<byte>>)
    requires !isPrint(0) && IsGap(gap)
    ensures var l := LineOf(isPrint, gap, xs);
            LGood(l, []) && LValues(l) == xs && LText(l) == (if xs == [] then [] else gap + QuoteAll(isPrint, xs))
    decreases |xs|
  {
    hide DText, DGood, DValue, DoubleOf, Escape;
    if xs != [] {
      QuoteInGrammar(isPrint, xs[0]);
      LineOfGood(isPrint, [SPACE], xs[1..]);
      var text := LText(LineOf(isPrint, [SPACE], xs[1..]));
      assert [DQUOTE] + (Escape(isPrint, xs[0]) + [DQUOTE]) == Quote(isPrint, xs[0]);
      assert Quote(isPrint, xs[0]) + text == QuoteAll(isPrint, xs);
      assert xs == [xs[0]] + xs[1..] && text + [] == text;
    }
  }

  /** For every list of byte strings: quote each, join with single spaces, split: the same list. */
  lemma QuoteRoundTrip(isPrint: byte -> bool, xs: seq<seq<byte>>)
    requires !isPrint(0)
    ensures Args(QuoteAll(isPrint, xs)) == Some(xs)
  {
    hide LText, LGood, LValues, LineOf, Quote, Skip, InWord;
    assert [] + QuoteAll(isPrint, xs) == QuoteAll(isPrint, xs);
    LineOfGood(isPrint, [], xs);
    ScannerAccepts(LineOf(isPrint, [], xs));
  }

  /** `isPrint` accepts what escapes are made of and no control byte. */
  predicate Sensible(isPrint: byte -> bool) {
    && isPrint(BACKSLASH) && isPrint(DQUOTE) && isPrint(LOWER_X)
    && (forall b: byte | 48 <= b <= 57 || 97 <= b <= 102 :: isPrint(b))
    && isPrint(110) && isPrint(114) && isPrint(116)
    && (forall b: byte | b < 32 || b == 127 :: !isPrint(b))
  }

  predicate AllPrint(isPrint: byte -> bool, s: seq<byte>) { forall b <- s :: isPrint(b) }

  lemma {:induction false} EscapePrints(isPrint: byte -> bool, x: seq<byte>)
    requires Sensible(isPrint)
    ensures AllPrint(isPrint, Escape(isPrint, x))
  {
    if x != [] { EscapePrints(isPrint, x[1..]); }
  }

  /** Every byte of the quoted form prints. */
  lemma QuotePrints(isPrint: byte -> bool, x: seq<byte>)
    requires Sensible(isPrint)
    ensures AllPrint(isPrint, Quote(isPrint, x))
  {
    EscapePrints(isPrint, x);
  }

  /** No text of the grammar that prints and has the same value is shorter than the quoted form. */
  lemma {:induction false} QuoteIsShortest(isPrint: byte -> bool, d: Double)
    requires Sensible(isPrint) && DGood(d) && AllPrint(isPrint, DText(d))
    ensures |Escape(isPrint, DValue(d))| + 1 <= |DText(d)|
  {
    match d
    case DClose =>
    case DPlain(b, rest) =>
      assert DText(d)[0] == b && DValue(d)[1..] == DValue(rest);
      RestPrints(isPrint, d, rest, 1);
      QuoteIsShortest(isPrint, rest);
    case DEscape(b, rest) =>
      assert DText(d)[1] == b && DValue(d)[1..] == DValue(rest);
      RestPrints(isPrint, d, rest, 2);
      QuoteIsShortest(isPrint, rest);
    case DHex(h, l, rest) =>
      assert DValue(d)[1..] == DValue(rest);
      RestPrints(isPrint, d, rest, 4);
      QuoteIsShortest(isPrint, rest);
  }

  lemma RestPrints(isPrint: byte -> bool, d: Double, rest: Double, k: nat)
    requires AllPrint(isPrint, DText(d)) && k <= |DText(d)| && DText(d)[k..] == DText(rest)
    ensures AllPrint(isPrint, DText(rest))
  {
    forall b | b in DText(rest) ensures isPrint(b) {
      var i :| 0 <= i < |DText(rest)| && DText(rest)[i] == b;
      assert DText(d)[k + i] == b;
    }
  }

  /** The escapes of the C language, in both directions, and the classes of bytes the scanner tells apart. */
  lemma EscapeTable(isPrint: byte -> bool)
    ensures EscapeByte(isPrint, 10) == [92, 110] && Unescape(110) == 10
    ensures EscapeByte(isPrint, 13) == [92, 114] && Unescape(114) == 13
    ensures EscapeByte(isPrint, 9) == [92, 116] && Unescape(116) == 9
    ensures EscapeByte(isPrint, 7) == [92, 97] && Unescape(97) == 7
    ensures EscapeByte(isPrint, 8) == [92, 98] && Unescape(98) == 8
    ensures EscapeByte(isPrint, 92) == [92, 92] && EscapeByte(isPrint, 34) == [92, 34]
    ensures forall b: byte | b !in {97, 98, 110, 114, 116} :: Unescape(b) == b
    ensures forall b: byte :: IsSpace(b) <==> b in {9, 10, 11, 12, 13, 32}
    ensures forall b: byte :: EndsWord(b) <==> b in {9, 10, 13, 32}
    ensures forall b: byte :: IsHex(b) <==> 48 <= b <= 57 || 65 <= b <= 70 || 97 <= b <= 102
    ensures forall b: byte | IsHex(b) :: HexValue(b) == if b <= 57 then b - 48 else if b <= 70 then b - 55 else b - 87
  {
  }

  /** The quoted form has no NUL, so it is a C string, and grows at most fourfold. */
  lemma {:induction false} EscapeBounds(isPrint: byte -> bool, x: seq<byte>)
    requires !isPrint(0)
    ensures 0 !in Escape(isPrint, x) && |x| <= |Escape(isPrint, x)| <= 4 * |x|
  {
    if x != [] { EscapeBounds(isPrint, x[1..]); }
  }

  // ----- the string case of the extension's value printer

  /** The representation of string `x` cut at `limit` bytes; no limit if it is not positive. */
  function ReprString(isPrint: byte -> bool, x: seq<byte>, limit: int): seq<byte> {
    var n := if limit <= 0 || |x| < limit then |x| else limit;
    Quote(isPrint, x[..n]) + (if limit > 0 && |x| > limit then [DOT, DOT, DOT] else [])
  }

  /** Reading a representation back in quoted mode gives the string cut at the limit; what follows the
      closing quote is "..." exactly when something was cut; and the size is bounded by the limit. */
  lemma ReprReadsBack(isPrint: byte -> bool, x: seq<byte>, limit: int)
    requires !isPrint(0)
    ensures var n := if 0 < limit < |x| then limit else |x|; var r := ReprString(isPrint, x, limit);
            exists k | 0 < k <= |r| ::
              && r[0] == DQUOTE && InDouble(r[1..k]) == Lexed(x[..n], [])
              && r[k..] == if 0 < limit < |x| then [DOT, DOT, DOT] else []
    ensures limit > 0 ==> |ReprString(isPrint, x, limit)| <= 4 * limit + 5
  {
    var n := if 0 < limit < |x| then limit else |x|;
    var r := ReprString(isPrint, x, limit);
    var k := |Quote(isPrint, x[..n])|;
    QuoteInGrammar(isPrint, x[..n]);
    DoubleAccepts(DoubleOf(isPrint, x[..n]), []);
    EscapeBounds(isPrint, x[..n]);
    assert r[1..k] == DText(DoubleOf(isPrint, x[..n])) + [];
    assert r[k..] == if 0 < limit < |x| then [DOT, DOT, DOT] else [];
  }
}
