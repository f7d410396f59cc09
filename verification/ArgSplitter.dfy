/** The argument splitter as the source runs it: one cursor, one mode, one growing token
    (deps/sds/sds.c:627-735). */
module ArgSplitter {
  import opened Basics
  import opened Quoting

  /** The byte at `p`, which never lies beyond the terminating NUL. */
  function At(line: CString, p: nat): byte
    requires p <= |line|
  {
    if p < |line| then line[p] else 0
  }

  datatype Mode = Unquoted | InQuotes | InSingleQuotes

  /** What the rest of the line from `p` means in each mode. */
  ghost function Ahead(mode: Mode, line: CString, p: nat): Lexed
    requires p <= |line|
  {
    match mode
    case Unquoted => InWord(line[p..])
    case InQuotes => InDouble(line[p..])
    case InSingleQuotes => InSingle(line[p..])
  }

  lemma AheadDouble(line: CString, p: nat)
    requires p <= |line|
    ensures var x := InDouble(line[p..]);
            x == if p == |line| then Bad
                 else if At(line, p) == BACKSLASH && At(line, p + 1) == LOWER_X
                         && IsHex(At(line, p + 2)) && IsHex(At(line, p + 3))
                   then Prefixed([HexValue(line[p + 2]) * 16 + HexValue(line[p + 3])], InDouble(line[p + 4..]))
                 else if At(line, p) == BACKSLASH && At(line, p + 1) != 0
                   then Prefixed([Unescape(line[p + 1])], InDouble(line[p + 2..]))
                 else if At(line, p) == DQUOTE then Closed(line[p + 1..])
                 else Prefixed([line[p]], InDouble(line[p + 1..]))
  {
    hide HexValue, Unescape, Closed, Prefixed;
    var s := line[p..];
    assert |s| >= 1 ==> s[1..] == line[p + 1..];
    assert |s| >= 2 ==> s[2..] == line[p + 2..];
    assert |s| >= 4 ==> s[4..] == line[p + 4..];
  }

  lemma AheadSingle(line: CString, p: nat)
    requires p <= |line|
    ensures var x := InSingle(line[p..]);
            x == if p == |line| then Bad
                 else if At(line, p) == BACKSLASH && At(line, p + 1) == SQUOTE
                   then Prefixed([SQUOTE], InSingle(line[p + 2..]))
                 else if At(line, p) == SQUOTE then Closed(line[p + 1..])
                 else Prefixed([line[p]], InSingle(line[p + 1..]))
  {
    hide Closed, Prefixed;
    var s := line[p..];
    assert |s| >= 1 ==> s[1..] == line[p + 1..];
    assert |s| >= 2 ==> s[2..] == line[p + 2..];
  }

  lemma AheadWord(line: CString, p: nat)
    requires p <= |line|
    ensures var x := InWord(line[p..]);
            x == if p == |line| then Lexed([], line[p..])
                 else if EndsWord(line[p]) then Lexed([], line[p + 1..])
                 else if line[p] == DQUOTE then InDouble(line[p + 1..])
                 else if line[p] == SQUOTE then InSingle(line[p + 1..])
                 else Prefixed([line[p]], InWord(line[p + 1..]))
  {
    hide EndsWord, Prefixed, InDouble, InSingle;
    var s := line[p..];
    assert |s| >= 1 ==> s[1..] == line[p + 1..];
  }

  lemma PrefixedTwice(v: seq<byte>, w: seq<byte>, x: Lexed)
    ensures Prefixed(v, Prefixed(w, x)) == Prefixed(v + w, x)
    ensures x.Lexed? ==> Prefixed(v, Lexed([], x.rest)) == Lexed(v, x.rest)
  {
    if x.Lexed? { assert v + (w + x.value) == v + w + x.value && v + [] == v; }
  }

  lemma PrefixedEmpty(v: seq<byte>, x: Lexed)
    ensures Prefixed([], x) == x && Prefixed(v, Bad) == Bad
  {
    if x.Lexed? { assert [] + x.value == x.value; }
  }

  /** The inner loop: one token from `start`, which is not at a blank. `ok` is false where the source
      jumps to its error exit. */
  method Token(line: CString, start: nat) returns (ok: bool, current: seq<byte>, p: nat)
    requires start <= |line|
    ensures p <= |line|
    ensures InWord(line[start..]) == if ok then Lexed(current, line[p..]) else Bad
  {
    hide InWord, InDouble, InSingle, HexValue, Unescape, IsSpace, Prefixed;
    PrefixedEmpty([], InWord(line[start..]));
    var mode, done := Unquoted, false;
    ok, current, p := true, [], start;
    while !done
      invariant p <= |line| && ok
      invariant InWord(line[start..]) == if done then Lexed(current, line[p..]) else Prefixed(current, Ahead(mode, line, p))
      decreases |line| - p, if done then 0 else 1
    {
      ghost var before := current;
      PrefixedEmpty(current, Bad);
      match mode {
        case InQuotes =>
          AheadDouble(line, p);
          if At(line, p) == BACKSLASH && At(line, p + 1) == LOWER_X
             && IsHex(At(line, p + 2)) && IsHex(At(line, p + 3)) {
            current := current + [HexValue(At(line, p + 2)) * 16 + HexValue(At(line, p + 3))];
            p := p + 3;
          } else if At(line, p) == BACKSLASH && At(line, p + 1) != 0 {
            p := p + 1;
            current := current + [Unescape(At(line, p))];
          } else if At(line, p) == DQUOTE {
            if At(line, p + 1) != 0 && !IsSpace(At(line, p + 1)) { return false, [], p; }
            done := true;
          } else if At(line, p) == 0 {
            return false, [], p;
          } else {
            current := current + [At(line, p)];
          }
        case InSingleQuotes =>
          AheadSingle(line, p);
          if At(line, p) == BACKSLASH && At(line, p + 1) == SQUOTE {
            p := p + 1;
            current := current + [SQUOTE];
          } else if At(line, p) == SQUOTE {
            if At(line, p + 1) != 0 && !IsSpace(At(line, p + 1)) { return false, [], p; }
            done := true;
          } else if At(line, p) == 0 {
            return false, [], p;
          } else {
            current := current + [At(line, p)];
          }
        case Unquoted =>
          AheadWord(line, p);
          if At(line, p) == 0 || EndsWord(At(line, p)) {
            done := true;
          } else if At(line, p) == DQUOTE {
            mode := InQuotes;
          } else if At(line, p) == SQUOTE {
            mode := InSingleQuotes;
          } else {
            current := current + [At(line, p)];
          }
      }
      if At(line, p) != 0 { p := p + 1; }
      PrefixedTwice(before, current[|before|..], Ahead(mode, line, p));
      PrefixedTwice(before, [], Lexed([], line[p..]));
    }
  }

  ghost function Appended(done: seq<seq<byte>>, more: Option<seq<seq<byte>>>): Option<seq<seq<byte>>> {
    if more.Some? then Some(done + more.value) else None
  }

  lemma AppendedOne(done: seq<seq<byte>>, v: seq<byte>, more: Option<seq<seq<byte>>>)
    ensures Appended([], more) == more
    ensures Appended(done, Appended([v], more)) == Appended(done + [v], more)
    ensures Appended(done, Some([])) == Some(done) && Appended(done, None) == None
  {
    assert done + [] == done;
    if more.Some? { assert done + ([v] + more.value) == done + [v] + more.value && [] + more.value == more.value; }
  }

  lemma ArgsAhead(line: CString, from: nat, p: nat)
    requires from <= p <= |line| && Skip(line[from..]) == line[p..]
    ensures Args(line[from..]) == if p == |line| then Some([])
                                  else if InWord(line[p..]).Bad? then None
                                  else Appended([InWord(line[p..]).value], Args(InWord(line[p..]).rest))
  {
    hide InWord, Skip;
  }

  /** sdssplitargs: the arguments and their number, or no result and the number zero. */
  method SplitArgs(line: CString) returns (argc: nat, argv: Option<seq<seq<byte>>>)
    ensures argv == Args(line)
    ensures argc == if argv.Some? then |argv.value| else 0
  {
    hide Args, InWord, Appended;
    var p, vector := 0, [];
    assert line[0..] == line;
    AppendedOne([], [], Args(line));
    while true
      invariant p <= |line|
      invariant Args(line) == Appended(vector, Args(line[p..]))
      decreases |line| - p
    {
      ghost var from := p;
      while p < |line| && IsSpace(line[p])
        invariant from <= p <= |line| && Skip(line[from..]) == Skip(line[p..])
      {
        assert line[p..][1..] == line[p + 1..];
        p := p + 1;
      }
      assert Skip(line[p..]) == line[p..];
      ArgsAhead(line, from, p);
      if At(line, p) == 0 {
        AppendedOne(vector, [], None);
        return |vector|, Some(vector);
      }
      var ok, current, q := Token(line, p);
      if !ok {
        AppendedOne(vector, [], None);
        return 0, None;
      }
      AppendedOne(vector, current, Args(line[q..]));
      vector, p := vector + [current], q;
    }
  }
}
