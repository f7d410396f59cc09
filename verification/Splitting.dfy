/** Splitting a byte string at a separator and joining it again (deps/sds/sds.c:454-517, 773-783). */
module Splitting {
  import opened Basics

  /** The tokens from `start` on, when no separator begins in `start .. j`: cut at the leftmost
      occurrence, then go on behind it. */
  function Pieces(s: seq<byte>, sep: seq<byte>, start: nat, j: nat): (ts: seq<seq<byte>>)
    requires sep != [] && start <= j <= |s|
    ensures ts != []
    decreases |s| - j
  {
    if j + |sep| > |s| then [s[start..]]
    else if MatchesAt(s, sep, j) then [s[start..j]] + Pieces(s, sep, j + |sep|, j + |sep|)
    else Pieces(s, sep, start, j + 1)
  }

  function Split(s: seq<byte>, sep: seq<byte>): seq<seq<byte>>
    requires sep != []
  {
    if s == [] then [] else Pieces(s, sep, 0, 0)
  }

  function Join(ts: seq<seq<byte>>, sep: seq<byte>): seq<byte> {
    if ts == [] then [] else if |ts| == 1 then ts[0] else ts[0] + sep + Join(ts[1..], sep)
  }

  lemma PiecesStep(s: seq<byte>, sep: seq<byte>, start: nat, j: nat)
    requires sep != [] && start <= j <= |s|
    ensures Pieces(s, sep, start, j)
            == if j + |sep| > |s| then [s[start..]]
               else if s[j..j + |sep|] == sep then [s[start..j]] + Pieces(s, sep, j + |sep|, j + |sep|)
               else Pieces(s, sep, start, j + 1)
  {
  }

  lemma JoinMore(t: seq<byte>, more: seq<seq<byte>>, sep: seq<byte>)
    requires more != []
    ensures Join([t] + more, sep) == t + sep + Join(more, sep)
  {
    assert ([t] + more)[1..] == more;
  }

  lemma JoinOne(t: seq<byte>, sep: seq<byte>)
    ensures Join([t], sep) == t
  {
  }

  lemma CutTwice(s: seq<byte>, i: nat, j: nat, k: nat)
    requires i <= j <= k <= |s|
    ensures s[i..] == s[i..j] + s[j..k] + s[k..]
  {
  }

  lemma {:induction false} PiecesJoin(s: seq<byte>, sep: seq<byte>, start: nat, j: nat)
    requires sep != [] && start <= j <= |s|
    ensures Join(Pieces(s, sep, start, j), sep) == s[start..]
    decreases |s| - j
  {
    hide Join, Pieces;
    PiecesStep(s, sep, start, j);
    if j + |sep| > |s| {
      JoinOne(s[start..], sep);
    } else if s[j..j + |sep|] == sep {
      var next := j + |sep|;
      PiecesJoin(s, sep, next, next);
      JoinMore(s[start..j], Pieces(s, sep, next, next), sep);
      CutTwice(s, start, j, next);
    } else {
      PiecesJoin(s, sep, start, j + 1);
    }
  }

  /** Joining the tokens of any string gives it back. */
  lemma SplitThenJoin(s: seq<byte>, sep: seq<byte>)
    requires sep != []
    ensures Join(Split(s, sep), sep) == s
  {
    if s != [] {
      PiecesJoin(s, sep, 0, 0);
      assert s[0..] == s;
    }
  }

  predicate NoneIn(s: seq<byte>, sep: seq<byte>, from: nat, to: nat) {
    forall k | from <= k < to :: !MatchesAt(s, sep, k)
  }

  lemma TokenFree(s: seq<byte>, sep: seq<byte>, start: nat, end: nat, to: nat)
    requires sep != [] && start <= end <= |s| && NoneIn(s, sep, start, to) && (end <= to || end < to + |sep|)
    ensures !Contains(s[start..end], sep)
  {
    forall k ensures !MatchesAt(s[start..end], sep, k) {
      if MatchesAt(s[start..end], sep, k) {
        var here := s[start + k..start + k + |sep|];
        assert forall m | 0 <= m < |sep| :: here[m] == s[start..end][k..k + |sep|][m];
        assert here == sep && MatchesAt(s, sep, start + k);
      }
    }
  }

  lemma {:induction false} PiecesFree(s: seq<byte>, sep: seq<byte>, start: nat, j: nat)
    requires sep != [] && start <= j <= |s| && NoneIn(s, sep, start, j)
    ensures forall t <- Pieces(s, sep, start, j) :: !Contains(t, sep)
    decreases |s| - j
  {
    if j + |sep| > |s| {
      TokenFree(s, sep, start, |s|, j);
      assert s[start..|s|] == s[start..];
    } else if MatchesAt(s, sep, j) {
      TokenFree(s, sep, start, j, j);
      PiecesFree(s, sep, j + |sep|, j + |sep|);
    } else {
      PiecesFree(s, sep, start, j + 1);
    }
  }

  /** No token contains the separator, even where occurrences overlap. */
  lemma SplitIsFree(s: seq<byte>, sep: seq<byte>)
    requires sep != []
    ensures forall t <- Split(s, sep) :: !Contains(t, sep)
  {
    if s != [] { PiecesFree(s, sep, 0, 0); }
  }

  lemma {:induction false} PiecesSkip(s: seq<byte>, sep: seq<byte>, start: nat, j: nat, to: nat)
    requires sep != [] && start <= j <= to <= |s| && NoneIn(s, sep, j, to) && to + |sep| <= |s| + 1
    ensures Pieces(s, sep, start, j) == Pieces(s, sep, start, to)
    decreases |s| - j
  {
    if j < to { PiecesSkip(s, sep, start, j + 1, to); }
  }

  /** The tokens do not run into the separators between them: no separator begins inside a token, not even
      one that ends in the separator behind it, and the last token does not contain one. */
  predicate Clear(ts: seq<seq<byte>>, sep: seq<byte>) {
    if ts == [] then true
    else if |ts| == 1 then !Contains(ts[0], sep)
    else NoneIn(ts[0] + sep, sep, 0, |ts[0]|) && Clear(ts[1..], sep)
  }

  /** A separator that begins at `k` ends the first piece there or before. */
  lemma {:induction false} FirstPieceEnds(s: seq<byte>, sep: seq<byte>, start: nat, j: nat, k: nat)
    requires sep != [] && start <= j <= k && MatchesAt(s, sep, k)
    ensures |Pieces(s, sep, start, j)[0]| <= k - start
    decreases |s| - j
  {
    PiecesStep(s, sep, start, j);
    if s[j..j + |sep|] != sep { FirstPieceEnds(s, sep, start, j + 1, k); }
  }

  lemma {:induction false} LastPiece(s: seq<byte>, sep: seq<byte>, start: nat)
    requires sep != [] && start <= |s|
    ensures Pieces(s, sep, start, start) == [s[start..]] <==> !Contains(s[start..], sep)
  {
    var t := s[start..];
    if Contains(t, sep) {
      PiecesFree(s, sep, start, start);
      assert t in [t];
    } else if |t| < |sep| {
      PiecesStep(s, sep, start, start);
    } else {
      var to := |s| - |sep| + 1;
      forall k | start <= k < to ensures !MatchesAt(s, sep, k) { MatchInside(s, start, t, sep, k - start); }
      PiecesSkip(s, sep, start, start, to);
      PiecesStep(s, sep, start, to);
    }
  }

  /** Where `u` lies in `s` from `start` on, it matches where `s` does. */
  lemma MatchInside(s: seq<byte>, start: nat, u: seq<byte>, sep: seq<byte>, k: nat)
    requires start + |u| <= |s| && u == s[start..start + |u|] && k + |sep| <= |u|
    ensures MatchesAt(u, sep, k) == MatchesAt(s, sep, start + k)
  {
    var x, y := u[k..k + |sep|], s[start + k..start + k + |sep|];
    assert forall m | 0 <= m < |sep| :: x[m] == u[k + m] == s[start + k + m] == y[m];
    assert x == y;
  }

  lemma {:induction false} JoinPieces(s: seq<byte>, sep: seq<byte>, start: nat, ts: seq<seq<byte>>)
    requires sep != [] && start <= |s| && ts != [] && s[start..] == Join(ts, sep)
    ensures Pieces(s, sep, start, start) == ts <==> Clear(ts, sep)
    decreases |ts|
  {
    hide Pieces, MatchesAt, Contains;
    var t := ts[0];
    if |ts| == 1 {
      LastPiece(s, sep, start);
      assert ts == [t];
    } else {
      var u, end := t + sep, start + |t|;
      var more := Join(ts[1..], sep);
      assert s[start..] == u + more && s[start..][..|u|] == u;
      assert u == s[start..start + |u|] && s[start..end] == t && s[end..end + |sep|] == sep;
      forall k: nat | k < |t| ensures MatchesAt(u, sep, k) == MatchesAt(s, sep, start + k) {
        MatchInside(s, start, u, sep, k);
      }
      if NoneIn(u, sep, 0, |t|) {
        forall k | start <= k < end ensures !MatchesAt(s, sep, k) { assert !MatchesAt(u, sep, k - start); }
        PiecesSkip(s, sep, start, start, end);
        PiecesStep(s, sep, start, end);
        assert s[end + |sep|..] == s[start..][|u|..] == more;
        JoinPieces(s, sep, end + |sep|, ts[1..]);
        TailsAgree(t, Pieces(s, sep, end + |sep|, end + |sep|), ts);
      } else {
        var k :| 0 <= k < |t| && MatchesAt(u, sep, k);
        FirstPieceEnds(s, sep, start, start, start + k);
      }
    }
  }

  lemma TailsAgree(t: seq<byte>, more: seq<seq<byte>>, ts: seq<seq<byte>>)
    requires ts != [] && ts[0] == t
    ensures [t] + more == ts <==> more == ts[1..]
  {
    assert ([t] + more)[1..] == more && ts == [t] + ts[1..];
  }

  /** For every separator: splitting the join of some tokens gives the tokens back if and only if they are
      clear of it and are not the single empty token, whose join is empty and has no tokens. */
  lemma JoinThenSplit(ts: seq<seq<byte>>, sep: seq<byte>)
    requires sep != []
    ensures Split(Join(ts, sep), sep) == ts <==> ts != [[]] && Clear(ts, sep)
  {
    var s := Join(ts, sep);
    if s != [] {
      assert s[0..] == s;
      JoinPieces(s, sep, 0, ts);
    }
  }

  lemma ByteFree(t: seq<byte>, c: byte)
    ensures Contains(t, [c]) <==> c in t
    ensures NoneIn(t + [c], [c], 0, |t|) <==> c !in t
  {
    forall k | 0 <= k < |t| ensures MatchesAt(t, [c], k) <==> t[k] == c {
      assert t[k..k + 1] == [t[k]] && [t[k]][0] == t[k] && [c][0] == c;
    }
    var u := t + [c];
    forall k | 0 <= k < |t| ensures MatchesAt(u, [c], k) <==> t[k] == c {
      assert u[k..k + 1] == [u[k]] && [u[k]][0] == u[k] == t[k] && [c][0] == c;
    }
  }

  /** Exactly the tokens without the byte are clear of a one-byte separator. */
  lemma {:induction false} ClearOfByte(ts: seq<seq<byte>>, c: byte)
    ensures Clear(ts, [c]) <==> forall t <- ts :: c !in t
  {
    hide Contains, NoneIn;
    if ts != [] {
      ByteFree(ts[0], c);
      ClearOfByte(ts[1..], c);
      assert ts == [ts[0]] + ts[1..];
    }
  }

  /** So with a one-byte separator all lists of tokens without that byte come back, but for the empty token. */
  lemma JoinThenSplitByByte(ts: seq<seq<byte>>, c: byte)
    ensures Split(Join(ts, [c]), [c]) == ts <==> ts != [[]] && forall t <- ts :: c !in t
  {
    JoinThenSplit(ts, [c]);
    ClearOfByte(ts, c);
  }

  /** With a longer separator tokens without it may still run into it: "a" and "b" joined by "aa" split as ""
      and "ab". */
  lemma LongSeparatorRunsIn()
    ensures var ts: seq<seq<byte>>, sep: seq<byte> := [[97], [98]], [97, 97];
            !Clear(ts, sep) && Split(Join(ts, sep), sep) == [[], [97, 98]]
  {
    var ts: seq<seq<byte>>, sep: seq<byte> := [[97], [98]], [97, 97];
    assert ts[1..] == [[98]];
    var s := Join(ts, sep);
    assert s == [97, 97, 97, 98] && ts[0] + sep == [97, 97, 97];
    assert s[2..4][1] != sep[1];
    assert MatchesAt(s, sep, 0) && !MatchesAt(s, sep, 2) && MatchesAt(ts[0] + sep, sep, 0);
    assert Pieces(s, sep, 2, 2) == Pieces(s, sep, 2, 3) == [s[2..]];
  }

  /** sdssplitlen; no result for an empty separator. */
  method SplitLen(s: seq<byte>, sep: seq<byte>) returns (tokens: Option<seq<seq<byte>>>)
    ensures tokens == if sep == [] then None else Some(Split(s, sep))
  {
    hide Pieces;
    if |sep| < 1 { return None; }
    var elements: seq<seq<byte>> := [];
    if |s| == 0 { return Some(elements); }
    var start: nat, j: nat := 0, 0;
    while j < |s| - (|sep| - 1)
      invariant start <= j <= |s|
      invariant elements + Pieces(s, sep, start, j) == Pieces(s, sep, 0, 0)
    {
      PiecesStep(s, sep, start, j);
      if s[j..j + |sep|] == sep {
        ghost var before, more := elements, Pieces(s, sep, j + |sep|, j + |sep|);
        assert before + ([s[start..j]] + more) == before + [s[start..j]] + more;
        elements := elements + [s[start..j]];
        start := j + |sep|;
        j := j + |sep| - 1;
      }
      j := j + 1;
    }
    PiecesStep(s, sep, start, j);
    elements := elements + [s[start..]];
    return Some(elements);
  }

  /** sdsjoinsds. */
  method JoinSds(argv: seq<seq<byte>>, sep: seq<byte>) returns (join: seq<byte>)
    ensures join == Join(argv, sep)
  {
    join := [];
    assert argv[0..] == argv;
    for j := 0 to |argv|
      invariant join + Join(argv[j..], sep) == Join(argv, sep)
    {
      ghost var before, more := join, Join(argv[j + 1..], sep);
      assert argv[j..][1..] == argv[j + 1..];
      join := join + argv[j];
      if j != |argv| - 1 {
        join := join + sep;
        assert before + argv[j] + sep + more == before + (argv[j] + sep + more);
      }
    }
  }
}
