/** The regular expression matcher of grep.c: backtracking over c, ., c* and the
    anchors, against the language that a pattern denotes. */
module Grep {

  // A string ends before its first zero byte.
  type CString = s: string | '\0' !in s

  function At(s: CString, i: nat): char {
    if i < |s| then s[i] else '\0'
  }

  // ---------- patterns and what they denote ----------

  datatype Piece = One(c: char) | Star(c: char)

  datatype Pattern = Pattern(pieces: seq<Piece>, toEnd: bool)

  predicate Fits(c: char, x: char) {
    c == '.' || c == x
  }

  predicate AllFit(c: char, w: string) {
    forall i :: 0 <= i < |w| ==> Fits(c, w[i])
  }

  predicate InPiece(p: Piece, w: string) {
    match p
    case One(c) => |w| == 1 && Fits(c, w[0])
    case Star(c) => AllFit(c, w)
  }

  // A word of each piece, one after the other.
  predicate InPieces(ps: seq<Piece>, w: string) {
    if ps == [] then w == []
    else exists k :: 0 <= k <= |w| && InPiece(ps[0], w[..k]) && InPieces(ps[1..], w[k..])
  }

  // A star belongs to the character before it, whatever that is; a dollar is an anchor
  // only as the last character.
  function Parse(re: CString): Pattern {
    if re == "" then Pattern([], false)
    else if At(re, 1) == '*' then
      var rest := Parse(re[2..]);
      rest.(pieces := [Star(re[0])] + rest.pieces)
    else if re == "$" then Pattern([], true)
    else
      var rest := Parse(re[1..]);
      rest.(pieces := [One(re[0])] + rest.pieces)
  }

  // Some word of the pattern starts at t, and reaches to the end if it must.
  ghost predicate Here(p: Pattern, text: string, t: nat) {
    exists e :: t <= e <= |text| && InPieces(p.pieces, text[t..e]) && (p.toEnd ==> e == |text|)
  }

  // What a pattern is for: with a caret the word is at the start of the text.
  ghost predicate Matches(re: CString, text: string) {
    if At(re, 0) == '^' then Here(Parse(re[1..]), text, 0)
    else exists t :: 0 <= t <= |text| && Here(Parse(re), text, t)
  }

  // ---------- the matcher ----------

  // The end of the pattern, or the anchor before it.
  lemma HereEmpty(text: string, t: nat, toEnd: bool)
    requires t <= |text|
    ensures Here(Pattern([], toEnd), text, t) <==> !toEnd || t == |text|
  {
    assert text[t..t] == [];
    assert forall e :: t <= e <= |text| && text[t..e] == [] ==> e == t;
  }

  lemma HereOne(c: char, p: Pattern, text: string, t: nat)
    requires t <= |text|
    ensures Here(Pattern([One(c)] + p.pieces, p.toEnd), text, t) <==> t < |text| && Fits(c, text[t]) && Here(p, text, t + 1)
  {
    var ps := [One(c)] + p.pieces;
    assert ps[1..] == p.pieces;
    if Here(Pattern(ps, p.toEnd), text, t) {
      var e :| t <= e <= |text| && InPieces(ps, text[t..e]) && (p.toEnd ==> e == |text|);
      var w := text[t..e];
      assert InPiece(One(c), w[..1]) && InPieces(p.pieces, w[1..]);
      assert w[1..] == text[t + 1..e];
    }
    if t < |text| && Fits(c, text[t]) && Here(p, text, t + 1) {
      var e :| t + 1 <= e <= |text| && InPieces(p.pieces, text[t + 1..e]) && (p.toEnd ==> e == |text|);
      var w := text[t..e];
      assert w[..1] == [text[t]] && w[1..] == text[t + 1..e];
      assert InPiece(ps[0], w[..1]) && InPieces(ps[1..], w[1..]);
    }
  }

  lemma HereStar(c: char, p: Pattern, text: string, t: nat)
    requires t <= |text|
    ensures Here(Pattern([Star(c)] + p.pieces, p.toEnd), text, t) <==>
            exists k :: t <= k <= |text| && AllFit(c, text[t..k]) && Here(p, text, k)
  {
    var ps := [Star(c)] + p.pieces;
    assert ps[1..] == p.pieces;
    if Here(Pattern(ps, p.toEnd), text, t) {
      var e :| t <= e <= |text| && InPieces(ps, text[t..e]) && (p.toEnd ==> e == |text|);
      var w := text[t..e];
      var k :| 0 <= k <= |w| && InPiece(ps[0], w[..k]) && InPieces(ps[1..], w[k..]);
      assert w[..k] == text[t..t + k] && w[k..] == text[t + k..e];
      assert AllFit(c, text[t..t + k]) && Here(p, text, t + k);
    }
    if k :| t <= k <= |text| && AllFit(c, text[t..k]) && Here(p, text, k) {
      var e :| k <= e <= |text| && InPieces(p.pieces, text[k..e]) && (p.toEnd ==> e == |text|);
      var w := text[t..e];
      assert w[..k - t] == text[t..k] && w[k - t..] == text[k..e];
      assert InPiece(ps[0], w[..k - t]) && InPieces(ps[1..], w[k - t..]);
    }
  }

  method MatchHere(re: CString, text: CString, t: nat) returns (found: bool)
    requires t <= |text|
    ensures found <==> Here(Parse(re), text, t)
    decreases |re|, 0
  {
    if At(re, 0) == '\0' {
      HereEmpty(text, t, false);
      return true;
    }
    if At(re, 1) == '*' {
      HereStar(re[0], Parse(re[2..]), text, t);
      found := MatchStar(re[0], re[2..], text, t);
      return;
    }
    if At(re, 0) == '$' && At(re, 1) == '\0' {
      assert re == "$";
      HereEmpty(text, t, true);
      return At(text, t) == '\0';
    }
    HereOne(re[0], Parse(re[1..]), text, t);
    if At(text, t) != '\0' && (At(re, 0) == '.' || At(re, 0) == At(text, t)) {
      found := MatchHere(re[1..], text, t + 1);
      return;
    }
    return false;
  }

  method MatchStar(c: char, re: CString, text: CString, t0: nat) returns (found: bool)
    requires t0 <= |text|
    ensures found <==> exists k :: t0 <= k <= |text| && AllFit(c, text[t0..k]) && Here(Parse(re), text, k)
    decreases |re|, 1
  {
    var t, more := t0, true;
    while more
      invariant t0 <= t <= |text| + 1 && (more ==> t <= |text| && AllFit(c, text[t0..t]))
      invariant forall k :: t0 <= k < t && k <= |text| ==> !Here(Parse(re), text, k)
      invariant !more ==> forall k :: t <= k <= |text| ==> !AllFit(c, text[t0..k])
      decreases more, |text| - t
    {
      found := MatchHere(re, text, t);
      if found {
        return true;
      }
      if At(text, t) != '\0' {
        assert text[t0..t + 1] == text[t0..t] + [text[t]];
        more := At(text, t) == c || c == '.';
      } else {
        more := false;
      }
      t := t + 1;
    }
    return false;
  }

  method Match(re: CString, text: CString) returns (found: bool)
    ensures found <==> Matches(re, text)
  {
    if At(re, 0) == '^' {
      found := MatchHere(re[1..], text, 0);
      return;
    }
    var t, more := 0, true;
    while more
      invariant 0 <= t <= |text| + 1 && (more <==> t <= |text|)
      invariant forall k :: 0 <= k < t && k <= |text| ==> !Here(Parse(re), text, k)
      decreases |text| + 1 - t
    {
      found := MatchHere(re, text, t);
      if found {
        return true;
      }
      more := At(text, t) != '\0';
      t := t + 1;
    }
    return false;
  }
}
