/** Splitting the continuous CSA move string of a submitted game into tokens.
    The source removes every match of the pattern `[+-]\d{4}\w{2}` with a
    leftmost, non-overlapping `gsub`, collects the matches in order, and then
    looks at what is left over: nothing, or exactly the resignation marker
    `%TORYO`, which becomes the last token. */
module CsaTokenizer {

  /** The special move for resignation. */
  const Toryo: string := "%TORYO"

  /** Width of one move token: a sign, four digits, two word characters. */
  const MoveWidth: nat := 7

  /** `\d` of the pattern. */
  predicate IsDigit(c: char) {
    '0' <= c <= '9'
  }

  /** `\w` of the pattern: an ASCII letter, a digit or the underscore. */
  predicate IsWordChar(c: char) {
    ('a' <= c <= 'z') || ('A' <= c <= 'Z') || IsDigit(c) || c == '_'
  }

  /** The pattern `[+-]\d{4}\w{2}` matches the seven characters of `s` that
      start at index `i`. */
  predicate MatchAt(s: string, i: nat) {
    i + MoveWidth <= |s|
    && (s[i] == '+' || s[i] == '-')
    && IsDigit(s[i + 1]) && IsDigit(s[i + 2]) && IsDigit(s[i + 3]) && IsDigit(s[i + 4])
    && IsWordChar(s[i + 5]) && IsWordChar(s[i + 6])
  }

  /** A string that the pattern matches as a whole, e.g. `+7776FU`. */
  predicate IsMoveToken(t: string) {
    |t| == MoveWidth && MatchAt(t, 0)
  }

  /** What `gsub` produces: the matches in order and the residue string. */
  datatype Scanned = Scanned(matches: seq<string>, residue: string)

  /** Outcome of tokenizing: the tokens, or rejection of the notation. */
  datatype Tokenized = Tokens(tokens: seq<string>) | Malformed

  /** The leftmost, non-overlapping scan of `s` from index `i` on: a match
      at the scan point is taken whole and the scan resumes after it;
      otherwise one character goes to the residue and the scan resumes at the
      next character. */
  function ScanAt(s: string, i: nat): Scanned
    decreases |s| - i
  {
    if i >= |s| then Scanned([], "")
    else if MatchAt(s, i) then
      var rest := ScanAt(s, i + MoveWidth);
      Scanned([s[i..i + MoveWidth]] + rest.matches, rest.residue)
    else
      var rest := ScanAt(s, i + 1);
      Scanned(rest.matches, [s[i]] + rest.residue)
  }

  /** The scan of a whole string. */
  function Scan(s: string): Scanned {
    ScanAt(s, 0)
  }

  /** The residue check applied after the scan: the residue must be empty or
      the resignation marker, which is then appended; no tokens at all is a
      rejection too. */
  function Accept(sc: Scanned): Tokenized {
    if sc.residue == "" then
      if sc.matches == [] then Malformed else Tokens(sc.matches)
    else if sc.residue == Toryo then
      Tokens(sc.matches + [Toryo])
    else
      Malformed
  }

  /** The tokenizer as a function of the raw notation. */
  function Tokenize(s: string): Tokenized {
    Accept(Scan(s))
  }

  /** Concatenation of tokens, the inverse direction of the tokenizer. */
  function Concat(ts: seq<string>): string {
    if ts == [] then "" else ts[0] + Concat(ts[1..])
  }

  /** The tokenizer as the source runs it: one pass over the string that
      pushes every match onto the move list and keeps the rest. Every token
      but the last is a move, and the last is a move or the resignation
      marker. */
  method TokenizeMoves(s: string) returns (r: Tokenized)
    ensures r == Tokenize(s)
    ensures r.Tokens? ==> r.tokens != []
    ensures r.Tokens? ==> forall k :: 0 <= k < |r.tokens| - 1 ==> IsMoveToken(r.tokens[k])
    ensures r.Tokens? ==> IsMoveToken(r.tokens[|r.tokens| - 1]) || r.tokens[|r.tokens| - 1] == Toryo
  {
    var moves: seq<string> := [];
    var rest: string := "";
    var i := 0;
    while i < |s|
      invariant 0 <= i <= |s|
      invariant Scan(s) == Scanned(moves + ScanAt(s, i).matches, rest + ScanAt(s, i).residue)
      invariant forall k :: 0 <= k < |moves| ==> IsMoveToken(moves[k])
      decreases |s| - i
    {
      var tail := ScanAt(s, i);
      if MatchAt(s, i) {
        var m := s[i..i + MoveWidth];
        assert MatchAt(m, 0) by {
          assert forall d :: 0 <= d < MoveWidth ==> m[d] == s[i + d];
        }
        assert moves + tail.matches == (moves + [m]) + ScanAt(s, i + MoveWidth).matches;
        moves := moves + [m];
        i := i + MoveWidth;
      } else {
        assert rest + tail.residue == (rest + [s[i]]) + ScanAt(s, i + 1).residue;
        rest := rest + [s[i]];
        i := i + 1;
      }
    }
    assert moves + [] == moves && rest + "" == rest;
    if rest == "" {
      r := if moves == [] then Malformed else Tokens(moves);
    } else if rest == Toryo {
      r := Tokens(moves + [rest]);
    } else {
      r := Malformed;
    }
  }

  /** Fewer than seven characters left to scan are all residue. */
  lemma {:induction false} ScanShort(s: string, i: nat)
    requires i <= |s| < i + MoveWidth
    ensures ScanAt(s, i) == Scanned([], s[i..])
    decreases |s| - i
  {
    if i < |s| {
      ScanShort(s, i + 1);
      assert s[i..] == [s[i]] + s[i + 1..];
    }
  }

  /** The scan of `a + b` from inside `b` is the scan of `b` alone. */
  lemma {:induction false} ScanShift(a: string, b: string, i: nat)
    ensures ScanAt(a + b, |a| + i) == ScanAt(b, i)
    decreases |b| - i
  {
    var s := a + b;
    if i < |b| {
      assert forall j :: i <= j < |b| ==> s[|a| + j] == b[j];
      assert MatchAt(s, |a| + i) == MatchAt(b, i);
      if MatchAt(b, i) {
        ScanShift(a, b, i + MoveWidth);
        assert s[|a| + i..|a| + i + MoveWidth] == b[i..i + MoveWidth];
      } else {
        ScanShift(a, b, i + 1);
      }
    }
  }

  /** A move token in front of a string is the first match of its scan. */
  lemma ScanMoveFirst(m: string, b: string)
    requires IsMoveToken(m)
    ensures Scan(m + b) == Scanned([m] + Scan(b).matches, Scan(b).residue)
  {
    var s := m + b;
    assert forall d :: 0 <= d < MoveWidth ==> s[d] == m[d];
    assert MatchAt(s, 0);
    assert s[0..MoveWidth] == m;
    ScanShift(m, b, 0);
  }

  /** Round trip: scanning well-formed move tokens followed by any tail gives
      back exactly those tokens, in order, and then the scan of the tail. */
  lemma {:induction false} ScanConcat(ts: seq<string>, tail: string)
    requires forall k :: 0 <= k < |ts| ==> IsMoveToken(ts[k])
    ensures Scan(Concat(ts) + tail) == Scanned(ts + Scan(tail).matches, Scan(tail).residue)
    decreases |ts|
  {
    if ts != [] {
      var b := Concat(ts[1..]) + tail;
      assert Concat(ts) + tail == ts[0] + b;
      ScanMoveFirst(ts[0], b);
      ScanConcat(ts[1..], tail);
      var m := Scan(tail).matches;
      assert ts == [ts[0]] + ts[1..];
      assert [ts[0]] + (ts[1..] + m) == ([ts[0]] + ts[1..]) + m;
    } else {
      assert Concat(ts) + tail == tail;
      assert ts + Scan(tail).matches == Scan(tail).matches;
    }
  }

  /** A non-empty concatenation of move tokens is accepted as those tokens. */
  lemma TokenizeMoves_RoundTrip(ts: seq<string>)
    requires ts != []
    requires forall k :: 0 <= k < |ts| ==> IsMoveToken(ts[k])
    ensures Tokenize(Concat(ts)) == Tokens(ts)
  {
    ScanConcat(ts, "");
    assert Concat(ts) + "" == Concat(ts);
    assert ts + [] == ts;
  }

  /** Move tokens followed by the resignation marker: the marker becomes the
      last token (this includes a game that is resigned before any move). */
  lemma TokenizeResigned_RoundTrip(ts: seq<string>)
    requires forall k :: 0 <= k < |ts| ==> IsMoveToken(ts[k])
    ensures Tokenize(Concat(ts) + Toryo) == Tokens(ts + [Toryo])
  {
    ScanConcat(ts, Toryo);
    ScanShort(Toryo, 0);
    assert ts + [] == ts;
  }

  /** Any residue other than nothing or `%TORYO` rejects the notation, however
      many well-formed moves precede it. */
  lemma RejectsBadResidue(ts: seq<string>, tail: string)
    requires forall k :: 0 <= k < |ts| ==> IsMoveToken(ts[k])
    requires Scan(tail).residue != "" && Scan(tail).residue != Toryo
    ensures Tokenize(Concat(ts) + tail) == Malformed
  {
    ScanConcat(ts, tail);
  }

  /** A tail too short to hold a move is all residue, so a short tail other
      than nothing or `%TORYO` rejects the notation. */
  lemma RejectsShortTail(ts: seq<string>, tail: string)
    requires forall k :: 0 <= k < |ts| ==> IsMoveToken(ts[k])
    requires |tail| < MoveWidth
    requires tail != "" && tail != Toryo
    ensures Tokenize(Concat(ts) + tail) == Malformed
  {
    ScanShort(tail, 0);
    RejectsBadResidue(ts, tail);
  }

  /** An empty notation is rejected: there is no token at all. */
  lemma RejectsEmpty()
    ensures Tokenize("") == Malformed
  {
  }

  /** The resignation marker need not be contiguous: matches are removed
      wherever they are and the leftover characters are joined, so moves
      placed anywhere inside the marker are still accepted, e.g.
      `%TO+7776FURYO` gives `+7776FU` and `%TORYO`. */
  lemma SplitResignationAccepted(ts: seq<string>, j: nat)
    requires forall k :: 0 <= k < |ts| ==> IsMoveToken(ts[k])
    requires j <= |Toryo|
    ensures Tokenize(Toryo[..j] + Concat(ts) + Toryo[j..]) == Tokens(ts + [Toryo])
  {
    var p, q := Toryo[..j], Toryo[j..];
    ScanConcat(ts, q);
    ScanShort(q, 0);
    assert ts + [] == ts;
    ToryoUnsigned();
    assert forall k :: 0 <= k < |p| ==> p[k] == Toryo[k];
    ScanUnsignedPrefix(p, Concat(ts) + q, 0);
    assert p + Concat(ts) + q == p + (Concat(ts) + q);
    Rejoin(Toryo, j);
  }

  /** A string is its prefix followed by the rest. */
  lemma Rejoin(s: string, j: nat)
    requires j <= |s|
    ensures s[..j] + s[j..] == s
  {
  }

  /** No character of the resignation marker can start a move token. */
  lemma ToryoUnsigned()
    ensures forall k :: 0 <= k < |Toryo| ==> Toryo[k] != '+' && Toryo[k] != '-'
  {
    assert Toryo == ['%', 'T', 'O', 'R', 'Y', 'O'];
  }

  /** Characters that cannot start a move token all go to the residue, in
      front of whatever the rest of the string leaves. */
  lemma {:induction false} ScanUnsignedPrefix(p: string, s: string, i: nat)
    requires i <= |p|
    requires forall k :: 0 <= k < |p| ==> p[k] != '+' && p[k] != '-'
    ensures ScanAt(p + s, i) == Scanned(Scan(s).matches, p[i..] + Scan(s).residue)
    decreases |p| - i
  {
    if i < |p| {
      ScanUnsignedPrefix(p, s, i + 1);
      assert (p + s)[i] == p[i];
      assert p[i..] == [p[i]] + p[i + 1..];
      var r := Scan(s).residue;
      assert [p[i]] + (p[i + 1..] + r) == ([p[i]] + p[i + 1..]) + r;
    } else {
      ScanShift(p, s, 0);
      assert p[i..] + Scan(s).residue == Scan(s).residue;
    }
  }

  /** The scenario of two moves followed by stray characters. */
  lemma RejectsTrailingGarbage()
    ensures Tokenize("+7776FU-3334FUxyz") == Malformed
  {
    var ts := ["+7776FU", "-3334FU"];
    assert Concat(ts) + "xyz" == "+7776FU-3334FUxyz";
    RejectsShortTail(ts, "xyz");
  }

  /** Indices at which the scan from `i` takes a match, in scan order. */
  function MatchStarts(s: string, i: nat): seq<nat>
    decreases |s| - i
  {
    if i >= |s| then []
    else if MatchAt(s, i) then [i] + MatchStarts(s, i + MoveWidth)
    else MatchStarts(s, i + 1)
  }

  /** Indices of the characters that the scan from `i` puts in the residue,
      in order. */
  function ResidueIndices(s: string, i: nat): seq<nat>
    decreases |s| - i
  {
    if i >= |s| then []
    else if MatchAt(s, i) then ResidueIndices(s, i + MoveWidth)
    else [i] + ResidueIndices(s, i + 1)
  }

  /** The k-th match of the scan is the text at its k-th start index, where
      the pattern matches; starts lie at or after the scan point. */
  lemma {:induction false} MatchFoundAtStart(s: string, i: nat, k: nat)
    requires k < |ScanAt(s, i).matches|
    ensures k < |MatchStarts(s, i)|
    ensures var p := MatchStarts(s, i)[k];
      i <= p && MatchAt(s, p) && s[p..p + MoveWidth] == ScanAt(s, i).matches[k]
    decreases |s| - i
  {
    if MatchAt(s, i) {
      if k > 0 {
        MatchFoundAtStart(s, i + MoveWidth, k - 1);
      }
    } else {
      MatchFoundAtStart(s, i + 1, k);
    }
  }

  /** There is one start index per match. */
  lemma {:induction false} MatchStartsCount(s: string, i: nat)
    ensures |MatchStarts(s, i)| == |ScanAt(s, i).matches|
    decreases |s| - i
  {
    if i < |s| {
      MatchStartsCount(s, if MatchAt(s, i) then i + MoveWidth else i + 1);
    }
  }

  /** Consecutive matches do not overlap. */
  lemma {:induction false} MatchesApart(s: string, i: nat, k: nat)
    requires k + 1 < |MatchStarts(s, i)|
    ensures MatchStarts(s, i)[k] + MoveWidth <= MatchStarts(s, i)[k + 1]
    decreases |s| - i
  {
    if MatchAt(s, i) {
      if k > 0 {
        MatchesApart(s, i + MoveWidth, k - 1);
      } else {
        StartsFrom(s, i + MoveWidth, 0);
      }
    } else {
      MatchesApart(s, i + 1, k);
    }
  }

  /** Every start index of the scan from `i` is at least `i`. */
  lemma {:induction false} StartsFrom(s: string, i: nat, k: nat)
    requires k < |MatchStarts(s, i)|
    ensures i <= MatchStarts(s, i)[k]
    decreases |s| - i
  {
    if MatchAt(s, i) {
      if k > 0 {
        StartsFrom(s, i + MoveWidth, k - 1);
      }
    } else {
      StartsFrom(s, i + 1, k);
    }
  }

  /** Matches are taken from left to right and never overlap: the k-th match
      is the text at the k-th start index, the pattern matches there, and
      each start lies at or after the end of the previous match. */
  lemma MatchesInOrder(s: string)
    ensures var st := MatchStarts(s, 0); var ms := Scan(s).matches;
      |st| == |ms|
      && (forall k :: 0 <= k < |st| ==> MatchAt(s, st[k]) && s[st[k]..st[k] + MoveWidth] == ms[k])
      && (forall k :: 0 <= k < |st| - 1 ==> st[k] + MoveWidth <= st[k + 1])
  {
    MatchStartsCount(s, 0);
    var st := MatchStarts(s, 0);
    forall k | 0 <= k < |st|
      ensures MatchAt(s, st[k]) && s[st[k]..st[k] + MoveWidth] == Scan(s).matches[k]
    {
      MatchFoundAtStart(s, 0, k);
    }
    forall k | 0 <= k < |st| - 1
      ensures st[k] + MoveWidth <= st[k + 1]
    {
      MatchesApart(s, 0, k);
    }
  }

  /** The k-th residue character comes from an index at or after the scan
      point where the pattern does not match. */
  lemma {:induction false} ResidueCharUnmatched(s: string, i: nat, k: nat)
    requires k < |ScanAt(s, i).residue|
    ensures k < |ResidueIndices(s, i)|
    ensures var p := ResidueIndices(s, i)[k];
      i <= p < |s| && s[p] == ScanAt(s, i).residue[k] && !MatchAt(s, p)
    decreases |s| - i
  {
    if MatchAt(s, i) {
      ResidueCharUnmatched(s, i + MoveWidth, k);
    } else if k > 0 {
      ResidueCharUnmatched(s, i + 1, k - 1);
    }
  }

  /** There is one residue index per residue character. */
  lemma {:induction false} ResidueIndicesCount(s: string, i: nat)
    ensures |ResidueIndices(s, i)| == |ScanAt(s, i).residue|
    decreases |s| - i
  {
    if i < |s| {
      ResidueIndicesCount(s, if MatchAt(s, i) then i + MoveWidth else i + 1);
    }
  }

  /** Residue indices increase strictly. */
  lemma {:induction false} ResidueIndicesIncrease(s: string, i: nat, k: nat)
    requires k + 1 < |ResidueIndices(s, i)|
    ensures ResidueIndices(s, i)[k] < ResidueIndices(s, i)[k + 1]
    decreases |s| - i
  {
    if MatchAt(s, i) {
      ResidueIndicesIncrease(s, i + MoveWidth, k);
    } else if k > 0 {
      ResidueIndicesIncrease(s, i + 1, k - 1);
    } else {
      ResiduesFrom(s, i + 1, 0);
    }
  }

  /** Every residue index of the scan from `i` is at least `i`. */
  lemma {:induction false} ResiduesFrom(s: string, i: nat, k: nat)
    requires k < |ResidueIndices(s, i)|
    ensures i <= ResidueIndices(s, i)[k]
    decreases |s| - i
  {
    if MatchAt(s, i) {
      ResiduesFrom(s, i + MoveWidth, k);
    } else if k > 0 {
      ResiduesFrom(s, i + 1, k - 1);
    }
  }

  /** Every residue character is one where the scan found no match to start,
      in order: the scan never skips over a match. */
  lemma ResidueIsUnmatched(s: string)
    ensures var ri := ResidueIndices(s, 0); var rs := Scan(s).residue;
      |ri| == |rs|
      && (forall k :: 0 <= k < |ri| ==> ri[k] < |s| && s[ri[k]] == rs[k] && !MatchAt(s, ri[k]))
      && (forall k :: 0 <= k < |ri| - 1 ==> ri[k] < ri[k + 1])
  {
    ResidueIndicesCount(s, 0);
    var ri := ResidueIndices(s, 0);
    forall k | 0 <= k < |ri|
      ensures ri[k] < |s| && s[ri[k]] == Scan(s).residue[k] && !MatchAt(s, ri[k])
    {
      ResidueCharUnmatched(s, 0, k);
    }
    forall k | 0 <= k < |ri| - 1
      ensures ri[k] < ri[k + 1]
    {
      ResidueIndicesIncrease(s, 0, k);
    }
  }
}
