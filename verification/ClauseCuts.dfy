/**
 How the planner's two regular expressions cut a text, and that what they leave has
 nothing left to cut.
 */
module ClauseCuts {
  import opened Texts

  /** `\w`. */
  datatype Splitter = Splitter(isWord: char -> bool)

  /** The word "then", or the word "and" or a mark; in any case. */
  datatype Pattern = Then | AndOrMark

  /** `\b`: a word begins or ends before position `i`. */
  predicate Boundary(sp: Splitter, s: string, i: int)
    requires 0 <= i <= |s|
  {
    (i > 0 && sp.isWord(s[i - 1])) != (i < |s| && sp.isWord(s[i]))
  }

  predicate WordAt(sp: Splitter, s: string, i: int, word: string)
    requires i >= 0
  {
    && i + |word| <= |s| && (forall j :: 0 <= j < |word| ==> Lower(s[i + j]) == word[j])
    && Boundary(sp, s, i) && Boundary(sp, s, i + |word|)
  }

  /** The length of the match at position `i`, 0 when there is none. */
  function MatchAt(sp: Splitter, p: Pattern, s: string, i: int): (n: nat)
    requires i >= 0
    ensures n > 0 ==> i + n <= |s|
  {
    match p
    case Then => if WordAt(sp, s, i, "then") then 4 else 0
    case AndOrMark =>
      if WordAt(sp, s, i, "and") then 3 else if i < |s| && (s[i] == ';' || s[i] == ',') then 1 else 0
  }

  /** The length of the match at each position. */
  function Matches(sp: Splitter, p: Pattern, s: string): nat -> nat {
    (i: nat) => MatchAt(sp, p, s, i)
  }

  /** Matches lie within a text of length `n`. */
  ghost predicate Fits(at: nat -> nat, n: nat) {
    forall i: nat :: at(i) > 0 ==> i + at(i) <= n
  }

  /** `re.split` from position `i` on; the piece it is in began at `start`. */
  function Pieces(at: nat -> nat, s: string, start: nat, i: nat): seq<string>
    requires start <= i <= |s| && Fits(at, |s|)
    decreases |s| - i
  {
    if i == |s| then [s[start..]]
    else
      var n := at(i);
      if n > 0 then [s[start..i]] + Pieces(at, s, i + n, i + n) else Pieces(at, s, start, i + 1)
  }

  function Cut(sp: Splitter, p: Pattern, s: string): seq<string> {
    Pieces(Matches(sp, p, s), s, 0, 0)
  }

  // ------------------------------------------------------------------ what cutting means

  datatype Span = Span(from: nat, to: nat)

  /** Where piece `k` begins and ends when `spans` are cut out. */
  function Begins(start: nat, spans: seq<Span>, k: nat): nat
    requires k <= |spans|
  {
    if k == 0 then start else spans[k - 1].to
  }

  function Ends(n: nat, spans: seq<Span>, k: nat): nat
    requires k <= |spans|
  {
    if k == |spans| then n else spans[k].from
  }

  ghost predicate Covered(spans: seq<Span>, i: int) {
    exists k :: 0 <= k < |spans| && spans[k].from <= i < spans[k].to
  }

  /** From `start` on, the spans are matches, in order and apart, and every match begins in one of them. */
  ghost predicate AreMatches(at: nat -> nat, n: nat, start: nat, spans: seq<Span>) {
    && (forall k :: 0 <= k < |spans| ==> start <= spans[k].from < spans[k].to <= n)
    && (forall k :: 0 <= k < |spans| ==> at(spans[k].from) == spans[k].to - spans[k].from)
    && (forall j, k :: 0 <= j < k < |spans| ==> spans[j].to <= spans[k].from)
    && (forall i: nat {:trigger Covered(spans, i)} :: start <= i && at(i) > 0 ==> Covered(spans, i))
  }

  /** The pieces are what lies between the spans. */
  ghost predicate AreBetween(s: string, start: nat, spans: seq<Span>, pieces: seq<string>) {
    && |pieces| == |spans| + 1
    && forall k :: 0 <= k <= |spans| ==>
         Begins(start, spans, k) <= Ends(|s|, spans, k) <= |s|
         && pieces[k] == s[Begins(start, spans, k)..Ends(|s|, spans, k)]
  }

  lemma {:induction false} CoveredNext(first: Span, spans: seq<Span>, i: int)
    requires Covered(spans, i)
    ensures Covered([first] + spans, i)
  {
    var k :| 0 <= k < |spans| && spans[k].from <= i < spans[k].to;
    assert ([first] + spans)[k + 1] == spans[k];
  }

  lemma {:induction false} FirstSpan(at: nat -> nat, n: nat, start: nat, i: nat, spans: seq<Span>)
    requires start <= i && at(i) > 0 && i + at(i) <= n
    requires forall j: nat :: start <= j < i ==> at(j) == 0
    requires AreMatches(at, n, i + at(i), spans)
    ensures AreMatches(at, n, start, [Span(i, i + at(i))] + spans)
  {
    var first := Span(i, i + at(i));
    forall j: nat | start <= j && at(j) > 0
      ensures Covered([first] + spans, j)
    {
      if j < i + at(i) {
        assert ([first] + spans)[0] == first;
      } else {
        CoveredNext(first, spans, j);
      }
    }
  }

  lemma {:induction false} FirstPiece(s: string, start: nat, first: Span, spans: seq<Span>, pieces: seq<string>)
    requires start <= first.from <= first.to <= |s| && AreBetween(s, first.to, spans, pieces)
    ensures AreBetween(s, start, [first] + spans, [s[start..first.from]] + pieces)
  {
    var all := [first] + spans;
    forall k | 0 <= k <= |all|
      ensures Begins(start, all, k) <= Ends(|s|, all, k) <= |s|
      ensures ([s[start..first.from]] + pieces)[k] == s[Begins(start, all, k)..Ends(|s|, all, k)]
    {
      if k > 0 {
        assert Begins(start, all, k) == Begins(first.to, spans, k - 1) && Ends(|s|, all, k) == Ends(|s|, spans, k - 1);
      }
    }
  }

  lemma {:induction false} LastPiece(at: nat -> nat, s: string, start: nat)
    requires start <= |s| && Fits(at, |s|) && forall j: nat :: start <= j < |s| ==> at(j) == 0
    ensures AreMatches(at, |s|, start, []) && AreBetween(s, start, [], [s[start..]])
  {
    assert s[start..|s|] == s[start..];
  }

  lemma {:induction false} PiecesMeaning(at: nat -> nat, s: string, start: nat, i: nat) returns (spans: seq<Span>)
    requires start <= i <= |s| && Fits(at, |s|)
    requires forall j: nat :: start <= j < i ==> at(j) == 0
    ensures AreMatches(at, |s|, start, spans) && AreBetween(s, start, spans, Pieces(at, s, start, i))
    decreases |s| - i
  {
    if i == |s| {
      LastPiece(at, s, start);
      spans := [];
    } else if at(i) > 0 {
      spans := MatchedMeaning(at, s, start, i);
    } else {
      spans := PiecesMeaning(at, s, start, i + 1);
    }
  }

  lemma {:induction false} MatchedMeaning(at: nat -> nat, s: string, start: nat, i: nat) returns (spans: seq<Span>)
    requires start <= i < |s| && Fits(at, |s|) && at(i) > 0
    requires forall j: nat :: start <= j < i ==> at(j) == 0
    ensures AreMatches(at, |s|, start, spans) && AreBetween(s, start, spans, Pieces(at, s, start, i))
    decreases |s| - i, 0
  {
    var next := i + at(i);
    var rest := PiecesMeaning(at, s, next, next);
    FirstSpan(at, |s|, start, i, rest);
    FirstPiece(s, start, Span(i, next), rest, Pieces(at, s, next, next));
    spans := [Span(i, next)] + rest;
  }

  /** Cutting leaves what lies between the matches, and every match begins in a part that is cut out. */
  lemma {:induction false} CutMeaning(sp: Splitter, p: Pattern, s: string) returns (spans: seq<Span>)
    ensures AreMatches(Matches(sp, p, s), |s|, 0, spans) && AreBetween(s, 0, spans, Cut(sp, p, s))
  {
    spans := PiecesMeaning(Matches(sp, p, s), s, 0, 0);
  }

  // ------------------------------------------------------------------ nothing is left to cut

  const WORDS := "thenad"

  /** The letters of the patterns are of words, space and marks are not. */
  ghost predicate Sensible(sp: Splitter) {
    && (forall c: char :: Lower(c) in WORDS ==> sp.isWord(c))
    && (forall c: char :: IsSpace(c) || c == ';' || c == ',' ==> !sp.isWord(c))
  }

  /** The four letters, in any case, as a word of their own. */
  predicate IsThen(sp: Splitter, s: string, i: nat) {
    && i + 4 <= |s|
    && Lower(s[i]) == 't' && Lower(s[i + 1]) == 'h' && Lower(s[i + 2]) == 'e' && Lower(s[i + 3]) == 'n'
    && (i > 0 ==> !sp.isWord(s[i - 1])) && (i + 4 < |s| ==> !sp.isWord(s[i + 4]))
  }

  predicate IsAnd(sp: Splitter, s: string, i: nat) {
    && i + 3 <= |s| && Lower(s[i]) == 'a' && Lower(s[i + 1]) == 'n' && Lower(s[i + 2]) == 'd'
    && (i > 0 ==> !sp.isWord(s[i - 1])) && (i + 3 < |s| ==> !sp.isWord(s[i + 3]))
  }

  /** What the two patterns match, and how much of the text. */
  lemma {:induction false} MatchMeaning(sp: Splitter, s: string, i: nat)
    requires Sensible(sp)
    ensures MatchAt(sp, Then, s, i) == if IsThen(sp, s, i) then 4 else 0
    ensures MatchAt(sp, AndOrMark, s, i) ==
            if IsAnd(sp, s, i) then 3 else if i < |s| && (s[i] == ',' || s[i] == ';') then 1 else 0
  {
    assert "then"[0] == 't' && "then"[1] == 'h' && "then"[2] == 'e' && "then"[3] == 'n';
    assert "and"[0] == 'a' && "and"[1] == 'n' && "and"[2] == 'd';
    if i + 4 <= |s| {
      assert s[i + 0] == s[i];
    }
    if i + 3 <= |s| {
      assert s[i + 0] == s[i];
    }
  }

  /** No word of the text continues across position `i`. */
  predicate Clean(sp: Splitter, s: string, i: int) {
    0 < i < |s| ==> !sp.isWord(s[i - 1]) || !sp.isWord(s[i])
  }

  /** There is no match in the text. */
  ghost predicate Quiet(sp: Splitter, p: Pattern, s: string) {
    forall i: nat :: i < |s| ==> MatchAt(sp, p, s, i) == 0
  }

  lemma {:induction false} WordWithin(sp: Splitter, s: string, a: nat, b: nat, i: nat, word: string)
    requires Sensible(sp) && a <= b <= |s| && Clean(sp, s, a) && Clean(sp, s, b)
    requires word != "" && forall c :: c in word ==> c in WORDS
    requires WordAt(sp, s[a..b], i, word)
    ensures WordAt(sp, s, a + i, word)
  {
    var t, n := s[a..b], |word|;
    forall j | 0 <= j < n
      ensures t[i + j] == s[a + i + j] && Lower(s[a + i + j]) == word[j] && sp.isWord(t[i + j])
    {
      assert word[j] in word;
    }
    assert t[i + 0] == s[a + i] && t[i + (n - 1)] == s[a + i + n - 1];
    assert i > 0 ==> t[i - 1] == s[a + i - 1];
    assert i + n < |t| ==> t[i + n] == s[a + i + n];
  }

  /** A match in a part that is cut cleanly is a match in the whole. */
  lemma {:induction false} MatchWithin(sp: Splitter, p: Pattern, s: string, a: nat, b: nat, i: nat)
    requires Sensible(sp) && a <= b <= |s| && Clean(sp, s, a) && Clean(sp, s, b)
    requires MatchAt(sp, p, s[a..b], i) > 0
    ensures MatchAt(sp, p, s, a + i) > 0
  {
    if p == Then {
      WordWithin(sp, s, a, b, i, "then");
    } else if WordAt(sp, s[a..b], i, "and") {
      WordWithin(sp, s, a, b, i, "and");
    }
  }

  lemma {:induction false} QuietWithin(sp: Splitter, p: Pattern, s: string, a: nat, b: nat)
    requires Sensible(sp) && a <= b <= |s| && Clean(sp, s, a) && Clean(sp, s, b)
    requires forall i: nat :: a <= i < b ==> MatchAt(sp, p, s, i) == 0
    ensures Quiet(sp, p, s[a..b])
  {
    forall i: nat | i < b - a
      ensures MatchAt(sp, p, s[a..b], i) == 0
    {
      if MatchAt(sp, p, s[a..b], i) > 0 {
        MatchWithin(sp, p, s, a, b, i);
      }
    }
  }

  lemma {:induction false} MatchIsClean(sp: Splitter, p: Pattern, s: string, i: nat)
    requires Sensible(sp) && MatchAt(sp, p, s, i) > 0
    ensures Clean(sp, s, i) && Clean(sp, s, i + MatchAt(sp, p, s, i))
  {
  }

  lemma {:induction false} SpanApart(at: nat -> nat, n: nat, spans: seq<Span>, j: nat, k: nat)
    requires AreMatches(at, n, 0, spans) && j < |spans| && k <= |spans|
    ensures if j < k then spans[j].to <= Begins(0, spans, k) else Ends(n, spans, k) <= spans[j].from
  {
  }

  /** No match begins in a piece. */
  lemma {:induction false} BetweenMatches(at: nat -> nat, n: nat, spans: seq<Span>, k: nat, i: nat)
    requires AreMatches(at, n, 0, spans) && k <= |spans| && Begins(0, spans, k) <= i < Ends(n, spans, k)
    ensures at(i) == 0
  {
    if at(i) > 0 {
      assert Covered(spans, i);
      var j :| 0 <= j < |spans| && spans[j].from <= i < spans[j].to;
      SpanApart(at, n, spans, j, k);
    }
  }

  /** Cuts are clean. */
  lemma {:induction false} CleanEdges(sp: Splitter, p: Pattern, s: string, spans: seq<Span>, k: nat)
    requires Sensible(sp) && AreMatches(Matches(sp, p, s), |s|, 0, spans) && k <= |spans|
    ensures Clean(sp, s, Begins(0, spans, k)) && Clean(sp, s, Ends(|s|, spans, k))
  {
    if k > 0 {
      assert Matches(sp, p, s)(spans[k - 1].from) > 0;
      MatchIsClean(sp, p, s, spans[k - 1].from);
    }
    if k < |spans| {
      assert Matches(sp, p, s)(spans[k].from) > 0;
      MatchIsClean(sp, p, s, spans[k].from);
    }
  }

  /** A piece has no match of the pattern it was cut by, and of another pattern only if the text had. */
  lemma {:induction false} PieceIsQuiet(sp: Splitter, p: Pattern, other: Pattern, s: string, q: string)
    requires Sensible(sp) && q in Cut(sp, p, s)
    ensures Quiet(sp, p, q) && (Quiet(sp, other, s) ==> Quiet(sp, other, q))
  {
    var spans := CutMeaning(sp, p, s);
    var k :| 0 <= k <= |spans| && Cut(sp, p, s)[k] == q;
    CleanEdges(sp, p, s, spans, k);
    var a, b := Begins(0, spans, k), Ends(|s|, spans, k);
    forall i: nat | a <= i < b
      ensures MatchAt(sp, p, s, i) == 0
    {
      BetweenMatches(Matches(sp, p, s), |s|, spans, k, i);
    }
    QuietWithin(sp, p, s, a, b);
    if Quiet(sp, other, s) {
      QuietWithin(sp, other, s, a, b);
    }
  }

  lemma {:induction false} StripIsQuiet(sp: Splitter, p: Pattern, s: string)
    requires Sensible(sp) && Quiet(sp, p, s)
    ensures Quiet(sp, p, Strip(s))
  {
    var a, b := StripIsSlice(s);
    QuietWithin(sp, p, s, a, b);
  }

  lemma {:induction false} QuietPieces(at: nat -> nat, s: string, start: nat, i: nat)
    requires start <= i <= |s| && Fits(at, |s|) && forall j: nat :: j < |s| ==> at(j) == 0
    ensures Pieces(at, s, start, i) == [s[start..]]
    decreases |s| - i
  {
    if i < |s| {
      QuietPieces(at, s, start, i + 1);
    }
  }

  /** A text without a match is its own only piece. */
  lemma {:induction false} QuietIsWhole(sp: Splitter, p: Pattern, s: string)
    requires Quiet(sp, p, s)
    ensures Cut(sp, p, s) == [s]
  {
    QuietPieces(Matches(sp, p, s), s, 0, 0);
    assert s[0..] == s;
  }
}
