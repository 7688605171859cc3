/** The seed-phrase test, the string pipeline and the recursion over JSON values. */
module SeedPhrases {
  import opened RedactionPatterns

  predicate LowerCase(w: string) {
    w != "" && forall i | 0 <= i < |w| :: 'a' <= w[i] <= 'z'
  }

  function TrimEnd(s: string): (r: string)
    ensures r <= s && (forall i | |r| <= i < |s| :: InClass(Space, s[i]))
    ensures r != "" ==> !InClass(Space, r[|r| - 1])
  {
    if s == "" || !InClass(Space, s[|s| - 1]) then s else TrimEnd(s[..|s| - 1])
  }

  function Trim(s: string): string {
    TrimEnd(s[Run(Space, s)..])
  }

  /** The pieces between maximal runs of blanks. */
  function SplitBlanks(s: string): (words: seq<string>)
    ensures words != []
    decreases |s|
  {
    var n := UntilBlank(s);
    if n == |s| then [s] else [s[..n]] + SplitBlanks(AfterBlanks(s))
  }

  /** What follows the first run of blanks. */
  function AfterBlanks(s: string): (rest: string)
    requires UntilBlank(s) < |s|
    ensures |rest| < |s|
  {
    s[UntilBlank(s)..][Run(Space, s[UntilBlank(s)..])..]
  }

  function UntilBlank(s: string): (n: nat)
    ensures n <= |s| && (forall i | 0 <= i < n :: !InClass(Space, s[i])) && (n < |s| ==> InClass(Space, s[n]))
  {
    if s == "" || InClass(Space, s[0]) then 0 else 1 + UntilBlank(s[1..])
  }

  predicate IsSeedPhrase(value: string) {
    var words := SplitBlanks(Trim(value));
    (|words| == 12 || |words| == 24) && forall i | 0 <= i < |words| :: LowerCase(words[i])
  }

  ghost predicate Blanks(s: string) {
    s != "" && AllIn(Space, s)
  }

  /** Words with blanks between them. */
  function Phrase(words: seq<string>, gaps: seq<string>): string
    requires |words| == |gaps| + 1
  {
    if gaps == [] then words[0] else words[0] + gaps[0] + Phrase(words[1..], gaps[1..])
  }

  lemma LowerIsNotBlank(w: string)
    requires LowerCase(w)
    ensures forall i | 0 <= i < |w| :: !InClass(Space, w[i])
  {
  }

  lemma {:induction false} PhraseSplits(words: seq<string>, gaps: seq<string>)
    requires |words| == |gaps| + 1 && (forall i | 0 <= i < |words| :: LowerCase(words[i]))
    requires forall i | 0 <= i < |gaps| :: Blanks(gaps[i])
    ensures SplitBlanks(Phrase(words, gaps)) == words
    ensures var p := Phrase(words, gaps); p != "" && 'a' <= p[0] <= 'z' && 'a' <= p[|p| - 1] <= 'z'
  {
    hide SplitBlanks, UntilBlank, InClass, Run;
    var w := words[0];
    assert LowerCase(w);
    if gaps == [] {
      OneWord(w);
      assert words == [w];
    } else {
      var g, tail := gaps[0], Phrase(words[1..], gaps[1..]);
      assert Blanks(g);
      PhraseSplits(words[1..], gaps[1..]);
      FirstWord(w, g, tail);
      assert words == [w] + words[1..];
      Ends(w, g, tail);
    }
  }

  lemma OneWord(w: string)
    requires LowerCase(w)
    ensures SplitBlanks(w) == [w]
  {
    LowerIsNotBlank(w);
    assert UntilBlank(w) == |w|;
  }

  lemma Ends(w: string, g: string, tail: string)
    requires w != "" && tail != ""
    ensures var p := w + g + tail; p != "" && p[0] == w[0] && p[|p| - 1] == tail[|tail| - 1]
  {
  }

  lemma FirstWord(w: string, g: string, tail: string)
    requires LowerCase(w) && Blanks(g) && tail != "" && 'a' <= tail[0] <= 'z'
    ensures SplitBlanks(w + g + tail) == [w] + SplitBlanks(tail)
  {
    hide LowerCase, InClass;
    var p := w + g + tail;
    LowerIsNotBlank(w);
    WordThenBlank(w, g + tail);
    Concat(w, g, tail);
    BlankRun(g, tail);
    assert AfterBlanks(p) == tail by { hide Run, UntilBlank; assert (g + tail)[|g|..] == tail; }
    SplitStep(p);
  }

  lemma Concat(w: string, g: string, tail: string)
    requires g != "" && tail != ""
    ensures var p := w + g + tail;
      && p == w + (g + tail) && p[..|w|] == w && p[|w|..] == g + tail && p[|w| + |g|..] == tail && |p| > |w|
      && (g + tail)[0] == g[0]
  {
  }

  lemma WordThenBlank(w: string, rest: string)
    requires (forall i | 0 <= i < |w| :: !InClass(Space, w[i])) && rest != "" && InClass(Space, rest[0])
    ensures UntilBlank(w + rest) == |w|
  {
    var p := w + rest;
    assert p[|w|] == rest[0];
    assert forall i | 0 <= i < |w| :: p[i] == w[i];
  }

  lemma BlankRun(g: string, tail: string)
    requires Blanks(g) && tail != "" && 'a' <= tail[0] <= 'z'
    ensures Run(Space, g + tail) == |g| && InClass(Space, g[0])
  {
    var q := g + tail;
    assert q[|g|] == tail[0];
    assert forall i | 0 <= i < |g| :: q[i] == g[i];
    RunIs(Space, q, |g|);
  }

  lemma SplitStep(s: string)
    requires UntilBlank(s) < |s|
    ensures SplitBlanks(s) == [s[..UntilBlank(s)]] + SplitBlanks(AfterBlanks(s))
  {
    hide Run, UntilBlank, AfterBlanks, InClass;
  }

  /** Twelve or twenty-four lower-case words are a seed phrase, however the blanks are laid out. */
  lemma PhraseIsRecognised(lead: string, words: seq<string>, gaps: seq<string>, trail: string)
    requires (|words| == 12 || |words| == 24) && |gaps| == |words| - 1
    requires forall i | 0 <= i < |words| :: LowerCase(words[i])
    requires forall i | 0 <= i < |gaps| :: Blanks(gaps[i])
    requires AllIn(Space, lead) && AllIn(Space, trail)
    ensures IsSeedPhrase(lead + Phrase(words, gaps) + trail)
  {
    PhraseSplits(words, gaps);
    TrimsToMiddle(lead, Phrase(words, gaps), trail);
  }

  lemma TrimsToMiddle(lead: string, p: string, trail: string)
    requires p != "" && 'a' <= p[0] <= 'z' && 'a' <= p[|p| - 1] <= 'z'
    requires AllIn(Space, lead) && AllIn(Space, trail)
    ensures Trim(lead + p + trail) == p
  {
    var s := lead + p + trail;
    assert s[|lead|] == p[0];
    RunIs(Space, s, |lead|);
    var q := s[|lead|..];
    assert q == p + trail;
    var r := TrimEnd(q);
    assert |r| >= |p| by { assert q[|p| - 1] == p[|p| - 1]; }
    forall k | |p| <= k < |q| ensures InClass(Space, q[k]) { assert q[k] == trail[k - |p|]; }
    assert r == q[..|p|];
  }

  predicate Plain(ch: char) {
    InClass(Space, ch) || 'a' <= ch <= 'z'
  }

  lemma {:induction false} WordsArePlain(s: string)
    requires forall i | 0 <= i < |SplitBlanks(s)| :: LowerCase(SplitBlanks(s)[i])
    ensures forall k | 0 <= k < |s| :: Plain(s[k])
    decreases |s|
  {
    hide InClass, Plain, LowerCase, Run, UntilBlank, AfterBlanks;
    var n := UntilBlank(s);
    var words := SplitBlanks(s);
    assert LowerCase(words[0]);
    if n < |s| {
      SplitStep(s);
      assert words[1..] == SplitBlanks(AfterBlanks(s));
      assert forall i | 0 <= i < |words| - 1 :: words[1..][i] == words[i + 1];
      WordsArePlain(AfterBlanks(s));
      forall k | 0 <= k < |s| ensures Plain(s[k]) {
        if k < n { LowerIsPlain(words[0], k); assert s[k] == words[0][k]; }
        else { TailIsPlain(s, k); }
      }
    } else {
      assert words == [s];
      forall k | 0 <= k < |s| ensures Plain(s[k]) { LowerIsPlain(s, k); }
    }
  }

  lemma TailIsPlain(s: string, k: nat)
    requires UntilBlank(s) <= k < |s| && forall i | 0 <= i < |AfterBlanks(s)| :: Plain(AfterBlanks(s)[i])
    ensures Plain(s[k])
  {
    hide UntilBlank, Plain;
    var t, m := s[UntilBlank(s)..], Run(Space, s[UntilBlank(s)..]);
    assert s[k] == t[k - UntilBlank(s)];
    if k - UntilBlank(s) < m { BlankIsPlain(s[k]); }
    else { assert s[k] == AfterBlanks(s)[k - UntilBlank(s) - m]; }
  }

  lemma LowerIsPlain(w: string, k: nat)
    requires LowerCase(w) && k < |w|
    ensures Plain(w[k])
  {
  }

  lemma BlankIsPlain(ch: char)
    requires InClass(Space, ch)
    ensures Plain(ch)
  {
  }

  /** A seed phrase holds nothing but lower-case letters and blanks. */
  lemma SeedPhraseIsPlain(value: string)
    requires IsSeedPhrase(value)
    ensures forall k | 0 <= k < |value| :: Plain(value[k])
  {
    hide SplitBlanks, LowerCase, Plain, InClass;
    var n := Run(Space, value);
    var u, t := value[n..], Trim(value);
    WordsArePlain(t);
    forall k | 0 <= k < |value| ensures Plain(value[k]) {
      if k < n || k - n >= |t| {
        assert k >= n ==> value[k] == u[k - n];
        BlankIsPlain(value[k]);
      } else {
        assert value[k] == u[k - n] == t[k - n];
      }
    }
  }

  lemma FirstGap(t: string)
    requires UntilBlank(t) < |t|
    ensures
      var n := UntilBlank(t);
      var gap := t[n..][..Run(Space, t[n..])];
      Blanks(gap) && t == t[..n] + gap + AfterBlanks(t)
  {
    hide Run, UntilBlank, InClass;
    var n := UntilBlank(t);
    var u := t[n..];
    assert u[0] == t[n];
    RunIsPositive(u);
    ThreeParts(t, n, Run(Space, u));
  }

  lemma RunIsPositive(u: string)
    requires u != "" && InClass(Space, u[0])
    ensures Run(Space, u) > 0
  {
  }

  lemma ThreeParts(t: string, n: nat, m: nat)
    requires n + m <= |t|
    ensures t == t[..n] + t[n..][..m] + t[n..][m..]
  {
  }

  lemma {:induction false} SplitIsLayout(t: string) returns (gaps: seq<string>)
    requires forall i | 0 <= i < |SplitBlanks(t)| :: LowerCase(SplitBlanks(t)[i])
    ensures |SplitBlanks(t)| == |gaps| + 1 && Phrase(SplitBlanks(t), gaps) == t
    ensures forall i | 0 <= i < |gaps| :: Blanks(gaps[i])
    decreases |t|
  {
    hide InClass, LowerCase, Run, UntilBlank, AfterBlanks, Blanks;
    var n, words := UntilBlank(t), SplitBlanks(t);
    if n == |t| {
      gaps := [];
      assert words == [t];
    } else {
      SplitStep(t);
      FirstGap(t);
      var rest := SplitBlanks(AfterBlanks(t));
      assert words[1..] == rest;
      assert forall i | 0 <= i < |rest| :: rest[i] == words[i + 1];
      var more := SplitIsLayout(AfterBlanks(t));
      var gap := t[n..][..Run(Space, t[n..])];
      gaps := [gap] + more;
      assert gaps[1..] == more;
    }
  }

  lemma TrimmedIs(u: string)
    ensures var t := TrimEnd(u); |t| <= |u| && u == t + u[|t|..] && AllIn(Space, u[|t|..])
  {
    hide TrimEnd;
    var t := TrimEnd(u);
    assert forall i | 0 <= i < |u| - |t| :: u[|t|..][i] == u[|t| + i];
  }

  /** Whatever passes the test is twelve or twenty-four lower-case words with blanks between and around them. */
  lemma SeedPhraseIsLayout(value: string) returns (lead: string, words: seq<string>, gaps: seq<string>, trail: string)
    requires IsSeedPhrase(value)
    ensures (|words| == 12 || |words| == 24) && |gaps| == |words| - 1 && value == lead + Phrase(words, gaps) + trail
    ensures forall i | 0 <= i < |words| :: LowerCase(words[i])
    ensures forall i | 0 <= i < |gaps| :: Blanks(gaps[i])
    ensures AllIn(Space, lead) && AllIn(Space, trail)
  {
    hide SplitBlanks, LowerCase, Blanks, InClass, Run, TrimEnd, Phrase;
    var n := Run(Space, value);
    var u, t := value[n..], Trim(value);
    words := SplitBlanks(t);
    gaps := SplitIsLayout(t);
    lead, trail := value[..n], u[|t|..];
    assert value == lead + u;
    TrimmedIs(u);
  }
}

module RedactionEngine {
  import opened Rewriting
  import opened RedactionPatterns
  import opened RedactionStages
  import opened SeedPhrases

  const REDACTED := "[REDACTED]"

  function WithoutKeysAndTokens(value: string): string {
    Rewrite(Jwt, Rewrite(SecretKey, value))
  }

  function RedactText(value: string): string {
    if IsSeedPhrase(value) then REDACTED else Rewrite(Bearer, WithoutKeysAndTokens(value))
  }

  /** The one way a secret key can be left in the output: the third rewrite completes it. */
  ghost predicate Leaks(value: string) {
    !IsSeedPhrase(value) && CompletesKey(WithoutKeysAndTokens(value))
  }

  /** No tokens survive in any string, and no secret key survives unless the Bearer mark completes one. */
  lemma RedactedTextIsClean(value: string)
    ensures !Occurs(Jwt, RedactText(value)) && !Occurs(Bearer, RedactText(value))
    ensures Occurs(SecretKey, RedactText(value)) <==> Leaks(value)
  {
    OutputIsClean(value);
    var out := RedactText(value);
    CleanIffAbsent(Jwt, out);
    CleanIffAbsent(Bearer, out);
    CleanIffAbsent(SecretKey, out);
  }

  lemma OutputIsClean(value: string)
    ensures var out := RedactText(value);
      Clean(Finder(Jwt), out) && Clean(Finder(Bearer), out) && (Clean(Finder(SecretKey), out) <==> !Leaks(value))
  {
    hide MatchLen, CompletesKey;
    if IsSeedPhrase(value) {
      RedactedMarkIsClean(Jwt);
      RedactedMarkIsClean(Bearer);
      RedactedMarkIsClean(SecretKey);
    } else {
      var one := Rewrite(SecretKey, value);
      var two := Rewrite(Jwt, one);
      RewriteLeavesNone(SecretKey, SecretKey, value);
      RewriteLeavesNone(Jwt, SecretKey, one);
      RewriteLeavesNone(Jwt, Jwt, one);
      RewriteLeavesNone(Bearer, Jwt, two);
      RewriteLeavesNone(Bearer, Bearer, two);
      BearerLeavesKeyIff(two);
    }
  }

  lemma RedactedMarkIsClean(q: Pattern)
    ensures Clean(Finder(q), REDACTED)
  {
    hide MatchLen;
    assert REDACTED == Mark(SecretKey);
    assert Clean(Finder(q), "") by { assert forall i | 0 <= i <= 0 :: ""[i..] == ""; }
    forall i | 0 <= i < |REDACTED| ensures MatchLen(q, REDACTED[i..] + "") == 0 {
      MarkStartsNothing(SecretKey, q, i, "");
    }
    CleanAppend(Finder(q), REDACTED, "");
    assert REDACTED + "" == REDACTED;
  }

  /** A rewrite that changes anything leaves a bracket behind. */
  lemma ChangeShowsBracket(p: Pattern, s: string)
    ensures Rewrite(p, s) == s || '[' in Rewrite(p, s)
  {
    hide MatchLen, First, Rewrite, BearerMarkAt;
    var f := First(Finder(p), s);
    if f == |s| {
      UntouchedWithoutMatch(p, s);
    } else {
      HeadIsKept(p, s, f);
      if p == Bearer { MarkHasBracket(s, Rewrite(p, s), f); }
    }
  }

  lemma MarkHasBracket(s: string, x: string, f: nat)
    requires BearerMarkAt(s, x, f)
    ensures '[' in x
  {
  }

  lemma SeedPhraseHasNoBracket(value: string)
    requires IsSeedPhrase(value)
    ensures '[' !in value
  {
    hide IsSeedPhrase;
    SeedPhraseIsPlain(value);
    assert !Plain('[');
  }

  lemma OutputIsNoSeedPhrase(value: string)
    ensures !IsSeedPhrase(RedactText(value))
  {
    hide MatchLen, IsSeedPhrase, Rewrite;
    var out := RedactText(value);
    assert REDACTED[0] == '[';
    if IsSeedPhrase(out) {
      SeedPhraseHasNoBracket(out);
      if !IsSeedPhrase(value) {
        ChangeShowsBracket(SecretKey, value);
        ChangeShowsBracket(Jwt, Rewrite(SecretKey, value));
        ChangeShowsBracket(Bearer, WithoutKeysAndTokens(value));
      }
    }
  }

  /** Text without secrets comes out as it went in. */
  lemma InnocentTextIsKept(value: string)
    requires !IsSeedPhrase(value)
    requires !Occurs(SecretKey, value) && !Occurs(Jwt, value) && !Occurs(Bearer, value)
    ensures RedactText(value) == value
  {
    CleanIffAbsent(SecretKey, value);
    CleanIffAbsent(Jwt, value);
    CleanIffAbsent(Bearer, value);
    CleanIsKept(value);
  }

  lemma CleanIsKept(value: string)
    requires !IsSeedPhrase(value)
    requires Clean(Finder(SecretKey), value) && Clean(Finder(Jwt), value) && Clean(Finder(Bearer), value)
    ensures RedactText(value) == value
  {
    hide MatchLen, IsSeedPhrase;
    CleanIsUntouched(Finder(SecretKey), Mark(SecretKey), value);
    CleanIsUntouched(Finder(Jwt), Mark(Jwt), value);
    CleanIsUntouched(Finder(Bearer), Mark(Bearer), value);
  }

  /** Redacting again changes nothing exactly when nothing leaked; a second pass always settles. */
  lemma RedactingTextAgain(value: string)
    ensures RedactText(RedactText(value)) == RedactText(value) <==> !Leaks(value)
    ensures !Leaks(RedactText(value))
  {
    hide MatchLen, IsSeedPhrase, CompletesKey;
    var out := RedactText(value);
    OutputIsClean(value);
    OutputIsNoSeedPhrase(value);
    if !Leaks(value) {
      CleanIsKept(out);
      OutputIsClean(out);
    } else {
      var again := Rewrite(SecretKey, out);
      RewriteLeavesNone(SecretKey, SecretKey, out);
      RewriteLeavesNone(SecretKey, Jwt, out);
      RewriteLeavesNone(SecretKey, Bearer, out);
      CleanIsUntouched(Finder(Jwt), Mark(Jwt), again);
      CleanIsUntouched(Finder(Bearer), Mark(Bearer), again);
      assert RedactText(out) == again;
      OutputIsClean(out);
    }
  }

  /** A text comes out as it went in exactly when there is nothing in it to hide. */
  lemma TextIsKeptIff(value: string)
    ensures RedactText(value) == value <==>
      !IsSeedPhrase(value) && !Occurs(SecretKey, value) && !Occurs(Jwt, value) && !Occurs(Bearer, value)
  {
    hide IsSeedPhrase, Occurs, RedactText, Leaks;
    RedactedTextIsClean(value);
    RedactingTextAgain(value);
    if RedactText(value) == value { OutputIsNoSeedPhrase(value); }
    if !IsSeedPhrase(value) && !Occurs(SecretKey, value) && !Occurs(Jwt, value) && !Occurs(Bearer, value) { InnocentTextIsKept(value); }
  }

  /** Every seed phrase is blotted out whole. */
  lemma SeedPhraseIsHidden(lead: string, words: seq<string>, gaps: seq<string>, trail: string)
    requires (|words| == 12 || |words| == 24) && |gaps| == |words| - 1
    requires forall i | 0 <= i < |words| :: LowerCase(words[i])
    requires forall i | 0 <= i < |gaps| :: Blanks(gaps[i])
    requires AllIn(Space, lead) && AllIn(Space, trail)
    ensures RedactText(lead + Phrase(words, gaps) + trail) == "[REDACTED]"
  {
    PhraseIsRecognised(lead, words, gaps, trail);
  }

  /** An `S`, 54 capitals or digits, and a Bearer match that starts with a lower-case `b`. */
  predicate UnfinishedKeyAt(value: string, k: nat) {
    && 55 <= k < |value| && value[k - 55] == 'S' && AllIn(Caps, value[k - 54..k]) && value[k] == 'b'
    && MatchLen(Bearer, value[k..]) > 0
  }

  ghost predicate HoldsUnfinishedKey(value: string) {
    exists k: nat :: UnfinishedKeyAt(value, k)
  }

  lemma PartOfPiece(s: string, i: nat, t: string, j: nat, n: nat, a: nat, b: nat)
    requires SamePiece(s, i, t, j, n) && a <= b <= n
    ensures s[i + a..i + b] == t[j + a..j + b]
  {
    SliceOfSlice(s, i, n, a, b);
    SliceOfSlice(t, j, n, a, b);
  }

  lemma SliceOfSlice(s: string, i: nat, n: nat, a: nat, b: nat)
    requires i + n <= |s| && a <= b <= n
    ensures s[i..i + n][a..b] == s[i + a..i + b]
  {
    var u, v := s[i..i + n][a..b], s[i + a..i + b];
    assert |u| == |v|;
    assert forall x | 0 <= x < |u| :: u[x] == v[x];
  }

  lemma PieceHasNoBracket(s: string, i: nat, t: string, j: nat, n: nat)
    requires SamePiece(s, i, t, j, n) && NoBracket(s, i, n)
    ensures NoBracket(t, j, n)
  {
    forall x | j <= x < j + n ensures t[x] != '[' && t[x] != ']' { assert t[x] == t[j..j + n][x - j] == s[i..i + n][x - j] == s[i + (x - j)]; }
  }

  /** An unfinished key is one wherever its text stands. */
  lemma UnfinishedKeyMoves(t: string, k: nat, value: string, j: nat)
    requires UnfinishedKeyAt(t, k) && SamePiece(t, k - 55, value, j, 55 + MatchLen(Bearer, t[k..]))
    ensures UnfinishedKeyAt(value, j + 55)
  {
    hide MatchLen, InClass;
    var m := MatchLen(Bearer, t[k..]);
    PartOfPiece(t, k - 55, value, j, 55 + m, 0, 1);
    assert t[k - 55..k - 54][0] == value[j..j + 1][0];
    PartOfPiece(t, k - 55, value, j, 55 + m, 1, 55);
    PartOfPiece(t, k - 55, value, j, 55 + m, 55, 56);
    assert t[k..k + 1][0] == value[j + 55..j + 56][0];
    PartOfPiece(t, k - 55, value, j, 55 + m, 55, 55 + m);
    assert t[k..][..m] == t[k..k + m] && value[j + 55..][..m] == value[j + 55..j + 55 + m];
    SamePrefixSameMatch(Bearer, t[k..], value[j + 55..]);
  }

  /** The first two scans pass over the unfinished key at `k`, and the third, when it comes there, starts a match at its end. */
  ghost predicate LeaksAt(value: string, k: nat) {
    && UnfinishedKeyAt(value, k) && Passes(SecretKey, value, k - 55, 56)
    && var one := Rewrite(SecretKey, value);
       var i := PlaceOf(SecretKey, value, k - 55);
       Passes(Jwt, one, i, 56) && RewritesAt(Bearer, Rewrite(Jwt, one), PlaceOf(Jwt, one, i) + 55)
  }

  /** A text leaks if and only if it holds an unfinished key that the first two scans pass over and the third completes. */
  lemma LeaksIff(value: string)
    ensures Leaks(value) <==> !IsSeedPhrase(value) && exists k: nat :: LeaksAt(value, k)
  {
    hide IsSeedPhrase, LeaksAt, CompletesKeyAt, Rewrite;
    var t := WithoutKeysAndTokens(value);
    if k: nat :| CompletesKeyAt(t, k) { var j := CompletedLeaks(value, k); }
    if k: nat :| LeaksAt(value, k) { LeakingCompletes(value, k); }
  }

  lemma CompletedLeaks(value: string, k: nat) returns (j: nat)
    requires CompletesKeyAt(WithoutKeysAndTokens(value), k)
    ensures LeaksAt(value, j)
  {
    hide MatchLen, RewritesAt, InClass, Rewrite, UnfinishedKeyAt, AllIn, Passes, PlaceOf, SamePiece, NoBracket;
    var one := Rewrite(SecretKey, value);
    var t := Rewrite(Jwt, one);
    RewrittenIsMatch(Bearer, t, k);
    var n := 55 + MatchLen(Bearer, t[k..]);
    NoBracketInKey(t, k, n - 55);
    var i := PieceIsPassed(Jwt, one, k - 55, n);
    PassedIsKept(Jwt, one, i, n);
    PieceTurned(one, i, t, k - 55, n);
    PieceHasNoBracket(t, k - 55, one, i, n);
    j := PieceIsPassed(SecretKey, value, i, n);
    PassedIsKept(SecretKey, value, j, n);
    PieceTurned(value, j, one, i, n);
    PieceOfPiece(t, k - 55, one, i, value, j, n);
    assert UnfinishedKeyAt(t, k) by { CompletedIsUnfinished(t, k); }
    UnfinishedKeyMoves(t, k, value, j);
    PassesLess(Jwt, one, i, n, 56);
    PassesLess(SecretKey, value, j, n, 56);
    j := j + 55;
  }

  lemma PieceTurned(s: string, i: nat, t: string, j: nat, n: nat)
    requires SamePiece(s, i, t, j, n)
    ensures SamePiece(t, j, s, i, n)
  {
  }

  lemma PieceOfPiece(s: string, i: nat, t: string, j: nat, u: string, k: nat, n: nat)
    requires SamePiece(s, i, t, j, n) && SamePiece(t, j, u, k, n)
    ensures SamePiece(s, i, u, k, n)
  {
  }

  lemma LeakingCompletes(value: string, k: nat)
    requires LeaksAt(value, k)
    ensures CompletesKey(WithoutKeysAndTokens(value))
  {
    hide MatchLen, RewritesAt, InClass, Rewrite, AllIn, Passes, PlaceOf, SamePiece;
    var one := Rewrite(SecretKey, value);
    var t := Rewrite(Jwt, one);
    var i := PlaceOf(SecretKey, value, k - 55);
    var o := PlaceOf(Jwt, one, i);
    PassedIsKept(SecretKey, value, k - 55, 56);
    PassedIsKept(Jwt, one, i, 56);
    PieceOfPiece(value, k - 55, one, i, t, o, 56);
    KeyTextMoves(value, k, t, o);
    assert CompletesKeyAt(t, o + 55);
  }

  lemma KeyTextMoves(value: string, k: nat, t: string, o: nat)
    requires UnfinishedKeyAt(value, k) && SamePiece(value, k - 55, t, o, 56)
    ensures o + 55 < |t| && t[o] == 'S' && AllIn(Caps, t[o + 1..o + 55]) && t[o + 55] == 'b'
  {
    hide MatchLen, InClass;
    PartOfPiece(value, k - 55, t, o, 56, 0, 1);
    assert value[k - 55..k - 54][0] == t[o..o + 1][0];
    PartOfPiece(value, k - 55, t, o, 56, 1, 55);
    PartOfPiece(value, k - 55, t, o, 56, 55, 56);
    assert value[k..k + 1][0] == t[o + 55..o + 56][0];
  }

  /** So a text leaks only if it holds an unfinished key itself. */
  lemma LeakNeedsUnfinishedKey(value: string)
    requires Leaks(value)
    ensures HoldsUnfinishedKey(value)
  {
    hide IsSeedPhrase, UnfinishedKeyAt;
    LeaksIff(value);
    var k: nat :| LeaksAt(value, k);
  }

  lemma CompletedIsUnfinished(t: string, k: nat)
    requires CompletesKeyAt(t, k)
    ensures UnfinishedKeyAt(t, k)
  {
    hide MatchLen, InClass, RewritesAt;
    RewrittenIsMatch(Bearer, t, k);
  }

  lemma NoBracketInKey(t: string, k: nat, m: nat)
    requires 55 <= k <= |t| && t[k - 55] == 'S' && AllIn(Caps, t[k - 54..k]) && m == MatchLen(Bearer, t[k..])
    ensures k + m <= |t| && NoBracket(t, k - 55, 55 + m)
  {
    hide MatchLen;
    forall x | k - 55 <= x < k + m ensures t[x] != '[' && t[x] != ']' {
      if x >= k {
        MatchAlphabet(Bearer, t[k..], x - k);
        assert t[x] == t[k..][x - k];
      } else if x > k - 55 {
        assert t[x] == t[k - 54..k][x - (k - 54)];
      }
    }
  }

  /** The engine can leak: 'S', 54 capitals or digits and a lower-case bearer token become a full secret key. */
  lemma UnfinishedKeyLeaks(run: string)
    requires |run| == 54 && AllIn(Caps, run)
    ensures Leaks("S" + run + "bearer x")
  {
    var v := "S" + run + "bearer x";
    KeyText(run, "bearer x");
    UnfinishedKeyCompletes(v);
  }

  /** The text of an unfinished key and a token. */
  predicate IsUnfinishedKey(v: string) {
    |v| == 63 && v[0] == 'S' && (forall i | 1 <= i < 55 :: InClass(Caps, v[i])) && v[55..] == "bearer x"
  }

  lemma KeyText(run: string, token: string)
    requires |run| == 54 && AllIn(Caps, run) && token == "bearer x"
    ensures IsUnfinishedKey("S" + run + token)
  {
    hide InClass;
    var v := "S" + run + token;
    forall i | 1 <= i < 55 ensures InClass(Caps, v[i]) { assert v[i] == run[i - 1]; }
    assert v == ("S" + run) + token;
  }

  lemma UnfinishedKeyCompletes(v: string)
    requires IsUnfinishedKey(v)
    ensures Leaks(v)
  {
    hide MatchLen, IsSeedPhrase, RewritesAt, InClass;
    assert !Plain(v[0]) by { SIsNotPlain(); }
    if IsSeedPhrase(v) { SeedPhraseIsPlain(v); }
    UnfinishedKeyIsNoJwt(v);
    UnfinishedKeyIsNoKey(v);
    CleanIsUntouched(Finder(SecretKey), Mark(SecretKey), v);
    CleanIsUntouched(Finder(Jwt), Mark(Jwt), v);
    BearerStartsAt55(v);
    assert v[55] == v[55..][0];
    assert CompletesKeyAt(v, 55);
  }

  lemma SIsNotPlain()
    ensures !Plain('S')
  {
  }

  lemma UnfinishedKeyIsNoKey(v: string)
    requires IsUnfinishedKey(v)
    ensures Clean(Finder(SecretKey), v)
  {
    hide MatchLen;
    assert v[55] == v[55..][0] == 'b';
    forall i | 0 <= i <= |v| ensures !MatchAt(Finder(SecretKey), v, i) {
      if MatchLen(SecretKey, v[i..]) > 0 {
        KeyLength(v[i..]);
        MatchAlphabet(SecretKey, v[i..], if i < 55 then 55 - i else 1);
        assert v[i..][if i < 55 then 55 - i else 1] == v[if i < 55 then 55 else i + 1];
      }
    }
  }

  lemma KeyLength(s: string)
    requires MatchLen(SecretKey, s) > 0
    ensures MatchLen(SecretKey, s) == 56 <= |s|
  {
  }

  lemma UnfinishedKeyIsNoJwt(v: string)
    requires IsUnfinishedKey(v)
    ensures Clean(Finder(Jwt), v)
  {
    forall i | 0 <= i < |v| ensures v[i] != 'y' {
      if i >= 55 { assert v[i] == v[55..][i - 55]; }
    }
    NoJwtWithoutY(v);
  }

  lemma NoJwtWithoutY(v: string)
    requires forall i | 0 <= i < |v| :: v[i] != 'y'
    ensures Clean(Finder(Jwt), v)
  {
    hide MatchLen;
    forall i | 0 <= i <= |v| ensures !MatchAt(Finder(Jwt), v, i) {
      if |v| - i >= 2 { JwtNeedsY(v[i..]); } else { ShortIsNoJwt(v[i..]); }
    }
  }

  lemma JwtNeedsY(s: string)
    requires |s| >= 2 && s[1] != 'y'
    ensures MatchLen(Jwt, s) == 0
  {
    if |s| >= 3 { assert s[..3][1] == s[1]; }
  }

  lemma ShortIsNoJwt(s: string)
    requires |s| < 3
    ensures MatchLen(Jwt, s) == 0
  {
  }

  lemma ShortBearerMatches(w: string)
    requires w == "bearer x"
    ensures MatchLen(Bearer, w) > 0
  {
    assert w[..8] == w && w[..6] == "bearer" && w[6..7] == " " && w[7..] == "x";
    LanguageIsMatched(Bearer, w, 8);
  }

  lemma BearerStartsAt55(v: string)
    requires IsUnfinishedKey(v)
    ensures RewritesAt(Bearer, v, 55)
  {
    hide MatchLen, RewritesAt, InClass;
    ShortBearerMatches(v[55..]);
    assert MatchAt(Finder(Bearer), v, 55);
    forall i | 0 <= i < 55 ensures !MatchAt(Finder(Bearer), v, i) {
      if MatchLen(Bearer, v[i..]) > 0 {
        BearerHead(v[i..]);
        assert v[i..][6] == v[i + 6];
        NoBlankBefore61(v, i + 6);
      }
    }
    FirstIsRewritten(Bearer, v, 55);
  }

  lemma NoBlankBefore61(v: string, i: nat)
    requires IsUnfinishedKey(v) && 1 <= i < 61
    ensures !InClass(Space, v[i])
  {
    if i >= 55 { assert v[i] == v[55..][i - 55]; }
  }
}

/** Redaction of whole JSON values. */
module JsonRedaction {
  import opened SeedPhrases
  import opened RedactionPatterns
  import opened RedactionStages
  import opened RedactionEngine
  import opened RedactionMeaning

  /** `Atom` stands for numbers, booleans, null and undefined. */
  datatype Json = Atom(id: int) | Text(s: string) | List(items: seq<Json>) | Record(fields: seq<Field>)
  datatype Field = Field(key: string, value: Json)

  /** The lower-casing function and the lower-cased names of the sensitive fields. */
  datatype Policy = Policy(lower: string -> string, sensitive: set<string>)
  {
    predicate Hides(key: string) { lower(key) in sensitive }
  }

  function Redact(p: Policy, data: Json): Json {
    match data
    case Atom(_) => data
    case Text(s) => Text(RedactText(s))
    case List(items) => List(RedactItems(p, items))
    case Record(fields) => Record(RedactFields(p, fields))
  }

  function RedactItems(p: Policy, items: seq<Json>): (r: seq<Json>)
    ensures |r| == |items| && forall i | 0 <= i < |items| :: r[i] == Redact(p, items[i])
  {
    if items == [] then [] else [Redact(p, items[0])] + RedactItems(p, items[1..])
  }

  function RedactField(p: Policy, f: Field): Field {
    Field(f.key, if p.Hides(f.key) then Text(REDACTED) else Redact(p, f.value))
  }

  function RedactFields(p: Policy, fields: seq<Field>): (r: seq<Field>)
    ensures |r| == |fields|
    ensures forall i | 0 <= i < |fields| :: r[i] == RedactField(p, fields[i])
  {
    if fields == [] then [] else [RedactField(p, fields[0])] + RedactFields(p, fields[1..])
  }

  /** Same tree, same keys in the same order, except below a sensitive key. */
  predicate SameShape(p: Policy, a: Json, b: Json) {
    match a
    case Atom(_) => a == b
    case Text(_) => b.Text?
    case List(items) => b.List? && |items| == |b.items|
      && forall i | 0 <= i < |items| :: SameShape(p, items[i], b.items[i])
    case Record(fields) =>
      b.Record? && |fields| == |b.fields| && forall i | 0 <= i < |fields| ::
        (fields[i].key == b.fields[i].key
          && (p.Hides(fields[i].key) || SameShape(p, fields[i].value, b.fields[i].value)))
  }

  /** Every sensitive key holds the mark, and every other string is free of tokens; `keys` asks
      that it be free of secret keys too. */
  ghost predicate Safe(p: Policy, data: Json, keys: bool) {
    match data
    case Atom(_) => true
    case Text(s) => !Occurs(Jwt, s) && !Occurs(Bearer, s) && (keys ==> !Occurs(SecretKey, s))
    case List(items) => forall i | 0 <= i < |items| :: Safe(p, items[i], keys)
    case Record(fields) => forall i | 0 <= i < |fields| ::
      if p.Hides(fields[i].key) then fields[i].value == Text(REDACTED) else Safe(p, fields[i].value, keys)
  }

  /** Some string that is not below a sensitive key leaks. */
  ghost predicate LeaksIn(p: Policy, data: Json) {
    match data
    case Atom(_) => false
    case Text(s) => Leaks(s)
    case List(items) => exists i | 0 <= i < |items| :: LeaksIn(p, items[i])
    case Record(fields) => exists i | 0 <= i < |fields| :: !p.Hides(fields[i].key) && LeaksIn(p, fields[i].value)
  }

  lemma {:induction false} RedactKeepsShape(p: Policy, data: Json)
    ensures SameShape(p, data, Redact(p, data))
  {
    match data
    case Atom(_) =>
    case Text(_) =>
    case List(items) =>
      forall i | 0 <= i < |items| ensures SameShape(p, items[i], Redact(p, data).items[i]) {
        RedactKeepsShape(p, items[i]);
      }
    case Record(fields) =>
      forall i | 0 <= i < |fields|
        ensures p.Hides(fields[i].key) || SameShape(p, fields[i].value, Redact(p, data).fields[i].value)
      {
        RedactKeepsShape(p, fields[i].value);
      }
  }

  /** Whole values come out safe; secret keys are gone too exactly when no string leaks. */
  lemma {:induction false} RedactedIsSafe(p: Policy, data: Json)
    ensures Safe(p, Redact(p, data), false)
    ensures Safe(p, Redact(p, data), true) <==> !LeaksIn(p, data)
  {
    hide Occurs, Leaks, RedactText;
    match data
    case Atom(_) =>
    case Text(s) => RedactedTextIsClean(s);
    case List(items) =>
      forall i | 0 <= i < |items|
        ensures Safe(p, Redact(p, data).items[i], false)
        ensures Safe(p, Redact(p, data).items[i], true) <==> !LeaksIn(p, items[i])
      {
        RedactedIsSafe(p, items[i]);
      }
    case Record(fields) =>
      var r := Redact(p, data).fields;
      forall i | 0 <= i < |fields|
        ensures r[i].key == fields[i].key && (p.Hides(fields[i].key) ==> r[i].value == Text(REDACTED))
        ensures !p.Hides(fields[i].key) ==> Safe(p, r[i].value, false) && (Safe(p, r[i].value, true) <==> !LeaksIn(p, fields[i].value))
      {
        RedactedIsSafe(p, fields[i].value);
      }
  }

  /** Redacting a whole value again changes nothing exactly when no string leaked; two passes settle it. */
  lemma {:induction false} RedactingAgain(p: Policy, data: Json)
    ensures Redact(p, Redact(p, data)) == Redact(p, data) <==> !LeaksIn(p, data)
    ensures !LeaksIn(p, Redact(p, data))
  {
    hide Leaks, RedactText;
    var once := Redact(p, data);
    var twice := Redact(p, once);
    match data
    case Atom(_) =>
    case Text(s) => RedactingTextAgain(s);
    case List(items) =>
      forall i | 0 <= i < |items|
        ensures twice.items[i] == once.items[i] <==> !LeaksIn(p, items[i])
        ensures !LeaksIn(p, once.items[i])
      {
        RedactingAgain(p, items[i]);
      }
      assert twice == once <==> forall i | 0 <= i < |items| :: twice.items[i] == once.items[i];
    case Record(fields) =>
      forall i | 0 <= i < |fields|
        ensures twice.fields[i] == once.fields[i] <==> p.Hides(fields[i].key) || !LeaksIn(p, fields[i].value)
        ensures p.Hides(once.fields[i].key) || !LeaksIn(p, once.fields[i].value)
      {
        RedactingAgain(p, fields[i].value);
      }
      assert twice == once <==> forall i | 0 <= i < |fields| :: twice.fields[i] == once.fields[i];
  }

  /** The key is one of the names, but for upper and lower case. */
  predicate Named(lower: string -> string, names: seq<string>, key: string) {
    exists k | 0 <= k < |names| :: lower(names[k]) == lower(key)
  }

  /** What comes out of a value, given the names of the sensitive fields as the callers spelt them. */
  ghost predicate ComesOut(lower: string -> string, names: seq<string>, a: Json, b: Json) {
    match a
    case Atom(_) => b == a
    case Text(s) =>
      b.Text? && IsRedacted(s, b.s) && (b.s == s <==> IsInnocent(s))
    case List(items) =>
      b.List? && |b.items| == |items| && forall i | 0 <= i < |items| :: ComesOut(lower, names, items[i], b.items[i])
    case Record(fields) =>
      && b.Record? && |b.fields| == |fields|
      && forall i | 0 <= i < |fields| ::
           && b.fields[i].key == fields[i].key
           && if exists k :: 0 <= k < |names| && lower(names[k]) == lower(fields[i].key) then b.fields[i].value == Text("[REDACTED]")
              else ComesOut(lower, names, fields[i].value, b.fields[i].value)
  }

  /** The policy hides exactly the fields that were named. */
  ghost predicate HidesNamed(p: Policy, names: seq<string>) {
    forall key :: p.Hides(key) <==> Named(p.lower, names, key)
  }

  /** Exactly the named fields come out as the mark; every other value comes out as it is or, if it is a text with a secret,
      without that secret. */
  lemma {:induction false} RedactComesOut(p: Policy, names: seq<string>, data: Json)
    requires HidesNamed(p, names)
    ensures ComesOut(p.lower, names, data, Redact(p, data))
  {
    hide IsInnocent, IsRedacted, RedactText, HidesNamed;
    match data
    case Atom(_) =>
    case Text(s) =>
      RedactTextIs(s, RedactText(s));
      TextIsKeptIffInnocent(s);
    case List(items) =>
      forall i | 0 <= i < |items| ensures ComesOut(p.lower, names, items[i], Redact(p, data).items[i]) {
        RedactComesOut(p, names, items[i]);
      }
    case Record(fields) =>
      forall i | 0 <= i < |fields|
        ensures var f := RedactField(p, fields[i]);
          f.key == fields[i].key && if Named(p.lower, names, f.key) then f.value == Text("[REDACTED]") else ComesOut(p.lower, names, fields[i].value, f.value)
      {
        assert p.Hides(fields[i].key) <==> Named(p.lower, names, fields[i].key) by { HidesWhenNamed(p, names, fields[i].key); }
        RedactComesOut(p, names, fields[i].value);
      }
  }

  lemma HidesWhenNamed(p: Policy, names: seq<string>, key: string)
    requires HidesNamed(p, names)
    ensures p.Hides(key) <==> Named(p.lower, names, key)
  {
  }

  /** There is nothing to hide in the value: no named field that does not hold the mark already, and no secret in a text. */
  ghost predicate Innocent(lower: string -> string, names: seq<string>, data: Json) {
    match data
    case Atom(_) => true
    case Text(s) => IsInnocent(s)
    case List(items) => forall i | 0 <= i < |items| :: Innocent(lower, names, items[i])
    case Record(fields) => forall i | 0 <= i < |fields| ::
      if exists k :: 0 <= k < |names| && lower(names[k]) == lower(fields[i].key) then fields[i].value == Text("[REDACTED]")
      else Innocent(lower, names, fields[i].value)
  }

  /** A value comes out as it went in if and only if there is nothing in it to hide. */
  lemma {:induction false} KeptIffInnocent(lower: string -> string, names: seq<string>, a: Json, b: Json)
    requires ComesOut(lower, names, a, b)
    ensures b == a <==> Innocent(lower, names, a)
  {
    hide IsInnocent, IsRedacted;
    match a
    case Atom(_) =>
    case Text(_) =>
    case List(items) =>
      forall i | 0 <= i < |items| ensures b.items[i] == items[i] <==> Innocent(lower, names, items[i]) {
        KeptIffInnocent(lower, names, items[i], b.items[i]);
      }
      assert b == a <==> forall i | 0 <= i < |items| :: b.items[i] == items[i];
    case Record(fields) =>
      forall i | 0 <= i < |fields| && !Named(lower, names, fields[i].key)
        ensures b.fields[i].value == fields[i].value <==> Innocent(lower, names, fields[i].value)
      {
        KeptIffInnocent(lower, names, fields[i].value, b.fields[i].value);
      }
      assert b == a <==> forall i | 0 <= i < |fields| :: b.fields[i] == fields[i];
  }

  /** The engine object: its set of lower-cased field names grows, its rewrites run in order. */
  class RedactionService {
    const lower: string -> string
    var sensitiveFields: set<string>
    /** The sensitive fields as they were given. */
    ghost var names: seq<string>

    ghost predicate Valid()
      reads this
    {
      sensitiveFields == set k | 0 <= k < |names| :: lower(names[k])
    }

    function Rules(): Policy
      reads this
    {
      Policy(lower, sensitiveFields)
    }

    constructor (lower: string -> string, customFields: seq<string>)
      ensures this.lower == lower && names == customFields && Valid()
    {
      this.lower := lower;
      sensitiveFields, names := {}, customFields;
      new;
      for i := 0 to |customFields|
        invariant names == customFields && sensitiveFields == set k | 0 <= k < i :: lower(names[k])
      {
        sensitiveFields := sensitiveFields + {lower(customFields[i])};
      }
    }

    method AddSensitiveField(fieldName: string)
      requires Valid()
      modifies this
      ensures Valid() && names == old(names) + [fieldName]
    {
      sensitiveFields := sensitiveFields + {lower(fieldName)};
      OneMoreName(lower, names, fieldName);
      names := names + [fieldName];
    }

    lemma RulesHideNamed()
      requires Valid()
      ensures HidesNamed(Rules(), names)
    {
    }

    method RedactString(value: string) returns (redacted: string)
      ensures redacted == RedactText(value) && IsRedacted(value, redacted)
    {
      RedactTextIs(value, RedactText(value));
      redacted := value;
      if IsSeedPhrase(value) {
        return REDACTED;
      }
      redacted := Rewrite(SecretKey, redacted);
      redacted := Rewrite(Jwt, redacted);
      redacted := Rewrite(Bearer, redacted);
    }

    /** The public operation. */
    method RedactData(data: Json) returns (redacted: Json)
      requires Valid()
      ensures ComesOut(lower, names, data, redacted)
      ensures redacted == data <==> Innocent(lower, names, data)
    {
      redacted := RedactValue(data);
      RulesHideNamed();
      RedactComesOut(Rules(), names, data);
      KeptIffInnocent(lower, names, data, redacted);
    }

    method RedactValue(data: Json) returns (redacted: Json)
      ensures redacted == Redact(Rules(), data)
      decreases data
    {
      match data
      case Atom(_) => redacted := data;
      case Text(s) =>
        var text := RedactString(s);
        redacted := Text(text);
      case List(items) =>
        var done := RedactArray(items);
        redacted := List(done);
      case Record(fields) =>
        var done := RedactObject(fields);
        redacted := Record(done);
    }

    method RedactArray(items: seq<Json>) returns (redacted: seq<Json>)
      ensures redacted == RedactItems(Rules(), items)
      decreases items
    {
      hide RedactItems, Redact;
      ghost var all := RedactItems(Rules(), items);
      redacted := [];
      for i := 0 to |items|
        invariant redacted == all[..i]
      {
        var item := RedactValue(items[i]);
        assert item == all[i];
        OneFurther(all, i);
        redacted := redacted + [item];
      }
      assert all[..|items|] == all;
    }

    /** A field whose name is among the names given, but for case, comes out as the mark; any other has its own value redacted. */
    method RedactObject(fields: seq<Field>) returns (redacted: seq<Field>)
      ensures redacted == RedactFields(Rules(), fields)
      ensures Valid() ==> ComesOut(lower, names, Record(fields), Record(redacted))
      decreases fields
    {
      hide RedactFields, Redact, IsInnocent, IsRedacted;
      if Valid() {
        RulesHideNamed();
        RecordComesOut(Rules(), names, fields);
      }
      ghost var all := RedactFields(Rules(), fields);
      redacted := [];
      for i := 0 to |fields|
        invariant redacted == all[..i]
      {
        var value: Json;
        if lower(fields[i].key) in sensitiveFields {
          value := Text(REDACTED);
        } else {
          value := RedactValue(fields[i].value);
        }
        assert Field(fields[i].key, value) == RedactField(Rules(), fields[i]) == all[i];
        OneFurther(all, i);
        redacted := redacted + [Field(fields[i].key, value)];
      }
      assert all[..|fields|] == all;
    }
  }

  lemma OneMoreName(lower: string -> string, names: seq<string>, name: string)
    ensures (set k | 0 <= k < |names + [name]| :: lower((names + [name])[k])) == (set k | 0 <= k < |names| :: lower(names[k])) + {lower(name)}
  {
    var more := names + [name];
    assert more[|names|] == name;
    assert forall k | 0 <= k < |names| :: more[k] == names[k];
    var before, after := set k | 0 <= k < |names| :: lower(names[k]), set k | 0 <= k < |more| :: lower(more[k]);
    forall x | x in before ensures x in after {
      var k :| 0 <= k < |names| && lower(names[k]) == x;
      assert lower(more[k]) == x;
    }
  }

  lemma RecordComesOut(p: Policy, names: seq<string>, fields: seq<Field>)
    requires HidesNamed(p, names)
    ensures ComesOut(p.lower, names, Record(fields), Record(RedactFields(p, fields)))
  {
    RedactComesOut(p, names, Record(fields));
  }

  lemma OneFurther<T>(all: seq<T>, i: nat)
    requires i < |all|
    ensures all[..i + 1] == all[..i] + [all[i]]
  {
  }
}
