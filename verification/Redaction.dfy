/** Global replace with a pattern: leftmost match first, scanning on after each match. */
module Rewriting {

  /** Length of the match taken at the head of a text, or 0. */
  type Matcher = m: string -> nat | forall s: string :: m(s) <= |s| witness (s: string) => 0

  predicate MatchAt(m: Matcher, s: string, i: nat)
    requires i <= |s|
  {
    m(s[i..]) > 0
  }

  /** No match starts anywhere in `s`. */
  ghost predicate Clean(m: Matcher, s: string) {
    forall i | 0 <= i <= |s| :: !MatchAt(m, s, i)
  }

  function ReplaceAll(m: Matcher, mark: string, s: string): string
    decreases |s|
  {
    if s == "" then "" else
    var n := m(s);
    if n > 0 then mark + ReplaceAll(m, mark, s[n..]) else [s[0]] + ReplaceAll(m, mark, s[1..])
  }

  /** Where the leftmost match starts, or the length of `s`. */
  function First(m: Matcher, s: string): (f: nat)
    ensures f <= |s| && (f < |s| ==> MatchAt(m, s, f))
    ensures forall i | 0 <= i < f :: !MatchAt(m, s, i)
  {
    assert s[0..] == s;
    if s == "" || m(s) > 0 then 0 else
    TailMatches(m, s);
    1 + First(m, s[1..])
  }

  lemma TailMatches(m: Matcher, s: string)
    requires s != ""
    ensures forall i | 1 <= i <= |s| :: MatchAt(m, s, i) == MatchAt(m, s[1..], i - 1)
    ensures forall i | 0 <= i < |s| :: MatchAt(m, s[1..], i) == MatchAt(m, s, i + 1)
  {
    forall i | 0 <= i < |s| ensures MatchAt(m, s[1..], i) == MatchAt(m, s, i + 1) {
      assert s[1..][i..] == s[i + 1..];
    }
  }

  lemma Regroup(a: string, b: string, c: string, d: string)
    ensures a + (b + c + d) == a + b + c + d
  {
  }

  lemma KeepsUnmatched(m: Matcher, mark: string, s: string)
    requires s != "" && m(s) == 0
    ensures ReplaceAll(m, mark, s) == [s[0]] + ReplaceAll(m, mark, s[1..])
  {
  }

  lemma ReplacesMatched(m: Matcher, mark: string, s: string)
    requires s != "" && m(s) > 0
    ensures ReplaceAll(m, mark, s) == mark + ReplaceAll(m, mark, s[m(s)..])
  {
  }

  /** Where the leftmost match starts, step by step. */
  lemma FirstSteps(m: Matcher, s: string)
    requires First(m, s) < |s|
    ensures First(m, s) == 0 ==> m(s) > 0
    ensures First(m, s) > 0 ==> m(s) == 0 && First(m, s[1..]) == First(m, s) - 1
  {
    assert s[0..] == s;
  }

  /** Text before the leftmost match is kept, the match becomes the mark, the rest is scanned on. */
  lemma {:induction false} ReplaceAtFirst(m: Matcher, mark: string, s: string, f: nat, n: nat)
    requires f == First(m, s) < |s| && n == m(s[f..])
    ensures ReplaceAll(m, mark, s) == s[..f] + mark + ReplaceAll(m, mark, s[f + n..])
    decreases |s|
  {
    hide ReplaceAll, First;
    FirstSteps(m, s);
    if f == 0 {
      assert s[0..] == s && s[..0] + mark == mark;
      ReplacesMatched(m, mark, s);
    } else {
      var t := s[1..];
      KeepsUnmatched(m, mark, s);
      assert t[f - 1..] == s[f..] && t[f - 1 + n..] == s[f + n..];
      ReplaceAtFirst(m, mark, t, f - 1, n);
      Regroup([s[0]], t[..f - 1], mark, ReplaceAll(m, mark, s[f + n..]));
      assert [s[0]] + t[..f - 1] == s[..f];
    }
  }

  lemma CleanSuffix(m: Matcher, s: string, n: nat)
    requires n <= |s| && Clean(m, s)
    ensures Clean(m, s[n..])
  {
    forall i | 0 <= i <= |s[n..]| ensures !MatchAt(m, s[n..], i) {
      assert s[n..][i..] == s[n + i..] && !MatchAt(m, s, n + i);
    }
  }

  /** A text is clean when no match starts in its head and its tail is clean. */
  lemma CleanAppend(m: Matcher, u: string, v: string)
    requires Clean(m, v)
    requires forall i | 0 <= i < |u| :: m(u[i..] + v) == 0
    ensures Clean(m, u + v)
  {
    forall i | 0 <= i <= |u + v| ensures !MatchAt(m, u + v, i) {
      if i < |u| {
        assert (u + v)[i..] == u[i..] + v;
      } else {
        assert (u + v)[i..] == v[i - |u|..] && !MatchAt(m, v, i - |u|);
      }
    }
  }

  lemma {:induction false} CleanIsUntouched(m: Matcher, mark: string, s: string)
    requires Clean(m, s)
    ensures ReplaceAll(m, mark, s) == s
    decreases |s|
  {
    if s != "" {
      assert s[0..] == s && !MatchAt(m, s, 0);
      TailMatches(m, s);
      CleanIsUntouched(m, mark, s[1..]);
    }
  }
}

/** The redaction engine of the audit logger: three chained pattern rewrites on
    strings, a seed-phrase test, and the recursion over JSON values. */
module RedactionPatterns {
  import opened Rewriting

  /** The character classes the three regular expressions use. */
  datatype Class = Caps | Word | Space

  predicate InClass(c: Class, ch: char) {
    match c
    case Caps => 'A' <= ch <= 'Z' || '0' <= ch <= '9'
    case Word => 'A' <= ch <= 'Z' || 'a' <= ch <= 'z' || '0' <= ch <= '9' || ch == '-' || ch == '_'
    case Space =>
      '\U{9}' <= ch <= '\U{D}' || ch == ' ' || ch == '\U{A0}' || ch == '\U{1680}'
      || '\U{2000}' <= ch <= '\U{200A}' || ch == '\U{2028}' || ch == '\U{2029}'
      || ch == '\U{202F}' || ch == '\U{205F}' || ch == '\U{3000}' || ch == '\U{FEFF}'
  }

  predicate AllIn(c: Class, s: string) {
    forall i | 0 <= i < |s| :: InClass(c, s[i])
  }

  /** How many characters at the head of `s` lie in class `c`: the reach of a greedy run. */
  function Run(c: Class, s: string): (n: nat)
    ensures n <= |s| && forall i | 0 <= i < n :: InClass(c, s[i])
    ensures n < |s| ==> !InClass(c, s[n])
  {
    if s == "" || !InClass(c, s[0]) then 0 else 1 + Run(c, s[1..])
  }

  datatype Pattern = SecretKey | Jwt | Bearer

  predicate SameLetter(ch: char, lower: char)
    requires 'a' <= lower <= 'z'
  {
    ch == lower || ch as int + 32 == lower as int
  }

  /** The six letters of "bearer", in either case. */
  predicate SpellsBearer(s: string) {
    |s| == 6 && SameLetter(s[0], 'b') && SameLetter(s[1], 'e') && SameLetter(s[2], 'a')
    && SameLetter(s[3], 'r') && SameLetter(s[4], 'e') && SameLetter(s[5], 'r')
  }

  /** The language of each pattern, as the regular expression states it. */
  ghost predicate InLanguage(p: Pattern, w: string) {
    match p
    case SecretKey => |w| == 56 && w[0] == 'S' && AllIn(Caps, w[1..])
    case Jwt =>
      exists i, j | 3 <= i <= j <= |w| ::
        w[..3] == "eyJ" && IsDottedWord(w[3..i]) && IsDottedWord(w[i..j]) && j < |w| && AllIn(Word, w[j..])
    case Bearer =>
      exists i | 6 < i < |w| :: SpellsBearer(w[..6]) && AllIn(Space, w[6..i]) && AllIn(Word, w[i..])
  }

  /** One or more word characters and a dot. */
  predicate IsDottedWord(w: string) {
    |w| >= 2 && w[|w| - 1] == '.' && AllIn(Word, w[..|w| - 1])
  }

  /** Some stretch of `s` is a match of `p`. */
  ghost predicate Occurs(p: Pattern, s: string) {
    exists i, j | 0 <= i <= j <= |s| :: InLanguage(p, s[i..j])
  }

  /** Length of a maximal run of word characters and the dot right after it, or 0. */
  function DottedWord(s: string): (n: nat)
    ensures n <= |s|
  {
    var n := Run(Word, s);
    if 0 < n < |s| && s[n] == '.' then n + 1 else 0
  }

  /** Length of the match the engine takes at the head of `s`, or 0. The classes that
      follow one another in a pattern are disjoint, so greedy runs never backtrack. */
  function MatchLen(p: Pattern, s: string): (n: nat)
    ensures n <= |s|
  {
    match p
    case SecretKey => if |s| >= 56 && s[0] == 'S' && Run(Caps, s[1..]) >= 55 then 56 else 0
    case Jwt =>
      if |s| < 3 || s[..3] != "eyJ" then 0 else
      var a := DottedWord(s[3..]);
      var b := DottedWord(s[3 + a..]);
      var c := Run(Word, s[3 + a + b..]);
      if a == 0 || b == 0 || c == 0 then 0 else 3 + a + b + c
    case Bearer =>
      if |s| < 6 || !SpellsBearer(s[..6]) then 0 else
      var a := Run(Space, s[6..]);
      var b := Run(Word, s[6 + a..]);
      if a == 0 || b == 0 then 0 else 6 + a + b
  }

  /** The match taken at the head is a word of the pattern's language. */
  lemma MatchIsInLanguage(p: Pattern, s: string)
    requires MatchLen(p, s) > 0
    ensures InLanguage(p, s[..MatchLen(p, s)])
  {
    match p
    case SecretKey =>
    case Jwt => JwtMatchIsInLanguage(s);
    case Bearer => BearerMatchIsInLanguage(s);
  }

  lemma JwtMatchIsInLanguage(s: string)
    requires MatchLen(Jwt, s) > 0
    ensures InLanguage(Jwt, s[..MatchLen(Jwt, s)])
  {
    var w := s[..MatchLen(Jwt, s)];
    var i := 3 + DottedWord(s[3..]);
    var j := i + DottedWord(s[i..]);
    assert w[..3] == s[..3];
    assert IsDottedWord(w[3..i]) by { SameDottedWord(s[3..], w[3..i]); }
    assert IsDottedWord(w[i..j]) by { SameDottedWord(s[i..], w[i..j]); }
    assert AllIn(Word, w[j..]) by { assert forall k | 0 <= k < |w[j..]| :: w[j..][k] == s[j..][k]; }
  }

  lemma SameDottedWord(s: string, w: string)
    requires 0 < |w| == DottedWord(s) && w == s[..|w|]
    ensures IsDottedWord(w)
  {
  }

  lemma BearerMatchIsInLanguage(s: string)
    requires MatchLen(Bearer, s) > 0
    ensures InLanguage(Bearer, s[..MatchLen(Bearer, s)])
  {
    var w := s[..MatchLen(Bearer, s)];
    var a := 6 + Run(Space, s[6..]);
    assert AllIn(Space, w[6..a]) by { assert forall i | 0 <= i < |w[6..a]| :: w[6..a][i] == s[6..][i]; }
    assert AllIn(Word, w[a..]) by { assert forall i | 0 <= i < |w[a..]| :: w[a..][i] == s[a..][i]; }
    assert w[..6] == s[..6];
  }

  /** A run of exactly `n` characters is measured exactly. */
  lemma RunIs(c: Class, s: string, n: nat)
    requires n <= |s| && (forall i | 0 <= i < n :: InClass(c, s[i])) && (n < |s| ==> !InClass(c, s[n]))
    ensures Run(c, s) == n
  {
  }

  /** Any match at the head is found, and the match taken is at least as long. */
  lemma LanguageIsMatched(p: Pattern, s: string, n: nat)
    requires n <= |s| && InLanguage(p, s[..n])
    ensures MatchLen(p, s) >= n > 0
  {
    match p
    case SecretKey =>
      assert forall i | 0 <= i < 55 :: s[1..][i] == s[..n][1..][i];
    case Jwt => JwtLanguageIsMatched(s, n);
    case Bearer => BearerLanguageIsMatched(s, n);
  }

  /** A run that starts with `n` characters of the class is at least that long. */
  lemma RunAtLeast(c: Class, s: string, w: string)
    requires AllIn(c, w) && |w| <= |s| && s[..|w|] == w
    ensures Run(c, s) >= |w|
  {
    assert forall i | 0 <= i < |w| :: s[i] == w[i];
  }

  lemma Nested(s: string, n: nat, i: nat, j: nat)
    requires i <= j <= n <= |s|
    ensures s[i..][..j - i] == s[..n][i..j]
  {
  }

  lemma JwtParts(w: string) returns (i: nat, j: nat)
    requires InLanguage(Jwt, w)
    ensures 3 <= i <= j < |w| && w[..3] == "eyJ" && IsDottedWord(w[3..i]) && IsDottedWord(w[i..j]) && AllIn(Word, w[j..])
  {
    i, j :| 3 <= i <= j <= |w| && w[..3] == "eyJ" && IsDottedWord(w[3..i]) && IsDottedWord(w[i..j])
      && j < |w| && AllIn(Word, w[j..]);
  }

  lemma JwtLanguageIsMatched(s: string, n: nat)
    requires n <= |s| && InLanguage(Jwt, s[..n])
    ensures MatchLen(Jwt, s) >= n > 0
  {
    hide InLanguage, IsDottedWord, DottedWord, AllIn, Run;
    var w := s[..n];
    var i, j := JwtParts(w);
    assert s[..3] == w[..3];
    Nested(s, n, 3, i);
    DottedWordIs(s[3..], w[3..i]);
    Nested(s, n, i, j);
    DottedWordIs(s[i..], w[i..j]);
    Nested(s, n, j, n);
    assert w[j..n] == w[j..];
    RunAtLeast(Word, s[j..], w[j..]);
  }

  lemma DottedWordIs(s: string, w: string)
    requires IsDottedWord(w) && |w| <= |s| && s[..|w|] == w
    ensures DottedWord(s) == |w|
  {
    var n := |w| - 1;
    assert forall k | 0 <= k < n :: s[k] == w[..n][k];
    assert s[n] == w[n];
    RunIs(Word, s, n);
  }

  lemma BearerLanguageIsMatched(s: string, n: nat)
    requires n <= |s| && InLanguage(Bearer, s[..n])
    ensures MatchLen(Bearer, s) >= n > 0
  {
    var w := s[..n];
    var i :| 6 < i < |w| && SpellsBearer(w[..6]) && AllIn(Space, w[6..i]) && AllIn(Word, w[i..]);
    assert s[..6] == w[..6];
    assert forall k | 0 <= k < i - 6 :: s[6..][k] == w[6..i][k];
    assert s[i] == w[i..][0];
    RunIs(Space, s[6..], i - 6);
    assert forall k | 0 <= k < n - i :: s[i..][k] == w[i..][k];
  }


  function Finder(p: Pattern): Matcher {
    (s: string) => MatchLen(p, s)
  }

  lemma MatchIsOccurrence(p: Pattern, s: string, i: nat)
    requires i <= |s| && MatchLen(p, s[i..]) > 0
    ensures Occurs(p, s)
  {
    hide InLanguage;
    var n := MatchLen(p, s[i..]);
    MatchIsInLanguage(p, s[i..]);
    assert s[i..][..n] == s[i..i + n];
  }

  lemma OccurrenceIsMatched(p: Pattern, s: string, i: nat, j: nat)
    requires i <= j <= |s| && InLanguage(p, s[i..j])
    ensures MatchLen(p, s[i..]) > 0
  {
    hide InLanguage;
    assert s[i..][..j - i] == s[i..j];
    LanguageIsMatched(p, s[i..], j - i);
  }

  /** The scanner and the declared language agree on whether a pattern is present. */
  lemma CleanIffAbsent(p: Pattern, s: string)
    ensures Clean(Finder(p), s) <==> !Occurs(p, s)
  {
    hide InLanguage;
    if Occurs(p, s) {
      var i, j :| 0 <= i <= j <= |s| && InLanguage(p, s[i..j]);
      OccurrenceIsMatched(p, s, i, j);
      assert MatchAt(Finder(p), s, i);
    } else if !Clean(Finder(p), s) {
      var i :| 0 <= i <= |s| && MatchAt(Finder(p), s, i);
      MatchIsOccurrence(p, s, i);
    }
  }
}

/** What each rewrite of a string leaves behind, for every string. */
module RedactionStages {
  import opened Rewriting
  import opened RedactionPatterns

  function Mark(p: Pattern): string {
    match p
    case SecretKey => "[REDACTED]"
    case Jwt => "[REDACTED]"
    case Bearer => "Bearer [REDACTED]"
  }

  function Rewrite(p: Pattern, s: string): string {
    ReplaceAll(Finder(p), Mark(p), s)
  }

  lemma KeyAlphabet(w: string, k: nat)
    requires InLanguage(SecretKey, w) && k < |w|
    ensures if k == 0 then w[k] == 'S' else InClass(Caps, w[k])
  {
    assert k > 0 ==> w[k] == w[1..][k - 1];
  }

  lemma DottedAlphabet(w: string, i: nat, j: nat, k: nat)
    requires i <= k < j <= |w| && IsDottedWord(w[i..j])
    ensures InClass(Word, w[k]) || w[k] == '.'
  {
    var d := w[i..j];
    assert w[k] == d[k - i];
    assert k < j - 1 ==> d[k - i] == d[..|d| - 1][k - i];
  }

  lemma JwtAlphabet(w: string, k: nat)
    requires InLanguage(Jwt, w) && k < |w|
    ensures InClass(Word, w[k]) || w[k] == '.'
  {
    hide IsDottedWord, InLanguage;
    var i, j := JwtParts(w);
    if k < 3 { assert w[k] == w[..3][k]; }
    else if k < i { DottedAlphabet(w, 3, i, k); }
    else if k < j { DottedAlphabet(w, i, j, k); }
    else { assert w[k] == w[j..][k - j]; }
  }

  lemma BearerAlphabet(w: string, k: nat)
    requires InLanguage(Bearer, w) && k < |w|
    ensures InClass(Word, w[k]) || InClass(Space, w[k])
  {
    var i :| 6 < i < |w| && SpellsBearer(w[..6]) && AllIn(Space, w[6..i]) && AllIn(Word, w[i..]);
    if k < 6 { assert w[k] == w[..6][k]; }
    else if k < i { assert w[k] == w[6..i][k - 6]; }
    else { assert w[k] == w[i..][k - i]; }
  }

  /** Every matched character is a word character, a dot, or a blank of a Bearer match. */
  lemma MatchAlphabet(q: Pattern, x: string, k: nat)
    requires k < MatchLen(q, x)
    ensures InClass(Word, x[k]) || x[k] == '.' || (q == Bearer && InClass(Space, x[k]))
    ensures q == SecretKey && k > 0 ==> InClass(Caps, x[k])
  {
    hide InLanguage, MatchLen;
    var w := x[..MatchLen(q, x)];
    MatchIsInLanguage(q, x);
    assert x[k] == w[k];
    match q
    case SecretKey => KeyAlphabet(w, k);
    case Jwt => JwtAlphabet(w, k);
    case Bearer => BearerAlphabet(w, k);
  }

  /** A match that lies in a common prefix is a match of both texts. */
  lemma SamePrefixSameMatch(q: Pattern, x: string, y: string)
    requires MatchLen(q, x) > 0
    requires MatchLen(q, x) <= |y| && x[..MatchLen(q, x)] == y[..MatchLen(q, x)]
    ensures MatchLen(q, y) > 0
  {
    hide InLanguage;
    MatchIsInLanguage(q, x);
    LanguageIsMatched(q, y, MatchLen(q, x));
  }

  /** What the letters of a mark rule out. */
  lemma MarkLetters(p: Pattern, i: nat)
    requires i < |Mark(p)|
    ensures Mark(p)[i] != 'S'
    ensures Mark(p)[i] == 'e' ==> i + 1 < |Mark(p)| && Mark(p)[i + 1] != 'y'
    ensures Mark(p)[i] == 'B' || Mark(p)[i] == 'b' ==> p == Bearer && i == 0
  {
  }

  lemma StartsNoToken(x: string)
    requires x != ""
    ensures x[0] != 'S' ==> MatchLen(SecretKey, x) == 0
    ensures x[0] != 'e' || (|x| > 1 && x[1] != 'y') ==> MatchLen(Jwt, x) == 0
    ensures x[0] != 'B' && x[0] != 'b' ==> MatchLen(Bearer, x) == 0
  {
    if |x| >= 3 { assert x[..3][0] == x[0] && x[..3][1] == x[1]; }
    if |x| >= 6 { assert x[..6][0] == x[0]; }
  }

  lemma BracketEndsBearer(x: string)
    requires |x| > 7 && x[6] == ' ' && x[7] == '['
    ensures MatchLen(Bearer, x) == 0
  {
    assert x[6..][0] == ' ' && x[6..][1] == '[';
    RunIs(Space, x[6..], 1);
    assert x[7..][0] == '[';
  }

  /** No match of any pattern starts inside a mark, whatever follows it. */
  lemma MarkStartsNothing(p: Pattern, q: Pattern, i: nat, rest: string)
    requires i < |Mark(p)|
    ensures MatchLen(q, Mark(p)[i..] + rest) == 0
  {
    hide MatchLen, Mark;
    var x := Mark(p)[i..] + rest;
    MarkLetters(p, i);
    BearerMarkText();
    assert forall k | 0 <= k < |Mark(p)| - i :: x[k] == Mark(p)[i + k];
    StartsNoToken(x);
    if p == Bearer && i == 0 { BracketEndsBearer(x); }
  }

  lemma AtFirst(p: Pattern, s: string, f: nat)
    requires f == First(Finder(p), s) < |s|
    ensures f + |Mark(p)| <= |Rewrite(p, s)|
    ensures Rewrite(p, s)[..f] == s[..f] && Rewrite(p, s)[f..f + |Mark(p)|] == Mark(p)
  {
    hide MatchLen, Mark;
    var n := MatchLen(p, s[f..]);
    ReplaceAtFirst(Finder(p), Mark(p), s, f, n);
    Pieces(s[..f], Mark(p), Rewrite(p, s[f + n..]));
  }

  lemma Pieces(a: string, b: string, c: string)
    ensures (a + b + c)[..|a|] == a && (a + b + c)[|a|..|a| + |b|] == b
  {
  }

  /** The text `x` keeps `s` up to `f`, where `s` has a Bearer match and `x` the Bearer mark. */
  ghost predicate BearerMarkAt(s: string, x: string, f: nat) {
    && f + 7 < |x| && f + 7 < |s| && x[..f] == s[..f]
    && x[f..f + 6] == "Bearer" && x[f + 6] == ' ' && x[f + 7] == '['
    && SpellsBearer(s[f..f + 6]) && InClass(Space, s[f + 6])
  }

  lemma BearerHead(t: string)
    requires MatchLen(Bearer, t) > 0
    ensures |t| > 7 && SpellsBearer(t[..6]) && InClass(Space, t[6])
  {
    assert t[6..][0] == t[6];
  }

  lemma BearerSourceAtFirst(s: string, f: nat)
    requires f == First(Finder(Bearer), s) < |s|
    ensures f + 7 < |s| && SpellsBearer(s[f..f + 6]) && InClass(Space, s[f + 6])
  {
    hide MatchLen, SpellsBearer, InClass;
    assert MatchAt(Finder(Bearer), s, f);
    var t := s[f..];
    BearerHead(t);
    assert t[..6] == s[f..f + 6] && t[6] == s[f + 6];
  }

  lemma BearerMarkAtFirst(s: string, f: nat)
    requires f == First(Finder(Bearer), s) < |s|
    ensures BearerMarkAt(s, Rewrite(Bearer, s), f)
  {
    hide MatchLen, Mark, SpellsBearer, InClass, Rewrite, First, BearerMarkAt;
    BearerSourceAtFirst(s, f);
    BearerMarkText();
    AtFirst(Bearer, s, f);
    TextAt(Rewrite(Bearer, s), f, Mark(Bearer));
    IsBearerMark(s, Rewrite(Bearer, s), f);
  }

  lemma IsBearerMark(s: string, x: string, f: nat)
    requires f + 7 < |x| && f + 7 < |s| && x[..f] == s[..f]
    requires x[f..f + 6] == "Bearer" && x[f + 6] == ' ' && x[f + 7] == '['
    requires SpellsBearer(s[f..f + 6]) && InClass(Space, s[f + 6])
    ensures BearerMarkAt(s, x, f)
  {
  }

  lemma BearerMarkText()
    ensures |Mark(Bearer)| == 17 && Mark(Bearer)[..6] == "Bearer" && Mark(Bearer)[6] == ' ' && Mark(Bearer)[7] == '['
  {
  }

  lemma TextAt(x: string, f: nat, m: string)
    requires f + |m| <= |x| && |m| > 7 && x[f..f + |m|] == m
    ensures x[f..f + 6] == m[..6] && x[f + 6] == m[6] && x[f + 7] == m[7]
  {
    assert x[f..f + |m|][..6] == x[f..f + 6];
  }

  /** A rewrite leaves no new match of `q` at the head, except that the Bearer mark may end a secret key. */
  lemma HeadKept(p: Pattern, q: Pattern, s: string)
    requires MatchLen(p, s) == 0 && MatchLen(q, s) == 0
    requires p != Bearer || q != SecretKey
    ensures MatchLen(q, Rewrite(p, s)) == 0
  {
    hide MatchLen, First, ReplaceAll, Mark, InClass, SpellsBearer, BearerMarkAt;
    var x, f := Rewrite(p, s), First(Finder(p), s);
    if f == |s| {
      UntouchedWithoutMatch(p, s);
    } else if MatchLen(q, x) > 0 {
      assert f > 0 by { assert s[0..] == s; assert MatchAt(Finder(p), s, f); }
      HeadIsKept(p, s, f);
      var n := MatchLen(q, x);
      if n <= f {
        assert x[..n] == x[..f][..n] && s[..n] == s[..f][..n];
        SamePrefixSameMatch(q, x, s);
      } else if p != Bearer {
        BracketIsInNoMatch(q, x, f);
      } else if q == Jwt {
        JwtIntoBearer(s, x, f);
      } else {
        BearerIntoBearer(s, x, f);
      }
    }
  }

  lemma HeadIsKept(p: Pattern, s: string, f: nat)
    requires f == First(Finder(p), s) < |s|
    ensures f < |Rewrite(p, s)| && Rewrite(p, s)[..f] == s[..f]
    ensures if p == Bearer then BearerMarkAt(s, Rewrite(p, s), f) else Rewrite(p, s)[f] == '['
  {
    hide MatchLen, First, ReplaceAll, Rewrite;
    if p == Bearer {
      BearerMarkAtFirst(s, f);
    } else {
      AtFirst(p, s, f);
      assert Rewrite(p, s)[f] == Rewrite(p, s)[f..f + |Mark(p)|][0];
    }
  }

  lemma BracketIsInNoMatch(q: Pattern, x: string, k: nat)
    requires k < |x| && x[k] == '['
    ensures MatchLen(q, x) <= k
  {
    if k < MatchLen(q, x) { MatchAlphabet(q, x, k); }
  }

  lemma NothingInNothing(p: Pattern)
    ensures MatchLen(p, "") == 0
  {
  }

  lemma UntouchedWithoutMatch(p: Pattern, s: string)
    requires First(Finder(p), s) == |s|
    ensures Rewrite(p, s) == s && Clean(Finder(p), s)
  {
    hide MatchLen, First, ReplaceAll, Mark;
    NothingInNothing(p);
    assert s[|s|..] == "" && !MatchAt(Finder(p), s, |s|);
    CleanIsUntouched(Finder(p), Mark(p), s);
  }

  /** A JWT that runs into the Bearer mark was a JWT before: the six letters only change case. */
  lemma JwtIntoBearer(s: string, x: string, f: nat)
    requires BearerMarkAt(s, x, f) && MatchLen(Jwt, x) > f
    ensures MatchLen(Jwt, s) > 0
  {
    hide MatchLen;
    var n := MatchLen(Jwt, x);
    if n > f + 6 { MatchAlphabet(Jwt, x, f + 6); assert false; }
    MatchIsInLanguage(Jwt, x);
    JwtChangesCase(s[..n], x[..n], s, x, f);
    LanguageIsMatched(Jwt, s, n);
  }

  /** The two texts have word characters and dots in the same places. */
  ghost predicate SameKinds(w: string, v: string) {
    |w| == |v| && forall k | 0 <= k < |w| :: InClass(Word, w[k]) == InClass(Word, v[k]) && (w[k] == '.') == (v[k] == '.')
  }

  lemma BearerIsWord(t: string, k: nat)
    requires SpellsBearer(t) && k < 6
    ensures InClass(Word, t[k]) && t[k] != '.' && t[k] != 'y' && t[k] != 'J'
  {
  }

  lemma MarkKeepsKinds(s: string, x: string, f: nat, n: nat)
    requires BearerMarkAt(s, x, f) && n <= f + 6
    ensures SameKinds(x[..n], s[..n])
  {
    hide SpellsBearer, InClass;
    forall k | 0 <= k < n
      ensures InClass(Word, x[k]) == InClass(Word, s[k]) && (x[k] == '.') == (s[k] == '.')
    {
      if k < f {
        assert x[k] == x[..f][k] == s[..f][k] == s[k];
      } else {
        assert SpellsBearer("Bearer") by { SpelledInFull(); }
        BearerIsWord(x[f..f + 6], k - f);
        BearerIsWord(s[f..f + 6], k - f);
      }
    }
  }

  lemma SpelledInFull()
    ensures SpellsBearer("Bearer")
  {
  }

  lemma JwtChangesCase(v: string, w: string, s: string, x: string, f: nat)
    requires BearerMarkAt(s, x, f) && f < |v| == |w| <= f + 6 && v == s[..|v|] && w == x[..|w|]
    requires InLanguage(Jwt, w)
    ensures InLanguage(Jwt, v)
  {
    hide InClass, SpellsBearer, IsDottedWord, AllIn, InLanguage;
    var i, j := JwtParts(w);
    MarkKeepsKinds(s, x, f, |w|);
    MarkIsNoJwtHead(x, f, w);
    assert v[..3] == w[..3] by { assert s[..3] == s[..f][..3] == x[..f][..3] == x[..3]; }
    SameShape(w, v, 3, i);
    SameShape(w, v, i, j);
    SameTail(w, v, j);
    IsJwt(v, i, j);
  }

  lemma MarkIsNoJwtHead(x: string, f: nat, w: string)
    requires f + 6 <= |x| && x[f..f + 6] == "Bearer" && f < |w| <= f + 6 && w == x[..|w|]
    requires |w| >= 3 && w[..3] == "eyJ"
    ensures f >= 3
  {
    assert w[f] == x[f] == x[f..f + 6][0] == 'B';
    assert w[0] == w[..3][0] && w[1] == w[..3][1] && w[2] == w[..3][2];
  }

  lemma SameTail(w: string, v: string, j: nat)
    requires SameKinds(w, v) && j <= |w| && AllIn(Word, w[j..])
    ensures AllIn(Word, v[j..])
  {
    forall k | 0 <= k < |v[j..]| ensures InClass(Word, v[j..][k]) { assert v[j..][k] == v[j + k] && w[j..][k] == w[j + k]; }
  }

  lemma IsJwt(v: string, i: nat, j: nat)
    requires 3 <= i <= j < |v| && v[..3] == "eyJ" && IsDottedWord(v[3..i]) && IsDottedWord(v[i..j]) && AllIn(Word, v[j..])
    ensures InLanguage(Jwt, v)
  {
  }

  lemma SameShape(w: string, v: string, i: nat, j: nat)
    requires SameKinds(w, v) && i <= j <= |w| && IsDottedWord(w[i..j])
    ensures IsDottedWord(v[i..j])
  {
    var a, b := w[i..j], v[i..j];
    assert forall k | 0 <= k < |a| :: a[k] == w[i + k] && b[k] == v[i + k];
    assert forall k | 0 <= k < |a| - 1 :: a[..|a| - 1][k] == a[k] && b[..|a| - 1][k] == b[k];
  }

  /** A Bearer match that runs into the Bearer mark was one before: its `b` is a word character. */
  lemma BearerIntoBearer(s: string, x: string, f: nat)
    requires BearerMarkAt(s, x, f) && MatchLen(Bearer, x) > f > 0
    ensures MatchLen(Bearer, s) > 0
  {
    hide MatchLen;
    var n := MatchLen(Bearer, x);
    MatchIsInLanguage(Bearer, x);
    BearerCutAtMark(s[..f + 1], x[..n], s, x, f);
    LanguageIsMatched(Bearer, s, f + 1);
  }

  lemma SameSlices(v: string, w: string, f: nat, i: nat)
    requires 6 <= i <= f <= |v| && f <= |w| && v[..f] == w[..f]
    ensures v[..6] == w[..6] && v[6..i] == w[6..i] && v[i..f] == w[i..f]
  {
    assert forall k | 0 <= k < f :: v[k] == v[..f][k] && w[k] == w[..f][k];
  }

  lemma BearerCutAtMark(v: string, w: string, s: string, x: string, f: nat)
    requires BearerMarkAt(s, x, f) && 0 < f < |w| <= |x| && v == s[..f + 1] && w == x[..|w|]
    requires InLanguage(Bearer, w)
    ensures InLanguage(Bearer, v)
  {
    var i :| 6 < i < |w| && SpellsBearer(w[..6]) && AllIn(Space, w[6..i]) && AllIn(Word, w[i..]);
    assert w[f] == x[f] == x[f..f + 6][0];
    assert v[f] == s[f..f + 6][0];
    assert w[1] == w[..6][1] && w[2] == w[..6][2] && w[3] == w[..6][3] && w[4] == w[..6][4] && w[5] == w[..6][5];
    forall k | 6 <= k < i ensures InClass(Space, w[k]) { assert w[k] == w[6..i][k - 6]; }
    assert f >= i;
    assert v[..f] == w[..f] by { assert s[..f] == x[..f]; }
    SameSlices(v, w, f, i);
    assert AllIn(Word, v[i..]) by {
      forall k | 0 <= k < |v[i..]| ensures InClass(Word, v[i..][k]) {
        if k < f - i { assert v[i..][k] == v[i..f][k] == w[i..f][k] == w[i..][k]; }
      }
    }
  }

  /** Rewriting `p` leaves no match of `p`, and creates no match of another pattern:
      the one exception is a secret key ended by the capital of the Bearer mark. */
  lemma {:induction false} RewriteLeavesNone(p: Pattern, q: Pattern, s: string)
    requires p == q || Clean(Finder(q), s)
    requires p != Bearer || q != SecretKey
    ensures Clean(Finder(q), Rewrite(p, s))
    decreases |s|
  {
    hide MatchLen, Mark;
    if s == "" {
      assert forall i | 0 <= i <= 0 :: s[i..] == s;
    } else if MatchLen(p, s) > 0 {
      var rest := s[MatchLen(p, s)..];
      if p != q { CleanSuffix(Finder(q), s, MatchLen(p, s)); }
      RewriteLeavesNone(p, q, rest);
      forall i | 0 <= i < |Mark(p)| ensures MatchLen(q, Mark(p)[i..] + Rewrite(p, rest)) == 0 {
        MarkStartsNothing(p, q, i, Rewrite(p, rest));
      }
      CleanAppend(Finder(q), Mark(p), Rewrite(p, rest));
    } else {
      if p != q {
        CleanSuffix(Finder(q), s, 1);
        assert s[0..] == s && !MatchAt(Finder(q), s, 0);
      }
      RewriteLeavesNone(p, q, s[1..]);
      HeadKept(p, q, s);
      assert [s[0]][0..] == [s[0]];
      CleanAppend(Finder(q), [s[0]], Rewrite(p, s[1..]));
    }
  }

  /** The scan rewrites a match that starts at `k`. */
  predicate RewritesAt(p: Pattern, s: string, k: nat)
    decreases |s|
  {
    if s == "" then false else
    var n := MatchLen(p, s);
    if n > 0 then k == 0 || (k >= n && RewritesAt(p, s[n..], k - n)) else k > 0 && RewritesAt(p, s[1..], k - 1)
  }

  lemma {:induction false} FirstIsRewritten(p: Pattern, s: string, k: nat)
    ensures First(Finder(p), s) == k < |s| ==> RewritesAt(p, s, k)
    ensures RewritesAt(p, s, k) ==> First(Finder(p), s) <= k && First(Finder(p), s) < |s|
    decreases |s|
  {
    hide MatchLen;
    if s != "" && MatchLen(p, s) == 0 && k > 0 {
      FirstIsRewritten(p, s[1..], k - 1);
    }
    if s != "" { assert s[0..] == s; }
  }

  /** The Bearer rewrite at `k` replaces a lower-case `b` that follows an `S` and 54 capitals or digits. */
  ghost predicate CompletesKeyAt(t: string, k: nat) {
    && 55 <= k < |t| && t[k - 55] == 'S' && AllIn(Caps, t[k - 54..k]) && t[k] == 'b'
    && RewritesAt(Bearer, t, k)
  }

  ghost predicate CompletesKey(t: string) {
    exists k: nat :: CompletesKeyAt(t, k)
  }

  /** A secret key that appears at the head ends in the capital of a Bearer mark. */
  lemma KeyEndsInMark(t: string, f: nat)
    requires BearerMarkAt(t, Rewrite(Bearer, t), f)
    requires MatchLen(SecretKey, t) == 0 && MatchLen(SecretKey, Rewrite(Bearer, t)) > 0
    ensures f == 55 && t[0] == 'S' && AllIn(Caps, t[1..55]) && t[55] == 'b'
  {
    hide MatchLen, Rewrite;
    var x := Rewrite(Bearer, t);
    MatchIsInLanguage(SecretKey, x);
    var w := x[..MatchLen(SecretKey, x)];
    assert x[f + 1] == x[f..f + 6][1] && x[f] == x[f..f + 6][0];
    forall j | 1 <= j < 56 ensures InClass(Caps, x[j]) { assert x[j] == w[1..][j - 1]; }
    forall j | 0 <= j < f ensures x[j] == t[j] { assert x[..f][j] == t[..f][j]; }
    assert t[55] == 'B' || f > 55 ==> InLanguage(SecretKey, t[..56]);
    if InLanguage(SecretKey, t[..56]) { LanguageIsMatched(SecretKey, t, 56); }
    assert t[f] == t[f..f + 6][0];
  }

  lemma HeadCompletes(t: string)
    requires MatchLen(Bearer, t) == 0 && MatchLen(SecretKey, t) == 0 && MatchLen(SecretKey, Rewrite(Bearer, t)) > 0
    ensures CompletesKeyAt(t, 55)
  {
    hide MatchLen, BearerMarkAt;
    var f := First(Finder(Bearer), t);
    if f == |t| {
      UntouchedWithoutMatch(Bearer, t);
    } else {
      BearerMarkAtFirst(t, f);
      KeyEndsInMark(t, f);
      FirstIsRewritten(Bearer, t, 55);
    }
  }

  /** "bearer" and a blank cannot start among capitals and digits that a lower-case `b` follows. */
  lemma CapitalsHoldNoBearer(t: string, f: nat)
    requires 1 <= f && f + 6 < |t| && 55 < |t| && AllIn(Caps, t[1..55]) && t[55] == 'b'
    requires SpellsBearer(t[f..f + 6]) && InClass(Space, t[f + 6])
    ensures f >= 55
  {
    var w := t[f..f + 6];
    assert t[f + 1] == w[1] && t[f + 2] == w[2] && t[f + 3] == w[3] && t[f + 4] == w[4] && t[f + 5] == w[5];
    forall j | 1 <= j < 55 ensures InClass(Caps, t[j]) { assert t[j] == t[1..55][j - 1]; }
  }

  lemma HeadIsCompleted(t: string)
    requires MatchLen(Bearer, t) == 0 && CompletesKeyAt(t, 55)
    ensures MatchLen(SecretKey, Rewrite(Bearer, t)) > 0
  {
    hide MatchLen;
    var x, f := Rewrite(Bearer, t), First(Finder(Bearer), t);
    FirstIsRewritten(Bearer, t, 55);
    BearerMarkAtFirst(t, f);
    assert f > 0 by { assert t[0..] == t; assert MatchAt(Finder(Bearer), t, f); }
    CapitalsHoldNoBearer(t, f);
    assert f == 55;
    var w := x[..56];
    assert w[55] == x[f..f + 6][0] && w[..55] == x[..f] == t[..55];
    assert w[0] == w[..55][0] && AllIn(Caps, w[1..]) by {
      forall k | 0 <= k < 55 ensures InClass(Caps, w[1..][k]) {
        if k < 54 { assert w[1..][k] == w[..55][k + 1] == t[1..55][k]; }
      }
    }
    LanguageIsMatched(SecretKey, x, 56);
  }

  lemma CompletesLater(t: string, n: nat, k: nat)
    requires 0 < n <= k <= |t| && 55 <= k - n && (RewritesAt(Bearer, t, k) <==> RewritesAt(Bearer, t[n..], k - n))
    ensures CompletesKeyAt(t, k) <==> CompletesKeyAt(t[n..], k - n)
  {
    hide RewritesAt, MatchLen;
    assert t[k - 54..k] == t[n..][k - n - 54..k - n];
  }

  lemma MatchStopsAtNonWord(t: string)
    requires MatchLen(Bearer, t) > 0
    ensures var n := MatchLen(Bearer, t); n < |t| ==> !InClass(Word, t[n])
  {
    var a := 6 + Run(Space, t[6..]);
    var n := MatchLen(Bearer, t);
    assert n < |t| ==> t[a..][n - a] == t[n];
  }

  /** Secret keys survive the third rewrite exactly when it puts its capital at the end of an unfinished one. */
  lemma {:induction false} BearerLeavesKeyIff(t: string)
    requires Clean(Finder(SecretKey), t)
    ensures Clean(Finder(SecretKey), Rewrite(Bearer, t)) <==> !CompletesKey(t)
    decreases |t|
  {
    hide MatchLen, Mark;
    if t == "" {
      assert t[0..] == t;
    } else if MatchLen(Bearer, t) > 0 {
      KeyIffPastMatch(t);
    } else {
      KeyIffPastLetter(t);
    }
  }

  lemma {:induction false} KeyIffPastMatch(t: string)
    requires Clean(Finder(SecretKey), t) && MatchLen(Bearer, t) > 0
    ensures Clean(Finder(SecretKey), Rewrite(Bearer, t)) <==> !CompletesKey(t)
    decreases |t|, 0
  {
    hide MatchLen, Mark, RewritesAt, Rewrite;
    var n := MatchLen(Bearer, t);
    var rest := t[n..];
    var m, r := Mark(Bearer), Rewrite(Bearer, rest);
    RewriteSteps(Bearer, t);
    CleanSuffix(Finder(SecretKey), t, n);
    BearerLeavesKeyIff(rest);
    assert (m + r)[|m|..] == r;
    if Clean(Finder(SecretKey), r) {
      forall i | 0 <= i < |m| ensures MatchLen(SecretKey, m[i..] + r) == 0 { MarkStartsNothing(Bearer, SecretKey, i, r); }
      CleanAppend(Finder(SecretKey), m, r);
    } else if Clean(Finder(SecretKey), m + r) {
      CleanSuffix(Finder(SecretKey), m + r, |m|);
    }
    if CompletesKey(rest) {
      var k: nat :| CompletesKeyAt(rest, k);
      RewritesPastMatch(t, k + n);
      CompletesLater(t, n, k + n);
    }
    if CompletesKey(t) {
      var k: nat :| CompletesKeyAt(t, k);
      KeyStartsPastMatch(t, k);
      CompletesLater(t, n, k);
    }
  }

  lemma RewritesPastMatch(t: string, k: nat)
    requires MatchLen(Bearer, t) > 0
    ensures
      var n := MatchLen(Bearer, t);
      RewritesAt(Bearer, t, k) <==> k == 0 || (k >= n && RewritesAt(Bearer, t[n..], k - n))
  {
    hide MatchLen;
  }

  /** A key that is completed behind a Bearer match starts behind it, too. */
  lemma KeyStartsPastMatch(t: string, k: nat)
    requires MatchLen(Bearer, t) > 0 && CompletesKeyAt(t, k)
    ensures
      var n := MatchLen(Bearer, t);
      k >= n + 55 && RewritesAt(Bearer, t[n..], k - n)
  {
    hide MatchLen, RewritesAt;
    RewritesPastMatch(t, k);
    MatchStopsAtNonWord(t);
    forall j | k - 54 <= j < k ensures InClass(Caps, t[j]) { assert t[j] == t[k - 54..k][j - (k - 54)]; }
  }

  lemma {:induction false} KeyIffPastLetter(t: string)
    requires t != "" && Clean(Finder(SecretKey), t) && MatchLen(Bearer, t) == 0
    ensures Clean(Finder(SecretKey), Rewrite(Bearer, t)) <==> !CompletesKey(t)
    decreases |t|, 0
  {
    hide MatchLen, Mark;
    var rest := t[1..];
    var x, r := Rewrite(Bearer, t), Rewrite(Bearer, rest);
    CleanSuffix(Finder(SecretKey), t, 1);
    BearerLeavesKeyIff(rest);
    assert x == [t[0]] + r && x[0..] == x && x[1..] == r && [t[0]][0..] == [t[0]] && t[0..] == t;
    assert !MatchAt(Finder(SecretKey), t, 0);
    assert Clean(Finder(SecretKey), x) <==> (MatchLen(SecretKey, x) == 0 && Clean(Finder(SecretKey), r)) by {
      if Clean(Finder(SecretKey), x) {
        assert !MatchAt(Finder(SecretKey), x, 0);
        CleanSuffix(Finder(SecretKey), x, 1);
      } else if MatchLen(SecretKey, x) == 0 && Clean(Finder(SecretKey), r) {
        CleanAppend(Finder(SecretKey), [t[0]], r);
      }
    }
    if MatchLen(SecretKey, x) > 0 { HeadCompletes(t); }
    if CompletesKeyAt(t, 55) { HeadIsCompleted(t); }
    if CompletesKey(rest) {
      var k: nat :| CompletesKeyAt(rest, k);
      CompletesLater(t, 1, k + 1);
    }
    if CompletesKey(t) {
      var k: nat :| CompletesKeyAt(t, k);
      if k > 55 { CompletesLater(t, 1, k); }
    }
  }

  // ---------------------------------------------------------------------------------------------
  // What was there before.

  lemma {:induction false} RewrittenIsMatch(p: Pattern, s: string, k: nat)
    requires RewritesAt(p, s, k)
    ensures k < |s| && MatchLen(p, s[k..]) > 0
    decreases |s|
  {
    hide MatchLen;
    var n := MatchLen(p, s);
    if n > 0 {
      if k == 0 { assert s[0..] == s; } else {
        RewrittenIsMatch(p, s[n..], k - n);
        assert s[n..][k - n..] == s[k..];
      }
    } else {
      RewrittenIsMatch(p, s[1..], k - 1);
      assert s[1..][k - 1..] == s[k..];
    }
  }

  ghost predicate NoBracket(x: string, i: nat, n: nat) {
    i + n <= |x| && forall j | i <= j < i + n :: x[j] != '[' && x[j] != ']'
  }

  /** The scan of a rewrite goes over the `n` characters from `i` on without replacing any. */
  ghost predicate Passes(p: Pattern, s: string, i: nat, n: nat)
    decreases |s|
  {
    i + n <= |s| && (s == "" ||
      var m := MatchLen(p, s);
      if m > 0 then (i == 0 && n == 0) || (i >= m && Passes(p, s[m..], i - m, n))
      else if i > 0 then Passes(p, s[1..], i - 1, n)
      else n == 0 || Passes(p, s[1..], 0, n - 1))
  }

  /** Where in the outcome the scan is when it has come to `i`. */
  ghost function PlaceOf(p: Pattern, s: string, i: nat): nat
    decreases |s|
  {
    if s == "" || i == 0 then 0 else
    var m := MatchLen(p, s);
    if m > 0 then |Mark(p)| + (if i >= m then PlaceOf(p, s[m..], i - m) else 0) else 1 + PlaceOf(p, s[1..], i - 1)
  }

  lemma {:induction false} HeadPasses(p: Pattern, s: string, n: nat)
    requires n <= |s| && n <= First(Finder(p), s)
    ensures Passes(p, s, 0, n)
    decreases |s|
  {
    hide MatchLen;
    if n > 0 { HeadPasses(p, s[1..], n - 1); }
  }

  lemma PassSteps(p: Pattern, s: string, i: nat, n: nat)
    requires Passes(p, s, i, n) && s != ""
    ensures
      var m := MatchLen(p, s);
      if m > 0 then
        (i == 0 && n == 0) || (i >= m && Passes(p, s[m..], i - m, n) && PlaceOf(p, s, i) == |Mark(p)| + PlaceOf(p, s[m..], i - m))
      else if i > 0 then Passes(p, s[1..], i - 1, n) && PlaceOf(p, s, i) == 1 + PlaceOf(p, s[1..], i - 1)
      else n == 0 || (Passes(p, s[1..], 0, n - 1) && PlaceOf(p, s[1..], 0) == 0)
    ensures i == 0 ==> PlaceOf(p, s, i) == 0
    ensures i + n <= |s|
  {
    hide MatchLen, Mark;
  }

  predicate SamePiece(s: string, i: nat, t: string, j: nat, n: nat) {
    i + n <= |s| && j + n <= |t| && s[i..i + n] == t[j..j + n]
  }

  lemma PieceBehind(s: string, m: nat, i: nat, a: string, r: string, o: nat, n: nat)
    requires m <= |s| && SamePiece(s[m..], i, r, o, n)
    ensures SamePiece(s, m + i, a + r, |a| + o, n)
  {
    TailSlice(s, m, i, n);
    TailSlice(a + r, |a|, o, n);
    assert (a + r)[|a|..] == r;
  }

  lemma PieceFrom(s: string, r: string, n: nat)
    requires 0 < n && s != "" && SamePiece(s[1..], 0, r, 0, n - 1)
    ensures SamePiece(s, 0, [s[0]] + r, 0, n)
  {
    assert s[..n] == [s[0]] + s[1..][..n - 1];
    assert ([s[0]] + r)[..n] == [s[0]] + r[..n - 1];
  }

  lemma NoPiece(s: string, i: nat, x: string)
    requires i <= |s|
    ensures SamePiece(s, i, x, 0, 0)
  {
  }

  /** What the scan passes over is in the outcome, at its place. */
  lemma {:induction false} PassedIsKept(p: Pattern, s: string, i: nat, n: nat)
    requires Passes(p, s, i, n)
    ensures SamePiece(s, i, Rewrite(p, s), PlaceOf(p, s, i), n)
    decreases |s|
  {
    hide MatchLen, Mark, Rewrite, SamePiece, Passes, PlaceOf;
    if s == "" {
      EmptyPass(p, i, n);
    } else {
      RewriteSteps(p, s);
      PassSteps(p, s, i, n);
      var m := MatchLen(p, s);
      if i == 0 && n == 0 {
        NoPiece(s, 0, Rewrite(p, s));
      } else if m > 0 {
        PassedIsKept(p, s[m..], i - m, n);
        PieceBehind(s, m, i - m, Mark(p), Rewrite(p, s[m..]), PlaceOf(p, s[m..], i - m), n);
      } else if i > 0 {
        PassedIsKept(p, s[1..], i - 1, n);
        PieceBehind(s, 1, i - 1, [s[0]], Rewrite(p, s[1..]), PlaceOf(p, s[1..], i - 1), n);
      } else {
        PassedIsKept(p, s[1..], 0, n - 1);
        PieceFrom(s, Rewrite(p, s[1..]), n);
      }
    }
  }

  lemma EmptyPass(p: Pattern, i: nat, n: nat)
    requires Passes(p, "", i, n)
    ensures SamePiece("", i, Rewrite(p, ""), PlaceOf(p, "", i), n)
  {
  }

  /** Text at the head without brackets was there before the rewrite. */
  lemma HeadIsOld(p: Pattern, s: string, n: nat)
    requires p != Bearer && NoBracket(Rewrite(p, s), 0, n)
    ensures n <= |s| && Rewrite(p, s)[..n] == s[..n] && Passes(p, s, 0, n)
  {
    hide MatchLen, First, Rewrite, Mark, Passes;
    var f := First(Finder(p), s);
    if f == |s| {
      UntouchedWithoutMatch(p, s);
    } else {
      HeadIsKept(p, s, f);
      assert f >= n;
      assert Rewrite(p, s)[..n] == Rewrite(p, s)[..f][..n] == s[..f][..n] == s[..n];
    }
    HeadPasses(p, s, n);
  }

  lemma MarkIsBracketed()
    ensures Mark(SecretKey) == Mark(Jwt) && |Mark(Jwt)| == 10 && Mark(Jwt)[9] == ']'
  {
  }

  lemma PassesOn(p: Pattern, s: string, k: nat, n: nat)
    requires s != ""
    ensures
      var m := MatchLen(p, s);
      if m > 0 then
        Passes(p, s[m..], k, n) ==> Passes(p, s, k + m, n) && PlaceOf(p, s, k + m) == |Mark(p)| + PlaceOf(p, s[m..], k)
      else
        Passes(p, s[1..], k, n) ==> Passes(p, s, k + 1, n) && PlaceOf(p, s, k + 1) == 1 + PlaceOf(p, s[1..], k)
  {
    hide MatchLen, Mark;
  }

  /** Text of nine characters or more without brackets, anywhere in the outcome, is text the scan passed over. */
  lemma {:induction false} PieceIsPassed(p: Pattern, s: string, i: nat, n: nat) returns (k: nat)
    requires p != Bearer && n >= 9 && NoBracket(Rewrite(p, s), i, n)
    ensures Passes(p, s, k, n) && PlaceOf(p, s, k) == i
    decreases |s|
  {
    hide MatchLen, Mark, Rewrite, Passes, PlaceOf;
    NothingInNothing(p);
    MarkIsBracketed();
    var x := Rewrite(p, s);
    RewriteSteps(p, s);
    if i == 0 {
      HeadIsOld(p, s, n);
      AtHead(p, s);
      k := 0;
    } else if MatchLen(p, s) > 0 {
      var m := MatchLen(p, s);
      var r := Rewrite(p, s[m..]);
      assert x == Mark(p) + r;
      assert i >= 10 by { assert x[9] == Mark(p)[9]; }
      Shifted(Mark(p), r, i - 10, n);
      k := PieceIsPassed(p, s[m..], i - 10, n);
      PassesOn(p, s, k, n);
      k := k + m;
    } else {
      Shifted([s[0]], Rewrite(p, s[1..]), i - 1, n);
      k := PieceIsPassed(p, s[1..], i - 1, n);
      PassesOn(p, s, k, n);
      k := k + 1;
    }
  }

  lemma {:induction false} PassesLess(p: Pattern, s: string, i: nat, n: nat, less: nat)
    requires Passes(p, s, i, n) && less <= n
    ensures Passes(p, s, i, less)
    decreases |s|
  {
    hide MatchLen;
    if s != "" && less > 0 {
      var m := MatchLen(p, s);
      if m > 0 { PassesLess(p, s[m..], i - m, n, less); }
      else if i > 0 { PassesLess(p, s[1..], i - 1, n, less); }
      else { PassesLess(p, s[1..], 0, n - 1, less - 1); }
    } else if s != "" {
      PassesNothing(p, s, i, n);
    }
  }

  lemma {:induction false} PassesNothing(p: Pattern, s: string, i: nat, n: nat)
    requires Passes(p, s, i, n)
    ensures Passes(p, s, i, 0)
    decreases |s|
  {
    hide MatchLen;
    if s != "" && i > 0 {
      var m := MatchLen(p, s);
      if m > 0 { PassesNothing(p, s[m..], i - m, n); } else { PassesNothing(p, s[1..], i - 1, n); }
    }
  }

  lemma AtHead(p: Pattern, s: string)
    ensures PlaceOf(p, s, 0) == 0
  {
  }

  lemma TailSlice(s: string, m: nat, k: nat, n: nat)
    requires m + k + n <= |s|
    ensures s[m..][k..k + n] == s[m + k..m + k + n]
  {
  }

  lemma RewriteSteps(p: Pattern, s: string)
    ensures s == "" ==> Rewrite(p, s) == ""
    ensures s != "" && MatchLen(p, s) > 0 ==> Rewrite(p, s) == Mark(p) + Rewrite(p, s[MatchLen(p, s)..])
    ensures s != "" && MatchLen(p, s) == 0 ==> Rewrite(p, s) == [s[0]] + Rewrite(p, s[1..])
  {
    hide MatchLen, Mark;
  }

  lemma Shifted(a: string, r: string, i: nat, n: nat)
    requires NoBracket(a + r, |a| + i, n)
    ensures NoBracket(r, i, n) && r[i..i + n] == (a + r)[|a| + i..|a| + i + n]
  {
    assert forall j | i <= j < i + n :: r[j] == (a + r)[|a| + j];
  }
}
