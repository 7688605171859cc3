/** What redaction is, read off the regular expressions: the words of each pattern letter by letter, and replacing all of
    them as leftmost-longest. */
module RedactionMeaning {
  import opened Rewriting
  import opened RedactionPatterns
  import opened RedactionStages
  import opened SeedPhrases
  import opened RedactionEngine

  predicate IsCapital(ch: char) {
    'A' <= ch <= 'Z' || '0' <= ch <= '9'
  }

  predicate IsTokenChar(ch: char) {
    'a' <= ch <= 'z' || IsCapital(ch) || ch in "-_"
  }

  /** ECMAScript white space and line terminators. */
  predicate IsWhite(ch: char) {
    var code := ch as int;
    code in {0x9, 0xA, 0xB, 0xC, 0xD, 0x20, 0xA0, 0x1680, 0x2028, 0x2029, 0x202F, 0x205F, 0x3000, 0xFEFF} || 0x2000 <= code <= 0x200A
  }

  ghost predicate IsToken(w: string) {
    w != "" && forall i | 0 <= i < |w| :: IsTokenChar(w[i])
  }

  ghost predicate IsBlank(w: string) {
    forall i | 0 <= i < |w| :: IsWhite(w[i])
  }

  ghost predicate IsKey(w: string) {
    |w| == 56 && w[0] == 'S' && forall i | 1 <= i < 56 :: IsCapital(w[i])
  }

  ghost predicate IsJwt(w: string) {
    exists a, b, c :: IsToken(a) && IsToken(b) && IsToken(c) && w == "eyJ" + a + "." + b + "." + c
  }

  ghost predicate IsBearer(w: string) {
    exists head: string, gap, token :: SpellsInAnyCase(head) && gap != "" && IsBlank(gap) && IsToken(token) && w == head + gap + token
  }

  predicate SpellsInAnyCase(head: string) {
    |head| == 6 && forall i | 0 <= i < 6 :: head[i] == "bearer"[i] || head[i] == "BEARER"[i]
  }

  ghost predicate IsWord(p: Pattern, w: string) {
    match p
    case SecretKey => IsKey(w)
    case Jwt => IsJwt(w)
    case Bearer => IsBearer(w)
  }

  lemma ClassesAre(ch: char)
    ensures InClass(Caps, ch) <==> IsCapital(ch)
    ensures InClass(Word, ch) <==> IsTokenChar(ch)
    ensures InClass(Space, ch) <==> IsWhite(ch)
  {
  }

  lemma AllInIs(w: string)
    ensures AllIn(Word, w) && w != "" <==> IsToken(w)
    ensures AllIn(Space, w) <==> IsBlank(w)
    ensures AllIn(Caps, w) <==> forall i | 0 <= i < |w| :: IsCapital(w[i])
  {
    hide InClass, IsCapital, IsTokenChar, IsWhite;
    forall i | 0 <= i < |w| ensures
      (InClass(Caps, w[i]) <==> IsCapital(w[i])) && (InClass(Word, w[i]) <==> IsTokenChar(w[i])) && (InClass(Space, w[i]) <==> IsWhite(w[i]))
    {
      ClassesAre(w[i]);
    }
  }

  lemma KeyIs(w: string)
    ensures InLanguage(SecretKey, w) <==> IsKey(w)
  {
    hide InClass, IsCapital;
    if |w| == 56 {
      AllInIs(w[1..]);
      assert forall i | 1 <= i < 56 :: w[i] == w[1..][i - 1];
      assert forall i | 0 <= i < 55 :: w[1..][i] == w[i + 1];
    }
  }

  lemma DottedIs(w: string)
    ensures IsDottedWord(w) <==> |w| >= 2 && IsToken(w[..|w| - 1]) && w == w[..|w| - 1] + "."
  {
    hide AllIn, IsToken;
    if |w| >= 2 {
      AllInIs(w[..|w| - 1]);
      assert w == w[..|w| - 1] + [w[|w| - 1]];
    }
  }

  lemma JwtIs(w: string)
    ensures InLanguage(Jwt, w) <==> IsJwt(w)
  {
    if InLanguage(Jwt, w) { JwtHasParts(w); }
    if IsJwt(w) {
      var a, b, c :| IsToken(a) && IsToken(b) && IsToken(c) && w == "eyJ" + a + "." + b + "." + c;
      PartsAreJwt(w, a, b, c);
    }
  }

  lemma JwtHasParts(w: string)
    requires InLanguage(Jwt, w)
    ensures IsJwt(w)
  {
    hide InLanguage, AllIn, IsToken, IsDottedWord;
    var i, j := JwtParts(w);
    DottedIs(w[3..i]);
    DottedIs(w[i..j]);
    AllInIs(w[j..]);
    var a, b, c := w[3..i][..i - 4], w[i..j][..j - i - 1], w[j..];
    FourParts(w, i, j);
    Ungroup(w[..3], a, b, c);
  }

  lemma FourParts(w: string, i: nat, j: nat)
    requires 3 <= i <= j <= |w|
    ensures w == w[..3] + w[3..i] + w[i..j] + w[j..]
  {
  }

  lemma Ungroup(h: string, a: string, b: string, c: string)
    ensures h + (a + ".") + (b + ".") + c == h + a + "." + b + "." + c
  {
  }

  lemma PartsAreJwt(w: string, a: string, b: string, c: string)
    requires IsToken(a) && IsToken(b) && IsToken(c) && w == "eyJ" + a + "." + b + "." + c
    ensures InLanguage(Jwt, w)
  {
    hide AllIn, IsToken, IsDottedWord;
    assert a != "" && b != "" && c != "" by { NotEmpty(a); NotEmpty(b); NotEmpty(c); }
    var i := 3 + |a| + 1;
    var j := i + |b| + 1;
    assert w[..3] == "eyJ" && w[3..i] == a + "." && w[i..j] == b + "." && w[j..] == c;
    assert (a + ".")[..|a|] == a && (b + ".")[..|b|] == b;
    DottedIs(w[3..i]);
    DottedIs(w[i..j]);
    AllInIs(c);
  }

  lemma NotEmpty(a: string)
    requires IsToken(a)
    ensures a != ""
  {
  }

  lemma SpellingIs(w: string)
    ensures SpellsBearer(w) <==> SpellsInAnyCase(w)
  {
    if SpellsInAnyCase(w) {
      assert SameLetter(w[0], 'b') && SameLetter(w[1], 'e') && SameLetter(w[2], 'a');
      assert SameLetter(w[3], 'r') && SameLetter(w[4], 'e') && SameLetter(w[5], 'r');
    }
  }

  lemma BearerIs(w: string)
    ensures InLanguage(Bearer, w) <==> IsBearer(w)
  {
    hide AllIn, IsToken, IsBlank, SpellsBearer, SpellsInAnyCase;
    if InLanguage(Bearer, w) {
      var i :| 6 < i < |w| && SpellsBearer(w[..6]) && AllIn(Space, w[6..i]) && AllIn(Word, w[i..]);
      SpellingIs(w[..6]);
      AllInIs(w[6..i]);
      AllInIs(w[i..]);
      assert w == w[..6] + w[6..i] + w[i..];
    }
    if IsBearer(w) {
      var head: string, gap, token :| SpellsInAnyCase(head) && gap != "" && IsBlank(gap) && IsToken(token) && w == head + gap + token;
      PartsAreBearer(w, head, gap, token);
    }
  }

  lemma PartsAreBearer(w: string, head: string, gap: string, token: string)
    requires SpellsInAnyCase(head) && gap != "" && IsBlank(gap) && IsToken(token) && w == head + gap + token
    ensures InLanguage(Bearer, w)
  {
    hide AllIn, IsToken, IsBlank, SpellsBearer, SpellsInAnyCase;
    NotEmpty(token);
    assert |head| == 6 by { SixLetters(head); }
    var i := 6 + |gap|;
    assert w[..6] == head && w[6..i] == gap && w[i..] == token;
    SpellingIs(head);
    AllInIs(gap);
    AllInIs(token);
  }

  lemma SixLetters(head: string)
    requires SpellsInAnyCase(head)
    ensures |head| == 6
  {
  }

  /** The words of each pattern are those its regular expression describes. */
  lemma LanguageIs(p: Pattern, w: string)
    ensures InLanguage(p, w) <==> IsWord(p, w)
  {
    hide InLanguage, IsKey, IsJwt, IsBearer;
    match p
    case SecretKey => KeyIs(w);
    case Jwt => JwtIs(w);
    case Bearer => BearerIs(w);
  }

  // ---------------------------------------------------------------------------------------------
  // Replacing.

  ghost predicate IsWordAt(p: Pattern, s: string, i: nat, j: nat) {
    i <= j <= |s| && IsWord(p, s[i..j])
  }

  /** The stretch from `f` to `e` is a word, none starts before it, and none that starts with it is longer. */
  ghost predicate IsFirstWord(p: Pattern, s: string, f: nat, e: nat) {
    IsWordAt(p, s, f, e) && forall i: nat, j: nat | IsWordAt(p, s, i, j) :: i > f || (i == f && j <= e)
  }

  /** `r` is `s` with every word of the pattern replaced by the mark, leftmost and longest first. */
  ghost predicate IsReplaced(p: Pattern, mark: string, s: string, r: string)
    decreases |s|
  {
    if forall i: nat, j: nat :: !IsWordAt(p, s, i, j) then r == s
    else exists f: nat, e: nat, rest: string ::
      f < e && IsFirstWord(p, s, f, e) && r == s[..f] + mark + rest && IsReplaced(p, mark, s[e..], rest)
  }

  ghost predicate HoldsWord(p: Pattern, s: string) {
    exists i: nat, j: nat :: IsWordAt(p, s, i, j)
  }

  lemma NextReplaced(p: Pattern, mark: string, s: string, r: string) returns (f: nat, e: nat, rest: string)
    requires IsReplaced(p, mark, s, r) && HoldsWord(p, s)
    ensures f < e <= |s| && IsFirstWord(p, s, f, e) && r == s[..f] + mark + rest && IsReplaced(p, mark, s[e..], rest)
  {
    hide IsWord;
    f, e, rest :| f < e && IsFirstWord(p, s, f, e) && r == s[..f] + mark + rest && IsReplaced(p, mark, s[e..], rest);
  }

  lemma NothingReplaced(p: Pattern, mark: string, s: string, r: string)
    requires IsReplaced(p, mark, s, r) && !HoldsWord(p, s)
    ensures r == s
  {
    hide IsWordAt;
  }

  lemma FirstWordIsUnique(p: Pattern, s: string, f: nat, e: nat, g: nat, d: nat)
    requires IsFirstWord(p, s, f, e) && IsFirstWord(p, s, g, d)
    ensures f == g && e == d
  {
    hide IsWordAt;
  }

  lemma {:induction false} ReplacedIsUnique(p: Pattern, mark: string, s: string, r: string, t: string)
    requires IsReplaced(p, mark, s, r) && IsReplaced(p, mark, s, t)
    ensures r == t
    decreases |s|
  {
    hide IsFirstWord, IsReplaced, HoldsWord;
    if HoldsWord(p, s) {
      var f, e, rest := NextReplaced(p, mark, s, r);
      var g, d, tail := NextReplaced(p, mark, s, t);
      FirstWordIsUnique(p, s, f, e, g, d);
      ReplacedIsUnique(p, mark, s[e..], rest, tail);
    } else {
      NothingReplaced(p, mark, s, r);
      NothingReplaced(p, mark, s, t);
    }
  }

  lemma WordFits(p: Pattern, s: string, i: nat, j: nat)
    requires IsWordAt(p, s, i, j)
    ensures i <= j <= |s|
  {
  }

  /** A match at `i` starts a word there, and the longest one. */
  lemma MatchIsWord(p: Pattern, s: string, i: nat)
    requires i <= |s|
    ensures var n := MatchLen(p, s[i..]);
      (n > 0 ==> IsWordAt(p, s, i, i + n)) && forall j: nat | IsWordAt(p, s, i, j) :: n > 0 && j <= i + n
  {
    hide MatchLen, InLanguage, IsWord;
    var n := MatchLen(p, s[i..]);
    if n > 0 {
      MatchIsInLanguage(p, s[i..]);
      assert s[i..][..n] == s[i..i + n];
      LanguageIs(p, s[i..i + n]);
    }
    forall j: nat | IsWordAt(p, s, i, j) ensures n > 0 && j <= i + n {
      LanguageIs(p, s[i..j]);
      assert s[i..][..j - i] == s[i..j];
      LanguageIsMatched(p, s[i..], j - i);
    }
  }

  lemma {:induction false} RewriteIsReplaced(p: Pattern, s: string)
    ensures IsReplaced(p, Mark(p), s, Rewrite(p, s))
    decreases |s|
  {
    hide MatchLen, IsWordAt, Mark, First, ReplaceAll;
    var f := First(Finder(p), s);
    forall i: nat, j: nat | IsWordAt(p, s, i, j) ensures i <= |s| && MatchAt(Finder(p), s, i) && i >= f {
      WordFits(p, s, i, j);
      MatchIsWord(p, s, i);
    }
    if f == |s| {
      UntouchedWithoutMatch(p, s);
      assert s[|s|..] == "";
      NothingInNothing(p);
    } else {
      var n := MatchLen(p, s[f..]);
      MatchIsWord(p, s, f);
      ReplaceAtFirst(Finder(p), Mark(p), s, f, n);
      RewriteIsReplaced(p, s[f + n..]);
      assert IsFirstWord(p, s, f, f + n);
    }
  }

  // ---------------------------------------------------------------------------------------------
  // The whole string.

  ghost predicate IsLower(w: string) {
    w != "" && forall i | 0 <= i < |w| :: 'a' <= w[i] <= 'z'
  }

  /** Twelve or twenty-four lower-case words, white space between and perhaps around them. */
  ghost predicate IsSeedLayout(value: string) {
    exists lead, words: seq<string>, gaps: seq<string>, trail ::
      && (|words| == 12 || |words| == 24) && |gaps| == |words| - 1 && value == lead + Phrase(words, gaps) + trail
      && (forall i | 0 <= i < |words| :: IsLower(words[i]))
      && (forall i | 0 <= i < |gaps| :: gaps[i] != "" && IsBlank(gaps[i])) && IsBlank(lead) && IsBlank(trail)
  }

  lemma SeedPhraseIff(value: string)
    ensures IsSeedPhrase(value) <==> IsSeedLayout(value)
  {
    hide IsSeedPhrase, AllIn, IsBlank, Phrase;
    if IsSeedPhrase(value) {
      var lead, words, gaps, trail := SeedPhraseIsLayout(value);
      AllInIs(lead);
      AllInIs(trail);
      forall i | 0 <= i < |gaps| ensures gaps[i] != "" && IsBlank(gaps[i]) { AllInIs(gaps[i]); }
      forall i | 0 <= i < |words| ensures IsLower(words[i]) { assert LowerCase(words[i]); }
    }
    if IsSeedLayout(value) {
      var lead, words: seq<string>, gaps: seq<string>, trail :|
        && (|words| == 12 || |words| == 24) && |gaps| == |words| - 1 && value == lead + Phrase(words, gaps) + trail
        && (forall i | 0 <= i < |words| :: IsLower(words[i]))
        && (forall i | 0 <= i < |gaps| :: gaps[i] != "" && IsBlank(gaps[i])) && IsBlank(lead) && IsBlank(trail);
      AllInIs(lead);
      AllInIs(trail);
      forall i | 0 <= i < |gaps| ensures Blanks(gaps[i]) { AllInIs(gaps[i]); }
      forall i | 0 <= i < |words| ensures LowerCase(words[i]) { assert IsLower(words[i]); }
      PhraseIsRecognised(lead, words, gaps, trail);
    }
  }

  /** A seed phrase becomes the mark; in any other text all keys are replaced, then all JSON web tokens, then all bearer tokens. */
  ghost predicate IsRedacted(value: string, out: string) {
    if IsSeedLayout(value) then out == "[REDACTED]"
    else exists one, two ::
      && IsReplaced(SecretKey, "[REDACTED]", value, one)
      && IsReplaced(Jwt, "[REDACTED]", one, two)
      && IsReplaced(Bearer, "Bearer [REDACTED]", two, out)
  }

  /** The engine's outcome for a string is the one the regular expressions prescribe, and the only one. */
  lemma RedactTextIs(value: string, out: string)
    ensures out == RedactText(value) <==> IsRedacted(value, out)
  {
    hide IsSeedPhrase, IsSeedLayout, IsReplaced, Rewrite;
    SeedPhraseIff(value);
    if !IsSeedLayout(value) {
      var one := Rewrite(SecretKey, value);
      var two := Rewrite(Jwt, one);
      RewriteIsReplaced(SecretKey, value);
      RewriteIsReplaced(Jwt, one);
      RewriteIsReplaced(Bearer, two);
      if IsRedacted(value, out) {
        var a, b :| IsReplaced(SecretKey, "[REDACTED]", value, a) && IsReplaced(Jwt, "[REDACTED]", a, b)
          && IsReplaced(Bearer, "Bearer [REDACTED]", b, out);
        ReplacedIsUnique(SecretKey, "[REDACTED]", value, a, one);
        ReplacedIsUnique(Jwt, "[REDACTED]", one, b, two);
        ReplacedIsUnique(Bearer, "Bearer [REDACTED]", two, out, RedactText(value));
      }
    }
  }

  /** Nothing in the text is to be hidden. */
  ghost predicate IsInnocent(value: string) {
    !IsSeedLayout(value) && forall p: Pattern :: !HoldsWord(p, value)
  }

  lemma OccursIs(p: Pattern, s: string)
    ensures Occurs(p, s) <==> HoldsWord(p, s)
  {
    hide InLanguage, IsWord;
    if Occurs(p, s) {
      var i, j :| 0 <= i <= j <= |s| && InLanguage(p, s[i..j]);
      LanguageIs(p, s[i..j]);
      assert IsWordAt(p, s, i, j);
    }
    if HoldsWord(p, s) {
      var i: nat, j: nat :| IsWordAt(p, s, i, j);
      LanguageIs(p, s[i..j]);
    }
  }

  /** A text comes out as it went in if and only if there is nothing in it to hide. */
  lemma TextIsKeptIffInnocent(value: string)
    ensures RedactText(value) == value <==> IsInnocent(value)
  {
    hide IsSeedPhrase, IsSeedLayout, RedactText, Occurs, HoldsWord;
    TextIsKeptIff(value);
    SeedPhraseIff(value);
    forall p: Pattern ensures Occurs(p, value) <==> HoldsWord(p, value) { OccursIs(p, value); }
    if !HoldsWord(SecretKey, value) && !HoldsWord(Jwt, value) && !HoldsWord(Bearer, value) {
      forall p: Pattern ensures !HoldsWord(p, value) { match p { case SecretKey => case Jwt => case Bearer => } }
    }
  }
}
