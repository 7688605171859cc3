/** Decimal printing of integers, and joining of parts with a separator. */
module Printing {

  function Digit(n: nat): char
    requires n < 10
  {
    '0' + n as char
  }

  predicate AllDigits(s: string) {
    forall i | 0 <= i < |s| :: '0' <= s[i] <= '9'
  }

  function Digits(n: nat): (s: string)
    ensures s != "" && AllDigits(s)
  {
    if n < 10 then [Digit(n)] else Digits(n / 10) + [Digit(n % 10)]
  }

  function ToDecimal(n: int): string {
    if n < 0 then "-" + Digits(-n) else Digits(n)
  }

  /** parseInt on a string of digits. */
  function ParseDigits(s: string): nat
    requires AllDigits(s)
  {
    if s == "" then 0 else 10 * ParseDigits(s[..|s| - 1]) + (s[|s| - 1] as int - '0' as int)
  }

  lemma {:induction false} ParseInvertsDigits(n: nat)
    ensures ParseDigits(Digits(n)) == n
  {
    var s := Digits(n);
    if n < 10 {
      assert s[..0] == "";
    } else {
      ParseInvertsDigits(n / 10);
      assert s[..|s| - 1] == Digits(n / 10);
    }
  }

  lemma SignShows(n: int)
    ensures ToDecimal(n) != "" && (n < 0 <==> ToDecimal(n)[0] == '-')
  {
    if n >= 0 { assert '0' <= Digits(n)[0] <= '9'; }
  }

  /** Different integers print differently. */
  lemma ToDecimalIsInjective(a: int, b: int)
    requires ToDecimal(a) == ToDecimal(b)
    ensures a == b
  {
    SignShows(a);
    SignShows(b);
    if a < 0 {
      assert ToDecimal(a)[1..] == Digits(-a) && ToDecimal(b)[1..] == Digits(-b);
      ParseInvertsDigits(-a);
      ParseInvertsDigits(-b);
    } else {
      ParseInvertsDigits(a);
      ParseInvertsDigits(b);
    }
  }

  function Join(parts: seq<string>, sep: char): string {
    if parts == [] then "" else if |parts| == 1 then parts[0] else parts[0] + [sep] + Join(parts[1..], sep)
  }

  function IndexOf(s: string, sep: char): (i: nat)
    ensures i <= |s| && (i < |s| ==> s[i] == sep) && forall k | 0 <= k < i :: s[k] != sep
  {
    if s == "" || s[0] == sep then 0 else 1 + IndexOf(s[1..], sep)
  }

  function Split(s: string, sep: char): seq<string>
    decreases |s|
  {
    var i := IndexOf(s, sep);
    if i == |s| then [s] else [s[..i]] + Split(s[i + 1..], sep)
  }

  lemma SplitHead(head: string, sep: char, rest: string)
    requires sep !in head
    ensures Split(head + [sep] + rest, sep) == [head] + Split(rest, sep)
  {
    var s := head + [sep] + rest;
    var i := IndexOf(s, sep);
    assert s[|head|] == sep;
    forall k | 0 <= k < |head| ensures s[k] != sep { assert s[k] == head[k] && head[k] in head; }
    assert s[..i] == head && s[i + 1..] == rest;
  }

  /** Splitting undoes joining when no part holds the separator. */
  lemma {:induction false} SplitInvertsJoin(parts: seq<string>, sep: char)
    requires parts != [] && forall i | 0 <= i < |parts| :: sep !in parts[i]
    ensures Split(Join(parts, sep), sep) == parts
  {
    if |parts| == 1 {
      var i := IndexOf(parts[0], sep);
      assert forall k | 0 <= k < |parts[0]| :: parts[0][k] in parts[0];
    } else {
      SplitInvertsJoin(parts[1..], sep);
      SplitHead(parts[0], sep, Join(parts[1..], sep));
    }
  }
}
