/** The canonical string of a payslip, which is what gets signed. */
module Payslip {
  import opened Sorting
  import opened Printing

  /** `generatedAt` is the instant's ISO text. */
  datatype Fields = Fields(payslipId: string, workerAddress: string, period: string, totalGrossAmount: string, generatedAt: string)

  function PrintAll(ids: seq<int>): (r: seq<string>)
    ensures |r| == |ids| && forall i | 0 <= i < |ids| :: r[i] == ToDecimal(ids[i])
  {
    if ids == [] then [] else [ToDecimal(ids[0])] + PrintAll(ids[1..])
  }

  function Parts(f: Fields, sortedIds: seq<int>): seq<string> {
    ["payslipId:" + f.payslipId, "workerAddress:" + f.workerAddress, "period:" + f.period,
     "totalGrossAmount:" + f.totalGrossAmount, "streamIds:" + Join(PrintAll(sortedIds), ','),
     "generatedAt:" + f.generatedAt]
  }

  function Canonical(f: Fields, ids: seq<int>): string {
    Join(Parts(f, SortAscending(ids)), '|')
  }

  predicate BarFree(f: Fields) {
    '|' !in f.payslipId && '|' !in f.workerAddress && '|' !in f.period
    && '|' !in f.totalGrossAmount && '|' !in f.generatedAt
  }

  lemma DecimalHasNoSeparator(n: int)
    ensures ',' !in ToDecimal(n) && '|' !in ToDecimal(n) && ToDecimal(n) != ""
  {
  }

  lemma {:induction false} JoinedIdsHaveNoBar(parts: seq<string>)
    requires forall i | 0 <= i < |parts| :: '|' !in parts[i]
    ensures '|' !in Join(parts, ',')
  {
    if |parts| > 1 { JoinedIdsHaveNoBar(parts[1..]); }
  }

  lemma PrintedHaveNoSeparator(ids: seq<int>)
    ensures forall i | 0 <= i < |ids| :: ',' !in PrintAll(ids)[i] && '|' !in PrintAll(ids)[i] && PrintAll(ids)[i] != ""
  {
    forall i | 0 <= i < |ids| ensures ',' !in PrintAll(ids)[i] && '|' !in PrintAll(ids)[i] && PrintAll(ids)[i] != "" {
      DecimalHasNoSeparator(ids[i]);
    }
  }

  /** A printed id list determines the ids: the comma never occurs inside a number, and no number is empty. */
  lemma IdListIsInjective(a: seq<int>, b: seq<int>)
    requires Join(PrintAll(a), ',') == Join(PrintAll(b), ',')
    ensures a == b
  {
    PrintedHaveNoSeparator(a);
    PrintedHaveNoSeparator(b);
    JoinIsEmptyIff(PrintAll(a));
    JoinIsEmptyIff(PrintAll(b));
    if a != [] {
      SplitInvertsJoin(PrintAll(a), ',');
      SplitInvertsJoin(PrintAll(b), ',');
      forall i | 0 <= i < |a| ensures a[i] == b[i] {
        assert ToDecimal(a[i]) == PrintAll(a)[i] == PrintAll(b)[i] == ToDecimal(b[i]);
        ToDecimalIsInjective(a[i], b[i]);
      }
    }
  }

  lemma JoinIsEmptyIff(parts: seq<string>)
    requires forall i | 0 <= i < |parts| :: parts[i] != ""
    ensures Join(parts, ',') == "" <==> parts == []
  {
    if parts != [] { assert parts[0] != ""; }
  }

  lemma CancelPrefix(p: string, a: string, b: string)
    requires p + a == p + b
    ensures a == b
  {
    assert a == (p + a)[|p|..] && b == (p + b)[|p|..];
  }

  /** The order in which the ids are listed does not matter. */
  lemma OrderOfIdsIsIrrelevant(f: Fields, a: seq<int>, b: seq<int>)
    requires multiset(a) == multiset(b)
    ensures Canonical(f, a) == Canonical(f, b)
  {
    SortSorts(a);
    SortSorts(b);
    SortedIsUnique(SortAscending(a), SortAscending(b));
  }

  // ---------------------------------------------------------------------------------------------
  // Fields that hold a bar.

  const WORKER := "|workerAddress:"
  const PERIOD := "|period:"
  const TOTAL := "|totalGrossAmount:"

  predicate IsLabel(l: string) {
    |l| > 1 && l[0] == '|' && forall i | 1 <= i < |l| :: l[i] != '|'
  }

  predicate At(s: string, j: nat, l: string) {
    j + |l| <= |s| && s[j..j + |l|] == l
  }

  ghost predicate Holds(s: string, l: string) {
    exists j: nat :: At(s, j, l)
  }

  /** The four free fields with the three labels between them. */
  function Head(a: string, b: string, c: string, d: string): string {
    a + WORKER + b + PERIOD + c + TOTAL + d
  }

  lemma HeadParts(a: string, b: string, c: string, d: string)
    ensures
      var s, i, j := Head(a, b, c, d), |a| + |WORKER|, |a| + |WORKER| + |b| + |PERIOD|;
      var k := j + |c| + |TOTAL|;
      && |s| == k + |d| && s[..|a|] == a && At(s, |a|, WORKER) && s[i..i + |b|] == b && At(s, i + |b|, PERIOD)
      && s[j..j + |c|] == c && At(s, j + |c|, TOTAL) && s[k..] == d
  {
  }

  /** A label that starts within a field ends within it. */
  lemma LabelInField(s: string, start: nat, field: string, j: nat, l: string)
    requires IsLabel(l) && At(s, j, l) && start <= j < start + |field| <= |s| && s[start..start + |field|] == field
    requires start + |field| == |s| || s[start + |field|] == '|'
    ensures Holds(field, l)
  {
    var end := start + |field|;
    forall x | j < x < j + |l| ensures s[x] != '|' { assert s[x] == s[j..j + |l|][x - j] == l[x - j]; }
    assert j + |l| <= end;
    assert field[j - start..j - start + |l|] == l by {
      forall x | 0 <= x < |l| ensures field[j - start + x] == l[x] {
        assert field[j - start + x] == s[start..end][j - start + x] == s[j + x] == s[j..j + |l|][x];
      }
    }
    assert At(field, j - start, l);
  }

  /** A label that starts within another label is that label. */
  lemma LabelInLabel(s: string, i: nat, m: string, j: nat, l: string)
    requires IsLabel(l) && IsLabel(m) && At(s, i, m) && At(s, j, l) && i <= j < i + |m|
    ensures i == j && l[1] == m[1]
  {
    assert l[0] == s[j..j + |l|][0] == s[j] == s[i..i + |m|][j - i] == m[j - i];
    assert l[1] == s[j..j + |l|][1] == s[j + 1] && m[1] == s[i..i + |m|][1] == s[i + 1];
  }

  lemma Labels()
    ensures IsLabel(WORKER) && IsLabel(PERIOD) && IsLabel(TOTAL)
    ensures WORKER[1] == 'w' && PERIOD[1] == 'p' && TOTAL[1] == 't'
  {
  }

  /** Where a label can stand: at its own place, or inside a field that holds it. */
  lemma WhereLabelStands(a: string, b: string, c: string, d: string, x: nat, l: string)
    requires At(Head(a, b, c, d), x, l) && l in [WORKER, PERIOD, TOTAL]
    ensures
      var j := |a| + |WORKER|;
      var k := j + |b| + |PERIOD|;
      var m := k + |c| + |TOTAL|;
      (x == |a| && l == WORKER) || (x == j + |b| && l == PERIOD) || (x == k + |c| && l == TOTAL)
      || (x < |a| && Holds(a, l)) || (j <= x < j + |b| && Holds(b, l)) || (k <= x < k + |c| && Holds(c, l)) || (m <= x && Holds(d, l))
  {
    hide Head, Holds, At;
    Labels();
    HeadParts(a, b, c, d);
    var s := Head(a, b, c, d);
    var j := |a| + |WORKER|;
    var k := j + |b| + |PERIOD|;
    var m := k + |c| + |TOTAL|;
    BarsInHead(a, b, c, d);
    Within(s, x, l);
    if x < |a| {
      LabelInField(s, 0, a, x, l);
    } else if x < j {
      LabelInLabel(s, |a|, WORKER, x, l);
    } else if x < j + |b| {
      LabelInField(s, j, b, x, l);
    } else if x < k {
      LabelInLabel(s, j + |b|, PERIOD, x, l);
    } else if x < k + |c| {
      LabelInField(s, k, c, x, l);
    } else if x < m {
      LabelInLabel(s, k + |c|, TOTAL, x, l);
    } else {
      LabelInField(s, m, d, x, l);
    }
  }

  lemma BarsInHead(a: string, b: string, c: string, d: string)
    ensures
      var s := Head(a, b, c, d);
      var j := |a| + |WORKER|;
      var k := j + |b| + |PERIOD|;
      var m := k + |c| + |TOTAL|;
      && |s| == m + |d| && s[0..0 + |a|] == a && s[m..m + |d|] == d
      && s[|a|] == s[j + |b|] == s[k + |c|] == '|'
  {
    hide Head, At;
    HeadParts(a, b, c, d);
    Labels();
    var s := Head(a, b, c, d);
    var j := |a| + |WORKER|;
    var k := j + |b| + |PERIOD|;
    BarAt(s, |a|, WORKER);
    BarAt(s, j + |b|, PERIOD);
    BarAt(s, k + |c|, TOTAL);
  }

  lemma BarAt(s: string, i: nat, l: string)
    requires At(s, i, l) && IsLabel(l)
    ensures i < |s| && s[i] == '|'
  {
    assert s[i..i + |l|][0] == l[0];
  }

  lemma Within(s: string, x: nat, l: string)
    requires At(s, x, l) && IsLabel(l)
    ensures x < |s|
  {
  }

  /** No label is held by one of the two fields beside it. */
  ghost predicate Clear(a: string, b: string, c: string, d: string) {
    !Holds(a, WORKER) && !Holds(b, WORKER) && !Holds(b, PERIOD) && !Holds(c, PERIOD) && !Holds(c, TOTAL) && !Holds(d, TOTAL)
  }

  lemma ClearIsUnique(a: string, b: string, c: string, d: string, e: string, f: string, g: string, h: string)
    requires Clear(a, b, c, d) && Head(a, b, c, d) == Head(e, f, g, h)
    ensures a == e && b == f && c == g && d == h
  {
    hide Head, Holds, At;
    HeadParts(e, f, g, h);
    var x := |e|;
    var y := x + |WORKER| + |f|;
    var z := y + |PERIOD| + |g|;
    WhereLabelStands(a, b, c, d, x, WORKER);
    WhereLabelStands(a, b, c, d, y, PERIOD);
    WhereLabelStands(a, b, c, d, z, TOTAL);
    Labels();
    HeadParts(a, b, c, d);
    assert |a| == |e| && |b| == |f| && |c| == |g|;
  }

  lemma SplitAtLabel(s: string, l: string) returns (x: string, y: string)
    requires Holds(s, l)
    ensures s == x + l + y
  {
    var j: nat :| At(s, j, l);
    x, y := s[..j], s[j + |l|..];
    assert s == s[..j] + s[j..j + |l|] + s[j + |l|..];
  }

  /** A field that holds a label beside it can be cut there instead. */
  lemma UnclearIsAmbiguous(a: string, b: string, c: string, d: string) returns (e: string, f: string, g: string, h: string)
    requires !Clear(a, b, c, d)
    ensures Head(e, f, g, h) == Head(a, b, c, d) && (e != a || f != b || g != c || h != d)
  {
    hide Holds, Head;
    e, f, g, h := a, b, c, d;
    var x, y;
    if Holds(a, WORKER) {
      x, y := SplitAtLabel(a, WORKER);
      e, f := x, y + WORKER + b;
      CutWorker(x, y, b, c, d);
    } else if Holds(b, WORKER) {
      x, y := SplitAtLabel(b, WORKER);
      e, f := a + WORKER + x, y;
      CutWorker(a, x, y, c, d);
    } else if Holds(b, PERIOD) {
      x, y := SplitAtLabel(b, PERIOD);
      f, g := x, y + PERIOD + c;
      CutPeriod(a, x, y, c, d);
    } else if Holds(c, PERIOD) {
      x, y := SplitAtLabel(c, PERIOD);
      f, g := b + PERIOD + x, y;
      CutPeriod(a, b, x, y, d);
    } else if Holds(c, TOTAL) {
      x, y := SplitAtLabel(c, TOTAL);
      g, h := x, y + TOTAL + d;
      CutTotal(a, b, x, y, d);
    } else {
      x, y := SplitAtLabel(d, TOTAL);
      g, h := c + TOTAL + x, y;
      CutTotal(a, b, c, x, y);
    }
  }

  lemma Reassociate(x: string, l: string, y: string, z: string)
    ensures x + l + (y + l + z) == (x + l + y) + l + z
  {
  }

  lemma CutWorker(x: string, y: string, z: string, c: string, d: string)
    ensures Head(x, y + WORKER + z, c, d) == Head(x + WORKER + y, z, c, d)
  {
    Reassociate(x, WORKER, y, z);
  }

  lemma CutPeriod(a: string, x: string, y: string, z: string, d: string)
    ensures Head(a, x, y + PERIOD + z, d) == Head(a, x + PERIOD + y, z, d)
  {
    Reassociate(a + WORKER + x, PERIOD, y, z);
    assert a + WORKER + (x + PERIOD + y) == a + WORKER + x + PERIOD + y;
  }

  lemma CutTotal(a: string, b: string, x: string, y: string, z: string)
    ensures Head(a, b, x, y + TOTAL + z) == Head(a, b, x + TOTAL + y, z)
  {
    var p := a + WORKER + b + PERIOD;
    Reassociate(p + x, TOTAL, y, z);
    assert p + (x + TOTAL + y) == p + x + TOTAL + y;
  }

  function HeadOf(f: Fields): string {
    Head(f.payslipId, f.workerAddress, f.period, f.totalGrossAmount)
  }

  lemma CanonicalText(f: Fields, ids: seq<int>)
    ensures Canonical(f, ids)
      == ("payslipId:" + HeadOf(f)) + "|" + ("streamIds:" + Join(PrintAll(SortAscending(ids)), ',')) + "|" + ("generatedAt:" + f.generatedAt)
  {
    hide SortAscending, PrintAll, Join;
    var p := Parts(f, SortAscending(ids));
    JoinSix(p, '|');
    Bars(f.payslipId, f.workerAddress, f.period, f.totalGrossAmount);
    var front := p[0] + "|" + p[1] + "|" + p[2] + "|" + p[3];
    assert front == "payslipId:" + HeadOf(f);
  }

  /** The labels are the bars and the names after them. */
  lemma Bars(a: string, b: string, c: string, d: string)
    ensures ("payslipId:" + a) + "|" + ("workerAddress:" + b) + "|" + ("period:" + c) + "|" + ("totalGrossAmount:" + d)
         == "payslipId:" + Head(a, b, c, d)
  {
    BarAndName(("payslipId:" + a), "workerAddress:", b, WORKER);
    BarAndName(("payslipId:" + a) + WORKER + b, "period:", c, PERIOD);
    BarAndName(("payslipId:" + a) + WORKER + b + PERIOD + c, "totalGrossAmount:", d, TOTAL);
    InFront("payslipId:", a, WORKER, b, PERIOD, c, TOTAL, d);
  }

  lemma BarAndName(front: string, name: string, field: string, named: string)
    requires named == "|" + name
    ensures front + "|" + (name + field) == front + named + field
  {
  }

  lemma InFront(p: string, a: string, l: string, b: string, m: string, c: string, n: string, d: string)
    ensures (p + a) + l + b + m + c + n + d == p + (a + l + b + m + c + n + d)
  {
    assert (p + a) + l == p + (a + l);
    assert p + (a + l) + b == p + (a + l + b);
    assert p + (a + l + b) + m == p + (a + l + b + m);
    assert p + (a + l + b + m) + c == p + (a + l + b + m + c);
    assert p + (a + l + b + m + c) + n == p + (a + l + b + m + c + n);
  }

  lemma JoinStep(parts: seq<string>, sep: char, front: string)
    requires |parts| > 1
    ensures front + [sep] + Join(parts, sep) == front + [sep] + parts[0] + [sep] + Join(parts[1..], sep)
  {
  }

  lemma JoinSix(parts: seq<string>, sep: char)
    requires |parts| == 6
    ensures Join(parts, sep)
      == parts[0] + [sep] + parts[1] + [sep] + parts[2] + [sep] + parts[3] + [sep] + parts[4] + [sep] + parts[5]
  {
    hide Join;
    assert Join(parts, sep) == parts[0] + [sep] + Join(parts[1..], sep) by { JoinTwo(parts, sep); }
    JoinStep(parts[1..], sep, parts[0]);
    var b := parts[0] + [sep] + parts[1];
    assert parts[1..][1..] == parts[2..];
    JoinStep(parts[2..], sep, b);
    var c := b + [sep] + parts[2];
    assert parts[2..][1..] == parts[3..];
    JoinStep(parts[3..], sep, c);
    var d := c + [sep] + parts[3];
    assert parts[3..][1..] == parts[4..];
    JoinStep(parts[4..], sep, d);
    assert parts[4..][1..] == [parts[5]];
    assert Join([parts[5]], sep) == parts[5] by { JoinLast(parts[5], sep); }
  }

  lemma JoinTwo(parts: seq<string>, sep: char)
    requires |parts| > 1
    ensures Join(parts, sep) == parts[0] + [sep] + Join(parts[1..], sep)
  {
  }

  lemma JoinLast(part: string, sep: char)
    ensures Join([part], sep) == part
  {
  }

  /** Text before and after the last bar is determined. */
  lemma LastBar(a: string, b: string, c: string, d: string)
    requires a + "|" + b == c + "|" + d && '|' !in b && '|' !in d
    ensures a == c && b == d
  {
    var s := a + "|" + b;
    assert s[|a|] == '|' && s[|c|] == '|';
    forall x | |a| < x < |s| ensures s[x] != '|' { assert s[x] == b[x - |a| - 1] && b[x - |a| - 1] in b; }
    forall x | |c| < x < |s| ensures s[x] != '|' { assert s[x] == d[x - |c| - 1] && d[x - |c| - 1] in d; }
    assert a == s[..|a|] == c && b == s[|a| + 1..] == d;
  }

  /** Strings are equal exactly when the free fields read the same with their labels, the ids are the same and so is the instant. */
  lemma SameStringIff(f: Fields, a: seq<int>, g: Fields, b: seq<int>)
    requires '|' !in f.generatedAt && '|' !in g.generatedAt
    ensures Canonical(f, a) == Canonical(g, b)
      <==> HeadOf(f) == HeadOf(g) && multiset(a) == multiset(b) && f.generatedAt == g.generatedAt
  {
    hide HeadOf, PrintAll, Join, SortAscending, Canonical;
    CanonicalText(f, a);
    CanonicalText(g, b);
    var s, t := Join(PrintAll(SortAscending(a)), ','), Join(PrintAll(SortAscending(b)), ',');
    if Canonical(f, a) == Canonical(g, b) {
      PrintedHaveNoSeparator(SortAscending(a));
      PrintedHaveNoSeparator(SortAscending(b));
      JoinedIdsHaveNoBar(PrintAll(SortAscending(a)));
      JoinedIdsHaveNoBar(PrintAll(SortAscending(b)));
      var h, k := "payslipId:" + HeadOf(f), "payslipId:" + HeadOf(g);
      LastBar(h + "|" + ("streamIds:" + s), "generatedAt:" + f.generatedAt, k + "|" + ("streamIds:" + t), "generatedAt:" + g.generatedAt);
      CancelPrefix("generatedAt:", f.generatedAt, g.generatedAt);
      LastBar(h, "streamIds:" + s, k, "streamIds:" + t);
      CancelPrefix("streamIds:", s, t);
      CancelPrefix("payslipId:", HeadOf(f), HeadOf(g));
      IdListIsInjective(SortAscending(a), SortAscending(b));
      SortSorts(a);
      SortSorts(b);
    } else if multiset(a) == multiset(b) {
      SortSorts(a);
      SortSorts(b);
      SortedIsUnique(SortAscending(a), SortAscending(b));
    }
  }

  /** No other payslip has the string of this one. */
  ghost predicate Unambiguous(f: Fields, ids: seq<int>) {
    forall g: Fields, other | '|' !in g.generatedAt && Canonical(g, other) == Canonical(f, ids) :: g == f && multiset(other) == multiset(ids)
  }

  /** A payslip's string, the instant being free of bars, is its own if and only if none of the labels of worker, period
      and amount stands in one of the two fields beside it. */
  lemma StringIsOwnIff(f: Fields, ids: seq<int>)
    requires '|' !in f.generatedAt
    ensures Unambiguous(f, ids) <==> Clear(f.payslipId, f.workerAddress, f.period, f.totalGrossAmount)
  {
    hide Clear, Head, Canonical;
    if Clear(f.payslipId, f.workerAddress, f.period, f.totalGrossAmount) {
      forall g: Fields, other | '|' !in g.generatedAt && Canonical(g, other) == Canonical(f, ids)
        ensures g == f && multiset(other) == multiset(ids)
      {
        SameStringIff(f, ids, g, other);
        ClearIsUnique(f.payslipId, f.workerAddress, f.period, f.totalGrossAmount,
                      g.payslipId, g.workerAddress, g.period, g.totalGrossAmount);
      }
    } else {
      var a, b, c, d := UnclearIsAmbiguous(f.payslipId, f.workerAddress, f.period, f.totalGrossAmount);
      var g := Fields(a, b, c, d, f.generatedAt);
      SameStringIff(f, ids, g, ids);
      assert Canonical(g, ids) == Canonical(f, ids) && g != f;
    }
  }

  lemma LabelShowsBar(s: string, l: string)
    requires IsLabel(l)
    ensures Holds(s, l) ==> '|' in s
  {
    if Holds(s, l) {
      var j: nat :| At(s, j, l);
      assert s[j] == s[j..j + |l|][0] == '|';
    }
  }

  /** Payslips with bar-free fields have the same canonical string exactly when they are the same payslip. */
  lemma CanonicalIdentifiesPayslip(f: Fields, a: seq<int>, g: Fields, b: seq<int>)
    requires BarFree(f) && '|' !in g.generatedAt
    ensures Canonical(f, a) == Canonical(g, b) <==> f == g && multiset(a) == multiset(b)
  {
    hide Canonical, Head, Holds;
    Labels();
    forall l | l in [WORKER, PERIOD, TOTAL]
      ensures !Holds(f.payslipId, l) && !Holds(f.workerAddress, l) && !Holds(f.period, l) && !Holds(f.totalGrossAmount, l)
    {
      LabelShowsBar(f.payslipId, l);
      LabelShowsBar(f.workerAddress, l);
      LabelShowsBar(f.period, l);
      LabelShowsBar(f.totalGrossAmount, l);
    }
    StringIsOwnIff(f, a);
    SameStringIff(f, a, g, b);
  }

  /** The payslip as the signer gets it: building its string sorts the id array in place. */
  class PayslipData {
    const fields: Fields
    const streamIds: array<int>

    constructor (fields: Fields, streamIds: array<int>)
      ensures this.fields == fields && this.streamIds == streamIds
    {
      this.fields, this.streamIds := fields, streamIds;
    }

    method CreatePayslipDataString() returns (text: string)
      modifies streamIds
      ensures text == Canonical(fields, old(streamIds[..]))
      ensures text == Join(["payslipId:" + fields.payslipId, "workerAddress:" + fields.workerAddress, "period:" + fields.period,
                            "totalGrossAmount:" + fields.totalGrossAmount, "streamIds:" + Join(PrintAll(streamIds[..]), ','),
                            "generatedAt:" + fields.generatedAt], '|')
      ensures streamIds[..] == SortAscending(old(streamIds[..]))
      ensures Sorted(streamIds[..]) && multiset(streamIds[..]) == multiset(old(streamIds[..]))
    {
      hide SortAscending, Join, Sorted;
      ghost var before := streamIds[..];
      var ids := SortAscending(streamIds[..]);
      SortSorts(before);
      for i := 0 to streamIds.Length
        invariant streamIds[..i] == ids[..i]
      {
        streamIds[i] := ids[i];
        assert streamIds[..i + 1] == streamIds[..i] + [ids[i]];
      }
      assert streamIds[..] == streamIds[..streamIds.Length] == ids;
      text := Join(Parts(fields, streamIds[..]), '|');
    }
  }
}
