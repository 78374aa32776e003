/** Aggregation over a list of course results (`AbstractCategory`): per-grade credits, passed and
    registered credits, total grade points, and the two-decimal GPA. Categories, subcategories and
    the whole transcript all aggregate through these same functions. */
module Aggregation {
  import opened Grades

  /** Credits are positive: a zero or NaN credit never gets past the acceptance filter. */
  type Credit = x: real | x > 0.0 witness 1.0

  /** One course result (`Result`): immutable once created. */
  datatype Result = Result(
    name: string, teacher: string, credit: Credit, grade: Grade, term: nat, semester: string)

  /** Which results a filter keeps: those with a positive grade point, those not graded E, or those
      with one given grade. */
  datatype Selector = Passing | NotE | OfGrade(g: Grade)

  predicate Selects(sel: Selector, g: Grade)
  {
    match sel
    case Passing => Point(g) > 0
    case NotE => g != E
    case OfGrade(h) => g == h
  }

  /** The results a selector keeps, in their original order. */
  function Select(rs: seq<Result>, sel: Selector): (out: seq<Result>)
    ensures |out| <= |rs|
    ensures forall i :: 0 <= i < |out| ==> Selects(sel, out[i].grade)
  {
    if rs == [] then []
    else (if Selects(sel, rs[0].grade) then [rs[0]] else []) + Select(rs[1..], sel)
  }

  /** A kept result occurs in the selection as often as in the input; any other result not at all. */
  lemma {:induction false} SelectCounts(rs: seq<Result>, sel: Selector, r: Result)
    ensures multiset(Select(rs, sel))[r] == if Selects(sel, r.grade) then multiset(rs)[r] else 0
  {
    if rs != [] {
      SelectCounts(rs[1..], sel, r);
      assert rs == [rs[0]] + rs[1..];
    }
  }

  /** A selection is empty exactly when the selector accepts none of the results. */
  lemma {:induction false} SelectEmpty(rs: seq<Result>, sel: Selector)
    ensures Select(rs, sel) == [] <==> forall i :: 0 <= i < |rs| ==> !Selects(sel, rs[i].grade)
  {
    if rs != [] {
      SelectEmpty(rs[1..], sel);
      assert forall i :: 1 <= i < |rs| ==> rs[i] == rs[1..][i - 1];
    }
  }

  /** Total credit of a list of results. */
  function CreditSum(rs: seq<Result>): (s: real)
    ensures s >= 0.0
    ensures s == 0.0 <==> rs == []
  {
    if rs == [] then 0.0 else rs[0].credit + CreditSum(rs[1..])
  }

  /** `getPassedResults`: results whose grade point is positive. */
  function PassedResults(rs: seq<Result>): seq<Result>
  {
    Select(rs, Passing)
  }

  /** `getGradeResults`: results with exactly this grade. */
  function GradeResults(rs: seq<Result>, g: Grade): seq<Result>
  {
    Select(rs, OfGrade(g))
  }

  /** `countPassedCredits`. */
  function CountPassedCredits(rs: seq<Result>): (c: real)
    ensures c >= 0.0
    ensures c == 0.0 <==> PassedResults(rs) == []
  {
    CreditSum(PassedResults(rs))
  }

  /** `conutRegisteredCredits`: credits of every result not graded E. */
  function RegisteredCredits(rs: seq<Result>): (c: real)
    ensures c >= 0.0
    ensures c == 0.0 <==> Select(rs, NotE) == []
  {
    CreditSum(Select(rs, NotE))
  }

  /** `countGrade`: credits earned with one grade. */
  function CountGrade(rs: seq<Result>, g: Grade): (c: real)
    ensures c >= 0.0
    ensures c == 0.0 <==> GradeResults(rs, g) == []
  {
    CreditSum(GradeResults(rs, g))
  }

  /** `calcTotalGradePoint`: grade point times credit, summed; a result whose grade point is zero
      is skipped. */
  function TotalGradePoint(rs: seq<Result>): (t: real)
    ensures t >= 0.0
  {
    if rs == [] then 0.0
    else
      var p := Point(rs[0].grade);
      (if p != 0 then p as real * rs[0].credit else 0.0) + TotalGradePoint(rs[1..])
  }

  lemma AtMostFourPerCredit(p: nat, c: Credit)
    requires p <= 4
    ensures p > 0 ==> c <= p as real * c
    ensures p as real * c <= 4.0 * c
  {
    assert p as real * c == 4.0 * c - (4.0 - p as real) * c;
    if p > 0 {
      assert p as real * c == c + (p - 1) as real * c;
    }
  }

  /** Independent reference: grade point times credit over every result, zero-point ones included. */
  function GradePointsOfAll(rs: seq<Result>): real
  {
    if rs == [] then 0.0 else Point(rs[0].grade) as real * rs[0].credit + GradePointsOfAll(rs[1..])
  }

  /** Skipping the zero-point results does not change the total. */
  lemma {:induction false} TotalGradePointSkipsNothing(rs: seq<Result>)
    ensures TotalGradePoint(rs) == GradePointsOfAll(rs)
  {
    if rs != [] {
      TotalGradePointSkipsNothing(rs[1..]);
    }
  }

  lemma {:induction false} SelectAppend(a: seq<Result>, b: seq<Result>, sel: Selector)
    ensures Select(a + b, sel) == Select(a, sel) + Select(b, sel)
  {
    if a != [] {
      var head := if Selects(sel, a[0].grade) then [a[0]] else [];
      calc {
        Select(a + b, sel);
      == { assert (a + b)[0] == a[0]; assert (a + b)[1..] == a[1..] + b; }
        head + Select(a[1..] + b, sel);
      == { SelectAppend(a[1..], b, sel); }
        head + (Select(a[1..], sel) + Select(b, sel));
      == 
        (head + Select(a[1..], sel)) + Select(b, sel);
      }
    } else {
      assert a + b == b;
    }
  }

  lemma {:induction false} CreditSumAppend(a: seq<Result>, b: seq<Result>)
    ensures CreditSum(a + b) == CreditSum(a) + CreditSum(b)
  {
    if a != [] {
      CreditSumAppend(a[1..], b);
      assert (a + b)[1..] == a[1..] + b;
    } else {
      assert a + b == b;
    }
  }

  lemma {:induction false} TotalGradePointAppend(a: seq<Result>, b: seq<Result>)
    ensures TotalGradePoint(a + b) == TotalGradePoint(a) + TotalGradePoint(b)
  {
    if a != [] {
      var p := Point(a[0].grade);
      var head := if p != 0 then p as real * a[0].credit else 0.0;
      calc {
        TotalGradePoint(a + b);
      == { assert (a + b)[0] == a[0]; assert (a + b)[1..] == a[1..] + b; }
        head + TotalGradePoint(a[1..] + b);
      == { TotalGradePointAppend(a[1..], b); }
        head + TotalGradePoint(a[1..]) + TotalGradePoint(b);
      }
    } else {
      assert a + b == b;
    }
  }

  /** Every aggregate of a concatenation is the sum of the aggregates of its parts. */
  lemma AggregatesAdditive(a: seq<Result>, b: seq<Result>)
    ensures RegisteredCredits(a + b) == RegisteredCredits(a) + RegisteredCredits(b)
    ensures CountPassedCredits(a + b) == CountPassedCredits(a) + CountPassedCredits(b)
    ensures TotalGradePoint(a + b) == TotalGradePoint(a) + TotalGradePoint(b)
  {
    SelectAppend(a, b, NotE);
    CreditSumAppend(Select(a, NotE), Select(b, NotE));
    SelectAppend(a, b, Passing);
    CreditSumAppend(Select(a, Passing), Select(b, Passing));
    TotalGradePointAppend(a, b);
  }

  lemma CountGradeAdditive(a: seq<Result>, b: seq<Result>)
    ensures forall g :: CountGrade(a + b, g) == CountGrade(a, g) + CountGrade(b, g)
  {
    forall g | true
      ensures CountGrade(a + b, g) == CountGrade(a, g) + CountGrade(b, g)
    {
      SelectAppend(a, b, OfGrade(g));
      CreditSumAppend(Select(a, OfGrade(g)), Select(b, OfGrade(g)));
    }
  }

  lemma RemoveFromMultiset(a: seq<Result>, b: seq<Result>, k: nat)
    requires a != [] && k < |b| && b[k] == a[0] && multiset(a) == multiset(b)
    ensures multiset(a[1..]) == multiset(b[..k] + b[k + 1..])
  {
    var x := a[0];
    var rest := b[..k] + b[k + 1..];
    assert b == b[..k] + [x] + b[k + 1..];
    assert a == [x] + a[1..];
    assert multiset(b) == multiset(b[..k]) + multiset{x} + multiset(b[k + 1..]);
    assert multiset(rest) == multiset(b[..k]) + multiset(b[k + 1..]);
    forall e
      ensures multiset(a[1..])[e] == multiset(rest)[e]
    {
      assert multiset(a)[e] == multiset(b)[e];
    }
  }

  /** The totals of a list with one element taken out of the middle. */
  lemma TotalsAroundElement(b: seq<Result>, k: nat)
    requires k < |b|
    ensures var rest := b[..k] + b[k + 1..];
      && RegisteredCredits(b) == RegisteredCredits([b[k]]) + RegisteredCredits(rest)
      && CountPassedCredits(b) == CountPassedCredits([b[k]]) + CountPassedCredits(rest)
      && TotalGradePoint(b) == TotalGradePoint([b[k]]) + TotalGradePoint(rest)
  {
    var x := b[k];
    assert b == b[..k] + ([x] + b[k + 1..]);
    AggregatesAdditive(b[..k], [x] + b[k + 1..]);
    AggregatesAdditive([x], b[k + 1..]);
    AggregatesAdditive(b[..k], b[k + 1..]);
  }

  /** The per-grade credits of a list with one element taken out of the middle. */
  lemma CountGradeAroundElement(b: seq<Result>, k: nat)
    requires k < |b|
    ensures var rest := b[..k] + b[k + 1..];
      forall g :: CountGrade(b, g) == CountGrade([b[k]], g) + CountGrade(rest, g)
  {
    var x := b[k];
    assert b == b[..k] + ([x] + b[k + 1..]);
    CountGradeAdditive(b[..k], [x] + b[k + 1..]);
    CountGradeAdditive([x], b[k + 1..]);
    CountGradeAdditive(b[..k], b[k + 1..]);
  }

  /** The aggregates depend only on which results there are, not on their order. */
  lemma {:induction false} AggregatesIgnoreOrder(a: seq<Result>, b: seq<Result>)
    requires multiset(a) == multiset(b)
    ensures RegisteredCredits(a) == RegisteredCredits(b)
    ensures CountPassedCredits(a) == CountPassedCredits(b)
    ensures TotalGradePoint(a) == TotalGradePoint(b)
    ensures forall g :: CountGrade(a, g) == CountGrade(b, g)
    decreases |a|
  {
    if a == [] {
      assert |multiset(b)| == 0;
    } else {
      assert a[0] in multiset(b);
      var k :| 0 <= k < |b| && b[k] == a[0];
      RemoveFromMultiset(a, b, k);
      AggregatesIgnoreOrder(a[1..], b[..k] + b[k + 1..]);
      assert a == [a[0]] + a[1..];
      AggregatesAdditive([a[0]], a[1..]);
      CountGradeAdditive([a[0]], a[1..]);
      TotalsAroundElement(b, k);
      CountGradeAroundElement(b, k);
    }
  }

  /** The aggregates of a single result. */
  lemma SingleResult(r: Result)
    ensures RegisteredCredits([r]) == if r.grade != E then r.credit else 0.0
    ensures CountPassedCredits([r]) == if Point(r.grade) > 0 then r.credit else 0.0
    ensures TotalGradePoint([r]) == Point(r.grade) as real * r.credit
    ensures forall g :: CountGrade([r], g) == if r.grade == g then r.credit else 0.0
  {
    assert [r][1..] == [];
    assert Select([r], NotE) == if r.grade != E then [r] else [];
    assert Select([r], Passing) == if Point(r.grade) > 0 then [r] else [];
    forall g | true
      ensures CountGrade([r], g) == if r.grade == g then r.credit else 0.0
    {
      assert Select([r], OfGrade(g)) == if r.grade == g then [r] else [];
    }
  }

  /** What one more result adds to each aggregate. */
  lemma AppendResult(rs: seq<Result>, r: Result)
    ensures RegisteredCredits(rs + [r]) == RegisteredCredits(rs) + (if r.grade != E then r.credit else 0.0)
    ensures CountPassedCredits(rs + [r]) == CountPassedCredits(rs) + (if Point(r.grade) > 0 then r.credit else 0.0)
    ensures TotalGradePoint(rs + [r]) == TotalGradePoint(rs) + Point(r.grade) as real * r.credit
    ensures forall g :: CountGrade(rs + [r], g) == CountGrade(rs, g) + (if r.grade == g then r.credit else 0.0)
  {
    AggregatesAdditive(rs, [r]);
    CountGradeAdditive(rs, [r]);
    SingleResult(r);
  }

  /** A D result adds to the registered credits only; an E result adds to none of the three totals,
      only to the credits counted for grade E. */
  lemma GradeDAndE(rs: seq<Result>, r: Result)
    ensures r.grade == D ==>
      && RegisteredCredits(rs + [r]) == RegisteredCredits(rs) + r.credit
      && CountPassedCredits(rs + [r]) == CountPassedCredits(rs)
      && TotalGradePoint(rs + [r]) == TotalGradePoint(rs)
    ensures r.grade == E ==>
      && RegisteredCredits(rs + [r]) == RegisteredCredits(rs)
      && CountPassedCredits(rs + [r]) == CountPassedCredits(rs)
      && TotalGradePoint(rs + [r]) == TotalGradePoint(rs)
      && CountGrade(rs + [r], E) == CountGrade(rs, E) + r.credit
  {
    AppendResult(rs, r);
  }

  /** Registered credits are the passed credits plus the credits graded D. */
  lemma {:induction false} RegisteredIsPassedPlusD(rs: seq<Result>)
    ensures RegisteredCredits(rs) == CountPassedCredits(rs) + CountGrade(rs, D)
  {
    if rs != [] {
      var x, rest := rs[0], rs[1..];
      RegisteredIsPassedPlusD(rest);
      assert rs == [x] + rest;
      AggregatesAdditive([x], rest);
      CountGradeAdditive([x], rest);
      SingleResult(x);
      assert RegisteredCredits([x]) == CountPassedCredits([x]) + CountGrade([x], D);
    }
  }

  /** Passed credits never exceed registered credits. */
  lemma PassedWithinRegistered(rs: seq<Result>)
    ensures 0.0 <= CountPassedCredits(rs) <= RegisteredCredits(rs)
  {
    RegisteredIsPassedPlusD(rs);
  }

  /** The six per-grade credit counts add up to the total credit. */
  lemma {:induction false} GradeCountsPartitionCredits(rs: seq<Result>)
    ensures CountGrade(rs, AA) + CountGrade(rs, A) + CountGrade(rs, B)
          + CountGrade(rs, C) + CountGrade(rs, D) + CountGrade(rs, E) == CreditSum(rs)
  {
    if rs != [] {
      var x, rest := rs[0], rs[1..];
      GradeCountsPartitionCredits(rest);
      assert rs == [x] + rest;
      CountGradeAdditive([x], rest);
      CreditSumAppend([x], rest);
      SinglePartition(x);
    }
  }

  /** The partition of `GradeCountsPartitionCredits` for a single result. */
  lemma SinglePartition(x: Result)
    ensures CountGrade([x], AA) + CountGrade([x], A) + CountGrade([x], B)
          + CountGrade([x], C) + CountGrade([x], D) + CountGrade([x], E) == CreditSum([x])
  {
    SingleResult(x);
    assert CreditSum([x]) == x.credit by { assert [x][1..] == []; }
  }

  /** Every passed credit earns at least one grade point and no credit earns more than four, so the
      total grade points lie between the passed credits and four times the registered credits. */
  lemma {:induction false} GradePointBounds(rs: seq<Result>)
    ensures CountPassedCredits(rs) <= TotalGradePoint(rs) <= 4.0 * RegisteredCredits(rs)
  {
    if rs != [] {
      var x, rest := rs[0], rs[1..];
      GradePointBounds(rest);
      assert rs == [x] + rest;
      AggregatesAdditive([x], rest);
      SingleGradePointBounds(x);
    }
  }

  /** The bounds of `GradePointBounds` for a single result. */
  lemma SingleGradePointBounds(r: Result)
    ensures CountPassedCredits([r]) <= TotalGradePoint([r]) <= 4.0 * RegisteredCredits([r])
  {
    SingleResult(r);
    var p := Point(r.grade) as real;
    assert p * r.credit == 4.0 * r.credit - (4.0 - p) * r.credit;
    if Point(r.grade) > 0 {
      assert p * r.credit == r.credit + (p - 1.0) * r.credit;
    }
  }

  /** A list earns grade points exactly when it has a passed result. */
  lemma {:induction false} NoPointsIffNothingPassed(rs: seq<Result>)
    ensures TotalGradePoint(rs) == 0.0 <==> PassedResults(rs) == []
  {
    if rs != [] {
      NoPointsIffNothingPassed(rs[1..]);
      AtMostFourPerCredit(Point(rs[0].grade), rs[0].credit);
    }
  }

  /** A node with no registered credits has only E results and so no grade points either: its
      unguarded per-node ratio is zero over zero. */
  lemma NoRegisteredNoPoints(rs: seq<Result>)
    requires RegisteredCredits(rs) == 0.0
    ensures forall i :: 0 <= i < |rs| ==> rs[i].grade == E
    ensures TotalGradePoint(rs) == 0.0
  {
    SelectEmpty(rs, NotE);
    GradePointBounds(rs);
  }

  /** `Math.round`: the nearest integer, halves rounded up. */
  function Round(x: real): (n: int)
    ensures n as real - 0.5 <= x < n as real + 0.5
  {
    (x + 0.5).Floor
  }

  lemma RatioWithinFour(points: real, credits: real)
    requires credits > 0.0
    ensures 0.0 <= points <= 4.0 * credits ==> 0.0 <= points / credits <= 4.0
  {
    var q := points / credits;
    assert q * credits == points;
    assert (4.0 - q) * credits == 4.0 * credits - points;
  }

  /** A whole number of hundredths: what `Math.round(100 * x) / 100` can produce. */
  predicate WholeHundredths(g: real)
  {
    (100.0 * g).Floor as real == 100.0 * g
  }

  /** A ratio rounded to two decimal places, `Math.round(100 * points / credits) / 100`: the whole
      number of hundredths within half a hundredth of the exact ratio, halves rounded up; a ratio in
      [0, 4] stays in [0, 4]. */
  function RoundedRatio(points: real, credits: real): (g: real)
    requires credits > 0.0
    ensures WholeHundredths(g)
    ensures g - 0.005 <= points / credits < g + 0.005
    ensures 0.0 <= points <= 4.0 * credits ==> 0.0 <= g <= 4.0
  {
    var x := 100.0 * points / credits;
    assert x == 100.0 * (points / credits);
    RatioWithinFour(points, credits);
    var n := Round(x);
    assert 100.0 * (n as real / 100.0) == n as real;
    n as real / 100.0
  }

  /** The GPA shown for one category or subcategory. Its division is unguarded, so it is only
      defined here for nodes with registered credits. */
  function NodeGpa(rs: seq<Result>): (g: real)
    requires RegisteredCredits(rs) > 0.0
    ensures WholeHundredths(g)
    ensures g - 0.005 <= TotalGradePoint(rs) / RegisteredCredits(rs) < g + 0.005
    ensures 0.0 <= g <= 4.0
  {
    GradePointBounds(rs);
    PassedWithinRegistered(rs);
    RoundedRatio(TotalGradePoint(rs), RegisteredCredits(rs))
  }

  /** Two results under one node, A for 2 credits and D for 3: 5 registered, 2 passed, 6 grade
      points, GPA 1.2. */
  lemma TwoResultExample(a: Result, d: Result)
    requires a.grade == A && a.credit == 2.0
    requires d.grade == D && d.credit == 3.0
    ensures RegisteredCredits([a, d]) == 5.0
    ensures CountPassedCredits([a, d]) == 2.0
    ensures TotalGradePoint([a, d]) == 6.0
    ensures NodeGpa([a, d]) == 1.2
  {
    AppendResult([a], d);
    AppendResult([], a);
    assert [] + [a] == [a];
    assert [a] + [d] == [a, d];
    assert Round(120.0) == 120;
  }
}
