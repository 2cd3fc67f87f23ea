/**
 * The progress arithmetic of both feeds. The work is counted in steps: every accepted row costs
 * `fetchWorkRatio` steps when it is read and `dbWorkRatio` steps when it is stored, and the
 * expected total is a guessed number of references times the cost of one.
 */
module Progress {

  /** `fetchWorkRatio`. */
  const FetchWorkRatio: nat := 1

  /** `dbWorkRatio = Platform.OS === 'android' ? 7 : 3`. */
  function DbWorkRatio(android: bool): (r: nat)
    ensures r == 3 || r == 7
  {
    if android then 7 else 3
  }

  /** `expectedReferences * (fetchWorkRatio + dbWorkRatio)`. */
  function ExpectedSteps(expectedReferences: nat, dbWorkRatio: nat): (r: nat)
    ensures expectedReferences > 0 ==> r > 0
  {
    expectedReferences * (FetchWorkRatio + dbWorkRatio)
  }

  /** `Math.min(completedSteps / expectedSteps, 1)`. */
  function Fraction(completed: nat, expected: nat): (r: real)
    requires expected > 0
    ensures 0.0 <= r <= 1.0
    ensures r == 1.0 <==> completed >= expected
    ensures r < 1.0 ==> r * expected as real == completed as real
  {
    if completed >= expected then 1.0 else completed as real / expected as real
  }

  /** `Math.round(completedSteps / (fetchWorkRatio + dbWorkRatio))`: halves round up. */
  function LoadedReferences(completed: nat, dbWorkRatio: nat): (r: nat)
    ensures var m := 2 * (FetchWorkRatio + dbWorkRatio);
            r * m <= 2 * completed + m / 2 < (r + 1) * m
  {
    var d := FetchWorkRatio + dbWorkRatio;
    (2 * completed + d) / (2 * d)
  }

  lemma {:induction false} MulLe(a: nat, b: nat, m: nat)
    requires a <= b
    ensures a * m <= b * m
  {
    if m > 0 {
      MulLe(a, b, m - 1);
      assert a * m == a * (m - 1) + a;
      assert b * m == b * (m - 1) + b;
    }
  }

  lemma MulLtCancel(a: nat, b: nat, m: nat)
    ensures a * m < b * m ==> a < b
  {
    if b <= a {
      MulLe(b, a, m);
    }
  }

  lemma RealDivLe(x: real, y: real, e: real)
    requires 0.0 < e && x <= y
    ensures x / e <= y / e
  {
    var q := (y - x) / e;
    assert y / e == x / e + q;
  }

  /** More completed steps never report a smaller fraction. */
  lemma FractionMonotone(c1: nat, c2: nat, expected: nat)
    requires expected > 0 && c1 <= c2
    ensures Fraction(c1, expected) <= Fraction(c2, expected)
  {
    if c2 < expected {
      RealDivLe(c1 as real, c2 as real, expected as real);
    }
  }

  /** More completed steps never report fewer loaded references. */
  lemma LoadedReferencesMonotone(c1: nat, c2: nat, dbWorkRatio: nat)
    requires c1 <= c2
    ensures LoadedReferences(c1, dbWorkRatio) <= LoadedReferences(c2, dbWorkRatio)
  {
    var m := 2 * (FetchWorkRatio + dbWorkRatio);
    var r1 := LoadedReferences(c1, dbWorkRatio);
    var r2 := LoadedReferences(c2, dbWorkRatio);
    MulLtCancel(r1, r2 + 1, m);
  }

  /** Once every accepted row is stored, the counter shows exactly the number of rows. */
  lemma LoadedAfterRun(rows: nat, dbWorkRatio: nat)
    ensures LoadedReferences(rows * (FetchWorkRatio + dbWorkRatio), dbWorkRatio) == rows
  {
    var d := FetchWorkRatio + dbWorkRatio;
    var m := 2 * d;
    var r := LoadedReferences(rows * d, dbWorkRatio);
    assert 2 * (rows * d) == rows * m;
    assert r * m <= rows * m + d < (r + 1) * m;
    assert (rows + 1) * m == rows * m + m;
    MulLtCancel(r, rows + 1, m);
    MulLtCancel(rows, r + 1, m);
  }

  /** Once every accepted row is stored, the fraction is `min(rows / expectedReferences, 1)`: the ratios cancel. */
  lemma FractionAfterRun(rows: nat, expectedReferences: nat, dbWorkRatio: nat)
    requires expectedReferences > 0
    ensures Fraction(rows * (FetchWorkRatio + dbWorkRatio), ExpectedSteps(expectedReferences, dbWorkRatio))
         == Fraction(rows, expectedReferences)
  {
    var d := FetchWorkRatio + dbWorkRatio;
    var c := rows * d;
    var e := expectedReferences * d;
    if rows >= expectedReferences {
      MulLe(expectedReferences, rows, d);
    } else {
      MulLe(rows + 1, expectedReferences, d);
      assert (rows + 1) * d == c + d;
      assert c as real == rows as real * d as real;
      assert e as real == expectedReferences as real * d as real;
      RealDivScale(rows as real, expectedReferences as real, d as real);
    }
  }

  lemma RealDivScale(x: real, y: real, d: real)
    requires 0.0 < y && 0.0 < d
    ensures (x * d) / (y * d) == x / y
  {
    var q := x / y;
    assert q * y == x;
    assert (q * y) * d == q * (y * d);
  }

  /** One progress message: the loaded count and the completed fraction. */
  datatype Report = Report(loaded: nat, fraction: real)

  /** The message sent when `completed` steps of `expected` are done. */
  function ReportAt(completed: nat, expected: nat, dbWorkRatio: nat): Report
    requires expected > 0
  {
    Report(LoadedReferences(completed, dbWorkRatio), Fraction(completed, expected))
  }

  /** A message that shows no more than another: neither a larger count nor a larger fraction. */
  predicate NoMoreThan(a: Report, b: Report) {
    a.loaded <= b.loaded && a.fraction <= b.fraction
  }

  /** Each message shows no more than the one after it. */
  ghost predicate InOrder(reports: seq<Report>) {
    |reports| < 2 || (NoMoreThan(reports[|reports| - 2], reports[|reports| - 1]) && InOrder(reports[..|reports| - 1]))
  }

  /**
   * The messages sent so far never go backwards, start at a fraction of at least 0, and the last
   * one shows no more than the current count of completed steps would.
   */
  ghost predicate Reported(reports: seq<Report>, completed: nat, expected: nat, dbWorkRatio: nat)
    requires expected > 0
  {
    && InOrder(reports)
    && (|reports| > 0 ==> 0.0 <= reports[0].fraction)
    && (|reports| > 0 ==> NoMoreThan(reports[|reports| - 1], ReportAt(completed, expected, dbWorkRatio)))
  }

  /** Each message shows no more than every later one. */
  lemma {:induction false} InOrderAt(reports: seq<Report>, i: nat, j: nat)
    requires InOrder(reports) && i <= j < |reports|
    ensures NoMoreThan(reports[i], reports[j])
    decreases |reports|
  {
    var n := |reports| - 1;
    var front := reports[..n];
    if j < n {
      InOrderAt(front, i, j);
      assert front[i] == reports[i] && front[j] == reports[j];
    } else if i < j {
      InOrderAt(front, i, j - 1);
      assert front[i] == reports[i] && front[j - 1] == reports[j - 1];
    }
  }

  /**
   * What the message sequence promises: in order, every fraction between 0 and 1, and none
   * showing more than the current count of completed steps.
   */
  lemma ReportedBounds(reports: seq<Report>, completed: nat, expected: nat, dbWorkRatio: nat, i: nat, j: nat)
    requires expected > 0 && Reported(reports, completed, expected, dbWorkRatio)
    requires i <= j < |reports|
    ensures NoMoreThan(reports[i], reports[j])
    ensures 0.0 <= reports[i].fraction <= 1.0
    ensures NoMoreThan(reports[i], ReportAt(completed, expected, dbWorkRatio))
  {
    InOrderAt(reports, i, j);
    InOrderAt(reports, 0, i);
    InOrderAt(reports, i, |reports| - 1);
  }

  /** Completing more steps keeps the messages so far in order. */
  lemma ReportedAdvance(reports: seq<Report>, c1: nat, c2: nat, expected: nat, dbWorkRatio: nat)
    requires expected > 0 && c1 <= c2
    requires Reported(reports, c1, expected, dbWorkRatio)
    ensures Reported(reports, c2, expected, dbWorkRatio)
  {
    FractionMonotone(c1, c2, expected);
    LoadedReferencesMonotone(c1, c2, dbWorkRatio);
  }

  /** Sending the current message keeps the messages in order. */
  lemma ReportedSend(reports: seq<Report>, completed: nat, expected: nat, dbWorkRatio: nat)
    requires expected > 0
    requires Reported(reports, completed, expected, dbWorkRatio)
    ensures Reported(reports + [ReportAt(completed, expected, dbWorkRatio)], completed, expected, dbWorkRatio)
  {
    var rs := reports + [ReportAt(completed, expected, dbWorkRatio)];
    assert rs[..|rs| - 1] == reports;
    if |reports| > 0 {
      assert rs[|rs| - 2] == reports[|reports| - 1];
    }
  }
}
