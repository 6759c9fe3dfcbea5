/**
 The corpus evaluation: a loop over fixtures keeps one confusion matrix overall and one per
 category, and the exit gates look at the overall one.  Rates are reals.
 */
module CorpusEval {
  import opened Prelude

  datatype Fixture = Fixture(category: string, attack: bool, blocked: bool)

  // failures: how many failure messages were recorded.
  datatype Matrix = Matrix(tp: nat, fp: nat, tn: nat, fn: nat, failures: nat)

  const ZERO := Matrix(0, 0, 0, 0, 0)

  function Record(m: Matrix, f: Fixture): Matrix {
    if f.attack then
      if f.blocked then m.(tp := m.tp + 1) else m.(fn := m.fn + 1, failures := m.failures + 1)
    else
      if !f.blocked then m.(tn := m.tn + 1) else m.(fp := m.fp + 1, failures := m.failures + 1)
  }

  datatype Report = Report(
    overall: Matrix,
    attackTotal: nat,
    attackBlocked: nat,
    benignTotal: nat,
    benignPassed: nat,
    byCategory: map<string, Matrix>)

  // ---- What the loop should count ---------------------------------------------------

  /** How many fixtures of a list have this expectation and verdict. */
  function Count(fixtures: seq<Fixture>, attack: bool, blocked: bool): nat {
    if fixtures == [] then 0
    else
      var f := fixtures[|fixtures| - 1];
      Count(fixtures[..|fixtures| - 1], attack, blocked) + if f.attack == attack && f.blocked == blocked then 1 else 0
  }

  function InCategory(fixtures: seq<Fixture>, category: string): seq<Fixture> {
    if fixtures == [] then []
    else
      var f := fixtures[|fixtures| - 1];
      InCategory(fixtures[..|fixtures| - 1], category) + if f.category == category then [f] else []
  }

  predicate Counts(m: Matrix, fixtures: seq<Fixture>) {
    && m.tp == Count(fixtures, true, true) && m.fn == Count(fixtures, true, false)
    && m.fp == Count(fixtures, false, true) && m.tn == Count(fixtures, false, false)
    && m.failures == m.fn + m.fp
  }

  ghost predicate Accounts(r: Report, fixtures: seq<Fixture>) {
    && Counts(r.overall, fixtures)
    && r.attackTotal == r.overall.tp + r.overall.fn && r.attackBlocked == r.overall.tp
    && r.benignTotal == r.overall.tn + r.overall.fp && r.benignPassed == r.overall.tn
    && (forall c :: c in r.byCategory <==> InCategory(fixtures, c) != [])
    && (forall c :: c in r.byCategory ==> Counts(r.byCategory[c], InCategory(fixtures, c)))
  }

  lemma CountAppend(fixtures: seq<Fixture>, f: Fixture, m: Matrix)
    requires Counts(m, fixtures)
    ensures Counts(Record(m, f), fixtures + [f])
  {
    assert (fixtures + [f])[..|fixtures|] == fixtures;
  }

  lemma CategoryAppend(fixtures: seq<Fixture>, f: Fixture, c: string)
    ensures InCategory(fixtures + [f], c)
         == if f.category == c then InCategory(fixtures, c) + [f] else InCategory(fixtures, c)
  {
    assert (fixtures + [f])[..|fixtures|] == fixtures;
    assert InCategory(fixtures, c) + [] == InCategory(fixtures, c);
  }

  /** What one fixture adds to a report. */
  function Tally(r: Report, f: Fixture): Report {
    var m := if f.category in r.byCategory then r.byCategory[f.category] else ZERO;
    Report(Record(r.overall, f),
           r.attackTotal + (if f.attack then 1 else 0), r.attackBlocked + (if f.attack && f.blocked then 1 else 0),
           r.benignTotal + (if f.attack then 0 else 1), r.benignPassed + (if f.attack || f.blocked then 0 else 1),
           r.byCategory[f.category := Record(m, f)])
  }

  lemma TallyAccounts(r: Report, fixtures: seq<Fixture>, f: Fixture)
    requires Accounts(r, fixtures)
    ensures Accounts(Tally(r, f), fixtures + [f])
  {
    var r1, all := Tally(r, f), fixtures + [f];
    CountAppend(fixtures, f, r.overall);
    var m := if f.category in r.byCategory then r.byCategory[f.category] else ZERO;
    CountAppend(InCategory(fixtures, f.category), f, m);
    forall c ensures c in r1.byCategory <==> InCategory(all, c) != [] {
      CategoryAppend(fixtures, f, c);
    }
    forall c | c in r1.byCategory ensures Counts(r1.byCategory[c], InCategory(all, c)) {
      CategoryAppend(fixtures, f, c);
    }
  }

  const BLANK := Report(ZERO, 0, 0, 0, 0, map[])

  function TallyAll(fixtures: seq<Fixture>): Report {
    if fixtures == [] then BLANK else Tally(TallyAll(fixtures[..|fixtures| - 1]), fixtures[|fixtures| - 1])
  }

  /** After any list of fixtures every counter is the count it stands for. */
  lemma {:induction false} TallyAllAccounts(fixtures: seq<Fixture>)
    ensures Accounts(TallyAll(fixtures), fixtures)
  {
    if fixtures != [] {
      var before, f := fixtures[..|fixtures| - 1], fixtures[|fixtures| - 1];
      assert fixtures == before + [f];
      TallyAllAccounts(before);
      TallyAccounts(TallyAll(before), before, f);
      assert TallyAll(fixtures) == Tally(TallyAll(before), f);
    }
  }

  method RunEval(fixtures: seq<Fixture>) returns (r: Report)
    ensures r == TallyAll(fixtures) && Accounts(r, fixtures)
  {
    var tp, fp, tn, fn, failures := 0, 0, 0, 0, 0;
    var attackTotal, attackBlocked, benignTotal, benignPassed := 0, 0, 0, 0;
    var byCategory: map<string, Matrix> := map[];
    for i := 0 to |fixtures|
      invariant TallyAll(fixtures[..i]) == Report(Matrix(tp, fp, tn, fn, failures), attackTotal, attackBlocked,
                                                  benignTotal, benignPassed, byCategory)
    {
      var f := fixtures[i];
      assert fixtures[..i + 1][..i] == fixtures[..i];
      var m := if f.category in byCategory then byCategory[f.category] else ZERO;
      byCategory := byCategory[f.category := Record(m, f)];
      if f.attack {
        attackTotal := attackTotal + 1;
        if f.blocked {
          tp := tp + 1;
          attackBlocked := attackBlocked + 1;
        } else {
          fn := fn + 1;
          failures := failures + 1;
        }
      } else {
        benignTotal := benignTotal + 1;
        if !f.blocked {
          tn := tn + 1;
          benignPassed := benignPassed + 1;
        } else {
          fp := fp + 1;
          failures := failures + 1;
        }
      }
    }
    assert fixtures[..|fixtures|] == fixtures;
    TallyAllAccounts(fixtures);
    r := Report(Matrix(tp, fp, tn, fn, failures), attackTotal, attackBlocked, benignTotal, benignPassed, byCategory);
  }

  // ---- Categories partition the fixtures --------------------------------------------

  predicate Distinct(names: seq<string>) {
    forall i, j :: 0 <= i < j < |names| ==> names[i] != names[j]
  }

  /** One count, summed over categories. */
  function CategorySum(fixtures: seq<Fixture>, categories: seq<string>, attack: bool, blocked: bool): nat {
    if categories == [] then 0
    else
      CategorySum(fixtures, categories[..|categories| - 1], attack, blocked)
      + Count(InCategory(fixtures, categories[|categories| - 1]), attack, blocked)
  }

  lemma {:induction false} CategorySumPeel(fixtures: seq<Fixture>, f: Fixture, categories: seq<string>,
                                           attack: bool, blocked: bool)
    requires Distinct(categories)
    ensures var hit := f.category in categories && f.attack == attack && f.blocked == blocked;
            var sum := CategorySum(fixtures, categories, attack, blocked);
            CategorySum(fixtures + [f], categories, attack, blocked) == sum + (if hit then 1 else 0)
  {
    if categories != [] {
      var rest, last := categories[..|categories| - 1], categories[|categories| - 1];
      CategorySumPeel(fixtures, f, rest, attack, blocked);
      CountInCategoryAppend(fixtures, f, last, attack, blocked);
      assert categories == rest + [last] && last !in rest;
    }
  }

  lemma CountInCategoryAppend(fixtures: seq<Fixture>, f: Fixture, c: string, attack: bool, blocked: bool)
    ensures Count(InCategory(fixtures + [f], c), attack, blocked)
         == Count(InCategory(fixtures, c), attack, blocked)
            + if f.category == c && f.attack == attack && f.blocked == blocked then 1 else 0
  {
    CategoryAppend(fixtures, f, c);
    var before := InCategory(fixtures, c);
    assert (before + [f])[..|before|] == before;
  }

  lemma {:induction false} CountsPartition(fixtures: seq<Fixture>, categories: seq<string>,
                                           attack: bool, blocked: bool)
    requires Distinct(categories) && forall f :: f in fixtures ==> f.category in categories
    ensures CategorySum(fixtures, categories, attack, blocked) == Count(fixtures, attack, blocked)
  {
    if fixtures == [] {
      EmptySum(categories, attack, blocked);
    } else {
      var rest, f := fixtures[..|fixtures| - 1], fixtures[|fixtures| - 1];
      assert fixtures == rest + [f];
      assert f in fixtures;
      CountsPartition(rest, categories, attack, blocked);
      CategorySumPeel(rest, f, categories, attack, blocked);
    }
  }

  lemma {:induction false} EmptySum(categories: seq<string>, attack: bool, blocked: bool)
    ensures CategorySum([], categories, attack, blocked) == 0
  {
    if categories != [] {
      EmptySum(categories[..|categories| - 1], attack, blocked);
    }
  }

  function Plus(a: Matrix, b: Matrix): Matrix {
    Matrix(a.tp + b.tp, a.fp + b.fp, a.tn + b.tn, a.fn + b.fn, a.failures + b.failures)
  }

  /** The matrices of the listed categories, added up. */
  function SumOver(byCategory: map<string, Matrix>, categories: seq<string>): Matrix
    requires forall c :: c in categories ==> c in byCategory
  {
    if categories == [] then ZERO
    else Plus(SumOver(byCategory, categories[..|categories| - 1]), byCategory[categories[|categories| - 1]])
  }

  lemma {:induction false} SumOverCounts(fixtures: seq<Fixture>, byCategory: map<string, Matrix>,
                                         categories: seq<string>)
    requires forall c :: c in categories ==> c in byCategory && Counts(byCategory[c], InCategory(fixtures, c))
    ensures var sum := SumOver(byCategory, categories);
            && sum.tp == CategorySum(fixtures, categories, true, true)
            && sum.fn == CategorySum(fixtures, categories, true, false)
            && sum.fp == CategorySum(fixtures, categories, false, true)
            && sum.tn == CategorySum(fixtures, categories, false, false)
            && sum.failures == sum.fn + sum.fp
  {
    if categories != [] {
      SumOverCounts(fixtures, byCategory, categories[..|categories| - 1]);
    }
  }

  /** The counters of the report's categories, each listed once, add up to the overall ones. */
  lemma CategoriesPartition(fixtures: seq<Fixture>, categories: seq<string>)
    requires Distinct(categories) && forall c :: c in categories <==> c in TallyAll(fixtures).byCategory
    ensures SumOver(TallyAll(fixtures).byCategory, categories) == TallyAll(fixtures).overall
  {
    TallyAllAccounts(fixtures);
    SumOverCounts(fixtures, TallyAll(fixtures).byCategory, categories);
    forall f | f in fixtures ensures f.category in categories {
      FoundInCategory(fixtures, f);
    }
    CountsPartition(fixtures, categories, true, true);
    CountsPartition(fixtures, categories, true, false);
    CountsPartition(fixtures, categories, false, true);
    CountsPartition(fixtures, categories, false, false);
  }

  lemma {:induction false} FoundInCategory(fixtures: seq<Fixture>, f: Fixture)
    requires f in fixtures
    ensures InCategory(fixtures, f.category) != []
  {
    var rest := fixtures[..|fixtures| - 1];
    assert fixtures == rest + [fixtures[|fixtures| - 1]];
    if f in rest {
      FoundInCategory(rest, f);
    }
  }

  // ---- Rates and gates --------------------------------------------------------------

  /** a / b || 0: JavaScript's quotient, with NaN (0 / 0) read as zero. */
  function Rate(a: real, b: real): real {
    if b == 0.0 then 0.0 else a / b
  }

  function Precision(m: Matrix): real {
    Rate(m.tp as real, (m.tp + m.fp) as real)
  }

  function Recall(m: Matrix): real {
    Rate(m.tp as real, (m.tp + m.fn) as real)
  }

  function F1(m: Matrix): real {
    Rate(2.0 * Precision(m) * Recall(m), Precision(m) + Recall(m))
  }

  predicate Passed(m: Matrix) {
    m.fn == 0 && m.fp == 0
  }

  /** 2pr / (p + r) for p = t/a and r = t/b. */
  lemma HarmonicMean(t: real, a: real, b: real)
    requires t > 0.0 && a > 0.0 && b > 0.0
    ensures t / a + t / b > 0.0
    ensures (2.0 * (t / a) * (t / b)) / (t / a + t / b) == 2.0 * t / (a + b)
  {
    var p, r := t / a, t / b;
    assert p * a == t && r * b == t && p > 0.0 && r > 0.0;
    assert (p + r) * t == p * r * (a + b) by {
      assert p * t == p * (r * b) && r * t == r * (p * a);
      assert p * (r * b) + r * (p * a) == p * r * (a + b);
    }
    CrossDivide(2.0 * p * r, p + r, 2.0 * t, a + b);
  }

  lemma CrossDivide(x: real, y: real, u: real, v: real)
    requires y > 0.0 && v > 0.0 && x * v == u * y
    ensures x / y == u / v
  {
    assert (x / y) * y == x;
    assert (x / y) * y * v == u * y;
    assert ((x / y) * v - u) * y == 0.0;
    assert (x / y) * v == u;
  }

  /** F1 from precision and recall, in closed form, zero divisions included. */
  lemma F1ClosedForm(m: Matrix)
    ensures F1(m) == if m.tp == 0 then 0.0 else 2.0 * m.tp as real / (2 * m.tp + m.fp + m.fn) as real
  {
    if m.tp == 0 {
      assert Precision(m) == 0.0 && Recall(m) == 0.0;
    } else {
      var t, a, b := m.tp as real, (m.tp + m.fp) as real, (m.tp + m.fn) as real;
      HarmonicMean(t, a, b);
      assert a + b == (2 * m.tp + m.fp + m.fn) as real;
    }
  }

  /** F1 is 1 exactly when something was caught and nothing went wrong. */
  lemma PerfectF1(m: Matrix)
    ensures F1(m) <= 1.0 && (F1(m) == 1.0 <==> m.tp > 0 && Passed(m))
  {
    F1ClosedForm(m);
    if m.tp > 0 {
      QuotientAtMostOne(2.0 * m.tp as real, (2 * m.tp + m.fp + m.fn) as real);
    }
  }

  lemma QuotientAtMostOne(n: real, d: real)
    requires 0.0 < n <= d
    ensures n / d <= 1.0 && (n / d == 1.0 <==> n == d)
  {
    var q := n / d;
    assert q * d == n;
    assert (q - 1.0) * d == n - d;
  }

  /**
   The three gates of the command, in order; true is exit code 0.  None is a setting that
   does not parse: NaN, below which nothing is.
   */
  predicate Gate(m: Matrix, minAttackSamples: Option<int>, minF1: Option<real>) {
    if minAttackSamples.Some? && m.tp + m.fn < minAttackSamples.value then false
    else if minF1.Some? && F1(m) < minF1.value then false
    else Passed(m)
  }

  /**
   For all settings: the command succeeds exactly on a flawless run that caught enough
   attacks, with a minimum F1 of at most 1, or of at most 0 when there was no attack.  So
   with at least one attack required and a minimum of at most 1 the F1 gate decides nothing.
   */
  lemma GateIffFlawless(m: Matrix, minAttackSamples: Option<int>, minF1: Option<real>)
    ensures Gate(m, minAttackSamples, minF1) <==>
              && Passed(m)
              && (minAttackSamples.Some? ==> m.tp >= minAttackSamples.value)
              && (minF1.Some? ==> minF1.value <= if m.tp > 0 then 1.0 else 0.0)
    ensures minAttackSamples.Some? && minAttackSamples.value >= 1 && (minF1.Some? ==> minF1.value <= 1.0) ==>
              (Gate(m, minAttackSamples, minF1) <==> m.tp >= minAttackSamples.value && Passed(m))
  {
    PerfectF1(m);
    F1ClosedForm(m);
  }
}
