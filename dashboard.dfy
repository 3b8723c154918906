/**
 * The non-rendering logic of the student-performance dashboard: the option
 * lists of the two multi-selects, the filter mask, the early stop on an
 * empty result, the KPI figures and the raw-data table shown sorted by
 * average and without the derived column.
 */
module Dashboard {
  import opened Seqs
  import opened StudentData

  // ---------------------------------------------------------------------
  // Option lists: `df_full[col].unique().tolist()`
  // ---------------------------------------------------------------------

  function Races(t: seq<Student>): (r: seq<string>)
    ensures |r| == |t| && forall i :: 0 <= i < |t| ==> r[i] == t[i].race
  {
    seq(|t|, i requires 0 <= i < |t| => t[i].race)
  }

  function Preps(t: seq<Student>): (r: seq<string>)
    ensures |r| == |t| && forall i :: 0 <= i < |t| ==> r[i] == t[i].prep
  {
    seq(|t|, i requires 0 <= i < |t| => t[i].prep)
  }

  /** `df_full['race/ethnicity'].unique()`: every race of the table, once, and nothing else. */
  function RaceOptions(t: seq<Student>): (r: seq<string>)
    ensures NoDuplicates(r)
    ensures forall i :: 0 <= i < |t| ==> t[i].race in r
    ensures forall x :: x in r ==> exists i :: 0 <= i < |t| && t[i].race == x
  {
    var r := Unique(Races(t));
    assert forall x :: x in r ==> exists i :: 0 <= i < |t| && t[i].race == x by {
      forall x | x in r ensures exists i :: 0 <= i < |t| && t[i].race == x {
        var k :| 0 <= k < |Races(t)| && Races(t)[k] == x;
      }
    }
    r
  }

  /** `df_full['test_preparation_course'].unique()`: every preparation status of the table, once, and nothing else. */
  function PrepOptions(t: seq<Student>): (r: seq<string>)
    ensures NoDuplicates(r)
    ensures forall i :: 0 <= i < |t| ==> t[i].prep in r
    ensures forall x :: x in r ==> exists i :: 0 <= i < |t| && t[i].prep == x
  {
    var r := Unique(Preps(t));
    assert forall x :: x in r ==> exists i :: 0 <= i < |t| && t[i].prep == x by {
      forall x | x in r ensures exists i :: 0 <= i < |t| && t[i].prep == x {
        var k :| 0 <= k < |Preps(t)| && Preps(t)[k] == x;
      }
    }
    r
  }

  // ---------------------------------------------------------------------
  // Filter
  // ---------------------------------------------------------------------

  /** The sidebar choices: the selected races, the selected preparation statuses and the slider range. */
  datatype Selection = Selection(races: seq<string>, preps: seq<string>, lo: int, hi: int)

  /** The filter mask for one row: both memberships and the inclusive range on `avg_score`. */
  predicate Matches(sel: Selection, s: Student) {
    s.race in sel.races && s.prep in sel.preps && sel.lo as real <= s.avg && s.avg <= sel.hi as real
  }

  /** `df_full[mask]`: the matching rows of the full table, in table order. */
  function Filtered(full: seq<Student>, sel: Selection): (view: seq<Student>)
    ensures |view| <= |full|
    ensures forall s :: s in view <==> s in full && Matches(sel, s)
  {
    var mask := s => Matches(sel, s);
    var view := Keep(full, mask);
    assert forall s :: s in full && Matches(sel, s) ==> s in view by {
      forall s | s in full && Matches(sel, s) ensures s in view {
        KeepMember(full, mask, s);
      }
    }
    view
  }

  /**
   * The filtered view holds exactly the matching rows of the full table:
   * each matching row as often as it occurs there, no other row.
   */
  lemma FilteredExactly(full: seq<Student>, sel: Selection, s: Student)
    ensures s in Filtered(full, sel) <==> s in full && Matches(sel, s)
    ensures multiset(Filtered(full, sel))[s] == if Matches(sel, s) then multiset(full)[s] else 0
  {
    KeepMember(full, s => Matches(sel, s), s);
    KeepCount(full, s => Matches(sel, s), s);
  }

  /** Filtering keeps table order: the view of a concatenation is the concatenation of the views. */
  lemma FilteredInOrder(a: seq<Student>, b: seq<Student>, sel: Selection)
    ensures Filtered(a + b, sel) == Filtered(a, sel) + Filtered(b, sel)
  {
    KeepAppend(a, b, s => Matches(sel, s));
  }

  /** With no race or no preparation status selected, nothing matches. */
  lemma EmptySelectionMatchesNothing(full: seq<Student>, sel: Selection)
    requires sel.races == [] || sel.preps == []
    ensures Filtered(full, sel) == []
  {
    KeepEmpty(full, s => Matches(sel, s));
  }

  /** For a loaded row, the range test on the mean is the integer test 3*lo <= total <= 3*hi. */
  lemma RangeTestOnTotals(sel: Selection, s: Student)
    requires AvgIsMean(s)
    ensures (sel.lo as real <= s.avg && s.avg <= sel.hi as real) <==> 3 * sel.lo <= Total(s) <= 3 * sel.hi
  {
  }

  // ---------------------------------------------------------------------
  // KPIs
  // ---------------------------------------------------------------------

  /** A column whose mean the KPI row shows: one of the three scores, or `avg_score`. */
  datatype Column = Subject(score: ScoreColumn) | Average

  const Math: Column := Subject(MathScore)
  const Reading: Column := Subject(ReadingScore)
  const Writing: Column := Subject(WritingScore)

  function Value(s: Student, c: Column): real {
    match c
    case Subject(score) => ScoreOf(s, score) as real
    case Average => s.avg
  }

  function Sum(t: seq<Student>, c: Column): real {
    if t == [] then 0.0 else Value(t[0], c) + Sum(t[1..], c)
  }

  /** Every row of the table holds v in column c. */
  predicate Constant(t: seq<Student>, c: Column, v: real) {
    forall s :: s in t ==> Value(s, c) == v
  }

  /** `df[col].mean()` over a non-empty table, exactly. */
  function Mean(t: seq<Student>, c: Column): (m: real)
    requires t != []
    ensures Constant(t, c, Value(t[0], c)) ==> m == Value(t[0], c)
  {
    var n, v := |t| as real, Value(t[0], c);
    assert Constant(t, c, v) ==> Sum(t, c) / n == v by {
      if Constant(t, c, v) {
        SumWithin(t, c, v, v);
        RepeatIsProduct(|t|, v);
        DivWithin(n, Sum(t, c), v, v);
      }
    }
    Sum(t, c) / n
  }

  /** The sum over a concatenation is the sum of the sums. */
  lemma {:induction false} SumAppend(a: seq<Student>, b: seq<Student>, c: Column)
    ensures Sum(a + b, c) == Sum(a, c) + Sum(b, c)
  {
    if a == [] {
      assert a + b == b;
    } else {
      assert (a + b)[0] == a[0] && (a + b)[1..] == a[1..] + b;
      SumAppend(a[1..], b, c);
    }
  }

  /** The mean of a single row is that row's value. */
  lemma MeanSingle(s: Student, c: Column)
    ensures Mean([s], c) == Value(s, c)
  {
    assert [s][1..] == [];
  }

  /** The mean of a concatenation is the mean of the parts' means, each weighted by its number of rows. */
  lemma MeanAppend(a: seq<Student>, b: seq<Student>, c: Column)
    requires a != [] && b != []
    ensures Mean(a + b, c) == Weighted(Mean(a, c), |a|, Mean(b, c), |b|)
  {
    SumAppend(a, b, c);
    assert |a + b| == |a| + |b|;
    WeightedParts(Sum(a, c), Sum(b, c), |a|, |b|, Mean(a + b, c), Mean(a, c), Mean(b, c));
  }

  /** The mean of x over m rows and y over n rows, weighted by the row counts. */
  function Weighted(x: real, m: nat, y: real, n: nat): real
    requires m + n > 0
  {
    (x * m as real + y * n as real) / (m + n) as real
  }

  lemma WeightedParts(x: real, y: real, m: nat, n: nat, whole: real, mx: real, my: real)
    requires m > 0 && n > 0
    requires whole == (x + y) / (m + n) as real && mx == x / m as real && my == y / n as real
    ensures whole == Weighted(mx, m, my, n)
  {
    assert mx * m as real == x && my * n as real == y;
  }

  /** n copies of x added up. */
  function Repeat(n: nat, x: real): real {
    if n == 0 then 0.0 else x + Repeat(n - 1, x)
  }

  lemma {:induction false} RepeatIsProduct(n: nat, x: real)
    ensures Repeat(n, x) == n as real * x
  {
    if n > 0 {
      RepeatIsProduct(n - 1, x);
      assert (n - 1) as real * x + x == n as real * x;
    }
  }

  /** If every value of the column lies in [lo, hi], its sum over n rows lies between n copies of lo and of hi. */
  lemma {:induction false} SumWithin(t: seq<Student>, c: Column, lo: real, hi: real)
    requires forall s :: s in t ==> lo <= Value(s, c) <= hi
    ensures Repeat(|t|, lo) <= Sum(t, c) <= Repeat(|t|, hi)
  {
    if t != [] {
      assert t[0] in t;
      assert forall s :: s in t[1..] ==> s in t;
      SumWithin(t[1..], c, lo, hi);
    }
  }

  lemma DivWithin(n: real, x: real, lo: real, hi: real)
    requires n > 0.0 && n * lo <= x <= n * hi
    ensures lo <= x / n <= hi
  {
  }

  /** The mean of a column lies between any lower and upper bound of its values. */
  lemma MeanWithin(t: seq<Student>, c: Column, lo: real, hi: real)
    requires t != []
    requires forall s :: s in t ==> lo <= Value(s, c) <= hi
    ensures lo <= Mean(t, c) <= hi
  {
    SumWithin(t, c, lo, hi);
    RepeatIsProduct(|t|, lo);
    RepeatIsProduct(|t|, hi);
    DivWithin(|t| as real, Sum(t, c), lo, hi);
  }

  /** The figures of the KPI row. */
  datatype Kpis = Kpis(
    totalStudents: nat, avgMath: real, avgReading: real, avgWriting: real,
    overallAvg: real, mathDelta: real)

  /** What the page shows after the sidebar: the empty-result warning, or the KPIs and the table. */
  datatype Page = NoMatchWarning | Report(kpis: Kpis, display: seq<DisplayRow>)

  /**
   * Lines 85-214 without the rendering: filter, stop with a warning when
   * nothing matches, otherwise compute the KPIs (the baseline over the full
   * table) and the display table.
   */
  function RenderPage(full: seq<Student>, sel: Selection): (p: Page)
    ensures p.NoMatchWarning? <==> forall s :: s in full ==> !Matches(sel, s)
    ensures p.Report? ==> p.kpis.totalStudents == |Filtered(full, sel)| > 0
    ensures p.Report? ==> full != [] && p.kpis.overallAvg == Mean(full, Average)
    ensures p.Report? ==>
      p.kpis.avgMath == Mean(Filtered(full, sel), Math) &&
      p.kpis.avgReading == Mean(Filtered(full, sel), Reading) &&
      p.kpis.avgWriting == Mean(Filtered(full, sel), Writing) &&
      p.kpis.mathDelta == p.kpis.avgMath - p.kpis.overallAvg
    ensures p.Report? ==> p.display == DisplayTable(Filtered(full, sel))
  {
    var view := Filtered(full, sel);
    KeepEmpty(full, s => Matches(sel, s));
    if view == [] then NoMatchWarning
    else
      var avgMath := Mean(view, Math);
      var overall := Mean(full, Average);
      Report(Kpis(|view|, avgMath, Mean(view, Reading), Mean(view, Writing), overall, avgMath - overall),
             DisplayTable(view))
  }

  /** The baseline is the same for every selection that shows a report. */
  lemma BaselineIgnoresSelection(full: seq<Student>, sel1: Selection, sel2: Selection)
    requires Filtered(full, sel1) != [] && Filtered(full, sel2) != []
    ensures RenderPage(full, sel1).Report? && RenderPage(full, sel2).Report?
    ensures RenderPage(full, sel1).kpis.overallAvg == RenderPage(full, sel2).kpis.overallAvg
  {
    KeepEmpty(full, s => Matches(sel1, s));
    KeepEmpty(full, s => Matches(sel2, s));
  }

  lemma {:induction false} SumOfAverages(t: seq<Student>)
    requires forall s :: s in t ==> AvgIsMean(s)
    ensures 3.0 * Sum(t, Average) == Sum(t, Math) + Sum(t, Reading) + Sum(t, Writing)
  {
    if t != [] {
      assert t[0] in t;
      assert forall s :: s in t[1..] ==> s in t;
      SumOfAverages(t[1..]);
    }
  }

  /** Over a loaded table, the baseline is the mean of the three subject means. */
  lemma BaselineIsMeanOfSubjects(full: seq<Student>)
    requires full != []
    requires forall s :: s in full ==> AvgIsMean(s)
    ensures Mean(full, Average) == (Mean(full, Math) + Mean(full, Reading) + Mean(full, Writing)) / 3.0
  {
    SumOfAverages(full);
    MeanOfThree(|full| as real, Sum(full, Average), Sum(full, Math), Sum(full, Reading), Sum(full, Writing));
  }

  lemma MeanOfThree(n: real, avg: real, a: real, b: real, c: real)
    requires n > 0.0 && 3.0 * avg == a + b + c
    ensures avg / n == (a / n + b / n + c / n) / 3.0
  {
    assert (a + b + c) / n == a / n + b / n + c / n;
  }

  // ---------------------------------------------------------------------
  // Display table: `sort_values('avg_score', ascending=False).drop(columns=['avg_score'])`
  // ---------------------------------------------------------------------

  /** A row of the raw-data table: a student without the `avg_score` column. */
  datatype DisplayRow = DisplayRow(
    gender: string, race: string, education: string, lunch: string, prep: string,
    math: int, reading: int, writing: int)

  /** `.drop(columns=['avg_score'])` on one row: every other column keeps its value. */
  function DropAvg(s: Student): (d: DisplayRow)
    ensures d.gender == s.gender && d.race == s.race && d.education == s.education && d.lunch == s.lunch && d.prep == s.prep
    ensures d.math == s.math && d.reading == s.reading && d.writing == s.writing
    ensures DisplayTotal(d) == Total(s)
  {
    DisplayRow(s.gender, s.race, s.education, s.lunch, s.prep, s.math, s.reading, s.writing)
  }

  /** Dropping the column forgets `avg_score` and nothing else. */
  lemma DropAvgForgetsOnlyAvg(s: Student, u: Student)
    ensures DropAvg(s) == DropAvg(u) <==> s.(avg := u.avg) == u
  {
  }

  /** `.drop(columns=['avg_score'])` on a table: row by row, in order. */
  function DropAvgAll(t: seq<Student>): (d: seq<DisplayRow>)
    ensures |d| == |t|
    ensures forall i :: 0 <= i < |t| ==> d[i] == DropAvg(t[i])
  {
    if t == [] then [] else [DropAvg(t[0])] + DropAvgAll(t[1..])
  }

  predicate DescendingByAvg(t: seq<Student>) {
    forall i, j :: 0 <= i < j < |t| ==> t[i].avg >= t[j].avg
  }

  /** `x` placed in a table sorted by descending average, ahead of the rows with an equal or lower average. */
  function InsertByAvg(x: Student, t: seq<Student>): (r: seq<Student>)
    requires DescendingByAvg(t)
    ensures DescendingByAvg(r)
    ensures multiset(r) == multiset(t) + multiset{x}
    ensures |r| == |t| + 1 && (r[0] == x || (t != [] && r[0] == t[0]))
  {
    if t == [] then [x]
    else if x.avg >= t[0].avg then
      ConsDescending(x, t);
      [x] + t
    else
      assert t == [t[0]] + t[1..];
      var rest := InsertByAvg(x, t[1..]);
      ConsDescending(t[0], rest);
      [t[0]] + rest
  }

  lemma ConsDescending(y: Student, t: seq<Student>)
    requires DescendingByAvg(t)
    requires t != [] ==> t[0].avg <= y.avg
    ensures DescendingByAvg([y] + t)
  {
    forall i, j | 0 <= i < j < |t| + 1 ensures ([y] + t)[i].avg >= ([y] + t)[j].avg {
      if i == 0 {
        assert t[0].avg >= t[j - 1].avg || j == 1;
      }
    }
  }

  /** The rows sorted by descending average. */
  function SortByAvgDesc(t: seq<Student>): (r: seq<Student>)
    ensures DescendingByAvg(r)
    ensures multiset(r) == multiset(t)
  {
    if t == [] then []
    else
      assert t == [t[0]] + t[1..];
      InsertByAvg(t[0], SortByAvgDesc(t[1..]))
  }

  /**
   * The raw-data table of a filtered view: its rows without `avg_score`,
   * and for loaded rows in non-increasing order of total score, the order
   * of the dropped average.
   */
  function DisplayTable(view: seq<Student>): (d: seq<DisplayRow>)
    ensures |d| == |view|
    ensures multiset(d) == multiset(DropAvgAll(view))
    ensures (forall s :: s in view ==> AvgIsMean(s)) ==>
      forall i, j :: 0 <= i < j < |d| ==> DisplayTotal(d[i]) >= DisplayTotal(d[j])
  {
    DropAvgAllSort(view);
    SortedByTotal(view);
    DropAvgAll(SortByAvgDesc(view))
  }

  lemma {:induction false} DropAvgAllInsert(x: Student, t: seq<Student>)
    requires DescendingByAvg(t)
    ensures multiset(DropAvgAll(InsertByAvg(x, t))) == multiset(DropAvgAll(t)) + multiset{DropAvg(x)}
  {
    if t != [] && x.avg < t[0].avg {
      var rest := InsertByAvg(x, t[1..]);
      calc {
        multiset(DropAvgAll(InsertByAvg(x, t)));
        { assert InsertByAvg(x, t) == [t[0]] + rest; }
        multiset(DropAvgAll([t[0]] + rest));
        { DropAvgAllInsert(x, t[1..]); DropAvgAllStep(t[0], rest, t[1..], x); }
        multiset(DropAvgAll([t[0]] + t[1..])) + multiset{DropAvg(x)};
        { assert t == [t[0]] + t[1..]; }
        multiset(DropAvgAll(t)) + multiset{DropAvg(x)};
      }
    } else {
      assert InsertByAvg(x, t) == [x] + t;
      DropAvgAllCons(x, t);
    }
  }

  lemma DropAvgAllCons(x: Student, t: seq<Student>)
    ensures multiset(DropAvgAll([x] + t)) == multiset{DropAvg(x)} + multiset(DropAvgAll(t))
  {
    assert ([x] + t)[1..] == t;
    assert DropAvgAll([x] + t) == [DropAvg(x)] + DropAvgAll(t);
  }

  lemma DropAvgAllStep(a: Student, rest: seq<Student>, t: seq<Student>, x: Student)
    requires multiset(DropAvgAll(rest)) == multiset(DropAvgAll(t)) + multiset{DropAvg(x)}
    ensures multiset(DropAvgAll([a] + rest)) == multiset(DropAvgAll([a] + t)) + multiset{DropAvg(x)}
  {
    DropAvgAllCons(a, rest);
    DropAvgAllCons(a, t);
  }

  lemma {:induction false} DropAvgAllSort(t: seq<Student>)
    ensures multiset(DropAvgAll(SortByAvgDesc(t))) == multiset(DropAvgAll(t))
  {
    if t != [] {
      DropAvgAllSort(t[1..]);
      DropAvgAllInsert(t[0], SortByAvgDesc(t[1..]));
    }
  }

  /** The sum of the three scores a display row shows. */
  function DisplayTotal(d: DisplayRow): int {
    d.math + d.reading + d.writing
  }

  /** Loaded rows sorted by descending average, with the average dropped, are ordered by non-increasing total. */
  lemma SortedByTotal(view: seq<Student>)
    ensures |SortByAvgDesc(view)| == |view|
    ensures (forall s :: s in view ==> AvgIsMean(s)) ==>
      forall i, j :: 0 <= i < j < |view| ==>
        DisplayTotal(DropAvgAll(SortByAvgDesc(view))[i]) >= DisplayTotal(DropAvgAll(SortByAvgDesc(view))[j])
  {
    var r := SortByAvgDesc(view);
    assert |r| == |multiset(r)| == |multiset(view)| == |view|;
    if forall s :: s in view ==> AvgIsMean(s) {
      var d := DropAvgAll(r);
      forall i, j | 0 <= i < j < |r| ensures DisplayTotal(d[i]) >= DisplayTotal(d[j]) {
        SortedRowIsLoaded(view, r, i);
        SortedRowIsLoaded(view, r, j);
      }
    }
  }

  lemma SortedRowIsLoaded(view: seq<Student>, r: seq<Student>, i: nat)
    requires forall s :: s in view ==> AvgIsMean(s)
    requires multiset(r) == multiset(view) && i < |r|
    ensures AvgIsMean(r[i])
  {
    assert r[i] in multiset(r);
    assert r[i] in view;
  }

}
