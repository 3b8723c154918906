/**
 * The data side of the student-performance dashboard: normalising the CSV
 * header, the student record before and after numeric coercion, and the
 * loader that coerces the three score columns, drops rows with a missing
 * score and adds the per-row average (`load_data`).
 */
module StudentData {
  import opened Wrappers
  import opened Seqs

  // ---------------------------------------------------------------------
  // Header normalisation: `columns.str.replace(' ', '_').str.lower()`
  // ---------------------------------------------------------------------

  /** Every space replaced by an underscore. */
  function ReplaceSpaces(s: string): (r: string)
    ensures |r| == |s|
    ensures forall i :: 0 <= i < |s| ==> r[i] == if s[i] == ' ' then '_' else s[i]
  {
    if s == [] then [] else [if s[0] == ' ' then '_' else s[0]] + ReplaceSpaces(s[1..])
  }

  predicate IsUpper(c: char) {
    'A' <= c <= 'Z'
  }

  /** ASCII lower-casing of one character. */
  function LowerChar(c: char): (d: char)
    ensures !IsUpper(d)
    ensures !IsUpper(c) ==> d == c
  {
    if IsUpper(c) then (c as int + 32) as char else c
  }

  /** Every character lower-cased. */
  function Lower(s: string): (r: string)
    ensures |r| == |s|
    ensures forall i :: 0 <= i < |s| ==> r[i] == LowerChar(s[i])
  {
    if s == [] then [] else [LowerChar(s[0])] + Lower(s[1..])
  }

  /**
   * A column name as the loader rewrites it: spaces to underscores, then
   * lower case. The result has the same length, no space and no upper-case letter.
   */
  function NormaliseHeader(h: string): (n: string)
    ensures |n| == |h|
    ensures forall i :: 0 <= i < |h| ==> n[i] == if h[i] == ' ' then '_' else LowerChar(h[i])
    ensures ' ' !in n
    ensures forall c :: c in n ==> !IsUpper(c)
  {
    Lower(ReplaceSpaces(h))
  }

  /** Normalising an already normalised name changes nothing. */
  lemma NormaliseHeaderIdempotent(h: string)
    ensures NormaliseHeader(NormaliseHeader(h)) == NormaliseHeader(h)
  {
    var n := NormaliseHeader(h);
    forall i | 0 <= i < |n| ensures NormaliseHeader(n)[i] == n[i] {
      assert n[i] != ' ' && !IsUpper(n[i]);
    }
  }

  /** All column names normalised, in order. */
  function NormaliseColumns(cols: seq<string>): (r: seq<string>)
    ensures |r| == |cols|
    ensures forall i :: 0 <= i < |cols| ==> r[i] == NormaliseHeader(cols[i])
    ensures forall i :: 0 <= i < |cols| ==> |r[i]| == |cols[i]| && ' ' !in r[i]
    ensures forall i, c :: 0 <= i < |cols| && c in r[i] ==> !IsUpper(c)
  {
    seq(|cols|, i requires 0 <= i < |cols| => NormaliseHeader(cols[i]))
  }

  // ---------------------------------------------------------------------
  // Records
  // ---------------------------------------------------------------------

  /** A cell of a score column as read from the file: a number, some text, or nothing. */
  datatype Cell = Number(n: int) | Text(text: string) | Blank

  /** A row as read from the file. */
  datatype RawStudent = RawStudent(
    gender: string, race: string, education: string, lunch: string, prep: string,
    math: Cell, reading: Cell, writing: Cell)

  /**
   * A row of the loaded table: three numeric scores and their mean
   * `avg` (the `avg_score` column).
   */
  datatype Student = Student(
    gender: string, race: string, education: string, lunch: string, prep: string,
    math: int, reading: int, writing: int, avg: real)

  /** The sum of the three scores. */
  function Total(s: Student): int {
    s.math + s.reading + s.writing
  }

  /** `avg` is the mean of the row's own three scores. */
  predicate AvgIsMean(s: Student) {
    3.0 * s.avg == Total(s) as real
  }

  datatype ScoreColumn = MathScore | ReadingScore | WritingScore

  /** `score_cols`, in the order the loader visits them. */
  const ScoreColumns: seq<ScoreColumn> := [MathScore, ReadingScore, WritingScore]

  /** The name of the derived column. */
  const AvgColumn: string := "avg_score"

  function ScoreCell(r: RawStudent, c: ScoreColumn): Cell {
    match c
    case MathScore => r.math
    case ReadingScore => r.reading
    case WritingScore => r.writing
  }

  /** The value of a score column in a loaded row. */
  function ScoreOf(s: Student, c: ScoreColumn): int {
    match c
    case MathScore => s.math
    case ReadingScore => s.reading
    case WritingScore => s.writing
  }

  function WithScoreCell(r: RawStudent, c: ScoreColumn, v: Cell): RawStudent {
    match c
    case MathScore => r.(math := v)
    case ReadingScore => r.(reading := v)
    case WritingScore => r.(writing := v)
  }

  /**
   * `pd.to_numeric(..., errors='coerce')` on one cell: a number stays,
   * text becomes the number `parse` reads from it or, failing that, missing.
   * The text parser itself is a parameter.
   */
  function ToNumeric(c: Cell, parse: string -> Option<int>): (d: Cell)
    ensures !d.Text?
    ensures c.Number? ==> d == c
    ensures c.Blank? ==> d.Blank?
  {
    match c
    case Number(_) => c
    case Blank => Blank
    case Text(t) =>
      match parse(t)
      case Some(n) => Number(n)
      case None => Blank
  }

  // ---------------------------------------------------------------------
  // The loader's specification, row by row
  // ---------------------------------------------------------------------

  /**
   * What one raw row becomes in the loaded table: nothing when any of its
   * three scores is missing or not numeric, otherwise the record with its
   * three scores and their mean.
   */
  function Clean(r: RawStudent, parse: string -> Option<int>): (s: Option<Student>)
    ensures s.Some? <==>
      ToNumeric(r.math, parse).Number? && ToNumeric(r.reading, parse).Number? && ToNumeric(r.writing, parse).Number?
    ensures s.Some? ==>
      s.value.math == ToNumeric(r.math, parse).n && s.value.reading == ToNumeric(r.reading, parse).n &&
      s.value.writing == ToNumeric(r.writing, parse).n && AvgIsMean(s.value)
    ensures s.Some? ==>
      s.value.gender == r.gender && s.value.race == r.race && s.value.education == r.education &&
      s.value.lunch == r.lunch && s.value.prep == r.prep
  {
    match (ToNumeric(r.math, parse), ToNumeric(r.reading, parse), ToNumeric(r.writing, parse))
    case (Number(m), Number(rd), Number(w)) =>
      Some(Student(r.gender, r.race, r.education, r.lunch, r.prep, m, rd, w, (m + rd + w) as real / 3.0))
    case _ => None
  }

  /** The loaded table: the clean rows, in file order. */
  function Loaded(raw: seq<RawStudent>, parse: string -> Option<int>): (t: seq<Student>)
    ensures |t| <= |raw|
  {
    var clean := r => CleanRow(r, parse);
    FlatMapAtMostOne(raw, clean);
    FlatMap(raw, clean)
  }

  /** The clean record of one row, as a table of zero or one rows. */
  function CleanRow(r: RawStudent, parse: string -> Option<int>): (t: seq<Student>)
    ensures |t| <= 1
  {
    if Clean(r, parse).Some? then [Clean(r, parse).value] else []
  }

  /** Every row of the loaded table has `avg_score` equal to the mean of its own three scores. */
  lemma {:induction false} LoadedRowsAreMeans(raw: seq<RawStudent>, parse: string -> Option<int>)
    ensures forall s :: s in Loaded(raw, parse) ==> AvgIsMean(s)
  {
    if raw != [] {
      LoadedRowsAreMeans(raw[1..], parse);
    }
  }

  /** Rows of an earlier part of the file come before rows of a later part. */
  lemma LoadedAppend(a: seq<RawStudent>, b: seq<RawStudent>, parse: string -> Option<int>)
    ensures Loaded(a + b, parse) == Loaded(a, parse) + Loaded(b, parse)
  {
    FlatMapAppend(a, b, r => CleanRow(r, parse));
  }

  /** A single row is kept, as its clean record, exactly when all three of its scores are numeric. */
  lemma LoadedSingle(r: RawStudent, parse: string -> Option<int>)
    ensures Loaded([r], parse) == CleanRow(r, parse)
  {
    assert [r][1..] == [];
    assert Loaded([r], parse) == CleanRow(r, parse) + Loaded([], parse);
  }

  // ---------------------------------------------------------------------
  // The loader, column by column
  // ---------------------------------------------------------------------

  /** `df[col] = pd.to_numeric(df[col], errors='coerce')` */
  function CoerceColumn(rows: seq<RawStudent>, col: ScoreColumn, parse: string -> Option<int>): (r: seq<RawStudent>)
    ensures |r| == |rows|
    ensures forall i :: 0 <= i < |r| ==> ScoreCell(r[i], col) == ToNumeric(ScoreCell(rows[i], col), parse)
    ensures forall i :: 0 <= i < |r| ==> !ScoreCell(r[i], col).Text?
    ensures forall i :: 0 <= i < |r| && !ScoreCell(rows[i], col).Text? ==> ScoreCell(r[i], col) == ScoreCell(rows[i], col)
    ensures forall i, c :: 0 <= i < |r| && c != col ==> ScoreCell(r[i], c) == ScoreCell(rows[i], c)
    ensures forall i :: 0 <= i < |r| ==>
      r[i].(math := Blank, reading := Blank, writing := Blank) == rows[i].(math := Blank, reading := Blank, writing := Blank)
  {
    seq(|rows|, i requires 0 <= i < |rows| => WithScoreCell(rows[i], col, ToNumeric(ScoreCell(rows[i], col), parse)))
  }

  /** A raw row after the first k score columns have been coerced. */
  function CoercedUpTo(r: RawStudent, k: nat, parse: string -> Option<int>): RawStudent {
    r.(math := if k >= 1 then ToNumeric(r.math, parse) else r.math,
       reading := if k >= 2 then ToNumeric(r.reading, parse) else r.reading,
       writing := if k >= 3 then ToNumeric(r.writing, parse) else r.writing)
  }

  /** No score of the row is missing (`dropna(subset=score_cols)` keeps it). */
  predicate HasAllScores(r: RawStudent)
    ensures HasAllScores(r) <==> forall c: ScoreColumn :: ScoreCell(r, c).Number?
  {
    ScoreCell(r, MathScore).Number? && ScoreCell(r, ReadingScore).Number? && ScoreCell(r, WritingScore).Number?
  }

  /** `df['avg_score'] = df[score_cols].mean(axis=1)` */
  function AddAverage(rows: seq<RawStudent>): (t: seq<Student>)
    requires forall i :: 0 <= i < |rows| ==> HasAllScores(rows[i])
    ensures |t| == |rows|
    ensures forall i :: 0 <= i < |t| ==> AvgIsMean(t[i])
    ensures forall i :: 0 <= i < |t| ==>
      Number(t[i].math) == rows[i].math && Number(t[i].reading) == rows[i].reading && Number(t[i].writing) == rows[i].writing
    ensures forall i :: 0 <= i < |t| ==>
      t[i].gender == rows[i].gender && t[i].race == rows[i].race && t[i].education == rows[i].education &&
      t[i].lunch == rows[i].lunch && t[i].prep == rows[i].prep
  {
    var t := seq(|rows|, i requires 0 <= i < |rows| => WithAverage(rows[i]));
    assert forall i :: 0 <= i < |t| ==>
      Number(t[i].math) == rows[i].math && Number(t[i].reading) == rows[i].reading && Number(t[i].writing) == rows[i].writing
    by {
      forall i | 0 <= i < |t|
        ensures Number(t[i].math) == rows[i].math && Number(t[i].reading) == rows[i].reading && Number(t[i].writing) == rows[i].writing
      {
        assert HasAllScores(rows[i]);
      }
    }
    t
  }

  /** One complete row with its mean appended. */
  function WithAverage(r: RawStudent): Student
    requires HasAllScores(r)
  {
    Student(r.gender, r.race, r.education, r.lunch, r.prep, r.math.n, r.reading.n, r.writing.n,
            (r.math.n + r.reading.n + r.writing.n) as real / 3.0)
  }

  /** Coercing every row, dropping the incomplete ones and adding the mean is the row-by-row specification. */
  lemma {:induction false} PipelineIsLoaded(raw: seq<RawStudent>, rows: seq<RawStudent>, parse: string -> Option<int>)
    requires |rows| == |raw|
    requires forall i :: 0 <= i < |raw| ==> rows[i] == CoercedUpTo(raw[i], 3, parse)
    ensures AddAverage(Keep(rows, HasAllScores)) == Loaded(raw, parse)
  {
    if raw != [] {
      var head := if HasAllScores(rows[0]) then [rows[0]] else [];
      var kept := Keep(rows[1..], HasAllScores);
      calc {
        AddAverage(Keep(rows, HasAllScores));
        { KeepCons(rows[0], rows[1..], HasAllScores); }
        AddAverage(head + kept);
        { AddAverageAppend(head, kept); }
        AddAverage(head) + AddAverage(kept);
        { PipelineIsLoaded(raw[1..], rows[1..], parse); }
        AddAverage(head) + Loaded(raw[1..], parse);
        { CleanRowIsCoerced(raw[0], parse); }
        CleanRow(raw[0], parse) + Loaded(raw[1..], parse);
        { FlatMapCons(raw[0], raw[1..], r => CleanRow(r, parse)); }
        Loaded(raw, parse);
      }
    }
  }

  lemma AddAverageAppend(a: seq<RawStudent>, b: seq<RawStudent>)
    requires forall i :: 0 <= i < |a| ==> HasAllScores(a[i])
    requires forall i :: 0 <= i < |b| ==> HasAllScores(b[i])
    ensures AddAverage(a + b) == AddAverage(a) + AddAverage(b)
  {
  }

  /** Coercing the three scores of a row, keeping it if complete and adding its mean is Clean. */
  lemma CleanRowIsCoerced(r: RawStudent, parse: string -> Option<int>)
    ensures CleanRow(r, parse) == AddAverage(if HasAllScores(CoercedUpTo(r, 3, parse)) then [CoercedUpTo(r, 3, parse)] else [])
  {
  }

  /**
   * `load_data`: normalise the header, coerce the three score columns one
   * after the other, drop the rows with a missing score, and add (or
   * overwrite) the `avg_score` column.
   */
  method LoadData(header: seq<string>, raw: seq<RawStudent>, parse: string -> Option<int>)
    returns (columns: seq<string>, table: seq<Student>)
    ensures |columns| == |header| + (if AvgColumn in NormaliseColumns(header) then 0 else 1)
    ensures forall i :: 0 <= i < |header| ==> columns[i] == NormaliseHeader(header[i])
    ensures AvgColumn in columns
    ensures table == Loaded(raw, parse)
  {
    columns := NormaliseColumns(header);
    var rows := raw;
    for k := 0 to |ScoreColumns|
      invariant |rows| == |raw|
      invariant forall i :: 0 <= i < |raw| ==> rows[i] == CoercedUpTo(raw[i], k, parse)
    {
      rows := CoerceColumn(rows, ScoreColumns[k], parse);
    }
    PipelineIsLoaded(raw, rows, parse);
    rows := Keep(rows, HasAllScores);
    table := AddAverage(rows);
    if AvgColumn !in columns {
      columns := columns + [AvgColumn];
    }
  }
}
