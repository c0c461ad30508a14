/**
 * The type-inference rules the Excel processor applies to a freshly read sheet: the
 * date-column test (a strict majority over a sample of non-null values) and the
 * per-column conversion loop that rewrites object columns in place. The pandas parsers
 * are abstract: a per-value "parses as a date" test and two whole-column conversions
 * that may raise.
 */
module TypeInference {
  import opened Wrappers

  /** One value of a column; `Missing` is what `isna` reports (None, NaN, NaT). */
  datatype Cell = Missing | Text(text: string) | Number(x: real) | Instant(ticks: int) | Flag(b: bool)

  /** The dtypes the rules distinguish: only `Object` columns are ever converted. */
  datatype DType = Object | Numeric | DateTime | OtherType

  datatype Column = Column(name: string, dtype: DType, cells: seq<Cell>)

  /**
   * The pandas behaviour the rules rely on. `parsesAsDate(v)` holds when
   * `pd.to_datetime(v)` returns without raising; the two conversions stand for
   * `pd.to_datetime(s, errors='coerce')` and `pd.to_numeric(s, errors='coerce')`,
   * with no result when the call raises.
   */
  datatype Parsers = Parsers(
    parsesAsDate: Cell -> bool,
    toDatetime: seq<Cell> -> Option<seq<Cell>>,
    toNumeric: seq<Cell> -> Option<seq<Cell>>)

  // ---------------------------------------------------------------- the date rule

  /** `series.dropna()`: the non-missing values, in order. */
  function NonNull(cells: seq<Cell>): (r: seq<Cell>)
    ensures |r| <= |cells|
    ensures forall i :: 0 <= i < |r| ==> r[i] != Missing
    ensures (forall i :: 0 <= i < |cells| ==> cells[i] != Missing) ==> r == cells
    ensures |cells| == 1 && cells[0] == Missing ==> r == []
  {
    if |cells| == 0 then []
    else (if cells[0] == Missing then [] else [cells[0]]) + NonNull(cells[1..])
  }

  /** `dropna` distributes over concatenation. */
  lemma {:induction false} NonNullAppend(a: seq<Cell>, b: seq<Cell>)
    ensures NonNull(a + b) == NonNull(a) + NonNull(b)
    decreases |a|
  {
    if |a| > 0 {
      var head: seq<Cell> := if a[0] == Missing then [] else [a[0]];
      assert (a + b)[0] == a[0] && (a + b)[1..] == a[1..] + b;
      assert NonNull(a + b) == head + NonNull(a[1..] + b);
      NonNullAppend(a[1..], b);
      assert head + (NonNull(a[1..]) + NonNull(b)) == (head + NonNull(a[1..])) + NonNull(b);
    } else {
      assert a + b == b;
    }
  }

  function Min(x: int, y: int): int { if x <= y then x else y }

  /** `s.head(n)`: the first `n` elements, or all of them when there are fewer. */
  function Head(s: seq<Cell>, n: nat): (r: seq<Cell>)
    ensures |r| == Min(n, |s|) && r == s[..|r|]
  {
    s[..Min(n, |s|)]
  }

  /** `series.dropna().head(min(100, len(series)))`: the values the date test examines. */
  function Sample(cells: seq<Cell>): (r: seq<Cell>)
    ensures |r| <= 100 && |r| <= |cells|
    ensures |r| == Min(100, |NonNull(cells)|)
    ensures r == NonNull(cells)[..|r|]
    ensures forall i :: 0 <= i < |r| ==> r[i] != Missing
  {
    Head(NonNull(cells), Min(100, |cells|))
  }

  /** The number of sampled values that `pd.to_datetime` accepts. */
  function CountDates(sample: seq<Cell>, p: Parsers): (r: nat)
    ensures r <= |sample|
  {
    if |sample| == 0 then 0
    else CountDates(sample[..|sample| - 1], p) + (if p.parsesAsDate(sample[|sample| - 1]) then 1 else 0)
  }

  /** `_is_date_column` as a rule: more than half of a non-empty sample parses as dates. */
  predicate IsDateLike(cells: seq<Cell>, p: Parsers)
  {
    var sample := Sample(cells);
    |sample| > 0 && 2 * CountDates(sample, p) > |sample|
  }

  /**
   * `_is_date_column`: counts the sampled values that parse as dates and compares the
   * share `date_count / len(sample)` with 0.5; an empty sample is not date-like.
   */
  method IsDateColumn(series: seq<Cell>, p: Parsers) returns (isDate: bool)
    ensures isDate == IsDateLike(series, p)
  {
    var sampleSize := Min(100, |series|);
    var sample := Head(NonNull(series), sampleSize);
    if |sample| == 0 {
      return false;
    }
    var dateCount := 0;
    for i := 0 to |sample|
      invariant dateCount == CountDates(sample[..i], p)
    {
      assert sample[..i + 1][..i] == sample[..i];
      if p.parsesAsDate(sample[i]) {
        dateCount := dateCount + 1;
      }
    }
    assert sample[..|sample|] == sample;
    var share := dateCount as real / |sample| as real;
    isDate := share > 0.5;
    ShareAboveHalf(dateCount, |sample|);
  }

  /** `d / n > 0.5` is the integer test `2 * d > n`, so exactly half is not a majority. */
  lemma ShareAboveHalf(d: nat, n: nat)
    requires n > 0
    ensures d as real / n as real > 0.5 <==> 2 * d > n
  {
    var q := d as real / n as real;
    var m := n as real;
    assert q * m == d as real;
    if q <= 0.5 {
      ScaleMonotone(q, 0.5, m);
    } else {
      ScaleMonotone(0.5, q, m);
    }
  }

  lemma ScaleMonotone(x: real, y: real, m: real)
    requires x <= y && m > 0.0
    ensures x * m <= y * m && (x < y ==> x * m < y * m)
  {
    assert y * m - x * m == (y - x) * m;
  }

  /** The sample is the first (at most) 100 non-null values: the `len(series)` cap never bites. */
  lemma SampleIsFirstHundred(cells: seq<Cell>)
    ensures Sample(cells) == Head(NonNull(cells), 100)
    ensures |Sample(cells)| <= 100
  {
  }

  /** A column with no non-null value is never date-like. */
  lemma AllMissingIsNotDateLike(cells: seq<Cell>, p: Parsers)
    requires NonNull(cells) == []
    ensures !IsDateLike(cells, p)
  {
  }

  /** Only the first 100 non-null values matter: columns that agree on them get the same verdict. */
  lemma DateRuleSeesFirstHundred(a: seq<Cell>, b: seq<Cell>, p: Parsers)
    requires Head(NonNull(a), 100) == Head(NonNull(b), 100)
    ensures IsDateLike(a, p) == IsDateLike(b, p)
  {
    SampleIsFirstHundred(a);
    SampleIsFirstHundred(b);
  }

  /** Once 100 non-null values have been seen, later rows cannot change the verdict. */
  lemma DateRuleIgnoresLaterRows(cells: seq<Cell>, more: seq<Cell>, p: Parsers)
    requires |NonNull(cells)| >= 100
    ensures IsDateLike(cells + more, p) == IsDateLike(cells, p)
  {
    NonNullAppend(cells, more);
    var nn := NonNull(cells);
    assert Head(NonNull(cells + more), 100) == (nn + NonNull(more))[..100] == nn[..100];
    DateRuleSeesFirstHundred(cells + more, cells, p);
  }

  /** The rule is a strict majority: date-like values must outnumber the others in the sample. */
  lemma DateRuleIsStrictMajority(cells: seq<Cell>, p: Parsers)
    ensures IsDateLike(cells, p) <==>
      CountDates(Sample(cells), p) > |Sample(cells)| - CountDates(Sample(cells), p)
  {
  }

  // ---------------------------------------------------------------- the conversion loop

  /** `numeric_series.isna().all()`. */
  predicate AllMissing(cells: seq<Cell>)
  {
    forall i :: 0 <= i < |cells| ==> cells[i] == Missing
  }

  /**
   * The body of the loop for one column that `df[column]` selects uniquely: object columns
   * become datetime when date-like, otherwise numeric when at least one value converts; a
   * conversion that raises leaves the column as it was.
   */
  function ConvertColumn(col: Column, p: Parsers): (r: Column)
    ensures r.name == col.name
    ensures col.dtype != Object ==> r == col
    ensures col.dtype == Object && IsDateLike(col.cells, p) ==>
      (r == col && p.toDatetime(col.cells).None?) ||
      (r.dtype == DateTime && p.toDatetime(col.cells) == Some(r.cells))
    ensures col.dtype == Object && !IsDateLike(col.cells, p) ==>
      (r == col && (p.toNumeric(col.cells).None? || AllMissing(p.toNumeric(col.cells).value))) ||
      (r.dtype == Numeric && p.toNumeric(col.cells) == Some(r.cells) && !AllMissing(r.cells))
  {
    if col.dtype != Object then col
    else if IsDateLike(col.cells, p) then
      match p.toDatetime(col.cells)
      case None => col
      case Some(converted) => Column(col.name, DateTime, converted)
    else
      match p.toNumeric(col.cells)
      case None => col
      case Some(numeric) => if AllMissing(numeric) then col else Column(col.name, Numeric, numeric)
  }

  function Names(cols: seq<Column>): (r: seq<string>)
    ensures |r| == |cols| && forall j :: 0 <= j < |cols| ==> r[j] == cols[j].name
  {
    seq(|cols|, j requires 0 <= j < |cols| => cols[j].name)
  }

  /** How many columns carry `name`. */
  function Occurrences(names: seq<string>, name: string): nat
  {
    if |names| == 0 then 0
    else (if names[0] == name then 1 else 0) + Occurrences(names[1..], name)
  }

  /**
   * What the loop does to column `j`: with a duplicated name `df[column]` is a frame,
   * `.dtype` raises and the `except` skips the column; otherwise `ConvertColumn`.
   */
  function ConvertAt(cols: seq<Column>, j: nat, p: Parsers): (r: Column)
    requires j < |cols|
    ensures r.name == cols[j].name
    ensures Occurrences(Names(cols), cols[j].name) != 1 ==> r == cols[j]
    ensures cols[j].dtype != Object ==> r == cols[j]
  {
    if Occurrences(Names(cols), cols[j].name) != 1 then cols[j] else ConvertColumn(cols[j], p)
  }

  /** The frame after `_detect_and_convert_types`: every column converted on its own. */
  function ConvertAll(cols: seq<Column>, p: Parsers): (r: seq<Column>)
    ensures |r| == |cols| && Names(r) == Names(cols)
    ensures forall j :: 0 <= j < |cols| && cols[j].dtype != Object ==> r[j] == cols[j]
    ensures forall j :: 0 <= j < |cols| && r[j] != cols[j] ==>
      cols[j].dtype == Object && Occurrences(Names(cols), cols[j].name) == 1
  {
    seq(|cols|, j requires 0 <= j < |cols| => ConvertAt(cols, j, p))
  }

  /** Both conversions keep one value per row, as pandas conversions keep the index. */
  ghost predicate KeepsRows(p: Parsers)
  {
    (forall cells :: p.toDatetime(cells).Some? ==> |p.toDatetime(cells).value| == |cells|)
    && (forall cells :: p.toNumeric(cells).Some? ==> |p.toNumeric(cells).value| == |cells|)
  }

  /** With row-preserving parsers the converted frame keeps every column's length. */
  lemma ConvertAllKeepsRows(cols: seq<Column>, p: Parsers)
    requires KeepsRows(p)
    ensures forall j :: 0 <= j < |cols| ==> |ConvertAll(cols, p)[j].cells| == |cols[j].cells|
  {
    forall j | 0 <= j < |cols|
      ensures |ConvertAll(cols, p)[j].cells| == |cols[j].cells|
    {
      var col := cols[j];
      if ConvertAll(cols, p)[j] != col {
        assert ConvertAll(cols, p)[j] == ConvertColumn(col, p);
      }
    }
  }

  /** Converting is done once and for all: a second pass changes no column it converted. */
  lemma ConvertColumnSettles(col: Column, p: Parsers)
    requires ConvertColumn(col, p) != col
    ensures ConvertColumn(ConvertColumn(col, p), p) == ConvertColumn(col, p)
  {
  }

  /**
   * `_detect_and_convert_types`: walks the columns in order and replaces each one in
   * place as `ConvertAt` says; names, order and every other column stay as they were.
   */
  method DetectAndConvertTypes(df: array<Column>, p: Parsers)
    modifies df
    ensures df[..] == ConvertAll(old(df[..]), p)
  {
    ghost var original := df[..];
    for i := 0 to df.Length
      invariant forall j :: 0 <= j < i ==> df[j] == ConvertAt(original, j, p)
      invariant forall j :: i <= j < df.Length ==> df[j] == original[j]
      invariant Names(df[..]) == Names(original)
    {
      var column := df[i];
      if Occurrences(Names(df[..]), column.name) == 1 && column.dtype == Object {
        var isDate := IsDateColumn(column.cells, p);
        if isDate {
          var converted := p.toDatetime(column.cells);
          if converted.Some? {
            df[i] := Column(column.name, DateTime, converted.value);
          }
        } else {
          var numeric := p.toNumeric(column.cells);
          if numeric.Some? && !AllMissing(numeric.value) {
            df[i] := Column(column.name, Numeric, numeric.value);
          }
        }
      }
      assert df[i] == ConvertAt(original, i, p);
      assert Names(df[..]) == Names(original) by {
        assert forall j :: 0 <= j < df.Length ==> df[..][j].name == original[j].name;
      }
    }
    assert df[..] == ConvertAll(original, p);
  }
}
