/**
 * lib/tcritical.js: the precomputed two-tailed Student's t critical value for
 * a degree of freedom and a confidence level.
 *
 * The rows for df 1 to 200 come from the sample-sizer package and are a
 * parameter here (`rows`); the row used beyond that range is written out.
 */
module TCritical {
  import opened Wrappers

  /** Largest degree of freedom with a finite row; larger ones use the infinity row. */
  const T_TABLE_RANGE: int := 200

  /**
   * A JavaScript argument, as far as the lookup tells values apart. A finite
   * number is held as the exact decimal it prints as, which is also the
   * value the decimal library parses it into.
   */
  datatype JsValue =
    | Num(v: real)
    | PosInfinity
    | NegInfinity
    | NaN
    | FalsyOther   // undefined, null, false or the empty string
    | TruthyOther  // any other non-number: a non-empty string, an object, true

  /** `typeof x === 'number' && !isNaN(x)` */
  predicate IsNumber(x: JsValue) {
    x.Num? || x.PosInfinity? || x.NegInfinity?
  }

  /** JavaScript truthiness, as `||` tests it. */
  predicate Truthy(x: JsValue) {
    match x
    case Num(v) => v != 0.0
    case PosInfinity => true
    case NegInfinity => true
    case NaN => false
    case FalsyOther => false
    case TruthyOther => true
  }

  /** The columns of a row, one per significance level. */
  datatype Column = A10 | A05 | A02 | A01 | A005 | A002 | A001

  /** The significance level alpha that a column holds critical values for. */
  function Level(c: Column): real {
    match c
    case A10 => 0.1
    case A05 => 0.05
    case A02 => 0.02
    case A01 => 0.01
    case A005 => 0.005
    case A002 => 0.002
    case A001 => 0.001
  }

  /** The confidences the lookup accepts, as its error message lists them. */
  const ACCEPTED_CONFIDENCES: set<real> := {0.9, 0.95, 0.98, 0.99, 0.995, 0.998, 0.999}

  /** A row of the table: critical values for some of the columns. */
  type Row = map<Column, real>

  /** The finite part of the table, keyed by degree of freedom. */
  type Rows = map<int, Row>

  /** The finite rows cover degrees of freedom 1 to T_TABLE_RANGE at most. */
  predicate WithinRange(rows: Rows) {
    forall df :: df in rows ==> 1 <= df <= T_TABLE_RANGE
  }

  /** TTABLE.infinity: the limiting normal-distribution values, for df > T_TABLE_RANGE. */
  const INFINITY_ROW: Row := map[A10 := 1.645, A05 := 1.960, A02 := 2.326, A01 := 2.576]

  datatype Argument = DfArgument | ConfidenceArgument

  /** What the lookup throws. All but TypeError and DecimalError are RangeErrors. */
  datatype Error =
    | TypeError(argument: Argument)
      // no row was precomputed for this degree of freedom
    | MissingRow(df: JsValue)
      // the decimal library cannot parse an infinite confidence
    | DecimalError(confidence: JsValue)
      // 1 - confidence is none of the seven significance levels
    | UnsupportedConfidence(confidence: JsValue)
      // the row has no value in the column the confidence selects
    | MissingEntry(df: JsValue, confidence: JsValue)

  predicate IsRangeError(e: Error) {
    e.MissingRow? || e.UnsupportedConfidence? || e.MissingEntry?
  }

  /** `df > T_TABLE_RANGE` */
  predicate Infinite(df: JsValue) {
    match df
    case Num(v) => v > T_TABLE_RANGE as real
    case PosInfinity => true
    case _ => false
  }

  /** `TTABLE[df || 1]`: only whole numbers name a finite row, and df 0 names row 1. */
  function FiniteRow(rows: Rows, df: JsValue): Option<Row> {
    match df
    case Num(v) =>
      var key := if v == 0.0 then 1.0 else v;
      if key == key.Floor as real && key.Floor in rows then Some(rows[key.Floor]) else None
    case _ => None
  }

  /** `infinite ? TTABLE.infinity : TTABLE[df || 1]` */
  function SelectRow(rows: Rows, df: JsValue): Option<Row> {
    if Infinite(df) then Some(INFINITY_ROW) else FiniteRow(rows, df)
  }

  /** `Number(new Big(1).minus(confidence))`, exact; the decimal library refuses infinities. */
  function Alpha(confidence: JsValue): Option<real> {
    match confidence
    case Num(v) => Some(1.0 - v)
    case _ => None
  }

  /** The if-chain that matches alpha against the exact significance levels. */
  function ColumnFor(alpha: real): (r: Option<Column>)
    ensures r.Some? ==> Level(r.value) == alpha
    ensures r.None? ==> forall c :: Level(c) != alpha
  {
    if alpha == 0.1 then Some(A10)
    else if alpha == 0.05 then Some(A05)
    else if alpha == 0.02 then Some(A02)
    else if alpha == 0.01 then Some(A01)
    else if alpha == 0.005 then Some(A005)
    else if alpha == 0.002 then Some(A002)
    else if alpha == 0.001 then Some(A001)
    else None
  }

  /** No two columns share a significance level. */
  lemma LevelsDistinct(c: Column, d: Column)
    requires Level(c) == Level(d)
    ensures c == d
  {
  }

  /**
   * The table entry that answers (df, confidence) in column col: present
   * exactly when df selects a row, 1 - confidence is col's level and the row
   * holds a value in col.
   */
  function Entry(rows: Rows, df: JsValue, confidence: JsValue, col: Column): Option<real> {
    var row := SelectRow(rows, df);
    if confidence.Num? && 1.0 - confidence.v == Level(col) && row.Some? && col in row.value
    then Some(row.value[col])
    else None
  }

  /** `tcritical(df, confidence)` */
  function Lookup(rows: Rows, df: JsValue, confidence: JsValue): (r: Result<real, Error>)
    // arguments are validated before anything is looked up
    ensures r == Failure(TypeError(DfArgument)) <==> !IsNumber(df)
    ensures r == Failure(TypeError(ConfidenceArgument)) <==> IsNumber(df) && !IsNumber(confidence)
    // it succeeds exactly when some column holds the answer, and returns that entry untouched
    ensures r.Success? <==> exists col :: Entry(rows, df, confidence, col).Some?
    ensures forall col :: Entry(rows, df, confidence, col).Some? ==> r == Success(Entry(rows, df, confidence, col).value)
    // each numeric input that fails gets the error of the first check it fails
    ensures IsNumber(df) && IsNumber(confidence) && SelectRow(rows, df).None? ==> r == Failure(MissingRow(df))
    ensures SelectRow(rows, df).Some? && IsNumber(confidence) && !confidence.Num? ==> r == Failure(DecimalError(confidence))
    ensures SelectRow(rows, df).Some? && confidence.Num? && (forall col :: 1.0 - confidence.v != Level(col)) ==>
      r == Failure(UnsupportedConfidence(confidence))
    ensures forall col :: (SelectRow(rows, df).Some? && confidence.Num? && 1.0 - confidence.v == Level(col) && col !in SelectRow(rows, df).value) ==>
      r == Failure(MissingEntry(df, confidence))
  {
    if !IsNumber(df) then Failure(TypeError(DfArgument))
    else if !IsNumber(confidence) then Failure(TypeError(ConfidenceArgument))
    else
      var table := SelectRow(rows, df);
      if table.None? then Failure(MissingRow(df))
      else
        match Alpha(confidence)
        case None => Failure(DecimalError(confidence))
        case Some(alpha) =>
          match ColumnFor(alpha)
          case None => Failure(UnsupportedConfidence(confidence))
          case Some(col) =>
            if col !in table.value then Failure(MissingEntry(df, confidence))
            else
              assert Entry(rows, df, confidence, col).Some?;
              Success(table.value[col])
  }

  /** 1 - confidence is one of the seven levels exactly for the accepted confidences. */
  lemma AcceptedConfidence(v: real)
    ensures (exists col :: 1.0 - v == Level(col)) <==> v in ACCEPTED_CONFIDENCES
  {
    if v in ACCEPTED_CONFIDENCES {
      var col := ColumnFor(1.0 - v).value;
      assert 1.0 - v == Level(col);
    }
  }

  /** Confidence 1 - Level(col) reads column col of the selected row; confidence 0.95 reads a05. */
  lemma LevelSelectsColumn(rows: Rows, df: JsValue, col: Column)
    requires SelectRow(rows, df).Some? && col in SelectRow(rows, df).value
    ensures Lookup(rows, df, Num(1.0 - Level(col))) == Success(SelectRow(rows, df).value[col])
  {
    assert Entry(rows, df, Num(1.0 - Level(col)), col).Some?;
  }

  /**
   * Once a row is selected, a finite confidence is refused as unsupported
   * exactly when it is not one of the accepted confidences.
   */
  lemma UnsupportedConfidenceIff(rows: Rows, df: JsValue, v: real)
    requires SelectRow(rows, df).Some?
    ensures Lookup(rows, df, Num(v)) == Failure(UnsupportedConfidence(Num(v))) <==> v !in ACCEPTED_CONFIDENCES
  {
    AcceptedConfidence(v);
    if v in ACCEPTED_CONFIDENCES {
      var col := ColumnFor(1.0 - v).value;
      assert 1.0 - v == Level(col);
    }
  }

  /** Confidence 0.93 is refused whatever the row. */
  lemma RejectsConfidence93(rows: Rows, df: JsValue)
    requires SelectRow(rows, df).Some?
    ensures Lookup(rows, df, Num(0.93)) == Failure(UnsupportedConfidence(Num(0.93)))
  {
    UnsupportedConfidenceIff(rows, df, 0.93);
  }

  /**
   * Beyond the finite range the normal values answer .90, .95, .98 and .99;
   * .995, .998 and .999 have no entry there.
   */
  lemma InfiniteDf(rows: Rows, df: JsValue)
    requires Infinite(df)
    ensures Lookup(rows, df, Num(0.9)) == Success(1.645)
    ensures Lookup(rows, df, Num(0.95)) == Success(1.960)
    ensures Lookup(rows, df, Num(0.98)) == Success(2.326)
    ensures Lookup(rows, df, Num(0.99)) == Success(2.576)
    ensures Lookup(rows, df, Num(0.995)) == Failure(MissingEntry(df, Num(0.995)))
    ensures Lookup(rows, df, Num(0.998)) == Failure(MissingEntry(df, Num(0.998)))
    ensures Lookup(rows, df, Num(0.999)) == Failure(MissingEntry(df, Num(0.999)))
  {
  }

  /** df 0 answers what df 1 answers: the same value, or the same kind of error. */
  lemma ZeroDfIsOne(rows: Rows, confidence: JsValue)
    ensures Lookup(rows, Num(0.0), confidence).Success? <==> Lookup(rows, Num(1.0), confidence).Success?
    ensures Lookup(rows, Num(0.0), confidence).Success? ==>
      Lookup(rows, Num(0.0), confidence).value == Lookup(rows, Num(1.0), confidence).value
    ensures Lookup(rows, Num(0.0), confidence).Failure? ==>
      IsRangeError(Lookup(rows, Num(0.0), confidence).error) == IsRangeError(Lookup(rows, Num(1.0), confidence).error)
  {
  }

  /**
   * With the finite rows kept to df 1 to 200, a negative or fractional df up
   * to 200 finds no row, and the lookup throws the RangeError naming it.
   */
  lemma NoRowForUntabulatedDf(rows: Rows, v: real, confidence: JsValue)
    requires WithinRange(rows)
    requires v <= T_TABLE_RANGE as real && (v < 0.0 || v.Floor as real != v)
    requires IsNumber(confidence)
    ensures Lookup(rows, Num(v), confidence) == Failure(MissingRow(Num(v)))
  {
    var key := if v == 0.0 then 1.0 else v;
    assert key == v;
    if key == key.Floor as real {
      assert key.Floor !in rows;
    }
  }

  /** The missing-row error is only ever about a finite df: the infinity row always exists. */
  lemma MissingRowIsFinite(rows: Rows, df: JsValue, confidence: JsValue)
    requires Lookup(rows, df, confidence).Failure? && Lookup(rows, df, confidence).error.MissingRow?
    ensures IsNumber(df) && !Infinite(df) && FiniteRow(rows, df).None?
  {
  }
}
