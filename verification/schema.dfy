/**
 * `load_to_dw` as a function on the contents of the warehouse: which rows
 * each table holds before and after one load. The imperative loader is
 * proved to compute it; the lemmas here say what a load promises.
 */
module Schema {
  import opened Wrappers
  import opened Transform
  import opened Dimensions

  /** A row of `FactHiring`: four surrogate keys, the date key and the measures. */
  datatype Fact = Fact(
    candidateId: int, technologyId: int, seniorityId: int, countryId: int,
    dateId: int, yoe: int,
    codeChallengeScore: Option<real>, technicalInterviewScore: Option<real>,
    hired: bool)

  /** What makes `load_to_dw` raise. */
  datatype LoadError =
    | DateFailed(cause: DateError)
    | MissingKey(key: string)      // a dictionary lookup raised `KeyError`

  // ---------------------------------------------------------------- columns of the frame

  /** The `(date_id, application_date)` column pair of every row. */
  function DateColumns(rows: seq<Row>): (r: seq<DatePair>)
    ensures |r| == |rows| && forall i | 0 <= i < |rows| :: r[i] == DatePair(rows[i].dateId, rows[i].applicationDate)
  {
    seq(|rows|, i requires 0 <= i < |rows| => DatePair(rows[i].dateId, rows[i].applicationDate))
  }

  /** The distinct date pairs of the frame, in order of first occurrence. */
  function DatePairs(rows: seq<Row>): seq<DatePair> {
    Distinct(DateColumns(rows))
  }

  function Technologies(rows: seq<Row>): (r: seq<string>)
    ensures |r| == |rows| && forall i | 0 <= i < |rows| :: r[i] == rows[i].technology
  {
    seq(|rows|, i requires 0 <= i < |rows| => rows[i].technology)
  }

  function Seniorities(rows: seq<Row>): (r: seq<string>)
    ensures |r| == |rows| && forall i | 0 <= i < |rows| :: r[i] == rows[i].seniority
  {
    seq(|rows|, i requires 0 <= i < |rows| => rows[i].seniority)
  }

  function Countries(rows: seq<Row>): (r: seq<string>)
    ensures |r| == |rows| && forall i | 0 <= i < |rows| :: r[i] == rows[i].country
  {
    seq(|rows|, i requires 0 <= i < |rows| => rows[i].country)
  }

  function CandidatesOf(rows: seq<Row>): (r: seq<Candidate>)
    ensures |r| == |rows| && forall i | 0 <= i < |rows| :: r[i] == Candidate(rows[i].firstName, rows[i].lastName, rows[i].email)
  {
    seq(|rows|, i requires 0 <= i < |rows| => Candidate(rows[i].firstName, rows[i].lastName, rows[i].email))
  }

  /** The e-mail column of the candidate table, in id order. */
  function Emails(cs: seq<Candidate>): (r: seq<string>)
    ensures |r| == |cs| && forall i | 0 <= i < |cs| :: r[i] == cs[i].email
  {
    seq(|cs|, i requires 0 <= i < |cs| => cs[i].email)
  }

  lemma EmailsHas(cs: seq<Candidate>, e: string)
    requires HasEmail(cs, e)
    ensures e in Emails(cs)
  {
    var i :| 0 <= i < |cs| && cs[i].email == e;
    assert Emails(cs)[i] == e;
  }

  // ---------------------------------------------------------------- tables

  /** The rows of every table, each in id order (`DimDate` is keyed by `date_id`). */
  datatype Tables = Tables(
    technology: seq<string>, seniority: seq<string>, country: seq<string>,
    candidates: seq<Candidate>, dates: map<int, DateRow>, facts: seq<Fact>)

  /** A freshly created schema: every table empty. */
  const EmptyTables := Tables([], [], [], [], map[], [])

  /** Every id of `f` names a row of its table. */
  predicate Resolves(t: Tables, f: Fact) {
    && 1 <= f.candidateId <= |t.candidates|
    && 1 <= f.technologyId <= |t.technology|
    && 1 <= f.seniorityId <= |t.seniority|
    && 1 <= f.countryId <= |t.country|
    && f.dateId in t.dates
  }

  /** The constraints of the schema: unique natural keys, dates stored under
      their own key, and every fact pointing at existing rows. */
  predicate WellFormed(t: Tables) {
    && NoDup(t.technology) && NoDup(t.seniority) && NoDup(t.country)
    && UniqueEmails(t.candidates)
    && (forall k | k in t.dates :: t.dates[k].dateId == k)
    && forall i | 0 <= i < |t.facts| :: Resolves(t, t.facts[i])
  }

  /** Fact `f` is the one for frame row `row`: its ids lead back to the row's
      e-mail, technology, seniority and country, and it carries the row's date
      key and measures. */
  predicate Describes(t: Tables, f: Fact, row: Row) {
    && Resolves(t, f)
    && t.candidates[f.candidateId - 1].email == row.email
    && t.technology[f.technologyId - 1] == row.technology
    && t.seniority[f.seniorityId - 1] == row.seniority
    && t.country[f.countryId - 1] == row.country
    && f.dateId == row.dateId
    && f.yoe == row.yoe
    && f.codeChallengeScore == row.codeChallengeScore
    && f.technicalInterviewScore == row.technicalInterviewScore
    && f.hired == row.hired
  }

  /** The tables after the dimension inserts of one load. */
  function Filled(t: Tables, rows: seq<Row>, dateRows: seq<DateRow>): Tables {
    Tables(
      Upsert(t.technology, SortedDistinct(Technologies(rows))),
      Upsert(t.seniority, SortedDistinct(Seniorities(rows))),
      Upsert(t.country, SortedDistinct(Countries(rows))),
      UpsertCandidates(t.candidates, DedupByEmail(CandidatesOf(rows))),
      UpsertDates(t.dates, dateRows),
      t.facts)
  }

  /** The dimension inserts of a load leave the facts alone, and each
      dimension holds exactly its old keys and the keys of the frame. */
  lemma FilledHoldsKeys(t: Tables, rows: seq<Row>, dateRows: seq<DateRow>)
    ensures Filled(t, rows, dateRows).facts == t.facts
    ensures forall x :: x in Filled(t, rows, dateRows).technology <==> x in t.technology || x in Technologies(rows)
    ensures forall x :: x in Filled(t, rows, dateRows).seniority <==> x in t.seniority || x in Seniorities(rows)
    ensures forall x :: x in Filled(t, rows, dateRows).country <==> x in t.country || x in Countries(rows)
    ensures forall e :: HasEmail(Filled(t, rows, dateRows).candidates, e) <==> HasEmail(t.candidates, e) || HasEmail(CandidatesOf(rows), e)
  {
    var cs := CandidatesOf(rows);
    var d := DedupByEmail(cs);
    forall e ensures HasEmail(d, e) <==> HasEmail(cs, e) {
      if HasEmail(d, e) {
        var k :| 0 <= k < |d| && d[k].email == e;
        var i :| 0 <= i < |cs| && cs[i] == d[k];
      }
    }
  }

  /** Every key `row` uses is present in `t`. */
  predicate Covers(t: Tables, row: Row) {
    && HasEmail(t.candidates, row.email)
    && row.technology in t.technology && row.seniority in t.seniority
    && row.country in t.country && row.dateId in t.dates
  }

  /** Every row's date key is the key of one of the derived date rows. */
  lemma DateKeysCovered(rows: seq<Row>, dateRows: seq<DateRow>)
    requires DateDimRows(DatePairs(rows)) == Ok(dateRows)
    ensures forall i | 0 <= i < |rows| :: rows[i].dateId in DateIds(dateRows)
  {
    var cols, pairs := DateColumns(rows), DatePairs(rows);
    forall i | 0 <= i < |rows| ensures rows[i].dateId in DateIds(dateRows) {
      assert cols[i] in cols;
      var k :| 0 <= k < |pairs| && pairs[k] == cols[i];
      assert DateRowOf(pairs[k]) == Ok(dateRows[k]);
    }
  }

  /** The date pair of a transformed row always yields its date row. */
  lemma TransformedDateParses(raw: RawRow, row: Row)
    requires TransformRow(raw) == Ok(row)
    ensures DateParses(DatePair(row.dateId, row.applicationDate))
  {
    TransformRowFields(raw);
    DateRowOfIsoDate(row.dateId, raw.applicationDate.value);
  }

  /** Rows whose date pairs all parse yield their date rows. */
  lemma RowsDatesParse(rows: seq<Row>)
    requires forall i | 0 <= i < |rows| :: DateParses(DatePair(rows[i].dateId, rows[i].applicationDate))
    ensures DateDimRows(DatePairs(rows)).Ok?
  {
    var cols, pairs := DateColumns(rows), DatePairs(rows);
    forall k | 0 <= k < |pairs| ensures DateRowOf(pairs[k]).Ok? {
      assert pairs[k] in cols;
      var i :| 0 <= i < |rows| && cols[i] == pairs[k];
      assert DateParses(pairs[k]);
    }
  }

  /** The frame `transform` returns always yields its date rows: every date
      text is an ISO date, so every slice converts and every month has a name. */
  lemma TransformedRowsLoad(raws: seq<RawRow>)
    requires TransformAll(raws).Ok?
    ensures DateDimRows(DatePairs(TransformAll(raws).value)).Ok?
  {
    var rows := TransformAll(raws).value;
    forall i | 0 <= i < |rows| ensures DateParses(DatePair(rows[i].dateId, rows[i].applicationDate)) {
      TransformedDateParses(raws[i], rows[i]);
    }
    RowsDatesParse(rows);
  }

  /** After the dimension inserts every key of every row is present. */
  lemma FilledCovers(t: Tables, rows: seq<Row>, dateRows: seq<DateRow>)
    requires DateDimRows(DatePairs(rows)) == Ok(dateRows)
    ensures forall i | 0 <= i < |rows| :: Covers(Filled(t, rows, dateRows), rows[i])
  {
    var u := Filled(t, rows, dateRows);
    DateKeysCovered(rows, dateRows);
    forall i | 0 <= i < |rows| ensures Covers(u, rows[i]) {
      assert HasEmail(CandidatesOf(rows), rows[i].email) by {
        assert CandidatesOf(rows)[i].email == rows[i].email;
      }
      assert Technologies(rows)[i] in Technologies(rows);
      assert Seniorities(rows)[i] in Seniorities(rows);
      assert Countries(rows)[i] in Countries(rows);
    }
  }

  /** The dimension inserts keep the schema's constraints and change no
      existing row. */
  lemma FilledWellFormed(t: Tables, rows: seq<Row>, dateRows: seq<DateRow>)
    requires WellFormed(t)
    requires DateDimRows(DatePairs(rows)) == Ok(dateRows)
    ensures WellFormed(Filled(t, rows, dateRows))
  {
    var u := Filled(t, rows, dateRows);
    forall k | k in u.dates ensures u.dates[k].dateId == k {
      if k !in t.dates {
        assert u.dates[k] in dateRows;
        var j :| 0 <= j < |dateRows| && dateRows[j] == u.dates[k];
        assert DateRowOf(DatePairs(rows)[j]) == Ok(dateRows[j]);
      }
    }
    forall i | 0 <= i < |u.facts| ensures Resolves(u, u.facts[i]) {
      assert Resolves(t, t.facts[i]);
    }
  }

  /** `u` extends `t`: every existing row keeps its id and its contents. */
  predicate Grown(t: Tables, u: Tables) {
    && t.technology <= u.technology && t.seniority <= u.seniority && t.country <= u.country
    && t.candidates <= u.candidates
    && (forall k | k in t.dates :: k in u.dates && u.dates[k] == t.dates[k])
    && t.facts <= u.facts
  }

  /** The position of the first `k` in `keys`. */
  function IndexOf(keys: seq<string>, k: string): (i: nat)
    requires k in keys
    ensures i < |keys| && keys[i] == k
    ensures forall j | 0 <= j < i :: keys[j] != k
  {
    if keys[0] == k then 0 else 1 + IndexOf(keys[1..], k)
  }

  /** The fact `load_to_dw` appends for `row`: the id of each of its keys
      (position plus one) and its measures. */
  function FactFor(t: Tables, row: Row): Fact
    requires Covers(t, row)
  {
    EmailsHas(t.candidates, row.email);
    Fact(
      IndexOf(Emails(t.candidates), row.email) + 1,
      IndexOf(t.technology, row.technology) + 1,
      IndexOf(t.seniority, row.seniority) + 1,
      IndexOf(t.country, row.country) + 1,
      row.dateId, row.yoe, row.codeChallengeScore, row.technicalInterviewScore, row.hired)
  }

  /** The fact of a covered row describes it. */
  lemma FactForDescribes(t: Tables, row: Row)
    requires Covers(t, row)
    ensures Describes(t, FactFor(t, row), row)
  {
    EmailsHas(t.candidates, row.email);
  }

  /** The facts of the fact loop, one per row, in order. */
  function NewFacts(t: Tables, rows: seq<Row>): (r: seq<Fact>)
    requires forall i | 0 <= i < |rows| :: Covers(t, rows[i])
    ensures |r| == |rows|
    ensures forall i | 0 <= i < |rows| :: Describes(t, r[i], rows[i])
  {
    forall i | 0 <= i < |rows| ensures Describes(t, FactFor(t, rows[i]), rows[i]) {
      FactForDescribes(t, rows[i]);
    }
    seq(|rows|, i requires 0 <= i < |rows| => FactFor(t, rows[i]))
  }

  /** `load_to_dw`: the date rows are derived (this is the only step that can
      raise, and nothing has been written yet), the dimensions are filled,
      and one fact per row is appended. */
  function LoadTables(t: Tables, rows: seq<Row>): (r: Result<Tables, LoadError>)
    ensures r.Ok? <==> DateDimRows(DatePairs(rows)).Ok?
    ensures r.Err? ==> r.error == DateFailed(DateDimRows(DatePairs(rows)).error)
  {
    match DateDimRows(DatePairs(rows))
    case Err(e) => Err(DateFailed(e))
    case Ok(dateRows) =>
      var u := Filled(t, rows, dateRows);
      FilledCovers(t, rows, dateRows);
      Ok(u.(facts := t.facts + NewFacts(u, rows)))
  }

  /** Appending facts that describe rows keeps the schema's constraints. */
  lemma AppendKeepsWellFormed(t: Tables, added: seq<Fact>, rows: seq<Row>)
    requires WellFormed(t) && |added| == |rows|
    requires forall i | 0 <= i < |rows| :: Describes(t, added[i], rows[i])
    ensures WellFormed(t.(facts := t.facts + added))
  {
    var u := t.(facts := t.facts + added);
    forall i | 0 <= i < |u.facts| ensures Resolves(u, u.facts[i]) {
      if i < |t.facts| {
        assert Resolves(t, t.facts[i]);
      } else {
        assert Describes(t, added[i - |t.facts|], rows[i - |t.facts|]);
      }
    }
  }

  /** A successful load is the filled tables with the new facts appended. */
  lemma LoadTablesIs(t: Tables, rows: seq<Row>, dateRows: seq<DateRow>)
    requires DateDimRows(DatePairs(rows)) == Ok(dateRows)
    ensures forall i | 0 <= i < |rows| :: Covers(Filled(t, rows, dateRows), rows[i])
    ensures LoadTables(t, rows) == Ok(Filled(t, rows, dateRows).(facts := t.facts + NewFacts(Filled(t, rows, dateRows), rows)))
  {
    FilledCovers(t, rows, dateRows);
  }

  /** A load keeps the schema's constraints. */
  lemma LoadKeepsWellFormed(t: Tables, rows: seq<Row>)
    requires WellFormed(t) && LoadTables(t, rows).Ok?
    ensures WellFormed(LoadTables(t, rows).value)
  {
    var dateRows := DateDimRows(DatePairs(rows)).value;
    FilledWellFormed(t, rows, dateRows);
    LoadTablesIs(t, rows, dateRows);
    var f := Filled(t, rows, dateRows);
    AppendKeepsWellFormed(f, NewFacts(f, rows), rows);
  }

  /** A load changes no existing row: every row keeps its id and contents. */
  lemma LoadGrows(t: Tables, rows: seq<Row>)
    requires LoadTables(t, rows).Ok?
    ensures Grown(t, LoadTables(t, rows).value)
  {
    var dateRows := DateDimRows(DatePairs(rows)).value;
    LoadTablesIs(t, rows, dateRows);
  }

  /** The facts of covered rows, appended, each describe their row. */
  lemma AppendedFactsDescribe(f: Tables, rows: seq<Row>)
    requires forall i | 0 <= i < |rows| :: Covers(f, rows[i])
    ensures var u := f.(facts := f.facts + NewFacts(f, rows));
            && |u.facts| == |f.facts| + |rows|
            && forall i | 0 <= i < |rows| :: Describes(u, u.facts[|f.facts| + i], rows[i])
  {
    var added := NewFacts(f, rows);
    var u := f.(facts := f.facts + added);
    forall i | 0 <= i < |rows| ensures Describes(u, u.facts[|f.facts| + i], rows[i]) {
      assert u.facts[|f.facts| + i] == added[i];
      assert Describes(f, added[i], rows[i]);
    }
  }

  /** A load appends exactly one fact per frame row, in order, each leading
      back to its row. */
  lemma LoadAppendsDescribingFacts(t: Tables, rows: seq<Row>)
    requires LoadTables(t, rows).Ok?
    ensures var u := LoadTables(t, rows).value;
            && |u.facts| == |t.facts| + |rows|
            && forall i | 0 <= i < |rows| :: Describes(u, u.facts[|t.facts| + i], rows[i])
  {
    var dateRows := DateDimRows(DatePairs(rows)).value;
    LoadTablesIs(t, rows, dateRows);
    AppendedFactsDescribe(Filled(t, rows, dateRows), rows);
  }

  /** The new facts depend only on the dimension tables. */
  lemma NewFactsOfSameDimensions(f: Tables, g: Tables, rows: seq<Row>)
    requires g == f.(facts := g.facts)
    requires forall i | 0 <= i < |rows| :: Covers(f, rows[i])
    ensures NewFacts(f, rows) == NewFacts(g, rows)
  {
    forall i | 0 <= i < |rows| ensures NewFacts(f, rows)[i] == NewFacts(g, rows)[i] {
      assert Covers(g, rows[i]);
    }
  }

  /** Loading the same frame twice adds no dimension row the first load did
      not, but appends the same facts a second time: `FactHiring` has no key
      that would reject them. */
  lemma ReloadRepeatsFacts(t: Tables, rows: seq<Row>)
    requires LoadTables(t, rows).Ok?
    ensures LoadTables(LoadTables(t, rows).value, rows).Ok?
    ensures var u := LoadTables(t, rows).value;
            var w := LoadTables(u, rows).value;
            && w == u.(facts := w.facts)
            && w.facts == u.facts + u.facts[|t.facts|..]
  {
    var dateRows := DateDimRows(DatePairs(rows)).value;
    LoadTablesIs(t, rows, dateRows);
    var f := Filled(t, rows, dateRows);
    var u := f.(facts := t.facts + NewFacts(f, rows));
    UpsertIdempotent(t.technology, SortedDistinct(Technologies(rows)));
    UpsertIdempotent(t.seniority, SortedDistinct(Seniorities(rows)));
    UpsertIdempotent(t.country, SortedDistinct(Countries(rows)));
    UpsertCandidatesIdempotent(t.candidates, DedupByEmail(CandidatesOf(rows)));
    UpsertDatesIdempotent(t.dates, dateRows);
    LoadTablesIs(u, rows, dateRows);
    assert Filled(u, rows, dateRows) == u;
    NewFactsOfSameDimensions(f, u, rows);
    assert u.facts[|t.facts|..] == NewFacts(f, rows);
  }

  /** The `date_id` column of the frame, as a set. */
  function RowDateIds(rows: seq<Row>): set<int> {
    set i | 0 <= i < |rows| :: rows[i].dateId
  }

  /** The date keys a load stores are exactly the keys of the frame's rows. */
  lemma FilledDateKeys(rows: seq<Row>, dateRows: seq<DateRow>)
    requires DateDimRows(DatePairs(rows)) == Ok(dateRows)
    ensures DateIds(dateRows) == RowDateIds(rows)
  {
    DateKeysCovered(rows, dateRows);
    var cols, pairs := DateColumns(rows), DatePairs(rows);
    forall k | k in DateIds(dateRows) ensures k in RowDateIds(rows) {
      var j :| 0 <= j < |dateRows| && dateRows[j].dateId == k;
      assert DateRowOf(pairs[j]) == Ok(dateRows[j]);
      assert pairs[j] in cols;
      var i :| 0 <= i < |rows| && cols[i] == pairs[j];
      assert rows[i].dateId == k;
    }
  }

  /** Loading a frame into an empty warehouse: each one-column dimension
      holds the frame's distinct values in sorted order. */
  lemma LoadIntoEmpty(rows: seq<Row>)
    requires LoadTables(EmptyTables, rows).Ok?
    ensures var u := LoadTables(EmptyTables, rows).value;
            && u.technology == SortedDistinct(Technologies(rows))
            && u.seniority == SortedDistinct(Seniorities(rows))
            && u.country == SortedDistinct(Countries(rows))
  {
    var dateRows := DateDimRows(DatePairs(rows)).value;
    LoadTablesIs(EmptyTables, rows, dateRows);
    UpsertSortedIntoEmpty(Technologies(rows));
    UpsertSortedIntoEmpty(Seniorities(rows));
    UpsertSortedIntoEmpty(Countries(rows));
  }

  /** Loading a frame into an empty warehouse keeps the first row of each e-mail. */
  lemma LoadIntoEmptyCandidates(rows: seq<Row>)
    requires LoadTables(EmptyTables, rows).Ok?
    ensures LoadTables(EmptyTables, rows).value.candidates == DedupByEmail(CandidatesOf(rows))
  {
    var dateRows := DateDimRows(DatePairs(rows)).value;
    LoadTablesIs(EmptyTables, rows, dateRows);
    DedupThenUpsert([], CandidatesOf(rows));
    DedupIsInsertIntoEmpty(CandidatesOf(rows));
  }

  /** The date table after the inserts, in terms of the frame. */
  lemma FilledDates(t: Tables, f: Tables, rows: seq<Row>, dateRows: seq<DateRow>)
    requires f.dates == UpsertDates(t.dates, dateRows)
    requires DateIds(dateRows) == RowDateIds(rows)
    ensures f.dates.Keys == t.dates.Keys + RowDateIds(rows)
  {
  }

  /** A load adds exactly the frame's date keys to `DimDate`. */
  lemma LoadDateKeys(t: Tables, rows: seq<Row>)
    requires LoadTables(t, rows).Ok?
    ensures LoadTables(t, rows).value.dates.Keys == t.dates.Keys + RowDateIds(rows)
  {
    var dateRows := DateDimRows(DatePairs(rows)).value;
    LoadTablesIs(t, rows, dateRows);
    FilledDateKeys(rows, dateRows);
    FilledDates(t, LoadTables(t, rows).value, rows, dateRows);
  }
}
