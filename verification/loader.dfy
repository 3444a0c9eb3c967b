/**
 * `load_to_dw` and the pipeline around it. The date rows are derived first,
 * then the dimensions are filled with `INSERT OR IGNORE` (dates,
 * technologies, seniorities, countries, candidates), the id maps are read
 * back, and one fact per frame row is appended. The database is an object
 * whose tables the load updates; the whole load is one transaction, so a
 * load that raises leaves it as it was. Every method is proved to compute
 * what `Schema.LoadTables` says.
 */
module Loader {
  import opened Wrappers
  import opened Extract
  import opened Transform
  import opened Dimensions
  import opened Schema

  /** What makes a whole run raise. */
  datatype RunError =
    | BadColumn(fault: ColumnFault)
    | TransformFailed(transformError: TransformError)
    | LoadFailed(loadError: LoadError)

  // ---------------------------------------------------------------- id maps and facts

  /** `m` maps the key of every row of `keys` to that row's id, its position
      plus one, and maps nothing else. */
  predicate IsIdMap(keys: seq<string>, m: map<string, int>) {
    && (forall k | k in keys :: k in m)
    && forall k | k in m :: 1 <= m[k] <= |keys| && keys[m[k] - 1] == k
  }

  /** The four dictionaries `build_map` returns, from natural key to id. */
  datatype IdMaps = IdMaps(
    candidate: map<string, int>, technology: map<string, int>,
    seniority: map<string, int>, country: map<string, int>)

  /** The maps read back from the tables `t`. */
  predicate MapsOf(maps: IdMaps, t: Tables) {
    && IsIdMap(Emails(t.candidates), maps.candidate)
    && IsIdMap(t.technology, maps.technology)
    && IsIdMap(t.seniority, maps.seniority)
    && IsIdMap(t.country, maps.country)
  }

  /** Every lookup the fact loop makes for `row` succeeds. */
  predicate Resolvable(row: Row, maps: IdMaps) {
    && row.email in maps.candidate && row.technology in maps.technology
    && row.seniority in maps.seniority && row.country in maps.country
  }

  /** The fact tuple the loop appends for `row`. */
  function FactOf(row: Row, maps: IdMaps): Fact
    requires Resolvable(row, maps)
  {
    Fact(
      maps.candidate[row.email], maps.technology[row.technology],
      maps.seniority[row.seniority], maps.country[row.country],
      row.dateId, row.yoe, row.codeChallengeScore, row.technicalInterviewScore, row.hired)
  }

  /** Looking a row up in maps read from `t` gives, for each key, the id of
      a table row holding that key, and the fact carries the row's measures. */
  lemma FactOfPointsBack(t: Tables, maps: IdMaps, row: Row)
    requires MapsOf(maps, t) && Resolvable(row, maps)
    ensures var f := FactOf(row, maps);
            && 1 <= f.candidateId <= |t.candidates| && t.candidates[f.candidateId - 1].email == row.email
            && 1 <= f.technologyId <= |t.technology| && t.technology[f.technologyId - 1] == row.technology
            && 1 <= f.seniorityId <= |t.seniority| && t.seniority[f.seniorityId - 1] == row.seniority
            && 1 <= f.countryId <= |t.country| && t.country[f.countryId - 1] == row.country
    ensures var f := FactOf(row, maps);
            && f.dateId == row.dateId && f.yoe == row.yoe && f.hired == row.hired
            && f.codeChallengeScore == row.codeChallengeScore
            && f.technicalInterviewScore == row.technicalInterviewScore
  {
    var f := FactOf(row, maps);
    assert IsIdMap(Emails(t.candidates), maps.candidate);
    assert f.candidateId == maps.candidate[row.email];
    assert Emails(t.candidates)[f.candidateId - 1] == row.email;
  }

  /** The key of the first lookup that raises for `row`, in the loop's order. */
  function FirstMissingKey(row: Row, maps: IdMaps): (k: string)
    requires !Resolvable(row, maps)
    ensures k in [row.email, row.technology, row.seniority, row.country]
    ensures || (k == row.email && k !in maps.candidate)
            || (k == row.technology && k !in maps.technology)
            || (k == row.seniority && k !in maps.seniority)
            || (k == row.country && k !in maps.country)
    ensures row.email !in maps.candidate ==> k == row.email
    ensures row.email in maps.candidate && row.technology !in maps.technology ==> k == row.technology
    ensures (row.email in maps.candidate && row.technology in maps.technology
             && row.seniority !in maps.seniority) ==> k == row.seniority
    ensures (row.email in maps.candidate && row.technology in maps.technology
             && row.seniority in maps.seniority) ==> k == row.country && k !in maps.country
  {
    if row.email !in maps.candidate then row.email
    else if row.technology !in maps.technology then row.technology
    else if row.seniority !in maps.seniority then row.seniority
    else row.country
  }

  /** `build_map`: the dictionary from the natural key of each table row to
      its id. Row `k` (0-based) has id `k + 1`; a later row with the same key
      overwrites an earlier one, as in a dict comprehension. */
  method BuildMap(keys: seq<string>) returns (m: map<string, int>)
    ensures IsIdMap(keys, m)
    ensures forall k | k in m :: forall j | m[k] <= j < |keys| :: keys[j] != k
  {
    m := map[];
    var i := 0;
    while i < |keys|
      invariant 0 <= i <= |keys|
      invariant forall k | k in keys[..i] :: k in m
      invariant forall k | k in m :: 1 <= m[k] <= i && keys[m[k] - 1] == k
      invariant forall k | k in m :: forall j | m[k] <= j < i :: keys[j] != k
    {
      assert keys[..i + 1] == keys[..i] + [keys[i]];
      m := m[keys[i] := i + 1];
      i := i + 1;
    }
    assert keys[..i] == keys;
  }

  /** On a column without duplicates, the id a map of it gives a key is the
      id `FactFor` assigns: the key's position plus one. */
  lemma IdMapIsPosition(keys: seq<string>, m: map<string, int>, k: string)
    requires NoDup(keys) && IsIdMap(keys, m) && k in keys
    ensures k in m && m[k] == IndexOf(keys, k) + 1
  {
    var i := IndexOf(keys, k);
    assert keys[m[k] - 1] == keys[i];
  }

  /** A table whose e-mails are unique has an e-mail column without duplicates. */
  lemma EmailsNoDup(cs: seq<Candidate>)
    requires UniqueEmails(cs)
    ensures NoDup(Emails(cs))
  {
    forall i, j | 0 <= i < j < |cs| ensures Emails(cs)[i] != Emails(cs)[j] {
      assert cs[i].email != cs[j].email;
    }
  }

  /** With maps read back from well-formed tables that cover a row, every
      lookup of the row succeeds and gives the fact `FactFor` describes. */
  lemma FactOfIsFactFor(t: Tables, maps: IdMaps, row: Row)
    requires WellFormed(t) && MapsOf(maps, t) && Covers(t, row)
    ensures Resolvable(row, maps) && FactOf(row, maps) == FactFor(t, row)
  {
    EmailsHas(t.candidates, row.email);
    EmailsNoDup(t.candidates);
    IdMapIsPosition(Emails(t.candidates), maps.candidate, row.email);
    IdMapIsPosition(t.technology, maps.technology, row.technology);
    IdMapIsPosition(t.seniority, maps.seniority, row.seniority);
    IdMapIsPosition(t.country, maps.country, row.country);
  }

  /** The fact loop: one fact per row, in order, or the `KeyError` of the
      first row with a key the maps lack. */
  method BuildFactRows(rows: seq<Row>, maps: IdMaps) returns (r: Result<seq<Fact>, LoadError>)
    ensures r.Ok? <==> forall i | 0 <= i < |rows| :: Resolvable(rows[i], maps)
    ensures r.Ok? ==>
              && |r.value| == |rows|
              && forall i | 0 <= i < |rows| :: Resolvable(rows[i], maps) && r.value[i] == FactOf(rows[i], maps)
    ensures r.Err? ==> exists i | 0 <= i < |rows| ::
              && !Resolvable(rows[i], maps)
              && (forall j | 0 <= j < i :: Resolvable(rows[j], maps))
              && r.error == MissingKey(FirstMissingKey(rows[i], maps))
  {
    var facts: seq<Fact> := [];
    var i := 0;
    while i < |rows|
      invariant 0 <= i <= |rows| && |facts| == i
      invariant forall j | 0 <= j < i :: Resolvable(rows[j], maps) && facts[j] == FactOf(rows[j], maps)
    {
      var row := rows[i];
      if row.email !in maps.candidate {
        return Err(MissingKey(row.email));
      }
      if row.technology !in maps.technology {
        return Err(MissingKey(row.technology));
      }
      if row.seniority !in maps.seniority {
        return Err(MissingKey(row.seniority));
      }
      if row.country !in maps.country {
        return Err(MissingKey(row.country));
      }
      facts := facts + [FactOf(row, maps)];
      i := i + 1;
    }
    return Ok(facts);
  }

  /** With maps read back from the filled tables, the fact loop builds
      exactly the facts `LoadTables` appends. */
  lemma FactRowsAreNewFacts(t: Tables, maps: IdMaps, rows: seq<Row>, built: seq<Fact>)
    requires WellFormed(t) && MapsOf(maps, t)
    requires forall i | 0 <= i < |rows| :: Covers(t, rows[i])
    requires |built| == |rows|
    requires forall i | 0 <= i < |rows| :: Resolvable(rows[i], maps) && built[i] == FactOf(rows[i], maps)
    ensures built == NewFacts(t, rows)
  {
    forall i | 0 <= i < |rows| ensures built[i] == NewFacts(t, rows)[i] {
      FactOfIsFactFor(t, maps, rows[i]);
    }
  }

  /** After the dimension inserts the maps read back resolve every row. */
  lemma FilledResolves(t: Tables, rows: seq<Row>, dateRows: seq<DateRow>, maps: IdMaps)
    requires WellFormed(t) && DateDimRows(DatePairs(rows)) == Ok(dateRows)
    requires MapsOf(maps, Filled(t, rows, dateRows))
    ensures forall i | 0 <= i < |rows| :: Resolvable(rows[i], maps)
  {
    var f := Filled(t, rows, dateRows);
    FilledWellFormed(t, rows, dateRows);
    FilledCovers(t, rows, dateRows);
    forall i | 0 <= i < |rows| ensures Resolvable(rows[i], maps) {
      FactOfIsFactFor(f, maps, rows[i]);
    }
  }

  /** Appending the facts the loop builds from those maps completes the load
      `LoadTables` describes, and the result keeps the schema's constraints. */
  lemma FilledThenAppended(t: Tables, f: Tables, rows: seq<Row>, dateRows: seq<DateRow>, maps: IdMaps, built: seq<Fact>)
    requires WellFormed(t) && DateDimRows(DatePairs(rows)) == Ok(dateRows)
    requires f == Filled(t, rows, dateRows) && MapsOf(maps, f)
    requires |built| == |rows|
    requires forall i | 0 <= i < |rows| :: Resolvable(rows[i], maps) && built[i] == FactOf(rows[i], maps)
    ensures LoadTables(t, rows) == Ok(f.(facts := t.facts + built))
    ensures WellFormed(f.(facts := t.facts + built))
  {
    FilledWellFormed(t, rows, dateRows);
    LoadTablesIs(t, rows, dateRows);
    FactRowsAreNewFacts(f, maps, rows, built);
    LoadKeepsWellFormed(t, rows);
  }

  /** The fact loop run with the maps read back from the filled tables `f`:
      it never raises, and its facts complete the load `LoadTables`
      describes. */
  method FactsForLoad(ghost t: Tables, ghost f: Tables, rows: seq<Row>, dateRows: seq<DateRow>, maps: IdMaps)
    returns (built: seq<Fact>)
    requires WellFormed(t) && DateDimRows(DatePairs(rows)) == Ok(dateRows)
    requires f == Filled(t, rows, dateRows) && MapsOf(maps, f)
    ensures |built| == |rows|
    ensures LoadTables(t, rows) == Ok(f.(facts := t.facts + built))
    ensures WellFormed(f.(facts := t.facts + built))
  {
    FilledResolves(t, rows, dateRows, maps);
    var r := BuildFactRows(rows, maps);
    built := r.value;
    FilledThenAppended(t, f, rows, dateRows, maps, built);
  }

  // ---------------------------------------------------------------- tables

  /** A dimension with one UNIQUE text column; a value's id is its position plus one. */
  class Dimension {
    var keys: seq<string>

    constructor ()
      ensures keys == []
    {
      keys := [];
    }

    /** `INSERT OR IGNORE INTO table(column) VALUES (v)`. */
    method Insert(v: string)
      modifies this
      ensures keys == InsertOrIgnore(old(keys), v)
    {
      if v !in keys {
        keys := keys + [v];
      }
    }

    /** `insert_unique`: the distinct values, sorted, each inserted in turn. */
    method InsertUnique(values: seq<string>)
      modifies this
      ensures keys == Upsert(old(keys), SortedDistinct(values))
    {
      var sorted := SortedDistinct(values);
      var i := 0;
      while i < |sorted|
        invariant 0 <= i <= |sorted|
        invariant keys == Upsert(old(keys), sorted[..i])
      {
        assert sorted[..i + 1][..i] == sorted[..i];
        Insert(sorted[i]);
        i := i + 1;
      }
      assert sorted[..i] == sorted;
    }
  }

  /** The warehouse: the three one-column dimensions, the candidate and date
      dimensions, and the fact table. */
  class Warehouse {
    const technology: Dimension
    const seniority: Dimension
    const country: Dimension
    var candidates: seq<Candidate>
    var dates: map<int, DateRow>
    var facts: seq<Fact>

    /** The three dimension objects are different tables. */
    ghost predicate Separate()
      reads this
    {
      technology != seniority && seniority != country && technology != country
    }

    /** The rows of every table. */
    ghost function Contents(): Tables
      reads this, technology, seniority, country
    {
      Tables(technology.keys, seniority.keys, country.keys, candidates, dates, facts)
    }

    /** The constraints of the schema hold. */
    ghost predicate Valid()
      reads this, technology, seniority, country
    {
      Separate() && WellFormed(Contents())
    }

    /** A freshly created schema: every table empty. */
    constructor ()
      ensures Valid() && fresh(technology) && fresh(seniority) && fresh(country)
      ensures Contents() == EmptyTables
    {
      technology := new Dimension();
      seniority := new Dimension();
      country := new Dimension();
      candidates := [];
      dates := map[];
      facts := [];
    }

    /** The `DimDate` inserts. */
    method InsertDates(rows: seq<DateRow>)
      modifies this
      ensures dates == UpsertDates(old(dates), rows)
      ensures candidates == old(candidates) && facts == old(facts)
    {
      var i := 0;
      while i < |rows|
        invariant 0 <= i <= |rows|
        invariant dates == UpsertDates(old(dates), rows[..i])
        invariant candidates == old(candidates) && facts == old(facts)
      {
        UpsertDatesStep(old(dates), rows, i);
        if rows[i].dateId !in dates {
          dates := dates[rows[i].dateId := rows[i]];
        }
        i := i + 1;
      }
      assert rows[..i] == rows;
    }

    /** The `DimCandidate` inserts. */
    method InsertCandidates(cs: seq<Candidate>)
      modifies this
      ensures candidates == UpsertCandidates(old(candidates), cs)
      ensures dates == old(dates) && facts == old(facts)
    {
      var i := 0;
      while i < |cs|
        invariant 0 <= i <= |cs|
        invariant candidates == UpsertCandidates(old(candidates), cs[..i])
        invariant dates == old(dates) && facts == old(facts)
      {
        UpsertCandidatesStep(old(candidates), cs, i);
        if !HasEmail(candidates, cs[i].email) {
          candidates := candidates + [cs[i]];
        }
        i := i + 1;
      }
      assert cs[..i] == cs;
    }

    /** The dimension inserts of one load, in the order `load_to_dw` makes them. */
    method FillDimensions(rows: seq<Row>, dateRows: seq<DateRow>)
      requires Separate()
      modifies this, technology, seniority, country
      ensures Separate()
      ensures Contents() == Filled(old(Contents()), rows, dateRows)
    {
      InsertDates(dateRows);
      technology.InsertUnique(Technologies(rows));
      seniority.InsertUnique(Seniorities(rows));
      country.InsertUnique(Countries(rows));
      InsertCandidates(DedupByEmail(CandidatesOf(rows)));
    }

    /** The four `build_map` calls. */
    method ReadMaps() returns (maps: IdMaps)
      ensures MapsOf(maps, Contents())
    {
      var mapTech := BuildMap(technology.keys);
      var mapSen := BuildMap(seniority.keys);
      var mapCty := BuildMap(country.keys);
      var mapCnd := BuildMap(Emails(candidates));
      maps := IdMaps(mapCnd, mapTech, mapSen, mapCty);
    }

    /** `load_to_dw` on the transformed frame `rows`: the tables become what
        `LoadTables` says, and the count of inserted facts is returned. It
        raises only while the date rows are derived, before anything is
        written, and then leaves every table as it was. */
    method Load(rows: seq<Row>) returns (r: Result<nat, LoadError>)
      requires Valid()
      modifies this, technology, seniority, country
      ensures Valid()
      ensures r.Ok? ==> r.value == |rows| && LoadTables(old(Contents()), rows) == Ok(Contents())
      ensures r.Err? ==>
                && LoadTables(old(Contents()), rows) == Err(r.error)
                && unchanged(this, technology, seniority, country)
    {
      var dateRows := DateDimRows(DatePairs(rows));
      if dateRows.Err? {
        return Err(DateFailed(dateRows.error));
      }
      var n := Write(rows, dateRows.value);
      r := Ok(n);
    }

    /** The writes of a load whose date rows are `dateRows`: the dimension
        inserts, the id maps, and the fact inserts. */
    method Write(rows: seq<Row>, dateRows: seq<DateRow>) returns (n: nat)
      requires Valid() && DateDimRows(DatePairs(rows)) == Ok(dateRows)
      modifies this, technology, seniority, country
      ensures Valid()
      ensures n == |rows| && LoadTables(old(Contents()), rows) == Ok(Contents())
    {
      ghost var t := Contents();
      FillDimensions(rows, dateRows);
      ghost var f := Contents();
      var maps := ReadMaps();
      var built := FactsForLoad(t, f, rows, dateRows, maps);
      facts := facts + built;
      n := |built|;
    }

    /** The whole run on a CSV's header row and raw rows: the header is
        normalised and every column `transform` reads must occur exactly once, the
        rows are transformed, and the frame is loaded. A run that raises
        writes nothing. */
    method Run(rawHeader: seq<string>, raws: seq<RawRow>) returns (r: Result<nat, RunError>)
      requires Valid()
      modifies this, technology, seniority, country
      ensures Valid()
      ensures r.Ok? <==> ColumnFaultOf(rawHeader).None? && TransformAll(raws).Ok?
      ensures ColumnFaultOf(rawHeader).Some? ==> r == Err(BadColumn(ColumnFaultOf(rawHeader).value))
      ensures ColumnFaultOf(rawHeader).None? && TransformAll(raws).Err? ==>
                r == Err(TransformFailed(TransformAll(raws).error))
      ensures r.Ok? ==>
                && r.value == |raws|
                && LoadTables(old(Contents()), TransformAll(raws).value) == Ok(Contents())
      ensures r.Err? ==> unchanged(this, technology, seniority, country)
    {
      var fault := ColumnFaultOf(rawHeader);
      if fault.Some? {
        return Err(BadColumn(fault.value));
      }
      var frame := TransformAll(raws);
      if frame.Err? {
        return Err(TransformFailed(frame.error));
      }
      TransformedRowsLoad(raws);
      var loaded := Load(frame.value);
      r := Ok(loaded.value);
    }
  }
}
