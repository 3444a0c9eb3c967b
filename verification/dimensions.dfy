/**
 * The dimension tables of the star schema as values, and what one load adds
 * to each of them. Every table with a natural key is filled with
 * `INSERT OR IGNORE`: a value already present is skipped, a new one is
 * appended and gets the next surrogate id (its position plus one).
 */
module Dimensions {
  import opened Wrappers
  import opened PyStr
  import opened Transform

  predicate NoDup<T(==)>(s: seq<T>) {
    forall i, j | 0 <= i < j < |s| :: s[i] != s[j]
  }

  // ---------------------------------------------------------------- one-column dimensions

  /** `INSERT OR IGNORE` of `v` into a table whose one column is UNIQUE. */
  function InsertOrIgnore(keys: seq<string>, v: string): (r: seq<string>)
    ensures keys <= r && |r| <= |keys| + 1
    ensures forall x :: x in r <==> x in keys || x == v
    ensures NoDup(keys) ==> NoDup(r)
  {
    if v in keys then keys else keys + [v]
  }

  /** `executemany` of `INSERT OR IGNORE` over `vs`, in order: existing rows
      keep their ids, and the table ends up holding exactly the old keys and `vs`. */
  function Upsert(keys: seq<string>, vs: seq<string>): (r: seq<string>)
    ensures keys <= r && |r| <= |keys| + |vs|
    ensures forall x :: x in r <==> x in keys || x in vs
    ensures NoDup(keys) ==> NoDup(r)
  {
    if vs == [] then keys
    else
      var n := |vs| - 1;
      assert vs == vs[..n] + [vs[n]];
      InsertOrIgnore(Upsert(keys, vs[..n]), vs[n])
  }

  /** Values that are all present already change nothing. */
  lemma {:induction false} UpsertPresent(keys: seq<string>, vs: seq<string>)
    requires forall v | v in vs :: v in keys
    ensures Upsert(keys, vs) == keys
  {
    if vs != [] {
      var n := |vs| - 1;
      assert vs[n] in vs;
      UpsertPresent(keys, vs[..n]);
    }
  }

  /** Loading the same values twice leaves the table as the first load left it. */
  lemma UpsertIdempotent(keys: seq<string>, vs: seq<string>)
    ensures Upsert(Upsert(keys, vs), vs) == Upsert(keys, vs)
  {
    UpsertPresent(Upsert(keys, vs), vs);
  }

  /** Distinct values none of which is present are appended in order. */
  lemma {:induction false} UpsertFresh(keys: seq<string>, vs: seq<string>)
    requires NoDup(vs)
    requires forall v | v in vs :: v !in keys
    ensures Upsert(keys, vs) == keys + vs
  {
    if vs != [] {
      var n := |vs| - 1;
      var init, last := vs[..n], vs[n];
      assert vs == init + [last];
      assert NoDup(init) by {
        forall i, j | 0 <= i < j < |init| ensures init[i] != init[j] {
          assert init[i] == vs[i] && init[j] == vs[j];
        }
      }
      assert forall v | v in init :: v !in keys by {
        forall v | v in init ensures v !in keys {
          assert v in vs;
        }
      }
      UpsertFresh(keys, init);
      assert last !in init by {
        forall i | 0 <= i < |init| ensures init[i] != last {
          assert init[i] == vs[i];
        }
      }
      assert last !in keys + init;
      assert Upsert(keys, vs) == InsertOrIgnore(keys + init, last);
    }
  }

  // ---------------------------------------------------------------- sorted distinct values

  predicate StrictlySorted(s: seq<string>) {
    forall i, j | 0 <= i < j < |s| :: Below(s[i], s[j])
  }

  lemma SortedNoDup(s: seq<string>)
    requires StrictlySorted(s)
    ensures NoDup(s)
  {
    forall i, j | 0 <= i < j < |s| ensures s[i] != s[j] {
      BelowIrreflexive(s[i]);
    }
  }

  /** Every element of a strictly sorted sequence is above its head. */
  lemma HeadIsLeast(s: seq<string>, y: string)
    requires StrictlySorted(s) && y in s && y != s[0]
    ensures Below(s[0], y)
  {
  }

  /** `x` placed into a strictly sorted sequence, unless it is there already. */
  function InsertSorted(s: seq<string>, x: string): (r: seq<string>)
    requires StrictlySorted(s)
    ensures StrictlySorted(r)
    ensures forall y :: y in r <==> y in s || y == x
  {
    if s == [] then [x]
    else if x == s[0] then s
    else if Below(x, s[0]) then
      assert forall j | 0 <= j < |s| :: Below(x, s[j]) by {
        forall j | 0 <= j < |s| ensures Below(x, s[j]) {
          if j > 0 { BelowTransitive(x, s[0], s[j]); }
        }
      }
      [x] + s
    else
      BelowTotal(x, s[0]);
      var t := InsertSorted(s[1..], x);
      assert forall y | y in s[1..] :: Below(s[0], y);
      assert forall k | 0 <= k < |t| :: Below(s[0], t[k]) by {
        forall k | 0 <= k < |t| ensures Below(s[0], t[k]) {
          assert t[k] in t;
        }
      }
      assert s == [s[0]] + s[1..];
      [s[0]] + t
  }

  /** `sorted(set(vs))`: the distinct values in ascending string order. */
  function SortedDistinct(vs: seq<string>): (r: seq<string>)
    ensures StrictlySorted(r)
    ensures forall y :: y in r <==> y in vs
  {
    if vs == [] then []
    else
      var n := |vs| - 1;
      assert vs == vs[..n] + [vs[n]];
      InsertSorted(SortedDistinct(vs[..n]), vs[n])
  }

  /** Two strictly sorted sequences with the same elements are the same sequence. */
  lemma {:induction false} StrictlySortedUnique(a: seq<string>, b: seq<string>)
    requires StrictlySorted(a) && StrictlySorted(b)
    requires forall y :: y in a <==> y in b
    ensures a == b
  {
    assert b != [] ==> b[0] in b;
    if a != [] {
      assert a[0] in a;
      assert b[0] in b;
      if a[0] != b[0] {
        HeadIsLeast(a, b[0]);
        HeadIsLeast(b, a[0]);
        BelowAsymmetric(a[0], b[0]);
      }
      SortedNoDup(a);
      SortedNoDup(b);
      forall y ensures y in a[1..] <==> y in b[1..] {
        assert y in a[1..] <==> y in a && y != a[0];
        assert y in b[1..] <==> y in b && y != b[0];
      }
      StrictlySortedUnique(a[1..], b[1..]);
      assert a == [a[0]] + a[1..] && b == [b[0]] + b[1..];
    }
  }

  /** The values a dimension receives depend only on which values occur,
      not on the order or the number of the rows they occur in. */
  lemma SortedDistinctCanonical(vs: seq<string>, ws: seq<string>)
    requires forall y :: y in vs <==> y in ws
    ensures SortedDistinct(vs) == SortedDistinct(ws)
  {
    StrictlySortedUnique(SortedDistinct(vs), SortedDistinct(ws));
  }

  /** Into an empty table the distinct values go in ascending order, so each
      value's id is its rank. */
  lemma UpsertSortedIntoEmpty(vs: seq<string>)
    ensures Upsert([], SortedDistinct(vs)) == SortedDistinct(vs)
  {
    SortedNoDup(SortedDistinct(vs));
    UpsertFresh([], SortedDistinct(vs));
  }

  // ---------------------------------------------------------------- candidates

  datatype Candidate = Candidate(firstName: string, lastName: string, email: string)

  /** Some row of `cs` carries the e-mail `e`. */
  predicate HasEmail(cs: seq<Candidate>, e: string) {
    exists i | 0 <= i < |cs| :: cs[i].email == e
  }

  /** No two rows of `cs` share an e-mail. */
  predicate UniqueEmails(cs: seq<Candidate>) {
    forall i, j | 0 <= i < j < |cs| :: cs[i].email != cs[j].email
  }

  lemma HasEmailSnoc(cs: seq<Candidate>, c: Candidate)
    ensures forall e :: HasEmail(cs + [c], e) <==> HasEmail(cs, e) || c.email == e
  {
    forall e ensures HasEmail(cs + [c], e) <==> HasEmail(cs, e) || c.email == e {
      if HasEmail(cs, e) {
        var i :| 0 <= i < |cs| && cs[i].email == e;
        assert (cs + [c])[i] == cs[i];
      }
      if c.email == e {
        assert (cs + [c])[|cs|] == c;
      }
    }
  }

  lemma HasEmailConcat(a: seq<Candidate>, b: seq<Candidate>, e: string)
    ensures HasEmail(a + b, e) <==> HasEmail(a, e) || HasEmail(b, e)
  {
    if HasEmail(a + b, e) {
      var i :| 0 <= i < |a + b| && (a + b)[i].email == e;
      if i < |a| {
        assert a[i] == (a + b)[i];
      } else {
        assert b[i - |a|] == (a + b)[i];
      }
    }
    if HasEmail(a, e) {
      var i :| 0 <= i < |a| && a[i].email == e;
      assert (a + b)[i] == a[i];
    }
    if HasEmail(b, e) {
      var i :| 0 <= i < |b| && b[i].email == e;
      assert (a + b)[|a| + i] == b[i];
    }
  }

  /** Row `i` is the first with its e-mail. */
  predicate FirstOfEmail(cs: seq<Candidate>, i: nat)
    requires i < |cs|
  {
    forall j | 0 <= j < i :: cs[j].email != cs[i].email
  }

  /** `drop_duplicates('email')`: for each e-mail the first row carrying it. */
  function DedupByEmail(cs: seq<Candidate>): (r: seq<Candidate>)
    ensures forall k | 0 <= k < |r| :: r[k] in cs
    ensures UniqueEmails(r)
    ensures forall i | 0 <= i < |cs| :: HasEmail(r, cs[i].email)
    ensures forall i | 0 <= i < |cs| && FirstOfEmail(cs, i) :: cs[i] in r
  {
    if cs == [] then []
    else
      var n := |cs| - 1;
      var d := DedupByEmail(cs[..n]);
      if FirstOfEmail(cs, n) then
        var r := d + [cs[n]];
        DedupFirst(cs, d, r);
        r
      else
        DedupRepeat(cs, d);
        d
  }

  /** The last row is the first with its e-mail: it is kept. */
  lemma DedupFirst(cs: seq<Candidate>, d: seq<Candidate>, r: seq<Candidate>)
    requires cs != [] && FirstOfEmail(cs, |cs| - 1) && r == d + [cs[|cs| - 1]]
    requires forall k | 0 <= k < |d| :: d[k] in cs[..|cs| - 1]
    requires UniqueEmails(d)
    requires forall i | 0 <= i < |cs| - 1 :: HasEmail(d, cs[i].email)
    requires forall i | 0 <= i < |cs| - 1 && FirstOfEmail(cs[..|cs| - 1], i) :: cs[i] in d
    ensures forall k | 0 <= k < |r| :: r[k] in cs
    ensures UniqueEmails(r)
    ensures forall i | 0 <= i < |cs| :: HasEmail(r, cs[i].email)
    ensures forall i | 0 <= i < |cs| && FirstOfEmail(cs, i) :: cs[i] in r
  {
    var n := |cs| - 1;
    forall k | 0 <= k < |d| ensures d[k] in cs && d[k].email != cs[n].email {
      var j :| 0 <= j < n && cs[..n][j] == d[k];
    }
    HasEmailSnoc(d, cs[n]);
    forall i | 0 <= i < n && FirstOfEmail(cs, i) ensures cs[i] in d {
      assert FirstOfEmail(cs[..n], i);
    }
  }

  /** An earlier row has the last row's e-mail: the last row is dropped. */
  lemma DedupRepeat(cs: seq<Candidate>, d: seq<Candidate>)
    requires cs != [] && !FirstOfEmail(cs, |cs| - 1)
    requires forall k | 0 <= k < |d| :: d[k] in cs[..|cs| - 1]
    requires forall i | 0 <= i < |cs| - 1 :: HasEmail(d, cs[i].email)
    requires forall i | 0 <= i < |cs| - 1 && FirstOfEmail(cs[..|cs| - 1], i) :: cs[i] in d
    ensures forall k | 0 <= k < |d| :: d[k] in cs
    ensures forall i | 0 <= i < |cs| :: HasEmail(d, cs[i].email)
    ensures forall i | 0 <= i < |cs| && FirstOfEmail(cs, i) :: cs[i] in d
  {
    var n := |cs| - 1;
    forall k | 0 <= k < |d| ensures d[k] in cs {
      var j :| 0 <= j < n && cs[..n][j] == d[k];
    }
    assert HasEmail(d, cs[n].email) by {
      var j :| 0 <= j < n && cs[j].email == cs[n].email;
      assert HasEmail(d, cs[j].email);
    }
    forall i | 0 <= i < n && FirstOfEmail(cs, i) ensures cs[i] in d {
      assert FirstOfEmail(cs[..n], i);
    }
  }

  /** `INSERT OR IGNORE` of one candidate into a table whose e-mail column is UNIQUE. */
  function InsertCandidate(t: seq<Candidate>, c: Candidate): (r: seq<Candidate>)
    ensures t <= r && |r| <= |t| + 1
    ensures forall e :: HasEmail(r, e) <==> HasEmail(t, e) || e == c.email
    ensures UniqueEmails(t) ==> UniqueEmails(r)
    ensures |t| < |r| ==> r[|t|] == c
  {
    HasEmailSnoc(t, c);
    if HasEmail(t, c.email) then t else t + [c]
  }

  /** `executemany` of the candidate inserts over `cs`, in order. */
  function UpsertCandidates(t: seq<Candidate>, cs: seq<Candidate>): (r: seq<Candidate>)
    ensures t <= r && |r| <= |t| + |cs|
    ensures forall e :: HasEmail(r, e) <==> HasEmail(t, e) || HasEmail(cs, e)
    ensures UniqueEmails(t) ==> UniqueEmails(r)
    ensures forall k | |t| <= k < |r| :: r[k] in cs
  {
    if cs == [] then t
    else
      var n := |cs| - 1;
      assert cs == cs[..n] + [cs[n]];
      HasEmailSnoc(cs[..n], cs[n]);
      var u := UpsertCandidates(t, cs[..n]);
      assert forall k | |t| <= k < |u| :: u[k] in cs by {
        forall k | |t| <= k < |u| ensures u[k] in cs {
          assert u[k] in cs[..n];
        }
      }
      InsertCandidate(u, cs[n])
  }

  /** One more candidate inserted after the first `i`. */
  lemma UpsertCandidatesStep(t: seq<Candidate>, cs: seq<Candidate>, i: nat)
    requires i < |cs|
    ensures UpsertCandidates(t, cs[..i + 1]) == InsertCandidate(UpsertCandidates(t, cs[..i]), cs[i])
  {
    assert cs[..i + 1][..i] == cs[..i];
  }

  /** Candidates whose e-mails are all present change nothing. */
  lemma {:induction false} UpsertCandidatesPresent(t: seq<Candidate>, cs: seq<Candidate>)
    requires forall i | 0 <= i < |cs| :: HasEmail(t, cs[i].email)
    ensures UpsertCandidates(t, cs) == t
  {
    if cs != [] {
      UpsertCandidatesPresent(t, cs[..|cs| - 1]);
    }
  }

  /** Loading the same candidates twice leaves the table as the first load left it. */
  lemma UpsertCandidatesIdempotent(t: seq<Candidate>, cs: seq<Candidate>)
    ensures UpsertCandidates(UpsertCandidates(t, cs), cs) == UpsertCandidates(t, cs)
  {
    forall i | 0 <= i < |cs| ensures HasEmail(UpsertCandidates(t, cs), cs[i].email) {
      assert HasEmail(cs, cs[i].email);
    }
    UpsertCandidatesPresent(UpsertCandidates(t, cs), cs);
  }

  /** Candidates with distinct e-mails none of which is present are appended in order. */
  lemma {:induction false} UpsertCandidatesFresh(t: seq<Candidate>, cs: seq<Candidate>)
    requires UniqueEmails(cs)
    requires forall i | 0 <= i < |cs| :: !HasEmail(t, cs[i].email)
    ensures UpsertCandidates(t, cs) == t + cs
  {
    if cs != [] {
      var n := |cs| - 1;
      var init := cs[..n];
      forall i | 0 <= i < n ensures init[i] == cs[i] && init[i].email != cs[n].email {
      }
      UpsertCandidatesFresh(t, init);
      HasEmailConcat(t, init, cs[n].email);
      assert t + init + [cs[n]] == t + cs;
    }
  }

  /** Dropping duplicate e-mails before inserting changes nothing: the
      insert ignores a repeated e-mail anyway. */
  lemma {:induction false} DedupThenUpsert(t: seq<Candidate>, cs: seq<Candidate>)
    ensures UpsertCandidates(t, DedupByEmail(cs)) == UpsertCandidates(t, cs)
  {
    if cs != [] {
      var n := |cs| - 1;
      var d := DedupByEmail(cs[..n]);
      DedupThenUpsert(t, cs[..n]);
      if FirstOfEmail(cs, n) {
        assert DedupByEmail(cs) == d + [cs[n]];
        assert (d + [cs[n]])[..|d|] == d;
      } else {
        var j :| 0 <= j < n && cs[j].email == cs[n].email;
        assert HasEmail(cs[..n], cs[n].email) by {
          assert cs[..n][j].email == cs[n].email;
        }
      }
    }
  }

  /** `drop_duplicates('email')` keeps what inserting the rows into an empty
      candidate table would keep. */
  lemma DedupIsInsertIntoEmpty(cs: seq<Candidate>)
    ensures DedupByEmail(cs) == UpsertCandidates([], cs)
  {
    UpsertCandidatesFresh([], DedupByEmail(cs));
    DedupThenUpsert([], cs);
  }

  // ---------------------------------------------------------------- dates

  /** One distinct `(date_id, application_date)` pair of the frame. */
  datatype DatePair = DatePair(dateId: int, fullDate: string)

  /** A row of `DimDate`. */
  datatype DateRow = DateRow(
    dateId: int, fullDate: string, day: int, month: int,
    monthName: string, quarter: int, year: int)

  /** What goes wrong while the date rows are derived: `int()` of a slice
      raises `ValueError`, `month_names[m-1]` raises `IndexError`. */
  datatype DateError = NotAnInteger(text: string) | MonthIndexError(month: int)

  /** `drop_duplicates()`: the distinct elements, each where it first occurs. */
  function Distinct(s: seq<DatePair>): (r: seq<DatePair>)
    ensures NoDup(r)
    ensures forall x :: x in r <==> x in s
  {
    if s == [] then []
    else
      var n := |s| - 1;
      assert s == s[..n] + [s[n]];
      var d := Distinct(s[..n]);
      if s[n] in d then d else d + [s[n]]
  }

  const MonthNames: seq<string> := [
    "January", "February", "March", "April", "May", "June",
    "July", "August", "September", "October", "November", "December"
  ]

  /** `month_names[m-1]`, with Python's negative indexing: months 1 to 12
      get their names, 0 down to -11 count back from December, anything else raises. */
  function MonthName(m: int): (r: Option<string>)
    ensures r.Some? <==> -11 <= m <= 12
    ensures 1 <= m <= 12 ==> r == Some(MonthNames[m - 1])
    ensures m == 0 ==> r == Some("December")
  {
    PyIndex(MonthNames, m - 1)
  }

  /** `(m - 1) // 3 + 1` (floor division; Dafny's `/` agrees with it for a
      positive divisor): the quarter whose three months contain `m`. */
  function Quarter(m: int): (q: int)
    ensures 1 <= m <= 12 ==> 1 <= q <= 4 && 3 * (q - 1) < m <= 3 * q
  {
    (m - 1) / 3 + 1
  }

  /** Every column of the pair converts and its month has a name. */
  predicate DateParses(p: DatePair) {
    && ParseInt(Slice(p.fullDate, 0, 4)).Some?
    && ParseInt(Slice(p.fullDate, 5, 7)).Some?
    && ParseInt(Slice(p.fullDate, 8, 10)).Some?
    && -11 <= ParseInt(Slice(p.fullDate, 5, 7)).value <= 12
  }

  /** The `DimDate` row of one pair, or the first error its columns raise. */
  function DateRowOf(p: DatePair): (r: Result<DateRow, DateError>)
    ensures r.Ok? <==> DateParses(p)
    ensures r.Ok? ==> r.value.dateId == p.dateId && r.value.fullDate == p.fullDate
  {
    var year, month, day := Slice(p.fullDate, 0, 4), Slice(p.fullDate, 5, 7), Slice(p.fullDate, 8, 10);
    match (ParseInt(year), ParseInt(month), ParseInt(day))
    case (None, _, _) => Err(NotAnInteger(year))
    case (_, None, _) => Err(NotAnInteger(month))
    case (_, _, None) => Err(NotAnInteger(day))
    case (Some(y), Some(m), Some(d)) =>
      match MonthName(m)
      case None => Err(MonthIndexError(m))
      case Some(name) => Ok(DateRow(p.dateId, p.fullDate, d, m, name, Quarter(m), y))
  }

  /** The slice `s[lo:hi]` of every full date. */
  function Column(pairs: seq<DatePair>, lo: nat, hi: nat): (c: seq<string>)
    ensures |c| == |pairs| && forall i | 0 <= i < |pairs| :: c[i] == Slice(pairs[i].fullDate, lo, hi)
  {
    seq(|pairs|, i requires 0 <= i < |pairs| => Slice(pairs[i].fullDate, lo, hi))
  }

  /** The position of the first text `int()` rejects, if any. */
  function FirstNonInteger(texts: seq<string>): (r: Option<nat>)
    ensures r.None? <==> forall i | 0 <= i < |texts| :: ParseInt(texts[i]).Some?
    ensures r.Some? ==>
              && r.value < |texts| && ParseInt(texts[r.value]).None?
              && forall i | 0 <= i < r.value :: ParseInt(texts[i]).Some?
  {
    if texts == [] then None
    else if ParseInt(texts[0]).None? then Some(0)
    else
      match FirstNonInteger(texts[1..])
      case None => None
      case Some(k) => Some(k + 1)
  }

  /** The position of the first month `month_names` cannot index, if any. */
  function FirstUnnamedMonth(months: seq<int>): (r: Option<nat>)
    ensures r.None? <==> forall i | 0 <= i < |months| :: -11 <= months[i] <= 12
    ensures r.Some? ==>
              && r.value < |months| && !(-11 <= months[r.value] <= 12)
              && forall i | 0 <= i < r.value :: -11 <= months[i] <= 12
  {
    if months == [] then None
    else if !(-11 <= months[0] <= 12) then Some(0)
    else
      match FirstUnnamedMonth(months[1..])
      case None => None
      case Some(k) => Some(k + 1)
  }

  /** The error deriving the `DimDate` columns raises, if any. pandas derives
      the columns one at a time (year, month, day, then the month name), so
      it is the first failure of the first column that fails. */
  function DateColumnsError(pairs: seq<DatePair>): (r: Option<DateError>)
    ensures r.None? <==> forall i | 0 <= i < |pairs| :: DateParses(pairs[i])
  {
    var years, months, days := Column(pairs, 0, 4), Column(pairs, 5, 7), Column(pairs, 8, 10);
    match (FirstNonInteger(years), FirstNonInteger(months), FirstNonInteger(days))
    case (Some(k), _, _) => Some(NotAnInteger(years[k]))
    case (_, Some(k), _) => Some(NotAnInteger(months[k]))
    case (_, _, Some(k)) => Some(NotAnInteger(days[k]))
    case (None, None, None) =>
      var ms := seq(|pairs|, i requires 0 <= i < |pairs| => ParseInt(months[i]).value);
      match FirstUnnamedMonth(ms)
      case Some(k) => Some(MonthIndexError(ms[k]))
      case None =>
        assert forall i | 0 <= i < |pairs| :: DateParses(pairs[i]) by {
          forall i | 0 <= i < |pairs| ensures DateParses(pairs[i]) {
            assert ParseInt(years[i]).Some? && ParseInt(months[i]).Some? && ParseInt(days[i]).Some?;
            assert -11 <= ms[i] <= 12;
          }
        }
        None
  }

  /** The `DimDate` rows of the distinct pairs, or the error deriving them raises. */
  function DateDimRows(pairs: seq<DatePair>): (r: Result<seq<DateRow>, DateError>)
    ensures r.Ok? <==> forall i | 0 <= i < |pairs| :: DateRowOf(pairs[i]).Ok?
    ensures r.Ok? ==> |r.value| == |pairs| && forall i | 0 <= i < |pairs| :: DateRowOf(pairs[i]) == Ok(r.value[i])
  {
    match DateColumnsError(pairs)
    case Some(e) => Err(e)
    case None => Ok(seq(|pairs|, i requires 0 <= i < |pairs| => DateRowOf(pairs[i]).value))
  }

  /** `int()` reads back a zero-padded number. */
  lemma ParsePadded(n: nat, width: nat)
    requires 0 < width && n < Pow10(width)
    ensures ParseInt(Pad(n, width)) == Some(n)
  {
  }

  /** The date row of a date `transform` produced: the text's fields are the
      date's own, and the month always has a name. */
  lemma DateRowOfIsoDate(id: int, d: Date)
    ensures DateRowOf(DatePair(id, IsoDate(d))) ==
            Ok(DateRow(id, IsoDate(d), d.day, d.month, MonthNames[d.month - 1], Quarter(d.month), d.year))
  {
    var y, m, dd := Pad(d.year, 4), Pad(d.month, 2), Pad(d.day, 2);
    var s := IsoDate(d);
    assert s == y + "-" + m + "-" + dd;
    assert s[0..4] == y;
    assert s[5..7] == m;
    assert s[8..10] == dd;
    ParsePadded(d.year, 4);
    ParsePadded(d.month, 2);
    ParsePadded(d.day, 2);
  }

  // ---------------------------------------------------------------- date dimension table

  function DateIds(rows: seq<DateRow>): set<int> {
    set i | 0 <= i < |rows| :: rows[i].dateId
  }

  /** `INSERT OR IGNORE` into `DimDate`, whose key is `date_id`. */
  function InsertDate(t: map<int, DateRow>, row: DateRow): (r: map<int, DateRow>)
    ensures r.Keys == t.Keys + {row.dateId}
    ensures forall k | k in t :: r[k] == t[k]
    ensures row.dateId !in t ==> r[row.dateId] == row
  {
    if row.dateId in t then t else t[row.dateId := row]
  }

  /** `executemany` of the date inserts: existing dates are kept, every new
      key holds a row of `rows` with that key. */
  function UpsertDates(t: map<int, DateRow>, rows: seq<DateRow>): (r: map<int, DateRow>)
    ensures r.Keys == t.Keys + DateIds(rows)
    ensures forall k | k in t :: r[k] == t[k]
    ensures forall k | k in r && k !in t :: r[k] in rows && r[k].dateId == k
  {
    if rows == [] then t
    else
      var n := |rows| - 1;
      var u := UpsertDates(t, rows[..n]);
      assert DateIds(rows) == DateIds(rows[..n]) + {rows[n].dateId} by {
        assert forall i | 0 <= i < n :: rows[..n][i] == rows[i];
      }
      assert forall k | k in u && k !in t :: u[k] in rows by {
        forall k | k in u && k !in t ensures u[k] in rows {
          assert u[k] in rows[..n];
        }
      }
      InsertDate(u, rows[n])
  }

  /** One more date row inserted after the first `i`. */
  lemma UpsertDatesStep(t: map<int, DateRow>, rows: seq<DateRow>, i: nat)
    requires i < |rows|
    ensures UpsertDates(t, rows[..i + 1]) == InsertDate(UpsertDates(t, rows[..i]), rows[i])
  {
    assert rows[..i + 1][..i] == rows[..i];
  }

  /** Loading the same date rows twice leaves the table as the first load left it. */
  lemma UpsertDatesIdempotent(t: map<int, DateRow>, rows: seq<DateRow>)
    ensures UpsertDates(UpsertDates(t, rows), rows) == UpsertDates(t, rows)
  {
    var u := UpsertDates(t, rows);
    var w := UpsertDates(u, rows);
    assert w.Keys == u.Keys;
  }
}
