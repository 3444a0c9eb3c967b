/**
 * The row normaliser and classifier: typed, trimmed fields, the canonical
 * country, the `hired` flag, the `date_id` key and the experience band.
 * pandas works column by column; every column expression here is per row,
 * so the model applies one function to each row.
 */
module Transform {
  import opened Wrappers
  import opened PyStr

  // ---------------------------------------------------------------- constants

  /** `COUNTRY_FIX`: lower-cased aliases and the canonical name each stands for. */
  const CountryFix: map<string, string> := map[
    "usa" := "United States", "us" := "United States", "u.s.a." := "United States",
    "united states of america" := "United States", "ee.uu." := "United States",
    "uk" := "United Kingdom", "u.k." := "United Kingdom",
    "brasil" := "Brazil"
  ]

  /** `HIRED_THRESHOLD`, compared against the (float) scores. */
  const HiredThreshold: real := 7.0

  // ---------------------------------------------------------------- dates

  datatype DateParts = DateParts(year: int, month: int, day: int)

  predicate IsLeapYear(y: int) {
    y % 4 == 0 && (y % 100 != 0 || y % 400 == 0)
  }

  function DaysInMonth(y: int, m: int): int
    requires 1 <= m <= 12
  {
    if m == 2 then (if IsLeapYear(y) then 29 else 28)
    else if m == 4 || m == 6 || m == 9 || m == 11 then 30
    else 31
  }

  predicate ValidDate(d: DateParts) {
    1 <= d.year <= 9999 && 1 <= d.month <= 12 && 1 <= d.day <= DaysInMonth(d.year, d.month)
  }

  /** A calendar date, as `datetime.date` holds one. */
  type Date = d: DateParts | ValidDate(d) witness DateParts(1970, 1, 1)

  /** `str(date)`: four-digit year, two-digit month and day, joined by `-`. */
  function IsoDate(d: Date): (s: string)
    ensures |s| == 10 && s[4] == '-' && s[7] == '-'
  {
    Pad(d.year, 4) + "-" + Pad(d.month, 2) + "-" + Pad(d.day, 2)
  }

  /** The `application_date` text after `to_datetime(errors='coerce').dt.date.astype(str)`:
      a date that did not parse is `NaT`, which prints as "NaT". */
  function DateText(d: Option<Date>): (r: string)
    ensures r == "NaT" <==> d.None?
    ensures d.Some? ==> |r| == 10 && r[4] == '-' && r[7] == '-'
  {
    match d
    case None => "NaT"
    case Some(x) => IsoDate(x)
  }

  /** `date_id`: the date text with every `-` removed, converted by `int()`.
      It converts exactly when the text holds only digits and dashes, and at
      least one digit. */
  function DateId(text: string): (r: Option<nat>)
    ensures r.Some? <==> (forall i | 0 <= i < |text| :: text[i] == '-' || IsDigit(text[i]))
                         && exists i | 0 <= i < |text| :: text[i] != '-'
  {
    var digits := RemoveChar(text, '-');
    RemoveCharMembers(text, '-');
    var allowed := forall i | 0 <= i < |text| :: text[i] == '-' || IsDigit(text[i]);
    var someDigit := exists i | 0 <= i < |text| :: text[i] != '-';
    assert AllDigits(digits) <==> allowed by {
      if AllDigits(digits) {
        forall i | 0 <= i < |text| ensures text[i] == '-' || IsDigit(text[i]) {
          if text[i] != '-' {
            assert text[i] in digits;
            var j :| 0 <= j < |digits| && digits[j] == text[i];
          }
        }
      }
      if allowed {
        forall j | 0 <= j < |digits| ensures IsDigit(digits[j]) {
          assert digits[j] in text;
          var i :| 0 <= i < |text| && text[i] == digits[j];
        }
      }
    }
    assert digits != [] <==> someDigit by {
      if digits != [] {
        assert digits[0] in text;
        var i :| 0 <= i < |text| && text[i] == digits[0];
      }
      if someDigit {
        var i :| 0 <= i < |text| && text[i] != '-';
        assert text[i] in digits;
      }
    }
    ParseInt(digits)
  }

  lemma RemoveDashOnly()
    ensures RemoveChar("-", '-') == []
  {
    var dash: string := "-";
    assert dash[1..] == [];
  }

  lemma RemoveTrailingDash(a: string)
    ensures RemoveChar(a + "-", '-') == RemoveChar(a, '-')
  {
    RemoveCharConcat(a, "-", '-');
    RemoveDashOnly();
  }

  lemma RemoveSeparator(a: string, b: string)
    requires '-' !in b
    ensures RemoveChar(a + "-" + b, '-') == RemoveChar(a, '-') + b
  {
    RemoveCharConcat(a + "-", b, '-');
    RemoveCharAbsent(b, '-');
    RemoveTrailingDash(a);
  }

  /** Dropping the separators of `y-m-d` leaves the three digit blocks. */
  lemma RemoveSeparators(y: string, m: string, dd: string)
    requires AllDigits(y) && AllDigits(m) && AllDigits(dd)
    ensures RemoveChar(y + "-" + m + "-" + dd, '-') == y + m + dd
  {
    assert !IsDigit('-');
    RemoveSeparator(y + "-" + m, dd);
    RemoveSeparator(y, m);
    RemoveCharAbsent(y, '-');
  }

  /** The key of an ISO date is its digits read as YYYYMMDD. */
  lemma DateIdOfIsoDate(d: Date)
    ensures DateId(IsoDate(d)) == Some(d.year * 10000 + d.month * 100 + d.day)
  {
    var y, m, dd := Pad(d.year, 4), Pad(d.month, 2), Pad(d.day, 2);
    var digits := y + m + dd;
    RemoveSeparators(y, m, dd);
    assert RemoveChar(IsoDate(d), '-') == digits;
    assert Pow10(2) == 100;
    DigitsValueConcat(y, m);
    assert DigitsValue(y + m) == d.year * 100 + d.month;
    DigitsValueConcat(y + m, dd);
    assert DigitsValue(digits) == (d.year * 100 + d.month) * 100 + d.day;
    assert ParseInt(digits) == Some(DigitsValue(digits));
  }

  /** A date that failed to parse has no integer key: `int("NaT")` raises. */
  lemma DateIdOfNaT()
    ensures DateId(DateText(None)) == None
  {
    assert !IsDigit("NaT"[0]);
    assert RemoveChar("NaT", '-')[0] == 'N';
  }

  /** The key converts exactly when the date parsed, and is then YYYYMMDD. */
  lemma DateIdOfText(d: Option<Date>)
    ensures DateId(DateText(d)).Some? <==> d.Some?
    ensures d.Some? ==> DateId(DateText(d)) == Some(d.value.year * 10000 + d.value.month * 100 + d.value.day)
  {
    if d.Some? {
      DateIdOfIsoDate(d.value);
    } else {
      DateIdOfNaT();
    }
  }

  // ---------------------------------------------------------------- numbers

  /** `astype(int)` on a float: truncation toward zero. */
  function TruncateToInt(x: real): (n: int)
    ensures 0.0 <= x ==> n as real <= x < n as real + 1.0
    ensures x < 0.0 ==> n as real - 1.0 < x <= n as real
  {
    if x >= 0.0 then x.Floor else -((-x).Floor)
  }

  /** `yoe` after `to_numeric(errors='coerce').fillna(0).astype(int)`:
      a value that did not parse (None) becomes 0. */
  function Yoe(parsed: Option<real>): (n: int)
    ensures parsed.None? ==> n == 0
    ensures parsed.Some? && parsed.value >= 0.0 ==> n >= 0 && n as real <= parsed.value < n as real + 1.0
  {
    match parsed
    case None => 0
    case Some(x) => TruncateToInt(x)
  }

  // ---------------------------------------------------------------- experience band

  datatype Band = Band0To2 | Band3To5 | Band6To10 | Band11Plus

  function BandLabel(b: Band): string {
    match b
    case Band0To2 => "0-2"
    case Band3To5 => "3-5"
    case Band6To10 => "6-10"
    case Band11Plus => "11+"
  }

  /** The `bins` given to `pd.cut`; band `k` is the interval `(Bins[k], Bins[k + 1]]`. */
  const Bins: seq<int> := [-1, 2, 5, 10, 1000000]

  /** The `labels` given to `pd.cut`, one per interval. */
  const Labels: seq<Band> := [Band0To2, Band3To5, Band6To10, Band11Plus]

  /** Band `k` is written as the `k`-th of `labels`, and no two bands share a text. */
  lemma BandLabels()
    ensures forall k | 0 <= k < 4 :: BandLabel(Labels[k]) == ["0-2", "3-5", "6-10", "11+"][k]
    ensures forall b1: Band, b2: Band :: BandLabel(b1) == BandLabel(b2) ==> b1 == b2
  {
  }

  predicate InBin(yoe: int, k: nat)
    requires k < 4
  {
    Bins[k] < yoe <= Bins[k + 1]
  }

  /** `pd.cut(yoe, bins, labels)`: the label of the interval holding `yoe`;
      a value outside every interval gets no band (NaN). */
  function ExperienceBand(yoe: int): (r: Option<Band>)
    ensures forall k: nat | k < 4 :: r == Some(Labels[k]) <==> InBin(yoe, k)
    ensures r.None? <==> yoe <= Bins[0] || Bins[4] < yoe
  {
    if yoe <= -1 then None
    else if yoe <= 2 then Some(Band0To2)
    else if yoe <= 5 then Some(Band3To5)
    else if yoe <= 10 then Some(Band6To10)
    else if yoe <= 1000000 then Some(Band11Plus)
    else None
  }

  /** The four intervals partition 0..10^6: each such value lies in exactly one. */
  lemma BinsPartition(yoe: int)
    requires 0 <= yoe <= 1000000
    ensures exists k: nat :: k < 4 && InBin(yoe, k)
    ensures forall k: nat, j: nat | k < 4 && j < 4 && InBin(yoe, k) && InBin(yoe, j) :: k == j
  {
    var k: nat := if yoe <= 2 then 0 else if yoe <= 5 then 1 else if yoe <= 10 then 2 else 3;
    assert InBin(yoe, k);
  }

  lemma BandBoundaries()
    ensures ExperienceBand(0) == Some(Band0To2) && ExperienceBand(2) == Some(Band0To2)
    ensures ExperienceBand(3) == Some(Band3To5) && ExperienceBand(5) == Some(Band3To5)
    ensures ExperienceBand(6) == Some(Band6To10) && ExperienceBand(10) == Some(Band6To10)
    ensures ExperienceBand(11) == Some(Band11Plus) && ExperienceBand(1000000) == Some(Band11Plus)
    ensures ExperienceBand(-1) == None && ExperienceBand(1000001) == None
  {
  }

  // ---------------------------------------------------------------- hired

  /** `score >= HIRED_THRESHOLD` on a float column: NaN compares false. */
  predicate AtLeastThreshold(score: Option<real>) {
    match score
    case None => false
    case Some(v) => v >= HiredThreshold
  }

  /** The `hired` flag: both comparisons must hold. It is set exactly when
      both scores are present and at least 7; an absent score never hires. */
  function Hired(codeChallenge: Option<real>, interview: Option<real>): (h: bool)
    ensures h <==> && codeChallenge.Some? && codeChallenge.value >= 7.0
                   && interview.Some? && interview.value >= 7.0
    ensures codeChallenge.None? || interview.None? ==> !h
  {
    AtLeastThreshold(codeChallenge) && AtLeastThreshold(interview)
  }

  // ---------------------------------------------------------------- text fields

  /** `astype(str)`: an empty cell (NaN) becomes the text "nan". */
  function Text(cell: Option<string>): string {
    match cell
    case None => "nan"
    case Some(s) => s
  }

  /** Country normalisation: an alias of `COUNTRY_FIX` (matched after
      lower-casing) gives its canonical name, anything else is title-cased. */
  function CanonicalCountry(s: string): (r: string)
    ensures Lower(s) in CountryFix ==> r == CountryFix[Lower(s)]
    ensures Lower(s) !in CountryFix ==> r == Title(s)
  {
    var key := Lower(s);
    if key in CountryFix then CountryFix[key] else Title(s)
  }

  /** The United States aliases, in any letter case. */
  lemma UnitedStatesAliases()
    ensures CanonicalCountry("USA") == "United States"
    ensures CanonicalCountry("usa") == "United States"
    ensures CanonicalCountry("U.S.A.") == "United States"
    ensures CanonicalCountry("EE.UU.") == "United States"
  {
    assert Lower("USA") == "usa";
    assert Lower("usa") == "usa";
    assert Lower("U.S.A.") == "u.s.a.";
    assert Lower("EE.UU.") == "ee.uu.";
  }

  /** The United Kingdom and Brazil aliases. */
  lemma OtherAliases()
    ensures CanonicalCountry("UK") == "United Kingdom"
    ensures CanonicalCountry("u.k.") == "United Kingdom"
    ensures CanonicalCountry("Brasil") == "Brazil"
  {
    assert Lower("UK") == "uk";
    assert Lower("u.k.") == "u.k.";
    assert Lower("Brasil") == "brasil";
  }

  /** A country the table does not list is title-cased. */
  lemma UnlistedCountry()
    ensures CanonicalCountry("peru") == "Peru"
  {
    assert Lower("peru") == "peru";
    assert TitleFrom("eru", true) == "eru";
  }

  lemma TitleOfUnited()
    ensures TitleFrom("United", false) == "United"
  {
  }

  lemma TitleOfStates()
    ensures TitleFrom(" States", true) == " States"
  {
  }

  lemma TitleOfKingdom()
    ensures TitleFrom(" Kingdom", true) == " Kingdom"
  {
  }

  lemma TitleOfUnitedStates()
    ensures Title("United States") == "United States"
  {
    var u, w := "United", " States";
    assert "United States" == u + w && u[|u| - 1] == 'd';
    TitleOfUnited();
    TitleOfStates();
    TitleFromConcat(u, w, false);
  }

  lemma TitleOfUnitedKingdom()
    ensures Title("United Kingdom") == "United Kingdom"
  {
    var u, w := "United", " Kingdom";
    assert "United Kingdom" == u + w && u[|u| - 1] == 'd';
    TitleOfUnited();
    TitleOfKingdom();
    TitleFromConcat(u, w, false);
  }

  lemma LowerOfCanonicalNames()
    ensures Lower("United States") == "united states"
    ensures Lower("United Kingdom") == "united kingdom"
  {
  }

  lemma UnitedStatesFixed()
    ensures CanonicalCountry("United States") == "United States"
  {
    LowerOfCanonicalNames();
    assert "united states" !in CountryFix;
    TitleOfUnitedStates();
  }

  lemma UnitedKingdomFixed()
    ensures CanonicalCountry("United Kingdom") == "United Kingdom"
  {
    LowerOfCanonicalNames();
    assert "united kingdom" !in CountryFix;
    TitleOfUnitedKingdom();
  }

  lemma BrazilFixed()
    ensures CanonicalCountry("Brazil") == "Brazil"
  {
    assert Lower("Brazil") == "brazil";
  }

  /** Each canonical name maps to itself. */
  lemma CanonicalNamesAreFixed()
    ensures forall a | a in CountryFix :: CanonicalCountry(CountryFix[a]) == CountryFix[a]
  {
    forall a | a in CountryFix
      ensures CanonicalCountry(CountryFix[a]) == CountryFix[a]
    {
      var v := CountryFix[a];
      assert v == "United States" || v == "United Kingdom" || v == "Brazil";
      if v == "United States" {
        UnitedStatesFixed();
      } else if v == "United Kingdom" {
        UnitedKingdomFixed();
      } else {
        BrazilFixed();
      }
    }
  }

  /** Country normalisation is idempotent. */
  lemma CanonicalCountryIdempotent(s: string)
    ensures CanonicalCountry(CanonicalCountry(s)) == CanonicalCountry(s)
  {
    if Lower(s) in CountryFix {
      CanonicalNamesAreFixed();
    } else {
      LowerOfTitle(s);
      TitleIdempotent(s);
    }
  }

  // ---------------------------------------------------------------- rows

  /** One input row once pandas has read it: text cells (None for an empty
      cell), the parsed date (None for NaT) and the parsed numbers (None for NaN). */
  datatype RawRow = RawRow(
    firstName: Option<string>, lastName: Option<string>, email: Option<string>,
    country: Option<string>, seniority: Option<string>, technology: Option<string>,
    applicationDate: Option<Date>, yoe: Option<real>,
    codeChallengeScore: Option<real>, technicalInterviewScore: Option<real>)

  /** One row after `transform`. */
  datatype Row = Row(
    firstName: string, lastName: string, email: string,
    country: string, seniority: string, technology: string,
    applicationDate: string, yoe: int,
    codeChallengeScore: Option<real>, technicalInterviewScore: Option<real>,
    hired: bool, dateId: int, yoeBand: Option<Band>)

  /** `int()` of the date key raised: the whole run stops. */
  datatype TransformError = DateNotInteger(text: string)

  /** Stripped cell text, with the empty cell as "nan". */
  function Cleaned(cell: Option<string>): (r: string)
    ensures r == [] || (!IsSpace(r[0]) && !IsSpace(r[|r| - 1]))
  {
    Strip(Text(cell))
  }

  /** `transform` on one row: it fails exactly when the date did not parse
      (`int("NaT")` raises). */
  function TransformRow(raw: RawRow): (r: Result<Row, TransformError>)
    ensures r.Err? <==> raw.applicationDate.None?
    ensures r.Err? ==> r.error == DateNotInteger("NaT")
  {
    var text := DateText(raw.applicationDate);
    DateIdOfText(raw.applicationDate);
    match DateId(text)
    case None => Err(DateNotInteger(text))
    case Some(id) =>
      var yoe := Yoe(raw.yoe);
      Ok(Row(
        Cleaned(raw.firstName), Cleaned(raw.lastName), Cleaned(raw.email),
        CanonicalCountry(Cleaned(raw.country)), Cleaned(raw.seniority), Cleaned(raw.technology),
        text, yoe, raw.codeChallengeScore, raw.technicalInterviewScore,
        Hired(raw.codeChallengeScore, raw.technicalInterviewScore), id, ExperienceBand(yoe)))
  }

  /** A transformed row: its date text is the ISO date, its key is the
      YYYYMMDD number of that date, and its flag and band follow the rules above. */
  lemma TransformRowFields(raw: RawRow)
    requires raw.applicationDate.Some?
    ensures TransformRow(raw).Ok?
    ensures var d, row := raw.applicationDate.value, TransformRow(raw).value;
            && row.applicationDate == IsoDate(d)
            && row.dateId == d.year * 10000 + d.month * 100 + d.day
            && (row.hired <==> Hired(raw.codeChallengeScore, raw.technicalInterviewScore))
            && row.yoe == Yoe(raw.yoe)
            && row.yoeBand == ExperienceBand(row.yoe)
    ensures var row := TransformRow(raw).value;
            && row.firstName == Cleaned(raw.firstName) && row.lastName == Cleaned(raw.lastName)
            && row.email == Cleaned(raw.email)
            && row.seniority == Cleaned(raw.seniority) && row.technology == Cleaned(raw.technology)
    ensures TransformRow(raw).value.country == CanonicalCountry(Cleaned(raw.country))
    ensures var row := TransformRow(raw).value;
            && row.codeChallengeScore == raw.codeChallengeScore
            && row.technicalInterviewScore == raw.technicalInterviewScore
  {
    DateIdOfText(raw.applicationDate);
  }

  /** An empty text cell reaches the row as the text `nan`; an empty country
      is not in `COUNTRY_FIX` and is title-cased to `Nan`. */
  lemma EmptyCellsAsNan(raw: RawRow)
    requires raw.applicationDate.Some?
    ensures TransformRow(raw).Ok?
    ensures var row := TransformRow(raw).value;
            && (raw.firstName.None? ==> row.firstName == "nan")
            && (raw.lastName.None? ==> row.lastName == "nan")
            && (raw.email.None? ==> row.email == "nan")
            && (raw.seniority.None? ==> row.seniority == "nan")
            && (raw.technology.None? ==> row.technology == "nan")
    ensures raw.country.None? ==> TransformRow(raw).value.country == "Nan"
  {
    TransformRowFields(raw);
    NanCleaned();
    NanCountry();
  }

  lemma NanCleaned()
    ensures Cleaned(None) == "nan"
  {
    var nan := "nan";
    assert Strip(nan) == nan;
  }

  lemma NanCountry()
    ensures CanonicalCountry("nan") == "Nan"
  {
    var nan := "nan";
    assert Lower(nan) == nan;
    assert nan !in CountryFix;
    assert TitleFrom(nan[1..], true) == nan[1..];
  }

  /** `transform` on the whole frame: the columns are converted as a whole,
      so the result is every row transformed, in order, or, when one date
      did not parse, the error of converting "NaT". */
  function TransformAll(raws: seq<RawRow>): (r: Result<seq<Row>, TransformError>)
    ensures r.Ok? <==> forall i | 0 <= i < |raws| :: raws[i].applicationDate.Some?
    ensures r.Ok? ==> |r.value| == |raws| && forall i | 0 <= i < |raws| :: TransformRow(raws[i]) == Ok(r.value[i])
    ensures r.Err? ==> r.error == DateNotInteger("NaT")
  {
    if forall i | 0 <= i < |raws| :: raws[i].applicationDate.Some? then
      Ok(seq(|raws|, i requires 0 <= i < |raws| => TransformRow(raws[i]).value))
    else
      Err(DateNotInteger(DateText(None)))
  }
}
