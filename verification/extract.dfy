/**
 * Header clean-up done on extraction, and the columns the later stages read
 * by name (a missing one makes pandas raise `KeyError`).
 */
module Extract {
  import opened Wrappers
  import opened PyStr

  /** `c.strip().lower().replace(' ', '_')`: no surrounding whitespace, no
      upper-case letter and no space is left, and nothing is added. */
  function NormalizeHeader(c: string): (r: string)
    ensures r == [] || (!IsSpace(r[0]) && !IsSpace(r[|r| - 1]))
    ensures forall i | 0 <= i < |r| :: r[i] != ' ' && !('A' <= r[i] <= 'Z')
    ensures |r| <= |c|
  {
    var t := Strip(c);
    CleanKeepsEnds(t);
    ReplaceChar(Lower(t), ' ', '_')
  }

  /** Lower-casing and replacing spaces puts no whitespace at either end of
      a text that had none there. */
  lemma CleanKeepsEnds(t: string)
    requires t == [] || (!IsSpace(t[0]) && !IsSpace(t[|t| - 1]))
    ensures var r := ReplaceChar(Lower(t), ' ', '_');
            r == [] || (!IsSpace(r[0]) && !IsSpace(r[|r| - 1]))
  {
    var l := Lower(t);
    var r := ReplaceChar(l, ' ', '_');
    if t != [] {
      var n := |t| - 1;
      assert l[0] == t[0] || 'a' <= l[0] <= 'z';
      assert l[n] == t[n] || 'a' <= l[n] <= 'z';
      assert l[0] != ' ' && l[n] != ' ';
      assert r[0] == l[0] && r[n] == l[n];
    }
  }

  /** Normalising a header that is already normalised changes nothing. */
  lemma NormalizeHeaderIdempotent(c: string)
    ensures NormalizeHeader(NormalizeHeader(c)) == NormalizeHeader(c)
  {
    var r := NormalizeHeader(c);
    assert Strip(r) == r;
    assert Lower(r) == r;
    assert ReplaceChar(r, ' ', '_') == r;
  }

  /** The header row as the rest of the pipeline sees it. */
  function NormalizeHeaders(cols: seq<string>): seq<string> {
    seq(|cols|, i requires 0 <= i < |cols| => NormalizeHeader(cols[i]))
  }

  /** Cleaning a whole header row twice is cleaning it once. */
  lemma NormalizeHeadersIdempotent(cols: seq<string>)
    ensures NormalizeHeaders(NormalizeHeaders(cols)) == NormalizeHeaders(cols)
  {
    forall i | 0 <= i < |cols|
      ensures NormalizeHeader(NormalizeHeader(cols[i])) == NormalizeHeader(cols[i])
    {
      NormalizeHeaderIdempotent(cols[i]);
    }
  }

  /** Cleaning folds letter case: `Email` and `email` are the same column. */
  lemma CleanEmail()
    ensures NormalizeHeader("Email") == "email" && NormalizeHeader("email") == "email"
  {
    var upper, lower, tail := "Email", "email", "mail";
    assert upper == ['E'] + tail && lower == ['e'] + tail;
    LowerCons('E', tail);
    LowerCons('e', tail);
    CleanLowerCase(upper);
    CleanLowerCase(lower);
  }

  /** A name without upper-case letters, spaces or surrounding whitespace
      cleans to itself, and so does any name whose lower-case form is one. */
  lemma CleanLowerCase(w: string)
    requires w != [] && !IsSpace(w[0]) && !IsSpace(w[|w| - 1])
    requires forall i | 0 <= i < |w| :: Lower(w)[i] != ' '
    ensures NormalizeHeader(w) == Lower(w)
  {
    assert Strip(w) == w;
    var l := Lower(w);
    assert ReplaceChar(l, ' ', '_') == l;
  }

  /** Two raw names that clean to the same name (such as `Email` and
      `email`, by `CleanEmail`) put that column in the header twice. */
  lemma CaseVariantsCollide(a: string, b: string)
    requires NormalizeHeader(a) == NormalizeHeader(b)
    ensures Occurrences(NormalizeHeaders([a, b]), NormalizeHeader(a)) == 2
  {
    var cleaned := NormalizeHeaders([a, b]);
    assert cleaned == [NormalizeHeader(a)] + [NormalizeHeader(b)];
  }

  /** The column names `transform` and `load_to_dw` read, in the order they read them. */
  const RequiredColumns: seq<string> := [
    "application_date", "yoe", "code_challenge_score", "technical_interview_score",
    "first_name", "last_name", "email", "country", "seniority", "technology"
  ]

  /** Why a column the later stages read cannot be used. An absent name
      makes `df[name]` raise `KeyError`. A name the cleaned header holds
      twice makes `df[name]` a frame of both columns, which `to_datetime`
      (`ValueError`), `to_numeric` (`TypeError`) and `.str`
      (`AttributeError`) all reject. */
  datatype ColumnFault = Absent(name: string) | Repeated(name: string)

  /** How many columns of `headers` are called `name`. */
  function Occurrences(headers: seq<string>, name: string): nat {
    multiset(headers)[name]
  }

  /** The first of `names` that `headers` does not hold exactly once, if any,
      with the reason it cannot be used. */
  function FirstFault(names: seq<string>, headers: seq<string>): (r: Option<ColumnFault>)
    ensures r.None? <==> forall k | 0 <= k < |names| :: Occurrences(headers, names[k]) == 1
    ensures r.Some? ==> exists k | 0 <= k < |names| ::
              && names[k] == r.value.name
              && Occurrences(headers, names[k]) != 1
              && (r.value.Absent? <==> names[k] !in headers)
              && forall j | 0 <= j < k :: Occurrences(headers, names[j]) == 1
  {
    if names == [] then None
    else if names[0] !in headers then Some(Absent(names[0]))
    else if Occurrences(headers, names[0]) != 1 then Some(Repeated(names[0]))
    else
      var rest := FirstFault(names[1..], headers);
      assert forall k | 1 <= k < |names| :: names[k] == names[1..][k - 1];
      rest
  }

  /** The fault that stops a run whose raw header row is `rawHeader`, if
      any: the first column, in the order `transform` reads them, that the
      cleaned header does not hold exactly once. */
  function ColumnFaultOf(rawHeader: seq<string>): (r: Option<ColumnFault>)
    ensures r.None? <==> forall k | 0 <= k < |RequiredColumns| ::
              Occurrences(NormalizeHeaders(rawHeader), RequiredColumns[k]) == 1
    ensures r.Some? ==>
              && r.value.name in RequiredColumns
              && Occurrences(NormalizeHeaders(rawHeader), r.value.name) != 1
              && (r.value.Absent? <==> r.value.name !in NormalizeHeaders(rawHeader))
  {
    FirstFault(RequiredColumns, NormalizeHeaders(rawHeader))
  }
}
