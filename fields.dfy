/**
 * Inputs as they reach the validators, and the per-field errors they report.
 * ISO-8601 parsing is abstracted: a timestamp field holds text that parses,
 * here already as whole seconds in the one time reference of the system,
 * the empty text, or other text that does not parse.
 */
module Fields {
  import opened Wrappers

  datatype TimeInput = Iso(seconds: int) | Empty | NotIso

  /** The time an optional query parameter gives: none when it is absent or blank. */
  function GivenTime(v: Option<TimeInput>): (r: Option<int>)
    ensures r.Some? <==> v.Some? && v.value.Iso?
    ensures r.Some? ==> r.value == v.value.seconds
  {
    if v.Some? && v.value.Iso? then Some(v.value.seconds) else None
  }

  /** Every field an error can be attached to; entry errors carry the entry's position. */
  datatype Field =
    | DataloggerField
    | LocationField
    | LatField
    | LngField
    | MeasurementsField
    | LabelField(index: nat)
    | ValueField(index: nat)
    | AtField
    | SinceField
    | BeforeField
    | SpanField

  datatype FieldError = FieldError(field: Field, message: string)

  predicate HasErrorOn(errors: seq<FieldError>, f: Field) {
    exists e | e in errors :: e.field == f
  }

  /** The errors a validation step reported; none when it passed. */
  function ErrorsOf<T>(r: Result<T, seq<FieldError>>): seq<FieldError> {
    if r.Failure? then r.error else []
  }

  lemma HasErrorOnConcat(a: seq<FieldError>, b: seq<FieldError>, f: Field)
    ensures HasErrorOn(a + b, f) <==> HasErrorOn(a, f) || HasErrorOn(b, f)
  {
    if HasErrorOn(a + b, f) {
      var e :| e in a + b && e.field == f;
      assert e in a || e in b;
    }
  }

  // The framework's own messages.
  const Required := "This field is required."
  const Blank := "This field may not be blank."
  const DatetimeFormat := "Datetime has wrong format. Use one of these formats instead: YYYY-MM-DDThh:mm[:ss[.uuuuuu]][+HH:MM|-HH:MM|Z]."
  const NotAUuid := "Must be a valid UUID."
  const NullCharacters := "Null characters are not allowed."

  function InvalidChoice(s: string): string {
    "\"" + s + "\" is not a valid choice."
  }

  /** The characters Python's `str.isspace` accepts, which `str.strip()` removes. */
  predicate IsWhitespace(c: char) {
    || '\t' <= c <= '\r'
    || '\U{1C}' <= c <= ' '
    || c == '\U{85}' || c == '\U{A0}' || c == '\U{1680}'
    || '\U{2000}' <= c <= '\U{200A}'
    || c == '\U{2028}' || c == '\U{2029}' || c == '\U{202F}' || c == '\U{205F}' || c == '\U{3000}'
  }

  function TrimLeft(s: string): (r: string)
    ensures |r| <= |s|
    ensures r == s[|s| - |r|..]
    ensures forall i | 0 <= i < |s| - |r| :: IsWhitespace(s[i])
    ensures r == [] || !IsWhitespace(r[0])
    decreases |s|
  {
    if |s| > 0 && IsWhitespace(s[0]) then TrimLeft(s[1..]) else s
  }

  function TrimRight(s: string): (r: string)
    ensures |r| <= |s|
    ensures r == s[..|r|]
    ensures forall i | |r| <= i < |s| :: IsWhitespace(s[i])
    ensures r == [] || !IsWhitespace(r[|r| - 1])
    decreases |s|
  {
    if |s| > 0 && IsWhitespace(s[|s| - 1]) then TrimRight(s[..|s| - 1]) else s
  }

  predicate AllWhitespace(t: string) {
    forall i | 0 <= i < |t| :: IsWhitespace(t[i])
  }

  /**
   * `str.strip()` as a text field applies it before any validation: `s` is
   * whitespace, then `r`, then whitespace, and `r` neither starts nor ends
   * with whitespace.
   */
  function Trim(s: string): (r: string)
    ensures |r| <= |s|
    ensures exists a | 0 <= a <= |s| - |r| ::
      && r == s[a..a + |r|] && AllWhitespace(s[..a]) && AllWhitespace(s[a + |r|..])
    ensures r != [] ==> !IsWhitespace(r[0]) && !IsWhitespace(r[|r| - 1])
  {
    var l := TrimLeft(s);
    var r := TrimRight(l);
    SplitAround(s, l, r);
    r
  }

  /** A suffix `l` of `s` with a prefix `r`: what lies around `r` in `s` is what was dropped. */
  lemma SplitAround(s: string, l: string, r: string)
    requires |l| <= |s| && l == s[|s| - |l|..]
    requires |r| <= |l| && r == l[..|r|]
    requires forall i | 0 <= i < |s| - |l| :: IsWhitespace(s[i])
    requires forall i | |r| <= i < |l| :: IsWhitespace(l[i])
    ensures var a := |s| - |l|;
      && r == s[a..a + |r|] && AllWhitespace(s[..a]) && AllWhitespace(s[a + |r|..])
  {
    var a := |s| - |l|;
    forall i | a + |r| <= i < |s|
      ensures IsWhitespace(s[i])
    {
      assert s[i] == l[i - a];
    }
  }

  lemma TrimNoWhitespace(s: string)
    requires forall i | 0 <= i < |s| :: !IsWhitespace(s[i])
    ensures Trim(s) == s
  {
  }
}
