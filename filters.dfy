/**
 * `MeasurementFilter`: three optional field predicates over measurement rows
 * (`since` is `at >= since`, `before` is `at <= before`, `datalogger` is owner
 * equality), and the form that parses them from query parameters.  Both
 * iterations of the repository declare the same three predicates.
 */
module Filters {
  import opened Wrappers
  import opened Uuids
  import opened Fields
  import opened Models

  /** Order-preserving selection, the meaning of a chained `.filter(...)`. */
  function Where(ms: seq<Measurement>, p: Measurement -> bool): (r: seq<Measurement>)
    ensures |r| <= |ms|
    ensures forall m :: m in r <==> m in ms && p(m)
  {
    if ms == [] then []
    else
      var rest := Where(ms[..|ms| - 1], p);
      var last := ms[|ms| - 1];
      assert ms == ms[..|ms| - 1] + [last];
      if p(last) then rest + [last] else rest
  }

  /** Selection keeps every kept row as often as it occurs, and no other row. */
  lemma {:induction false} WhereCounts(ms: seq<Measurement>, p: Measurement -> bool)
    ensures forall m :: multiset(Where(ms, p))[m] == if p(m) then multiset(ms)[m] else 0
    decreases |ms|
  {
    if ms != [] {
      var init, last := ms[..|ms| - 1], ms[|ms| - 1];
      WhereCounts(init, p);
      assert ms == init + [last];
    }
  }

  /** The parsed filter set; an absent parameter does not filter. */
  datatype FilterParams = FilterParams(since: Option<int>, before: Option<int>, datalogger: Option<Uuid>)

  const NoFilter := FilterParams(None, None, None)

  predicate Keeps(f: FilterParams, m: Measurement) {
    && (f.since.Some? ==> m.at >= f.since.value)
    && (f.before.Some? ==> m.at <= f.before.value)
    && (f.datalogger.Some? ==> m.datalogger == f.datalogger.value)
  }

  /** The parameters combine by conjunction: a row is kept when every given bound and the id keep it on its own. */
  lemma KeepsIsConjunction(f: FilterParams, m: Measurement)
    ensures Keeps(f, m) <==>
              && Keeps(FilterParams(f.since, None, None), m)
              && Keeps(FilterParams(None, f.before, None), m)
              && Keeps(FilterParams(None, None, f.datalogger), m)
    ensures Keeps(NoFilter, m)
  {
  }

  function Kept(f: FilterParams): Measurement -> bool {
    m => Keeps(f, m)
  }

  /** The filter set's `filter_queryset`: the kept rows, in order and with their multiplicities. */
  function Apply(ms: seq<Measurement>, f: FilterParams): (r: seq<Measurement>)
    ensures |r| <= |ms|
    ensures forall m :: m in r <==> m in ms && Keeps(f, m)
    ensures forall m :: multiset(r)[m] == if Keeps(f, m) then multiset(ms)[m] else 0
  {
    WhereCounts(ms, Kept(f));
    Where(ms, Kept(f))
  }

  /** Raw query parameters the filter form reads. */
  datatype RawFilterParams = RawFilterParams(since: Option<TimeInput>, before: Option<TimeInput>, datalogger: Option<string>)

  const InvalidDateTime := "Enter a valid date/time."
  const InvalidUuid := "Enter a valid UUID."

  /** The form's datetime field: an empty value is no bound, text that is not ISO-8601 is an error. */
  function DateTimeFilterField(v: Option<TimeInput>, f: Field): (r: Result<Option<int>, seq<FieldError>>)
    ensures r.Failure? <==> v == Some(NotIso)
    ensures r.Success? ==> r.value == GivenTime(v)
    ensures v == Some(Empty) ==> r == Success(None)
    ensures r.Failure? ==> r.error == [FieldError(f, InvalidDateTime)]
  {
    match v
    case None => Success(None)
    case Some(Empty) => Success(None)
    case Some(NotIso) => Failure([FieldError(f, InvalidDateTime)])
    case Some(Iso(t)) => Success(Some(t))
  }

  /** The form's UUID field: stripped, blank means absent, otherwise it must parse. */
  function UuidFilterField(v: Option<string>): (r: Result<Option<Uuid>, seq<FieldError>>)
    ensures r.Failure? <==> v.Some? && Trim(v.value) != "" && ParseUuid(Trim(v.value)).None?
    ensures r.Success? ==> r.value == if v.None? || Trim(v.value) == "" then None else ParseUuid(Trim(v.value))
    ensures r.Failure? ==> r.error == [FieldError(DataloggerField, InvalidUuid)]
  {
    if v.None? || Trim(v.value) == "" then Success(None)
    else match ParseUuid(Trim(v.value))
      case None => Failure([FieldError(DataloggerField, InvalidUuid)])
      case Some(u) => Success(Some(u))
  }

  /** The filter set's form validation; an invalid form is a validation error, never an empty result. */
  function FilterForm(q: RawFilterParams): (r: Result<FilterParams, seq<FieldError>>)
    ensures r.Failure? <==> q.since == Some(NotIso) || q.before == Some(NotIso) || UuidFilterField(q.datalogger).Failure?
    ensures r.Failure? ==> r.error != []
    ensures q.since == Some(NotIso) ==> r.Failure? && HasErrorOn(r.error, SinceField)
    ensures r.Success? ==> r.value.since == GivenTime(q.since) && r.value.before == GivenTime(q.before)
    ensures r.Success? ==> r.value.datalogger == UuidFilterField(q.datalogger).value
  {
    var since := DateTimeFilterField(q.since, SinceField);
    var before := DateTimeFilterField(q.before, BeforeField);
    var datalogger := UuidFilterField(q.datalogger);
    if since.Success? && before.Success? && datalogger.Success? then
      Success(FilterParams(since.value, before.value, datalogger.value))
    else
      var errors := ErrorsOf(since) + ErrorsOf(before) + ErrorsOf(datalogger);
      assert since.Failure? ==> errors[0] == FieldError(SinceField, InvalidDateTime);
      Failure(errors)
  }

  /** `since` keeps exactly the rows at or after it. */
  lemma SinceKeepsExactly(ms: seq<Measurement>, since: int)
    ensures forall m :: m in Apply(ms, FilterParams(Some(since), None, None)) <==> m in ms && m.at >= since
  {
  }

  /** `before` keeps exactly the rows at or before it. */
  lemma BeforeKeepsExactly(ms: seq<Measurement>, before: int)
    ensures forall m :: m in Apply(ms, FilterParams(None, Some(before), None)) <==> m in ms && m.at <= before
  {
  }

  /** `datalogger` keeps exactly the rows owned by that id. */
  lemma DataloggerKeepsExactly(ms: seq<Measurement>, id: Uuid)
    ensures forall m :: m in Apply(ms, FilterParams(None, None, Some(id))) <==> m in ms && m.datalogger == id
  {
  }

  /** Both bounds together keep the inclusive intersection. */
  lemma BoundsKeepIntersection(ms: seq<Measurement>, since: int, before: int)
    ensures forall m :: m in Apply(ms, FilterParams(Some(since), Some(before), None)) <==> m in ms && since <= m.at <= before
    ensures before < since ==> Apply(ms, FilterParams(Some(since), Some(before), None)) == []
  {
  }

  /** Selecting twice is selecting once by the conjunction: chained filters compose. */
  lemma {:induction false} WhereWhere(ms: seq<Measurement>, p: Measurement -> bool, q: Measurement -> bool, pq: Measurement -> bool)
    requires forall m :: pq(m) == (p(m) && q(m))
    ensures Where(Where(ms, p), q) == Where(ms, pq)
    decreases |ms|
  {
    if ms != [] {
      var init := ms[..|ms| - 1];
      WhereWhere(init, p, q, pq);
      var wp := Where(ms, p);
      if p(ms[|ms| - 1]) {
        assert wp[..|wp| - 1] == Where(init, p);
      } else {
        assert wp == Where(init, p);
      }
    }
  }

  lemma {:induction false} WhereConcat(a: seq<Measurement>, b: seq<Measurement>, p: Measurement -> bool)
    ensures Where(a + b, p) == Where(a, p) + Where(b, p)
    decreases |b|
  {
    if b == [] {
      assert a + b == a;
    } else {
      var init := b[..|b| - 1];
      assert (a + b)[..|a + b| - 1] == a + init;
      WhereConcat(a, init, p);
    }
  }

  lemma {:induction false} WhereAll(ms: seq<Measurement>, p: Measurement -> bool)
    requires forall i | 0 <= i < |ms| :: p(ms[i])
    ensures Where(ms, p) == ms
    decreases |ms|
  {
    if ms != [] {
      var init := ms[..|ms| - 1];
      assert forall i | 0 <= i < |init| :: init[i] == ms[i];
      WhereAll(init, p);
      assert ms == init + [ms[|ms| - 1]];
    }
  }

  lemma {:induction false} WhereNone(ms: seq<Measurement>, p: Measurement -> bool)
    requires forall i | 0 <= i < |ms| :: !p(ms[i])
    ensures Where(ms, p) == []
    decreases |ms|
  {
    if ms != [] {
      var init := ms[..|ms| - 1];
      assert forall i | 0 <= i < |init| :: init[i] == ms[i];
      WhereNone(init, p);
    }
  }

  /** With no parameter at all, every row is returned, in order. */
  lemma NoFilterKeepsAll(ms: seq<Measurement>)
    ensures Apply(ms, NoFilter) == ms
  {
    WhereAll(ms, Kept(NoFilter));
  }

  predicate SortedByTime(ms: seq<Measurement>) {
    forall i, j | 0 <= i < j < |ms| :: ms[i].at < ms[j].at
  }

  /**
   * Inclusive bounds taken from a time-sorted table: the range from the row at
   * index `a` to the row at index `b` holds exactly `b - a + 1` rows.
   */
  lemma SortedRangeCount(ms: seq<Measurement>, a: nat, b: nat)
    requires SortedByTime(ms)
    requires a <= b < |ms|
    ensures Apply(ms, FilterParams(Some(ms[a].at), Some(ms[b].at), None)) == ms[a..b + 1]
    ensures |Apply(ms, FilterParams(Some(ms[a].at), Some(ms[b].at), None))| == b - a + 1
  {
    var p := Kept(FilterParams(Some(ms[a].at), Some(ms[b].at), None));
    var left, middle, right := ms[..a], ms[a..b + 1], ms[b + 1..];
    assert ms == left + middle + right;
    SortedRangeParts(ms, a, b);
    forall i | 0 <= i < |left| ensures !p(left[i]) {
      assert left[i] == ms[i];
    }
    forall i | 0 <= i < |middle| ensures p(middle[i]) {
      assert middle[i] == ms[a + i];
    }
    forall i | 0 <= i < |right| ensures !p(right[i]) {
      assert right[i] == ms[b + 1 + i];
    }
    WhereOnlyMiddle(left, middle, right, p);
  }

  /** Selecting from three runs where only the middle one is kept, and wholly, returns the middle run. */
  lemma WhereOnlyMiddle(left: seq<Measurement>, middle: seq<Measurement>, right: seq<Measurement>, p: Measurement -> bool)
    requires forall i | 0 <= i < |left| :: !p(left[i])
    requires forall i | 0 <= i < |middle| :: p(middle[i])
    requires forall i | 0 <= i < |right| :: !p(right[i])
    ensures Where(left + middle + right, p) == middle
  {
    var wl, wm, wr := Where(left, p), Where(middle, p), Where(right, p);
    assert wl == [] by { WhereNone(left, p); }
    assert wm == middle by { WhereAll(middle, p); }
    assert wr == [] by { WhereNone(right, p); }
    assert Where(left + middle, p) == wl + wm by { WhereConcat(left, middle, p); }
    assert Where(left + middle + right, p) == Where(left + middle, p) + wr by { WhereConcat(left + middle, right, p); }
    assert wl + wm + wr == middle;
  }

  /** In a time-sorted table, exactly the rows from index `a` to index `b` lie within their times. */
  lemma SortedRangeParts(ms: seq<Measurement>, a: nat, b: nat)
    requires SortedByTime(ms)
    requires a <= b < |ms|
    ensures var p := Kept(FilterParams(Some(ms[a].at), Some(ms[b].at), None));
      && (forall j | 0 <= j < a :: !p(ms[j]))
      && (forall j | a <= j <= b :: p(ms[j]))
      && (forall j | b < j < |ms| :: !p(ms[j]))
  {
    forall j | a <= j <= b ensures ms[a].at <= ms[j].at <= ms[b].at {
      if a < j { assert ms[a].at < ms[j].at; }
      if j < b { assert ms[j].at < ms[b].at; }
    }
  }
}
