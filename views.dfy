/**
 * The three endpoints: ingest (POST /api/ingest), the raw listing
 * (GET /api/data) and the summary (GET /api/summary).  Ingest changes the
 * store; the two queries read it and change nothing.
 */
module Views {
  import opened Wrappers
  import opened Uuids
  import opened Fields
  import opened Models
  import opened Filters
  import opened Buckets
  import opened Serializers

  // ---------------------------------------------------------------- ingest

  /** 201 with the created rows, 400 with the field errors, or the store raised and nothing was kept. */
  datatype IngestOutcome = Ingested(rows: seq<Measurement>) | Rejected(errors: seq<FieldError>) | Failed(fault: StoreFault)

  /** Every stored value obeys its label's rules. */
  ghost predicate Conforming(ms: seq<Measurement>) {
    forall i | 0 <= i < |ms| :: ValueAccepted(ms[i].kind, ms[i].value)
  }

  /** `IngestDataView.post`: validate, then save in one transaction. */
  method Ingest(store: Store, raw: RawPayload, now: int, fault: Option<nat>) returns (o: IngestOutcome)
    requires store.Valid()
    modifies store
    ensures store.Valid()
    ensures o.Rejected? <==> ValidatePayload(raw, now).Failure?
    ensures o.Rejected? ==> o.errors == ValidatePayload(raw, now).error
    ensures o.Failed? <==> ValidatePayload(raw, now).Success? && fault.Some? &&
                           fault.value <= |ValidatePayload(raw, now).value.measurements|
    ensures !o.Ingested? ==> store.dataloggers == old(store.dataloggers) && store.measurements == old(store.measurements)
    ensures o.Ingested? ==>
              var p := ValidatePayload(raw, now).value;
              && o.rows == RowsOf(p)
              && store.dataloggers == Register(old(store.dataloggers), p.datalogger, p.location)
              && store.measurements == old(store.measurements) + RowsOf(p)
    ensures Conforming(old(store.measurements)) ==> Conforming(store.measurements)
  {
    var v := ValidatePayload(raw, now);
    if v.Failure? {
      return Rejected(v.error);
    }
    var r := Create(store, v.value, fault);
    if r.Failure? {
      return Failed(r.error);
    }
    if Conforming(old(store.measurements)) {
      AcceptedRowsConform(raw, now);
      ConformingAppend(old(store.measurements), RowsOf(v.value));
    }
    return Ingested(r.value.measurements);
  }

  /** Appending conforming rows to a conforming store keeps it conforming. */
  lemma ConformingAppend(before: seq<Measurement>, rows: seq<Measurement>)
    requires Conforming(before) && Conforming(rows)
    ensures Conforming(before + rows)
  {
    forall i | |before| <= i < |before + rows|
      ensures ValueAccepted((before + rows)[i].kind, (before + rows)[i].value)
    {
      assert (before + rows)[i] == rows[i - |before|];
    }
  }

  // ---------------------------------------------------------------- raw listing

  const QueryParamRequired := "This query parameter is required."

  /**
   * 200 with the rows, 400 with errors, or an exception the framework does not
   * turn into a response: the model field's own UUID conversion raising inside
   * `.filter(datalogger_id=...)`.
   */
  datatype Listing = Listed(rows: seq<Measurement>) | Invalid(errors: seq<FieldError>) | Unhandled

  /** An id the model field accepts has no surrounding whitespace, so the form field reads the same id. */
  lemma ParsedIdIsTrimmed(s: string)
    requires ParseUuid(s).Some?
    ensures UuidFilterField(Some(s)) == Success(ParseUuid(s))
  {
    NoWhitespaceInParsedId(s);
    TrimNoWhitespace(s);
    assert s != "" by { EmptyIdRejected(); }
    var r := UuidFilterField(Some(s));
    assert r.Success?;
    assert r.value == ParseUuid(s);
  }

  lemma NoWhitespaceInParsedId(s: string)
    requires ParseUuid(s).Some?
    ensures forall i | 0 <= i < |s| :: !IsWhitespace(s[i])
  {
    ParsedHasOnlyIdChars(s);
    forall i | 0 <= i < |s| ensures !IsWhitespace(s[i]) { assert IsIdChar(s[i]); }
  }

  /**
   * `FetchRawDataView`: `get_queryset` narrows to the datalogger, then the filter
   * set applies.  A listing keeps, in store order and with their multiplicity,
   * exactly the rows of that datalogger inside the given bounds.
   */
  function FetchRaw(ms: seq<Measurement>, q: RawFilterParams): (o: Listing)
    ensures q.datalogger.None? || q.datalogger.value == "" ==>
              o == Invalid([FieldError(DataloggerField, QueryParamRequired)])
    ensures o.Unhandled? <==> q.datalogger.Some? && q.datalogger.value != "" && ParseUuid(q.datalogger.value).None?
    ensures q.datalogger.Some? && ParseUuid(q.datalogger.value).Some? ==>
              (o.Invalid? <==> q.since == Some(NotIso) || q.before == Some(NotIso))
    ensures o.Listed? ==>
              && q.datalogger.Some? && ParseUuid(q.datalogger.value).Some?
              && forall m :: m in o.rows <==>
                   && m in ms
                   && m.datalogger == ParseUuid(q.datalogger.value).value
                   && (GivenTime(q.since).Some? ==> GivenTime(q.since).value <= m.at)
                   && (GivenTime(q.before).Some? ==> m.at <= GivenTime(q.before).value)
    ensures o.Listed? ==>
              var f := FilterParams(GivenTime(q.since), GivenTime(q.before), ParseUuid(q.datalogger.value));
              && o.rows == Apply(ms, f)
              && forall m :: multiset(o.rows)[m] == if Keeps(f, m) then multiset(ms)[m] else 0
    ensures o.Listed? ==> |o.rows| <= |ms|
  {
    if q.datalogger.None? || q.datalogger.value == "" then
      Invalid([FieldError(DataloggerField, QueryParamRequired)])
    else
      match ParseUuid(q.datalogger.value)
      case None => Unhandled
      case Some(id) =>
        ParsedIdIsTrimmed(q.datalogger.value);
        match FilterForm(q)
        case Failure(errors) => Invalid(errors)
        case Success(f) =>
          var owned := FilterParams(None, None, Some(id));
          WhereWhere(ms, Kept(owned), Kept(f), Kept(f));
          WhereCounts(ms, Kept(f));
          Listed(Apply(Apply(ms, owned), f))
  }

  /**
   * With no bounds, every row of a store that holds one datalogger's rows is
   * listed, in store order: fifty rows written, fifty listed.
   */
  lemma OneDataloggerListsAll(ms: seq<Measurement>, q: RawFilterParams)
    requires q.datalogger.Some? && ParseUuid(q.datalogger.value).Some?
    requires q.since.None? && q.before.None?
    requires forall i | 0 <= i < |ms| :: ms[i].datalogger == ParseUuid(q.datalogger.value).value
    ensures FetchRaw(ms, q) == Listed(ms)
  {
    var f := FilterParams(None, None, ParseUuid(q.datalogger.value));
    WhereAll(ms, Kept(f));
  }

  /** A blank bound is no bound: the listing reads the same as without it. */
  lemma BlankBoundIsAbsent(ms: seq<Measurement>, q: RawFilterParams)
    ensures FetchRaw(ms, q.(since := Some(Empty))) == FetchRaw(ms, q.(since := None))
    ensures FetchRaw(ms, q.(before := Some(Empty))) == FetchRaw(ms, q.(before := None))
  {
  }

  /** A valid id nobody has written under lists nothing: the raw listing answers 200, not 404. */
  lemma UnknownDataloggerListsNothing(ms: seq<Measurement>, q: RawFilterParams)
    requires q.datalogger.Some? && ParseUuid(q.datalogger.value).Some?
    requires q.since != Some(NotIso) && q.before != Some(NotIso)
    requires forall i | 0 <= i < |ms| :: ms[i].datalogger != ParseUuid(q.datalogger.value).value
    ensures FetchRaw(ms, q) == Listed([])
  {
    NothingIsEmpty(FetchRaw(ms, q).rows);
  }

  lemma NothingIsEmpty(rows: seq<Measurement>)
    ensures (forall m :: m !in rows) ==> rows == []
  {
    if rows != [] { assert rows[0] in rows; }
  }

  /** A malformed `since` is a 400 naming `since`, never an empty listing. */
  lemma MalformedSinceIsInvalid(ms: seq<Measurement>, q: RawFilterParams)
    requires q.datalogger.Some? && ParseUuid(q.datalogger.value).Some?
    requires q.since == Some(NotIso)
    ensures FetchRaw(ms, q).Invalid? && HasErrorOn(FetchRaw(ms, q).errors, SinceField)
  {
    ParsedIdIsTrimmed(q.datalogger.value);
  }

  // ---------------------------------------------------------------- summary

  /** Rows without a span, records with one, 400 with errors, or 404 for an unknown datalogger. */
  datatype SummaryOutcome =
    | Rows(rows: seq<Measurement>)
    | Summarized(records: seq<Record>)
    | BadQuery(errors: seq<FieldError>)
    | NotFound

  /** The selector of `filter(label=l)`. */
  function OfKind(l: Label): Measurement -> bool {
    (m: Measurement) => m.kind == l
  }

  /** `values_list("label").distinct()`: each label present, once. */
  function Labels(ms: seq<Measurement>): (ls: seq<Label>)
    ensures forall i, j | 0 <= i < j < |ls| :: ls[i] != ls[j]
    ensures forall l :: l in ls <==> exists i | 0 <= i < |ms| :: ms[i].kind == l
  {
    if ms == [] then []
    else
      var init := ms[..|ms| - 1];
      var rest := Labels(init);
      var l := ms[|ms| - 1].kind;
      assert forall i | 0 <= i < |init| :: init[i] == ms[i];
      if l in rest then rest else rest + [l]
  }

  lemma BucketSnoc(ms: seq<Measurement>, m: Measurement, span: Span, k: Key)
    ensures Bucket(ms + [m], span, k) == Bucket(ms, span, k) + if KeyOf(span, m) == k then [m.value] else []
  {
    assert (ms + [m])[..|ms|] == ms;
  }

  /** Selecting one label keeps that label's buckets whole and empties the others. */
  lemma {:induction false} ByKindBucket(ms: seq<Measurement>, span: Span, l: Label, k: Key)
    ensures Bucket(Where(ms, OfKind(l)), span, k) == if k.kind == l then Bucket(ms, span, k) else []
    decreases |ms|
  {
    if ms != [] {
      var init, last := ms[..|ms| - 1], ms[|ms| - 1];
      ByKindBucket(init, span, l, k);
      if OfKind(l)(last) {
        BucketSnoc(Where(init, OfKind(l)), last, span, k);
      }
    }
  }

  lemma ByKindKeys(ms: seq<Measurement>, span: Span, l: Label, k: Key)
    ensures k in KeyOrder(Where(ms, OfKind(l)), span) <==> k in KeyOrder(ms, span) && k.kind == l
  {
    ByKindBucket(ms, span, l, k);
    KeyOrderBucket(ms, span, k);
    KeyOrderBucket(Where(ms, OfKind(l)), span, k);
  }

  lemma ByKindRecord(ms: seq<Measurement>, span: Span, l: Label, k: Key)
    requires k in KeyOrder(Where(ms, OfKind(l)), span)
    ensures k in KeyOrder(ms, span) && RecordOf(Where(ms, OfKind(l)), span, k) == RecordOf(ms, span, k)
  {
    ByKindKeys(ms, span, l, k);
    ByKindBucket(ms, span, l, k);
  }

  /** A listed key comes from some row, so its label is among the present labels. */
  lemma {:induction false} ListedKeyHasRow(ms: seq<Measurement>, span: Span, k: Key)
    requires k in KeyOrder(ms, span)
    ensures exists i | 0 <= i < |ms| :: KeyOf(span, ms[i]) == k
    decreases |ms|
  {
    var init := ms[..|ms| - 1];
    if k in KeyOrder(init, span) {
      ListedKeyHasRow(init, span, k);
      var i :| 0 <= i < |init| && KeyOf(span, init[i]) == k;
      assert ms[i] == init[i];
    } else {
      assert KeyOf(span, ms[|ms| - 1]) == k;
    }
  }

  /** The group rows as response items of label `lbl`. */
  function Relabelled(grouped: seq<Record>, lbl: Label): (items: seq<Record>)
    ensures |items| == |grouped|
  {
    seq(|grouped|, j requires 0 <= j < |grouped| => Record(lbl, grouped[j].timeSlot, grouped[j].value))
  }

  /** The inner loop of the bucketing: one response item per group row, labelled with the current label. */
  method AppendGroups(aggregation: seq<Record>, grouped: seq<Record>, lbl: Label) returns (extended: seq<Record>)
    ensures extended == aggregation + Relabelled(grouped, lbl)
  {
    extended := aggregation;
    for j := 0 to |grouped|
      invariant extended == aggregation + Relabelled(grouped, lbl)[..j]
    {
      var item := grouped[j];
      extended := extended + [Record(lbl, item.timeSlot, item.value)];
      assert Relabelled(grouped, lbl)[..j + 1] == Relabelled(grouped, lbl)[..j] + [Record(lbl, item.timeSlot, item.value)];
    }
    assert Relabelled(grouped, lbl)[..|grouped|] == Relabelled(grouped, lbl);
  }

  /**
   * The bucketing part of `SummaryView.get`: for each label present, group
   * that label's rows by time slot and append one record per group.
   */
  method Bucketize(ms: seq<Measurement>, span: Span) returns (aggregation: seq<Record>)
    ensures DistinctKeys(aggregation)
    ensures (set r | r in aggregation) == Aggregation(ms, span)
    ensures |aggregation| == |KeyOrder(ms, span)|
  {
    var labels := Labels(ms);
    aggregation := [];
    ghost var done: seq<Key> := [];
    for li := 0 to |labels|
      invariant |done| == |aggregation|
      invariant forall i, j | 0 <= i < j < |done| :: done[i] != done[j]
      invariant forall j | 0 <= j < |done| :: done[j] in KeyOrder(ms, span) && aggregation[j] == RecordOf(ms, span, done[j])
      invariant forall k :: k in done <==> k in KeyOrder(ms, span) && k.kind in labels[..li]
    {
      var lbl := labels[li];
      var subset := Where(ms, OfKind(lbl));
      var grouped := OrderedRecords(subset, span);
      var extended := AppendGroups(aggregation, grouped, lbl);
      ghost var slots := KeyOrder(subset, span);
      GroupsExtend(ms, span, labels, li, done, aggregation, grouped);
      aggregation, done := extended, done + slots;
    }
    assert labels[..|labels|] == labels;
    forall k | k in KeyOrder(ms, span) ensures k.kind in labels {
      ListedKeyHasRow(ms, span, k);
    }
    RecordsOfAllKeys(ms, span, aggregation, done);
    DistinctCount(done, KeyOrder(ms, span));
  }

  /** One pass of the outer loop keeps the loop's invariant: the keys done so far are those of the labels done so far. */
  lemma GroupsExtend(ms: seq<Measurement>, span: Span, labels: seq<Label>, li: nat,
                     done: seq<Key>, aggregation: seq<Record>, grouped: seq<Record>)
    requires li < |labels| && forall i, j | 0 <= i < j < |labels| :: labels[i] != labels[j]
    requires |done| == |aggregation|
    requires forall i, j | 0 <= i < j < |done| :: done[i] != done[j]
    requires forall j | 0 <= j < |done| :: done[j] in KeyOrder(ms, span) && aggregation[j] == RecordOf(ms, span, done[j])
    requires forall k :: k in done <==> k in KeyOrder(ms, span) && k.kind in labels[..li]
    requires grouped == OrderedRecords(Where(ms, OfKind(labels[li])), span)
    ensures var done' := done + KeyOrder(Where(ms, OfKind(labels[li])), span);
            var extended := aggregation + Relabelled(grouped, labels[li]);
      && |done'| == |extended|
      && (forall i, j | 0 <= i < j < |done'| :: done'[i] != done'[j])
      && (forall j | 0 <= j < |done'| :: done'[j] in KeyOrder(ms, span) && extended[j] == RecordOf(ms, span, done'[j]))
      && (forall k :: k in done' <==> k in KeyOrder(ms, span) && k.kind in labels[..li + 1])
  {
    var lbl := labels[li];
    var slots := KeyOrder(Where(ms, OfKind(lbl)), span);
    assert forall k :: k in slots <==> k in KeyOrder(ms, span) && k.kind == lbl by {
      forall k { ByKindKeys(ms, span, lbl, k); }
    }
    GroupKeysExtend(ms, span, labels, li, done, slots);
    var appended := Relabelled(grouped, lbl);
    var isRecord := (k: Key, r: Record) => k in KeyOrder(ms, span) && r == RecordOf(ms, span, k);
    forall g | 0 <= g < |slots| ensures isRecord(slots[g], appended[g]) {
      GroupRecordAt(ms, span, lbl, grouped, g);
    }
    PointwiseConcat(done, aggregation, slots, appended, isRecord);
  }

  /** A pairwise relation between keys and items survives concatenating both sides. */
  lemma PointwiseConcat<K, V>(ks1: seq<K>, vs1: seq<V>, ks2: seq<K>, vs2: seq<V>, holds: (K, V) -> bool)
    requires |ks1| == |vs1| && |ks2| == |vs2|
    requires forall j | 0 <= j < |ks1| :: holds(ks1[j], vs1[j])
    requires forall j | 0 <= j < |ks2| :: holds(ks2[j], vs2[j])
    ensures forall j | 0 <= j < |ks1 + ks2| :: holds((ks1 + ks2)[j], (vs1 + vs2)[j])
  {
    forall j | 0 <= j < |ks1 + ks2| ensures holds((ks1 + ks2)[j], (vs1 + vs2)[j]) {
      if j >= |ks1| {
        assert (ks1 + ks2)[j] == ks2[j - |ks1|] && (vs1 + vs2)[j] == vs2[j - |ks1|];
      }
    }
  }

  lemma GroupKeysExtend(ms: seq<Measurement>, span: Span, labels: seq<Label>, li: nat, done: seq<Key>, slots: seq<Key>)
    requires li < |labels| && forall i, j | 0 <= i < j < |labels| :: labels[i] != labels[j]
    requires forall i, j | 0 <= i < j < |done| :: done[i] != done[j]
    requires forall i, j | 0 <= i < j < |slots| :: slots[i] != slots[j]
    requires forall k :: k in done <==> k in KeyOrder(ms, span) && k.kind in labels[..li]
    requires forall k :: k in slots <==> k in KeyOrder(ms, span) && k.kind == labels[li]
    ensures var done' := done + slots;
      && (forall i, j | 0 <= i < j < |done'| :: done'[i] != done'[j])
      && (forall k :: k in done' <==> k in KeyOrder(ms, span) && k.kind in labels[..li + 1])
  {
    var done' := done + slots;
    assert labels[..li + 1] == labels[..li] + [labels[li]];
    assert labels[li] !in labels[..li];
    forall i, j | 0 <= i < j < |done'| ensures done'[i] != done'[j] {
      if j >= |done| && i < |done| {
        assert done'[j] in slots && done'[i] in done;
      }
    }
  }

  /** A group row, relabelled, is the record of its key over all the selected rows. */
  lemma GroupRecordAt(ms: seq<Measurement>, span: Span, lbl: Label, grouped: seq<Record>, g: nat)
    requires grouped == OrderedRecords(Where(ms, OfKind(lbl)), span)
    requires g < |grouped|
    ensures var k := KeyOrder(Where(ms, OfKind(lbl)), span)[g];
      && k in KeyOrder(ms, span)
      && Relabelled(grouped, lbl)[g] == RecordOf(ms, span, k)
  {
    var subset := Where(ms, OfKind(lbl));
    var k := KeyOrder(subset, span)[g];
    assert grouped[g] == RecordOf(subset, span, k);
    ByKindKeys(ms, span, lbl, k);
    ByKindRecord(ms, span, lbl, k);
  }

  /** Two duplicate-free sequences with the same elements have the same length. */
  lemma DistinctCount(a: seq<Key>, b: seq<Key>)
    requires forall i, j | 0 <= i < j < |a| :: a[i] != a[j]
    requires forall i, j | 0 <= i < j < |b| :: b[i] != b[j]
    requires forall k :: k in a <==> k in b
    ensures |a| == |b|
  {
    var sa := set k | k in a;
    var sb := set k | k in b;
    assert sa == sb;
    DistinctCard(a);
    DistinctCard(b);
  }

  lemma {:induction false} DistinctCard(a: seq<Key>)
    requires forall i, j | 0 <= i < j < |a| :: a[i] != a[j]
    ensures |set k | k in a| == |a|
    decreases |a|
  {
    if a != [] {
      var init := a[..|a| - 1];
      DistinctCard(init);
      assert (set k | k in a) == (set k | k in init) + {a[|a| - 1]};
    }
  }

  /** `SummaryView.get`: validate, look the datalogger up, filter the period, then list or bucket. */
  method Summary(store: Store, q: SummaryParams) returns (o: SummaryOutcome)
    ensures o.BadQuery? <==> ValidateSummaryParams(q).Failure?
    ensures o.BadQuery? ==> o.errors == ValidateSummaryParams(q).error
    ensures o.NotFound? <==> ValidateSummaryParams(q).Success? && ValidateSummaryParams(q).value.datalogger !in store.dataloggers
    ensures ValidateSummaryParams(q).Success? && ValidateSummaryParams(q).value.datalogger in store.dataloggers ==>
              var v := ValidateSummaryParams(q).value;
              var selected := Apply(store.measurements, FilterParams(v.since, v.before, Some(v.datalogger)));
              && (v.span.None? ==> o == Rows(selected))
              && (v.span.Some? ==>
                    && o.Summarized?
                    && DistinctKeys(o.records)
                    && (set r | r in o.records) == Aggregation(selected, v.span.value)
                    && |o.records| == |KeyOrder(selected, v.span.value)|)
  {
    var validated := ValidateSummaryParams(q);
    if validated.Failure? {
      return BadQuery(validated.error);
    }
    var v := validated.value;
    if v.datalogger !in store.dataloggers {
      return NotFound;
    }
    var owned := FilterParams(None, None, Some(v.datalogger));
    var measurements := Where(store.measurements, Kept(owned));
    if v.since.Some? {
      var both := FilterParams(v.since, None, Some(v.datalogger));
      WhereWhere(store.measurements, Kept(owned), Kept(FilterParams(v.since, None, None)), Kept(both));
      measurements := Where(measurements, Kept(FilterParams(v.since, None, None)));
    }
    assert measurements == Apply(store.measurements, FilterParams(v.since, None, Some(v.datalogger)));
    if v.before.Some? {
      WhereWhere(store.measurements, Kept(FilterParams(v.since, None, Some(v.datalogger))),
                 Kept(FilterParams(None, v.before, None)), Kept(FilterParams(v.since, v.before, Some(v.datalogger))));
      measurements := Where(measurements, Kept(FilterParams(None, v.before, None)));
    }
    assert measurements == Apply(store.measurements, FilterParams(v.since, v.before, Some(v.datalogger)));
    if v.span.None? {
      return Rows(measurements);
    }
    var aggregation := Bucketize(measurements, v.span.value);
    return Summarized(aggregation);
  }
}
