/**
 * The test suite's reference side: `aggregate`, the dictionary-based oracle
 * the summary endpoint is compared with, and `generate_random_payload`,
 * whose random draws are taken here as parameters.
 */
module Oracle {
  import opened Wrappers
  import opened Uuids
  import opened Fields
  import opened Models
  import opened Buckets
  import opened Serializers

  function UnsupportedSpan(span: string): string {
    "Unsupported span value: " + span
  }

  /**
   * `aggregate(measurements, span)`: group the values by (label, time slot)
   * in a dictionary, then emit one record per entry in insertion order, the
   * sum for `rain` and the mean otherwise. The span is checked per row, so
   * an empty input never raises.
   */
  method Aggregate(ms: seq<Measurement>, span: string) returns (r: Result<seq<Record>, string>)
    ensures r.Failure? <==> ms != [] && SpanChoice(span).None?
    ensures r.Failure? ==> r.error == UnsupportedSpan(span)
    ensures r.Success? && ms != [] ==> r.value == OrderedRecords(ms, SpanChoice(span).value)
    ensures r.Success? && ms == [] ==> r.value == []
  {
    var buckets: map<Key, seq<real>> := map[];
    var order: seq<Key> := [];
    ghost var sp: Span := Hour;
    var i := 0;
    while i < |ms|
      invariant 0 <= i <= |ms|
      invariant i > 0 ==> SpanChoice(span) == Some(sp)
      invariant order == KeyOrder(ms[..i], sp)
      invariant buckets == Grouping(ms[..i], sp)
    {
      var m := ms[i];
      var slot;
      if span == "hour" {
        slot := Slot(Hour, m.at);
        sp := Hour;
      } else if span == "day" {
        slot := Slot(Day, m.at);
        sp := Day;
      } else {
        return Failure(UnsupportedSpan(span));
      }
      var k := Key(m.kind, slot);
      assert k == KeyOf(sp, ms[i]);
      assert k in buckets <==> k in order;
      assert (if k in order then order else order + [k]) == KeyOrder(ms[..i + 1], sp) by {
        PrefixStep(ms, i, sp);
      }
      assert Append(buckets, k, m.value) == Grouping(ms[..i + 1], sp) by {
        GroupStep(ms, i, sp, k);
      }
      if k !in buckets {
        order := order + [k];
      }
      buckets := Append(buckets, k, m.value);
      i := i + 1;
    }
    assert ms[..i] == ms;
    var results := EmitRecords(ms, sp, order, buckets);
    r := Success(results);
  }

  /** The second loop of `aggregate`: one record per dictionary entry, in insertion order. */
  method EmitRecords(ghost ms: seq<Measurement>, ghost span: Span, order: seq<Key>, buckets: map<Key, seq<real>>)
    returns (results: seq<Record>)
    requires order == KeyOrder(ms, span) && buckets == Grouping(ms, span)
    ensures results == OrderedRecords(ms, span)
  {
    results := [];
    var j := 0;
    while j < |order|
      invariant 0 <= j <= |order|
      invariant |results| == j
      invariant forall t | 0 <= t < j :: results[t] == RecordOf(ms, span, order[t])
    {
      var k := order[j];
      var values := buckets[k];
      RecordOfBucket(ms, span, k);
      var value := if k.kind == Rain then Sum(values) else Sum(values) / |values| as real;
      results := results + [Record(k.kind, k.slot, value)];
      j := j + 1;
    }
  }

  /** `aggregation[key].append(v)` on a dictionary of lists with an empty default. */
  function Append(buckets: map<Key, seq<real>>, k: Key, v: real): (r: map<Key, seq<real>>)
    ensures r.Keys == buckets.Keys + {k}
    ensures r[k] == (if k in buckets then buckets[k] else []) + [v]
    ensures forall k' | k' in buckets && k' != k :: r[k'] == buckets[k']
  {
    if k in buckets then buckets[k := buckets[k] + [v]] else buckets[k := [v]]
  }

  /** The dictionary `aggregate` builds: every listed key with its bucket. */
  ghost function Grouping(ms: seq<Measurement>, span: Span): map<Key, seq<real>> {
    map k | k in KeyOrder(ms, span) :: Bucket(ms, span, k)
  }

  /** One more row: its key is listed once it is first seen, and its value joins its own bucket only. */
  lemma GroupStep(ms: seq<Measurement>, i: nat, span: Span, k: Key)
    requires i < |ms| && k == KeyOf(span, ms[i])
    ensures Append(Grouping(ms[..i], span), k, ms[i].value) == Grouping(ms[..i + 1], span)
  {
    PrefixStep(ms, i, span);
    KeyOrderBucket(ms[..i], span, k);
    var before, after := Grouping(ms[..i], span), Grouping(ms[..i + 1], span);
    var appended := Append(before, k, ms[i].value);
    assert appended.Keys == after.Keys;
    forall k' | k' in after ensures appended[k'] == after[k'] {
      PrefixBucketStep(ms, i, span, k');
    }
  }

  lemma PrefixStep(ms: seq<Measurement>, i: nat, span: Span)
    requires i < |ms|
    ensures var k := KeyOf(span, ms[i]);
      KeyOrder(ms[..i + 1], span) == if k in KeyOrder(ms[..i], span) then KeyOrder(ms[..i], span) else KeyOrder(ms[..i], span) + [k]
  {
    assert ms[..i + 1][..i] == ms[..i];
  }

  lemma PrefixBucketStep(ms: seq<Measurement>, i: nat, span: Span, k: Key)
    requires i < |ms|
    ensures Bucket(ms[..i + 1], span, k) == Bucket(ms[..i], span, k) + if KeyOf(span, ms[i]) == k then [ms[i].value] else []
  {
    assert ms[..i + 1][..i] == ms[..i];
  }

  /** A record's value is the sum of its bucket for rain and the mean otherwise. */
  lemma RecordOfBucket(ms: seq<Measurement>, span: Span, k: Key)
    requires k in KeyOrder(ms, span)
    ensures Bucket(ms, span, k) != []
    ensures RecordOf(ms, span, k) ==
              var vs := Bucket(ms, span, k);
              Record(k.kind, k.slot, if k.kind == Rain then Sum(vs) else Sum(vs) / |vs| as real)
  {
    KeyOrderBucket(ms, span, k);
  }

  // ---------------------------------------------------------------- order of rows

  /** `s` with position `i` removed. */
  function Without<T>(s: seq<T>, i: nat): (r: seq<T>)
    requires i < |s|
    ensures |r| == |s| - 1
    ensures multiset(r) == multiset(s) - multiset{s[i]}
  {
    assert s == s[..i] + [s[i]] + s[i + 1..];
    s[..i] + s[i + 1..]
  }

  lemma {:induction false} SumConcat(a: seq<real>, b: seq<real>)
    ensures Sum(a + b) == Sum(a) + Sum(b)
    decreases |b|
  {
    if b == [] {
      assert a + b == a;
    } else {
      var b' := b[..|b| - 1];
      assert (a + b)[..|a + b| - 1] == a + b';
      SumConcat(a, b');
    }
  }

  /** Removing one value takes exactly that value off the sum. */
  lemma SumWithout(s: seq<real>, i: nat)
    requires i < |s|
    ensures Sum(s) == Sum(s[..i] + s[i + 1..]) + s[i]
  {
    var pre, x, post := s[..i], s[i], s[i + 1..];
    assert s == pre + ([x] + post);
    calc {
      Sum(s);
      == { SumConcat(pre, [x] + post); }
      Sum(pre) + Sum([x] + post);
      == { SumConcat([x], post); SumSingle(x); }
      Sum(pre) + Sum(post) + x;
      == { SumConcat(pre, post); }
      Sum(pre + post) + x;
    }
  }

  lemma SumSingle(x: real)
    ensures Sum([x]) == x
  {
    assert [x][..0] == [];
  }

  /** The sum does not depend on the order of the values. */
  lemma {:induction false} SumPermutation(a: seq<real>, b: seq<real>)
    requires multiset(a) == multiset(b)
    ensures Sum(a) == Sum(b)
    decreases |a|
  {
    if a != [] {
      var x := a[|a| - 1];
      assert x in multiset(b);
      var i :| 0 <= i < |b| && b[i] == x;
      var a' := a[..|a| - 1];
      assert a == a' + [x];
      assert multiset(a') == multiset(Without(b, i));
      SumPermutation(a', Without(b, i));
      SumWithout(b, i);
    } else {
      assert |multiset(b)| == 0;
    }
  }

  lemma {:induction false} BucketConcat(a: seq<Measurement>, b: seq<Measurement>, span: Span, k: Key)
    ensures Bucket(a + b, span, k) == Bucket(a, span, k) + Bucket(b, span, k)
    decreases |b|
  {
    if b == [] {
      assert a + b == a;
    } else {
      var b' := b[..|b| - 1];
      assert (a + b)[..|a + b| - 1] == a + b';
      BucketConcat(a, b', span, k);
    }
  }

  /** Removing one row removes at most its own value from its own bucket. */
  lemma BucketWithout(ms: seq<Measurement>, i: nat, span: Span, k: Key)
    requires i < |ms|
    ensures multiset(Bucket(ms, span, k)) ==
              multiset(Bucket(Without(ms, i), span, k)) + if KeyOf(span, ms[i]) == k then multiset{ms[i].value} else multiset{}
  {
    assert ms == ms[..i] + ([ms[i]] + ms[i + 1..]);
    BucketConcat(ms[..i], [ms[i]] + ms[i + 1..], span, k);
    BucketConcat([ms[i]], ms[i + 1..], span, k);
    BucketConcat(ms[..i], ms[i + 1..], span, k);
    assert [ms[i]][..0] == [];
  }

  /** Two orders of the same rows give every key a bucket with the same values. */
  lemma {:induction false} BucketPermutation(a: seq<Measurement>, b: seq<Measurement>, span: Span, k: Key)
    requires multiset(a) == multiset(b)
    ensures multiset(Bucket(a, span, k)) == multiset(Bucket(b, span, k))
    decreases |a|
  {
    if a != [] {
      var x := a[|a| - 1];
      assert x in multiset(b);
      var i :| 0 <= i < |b| && b[i] == x;
      var a' := a[..|a| - 1];
      assert a == a' + [x];
      var b' := Without(b, i);
      assert multiset(a') == multiset(b');
      assert multiset(Bucket(a', span, k)) == multiset(Bucket(b', span, k)) by {
        BucketPermutation(a', b', span, k);
      }
      assert multiset(Bucket(b, span, k)) ==
               multiset(Bucket(b', span, k)) + if KeyOf(span, x) == k then multiset{x.value} else multiset{} by {
        BucketWithout(b, i, span, k);
      }
      assert Bucket(a, span, k) == Bucket(a', span, k) + if KeyOf(span, x) == k then [x.value] else [] by {
        assert a[..|a| - 1] == a';
      }
    } else {
      assert |multiset(b)| == 0;
      assert b == [];
    }
  }

  /**
   * The reference result does not depend on row order. The oracle reads the
   * rows ordered by `at`, the endpoint in whatever order the database
   * returns them; both describe the same records.
   */
  lemma AggregationPermutation(a: seq<Measurement>, b: seq<Measurement>, span: Span)
    requires multiset(a) == multiset(b)
    ensures Aggregation(a, span) == Aggregation(b, span)
  {
    forall k ensures k in KeyOrder(a, span) <==> k in KeyOrder(b, span) {
      BucketPermutation(a, b, span, k);
      KeyOrderBucket(a, span, k);
      KeyOrderBucket(b, span, k);
      if Bucket(a, span, k) == [] {
        assert |multiset(Bucket(b, span, k))| == 0;
      }
      if Bucket(b, span, k) == [] {
        assert |multiset(Bucket(a, span, k))| == 0;
      }
    }
    forall k | k in KeyOrder(a, span) ensures RecordOf(a, span, k) == RecordOf(b, span, k) {
      BucketPermutation(a, b, span, k);
      SumPermutation(Bucket(a, span, k), Bucket(b, span, k));
      assert |Bucket(a, span, k)| == |multiset(Bucket(a, span, k))| == |Bucket(b, span, k)|;
    }
  }

  // ---------------------------------------------------------------- payload generator

  /** The fixed test dataloggers, in the dictionary's order, with their locations. */
  const DataloggerIds: seq<Uuid> := [
    "c2a61e2e-068d-4670-a97c-72bfa5e2a58a",
    "e6e4ae22-f8dd-4e9e-b0e6-7e2ddbc2c4ac",
    "a7c91fbb-1234-4abc-8d12-1234567890ab"
  ]
  const DataloggerLocations: seq<Location> := [
    Location(47.56321, 1.524568),
    Location(49.56321, -1.528768),
    Location(48.12345, 0.98765)
  ]

  /** The generator's `at`: five days before now, plus 0-4 days, 0-23 hours, 0-59 minutes, 0-59 seconds. */
  function GeneratedAt(now: int, days: int, hours: int, minutes: int, seconds: int): (t: int)
    requires 0 <= days <= 4 && 0 <= hours <= 23 && 0 <= minutes <= 59 && 0 <= seconds <= 59
    ensures now - 5 * 86400 <= t < now
  {
    now - 5 * 86400 + days * 86400 + hours * 3600 + minutes * 60 + seconds
  }

  /** The drawn value's grid index is in its label's range: temp and hum to one decimal, rain `x * 0.2` for x in 0..10. */
  predicate StepInRange(l: Label, k: int) {
    match l
    case Temp => -200 <= k <= 400
    case Hum => 200 <= k <= 1000
    case Rain => 0 <= k <= 10
  }

  function StepValue(l: Label, k: int): real {
    if l == Rain then Grid(k, 5) else Grid(k, 10)
  }

  /** One run's random draws: the datalogger, the time offset, the sampled labels and each value's grid index. */
  datatype Draw = Draw(logger: nat, days: int, hours: int, minutes: int, seconds: int, labels: seq<Label>, steps: seq<int>)

  predicate IsDraw(d: Draw) {
    && d.logger < 3
    && 0 <= d.days <= 4 && 0 <= d.hours <= 23 && 0 <= d.minutes <= 59 && 0 <= d.seconds <= 59
    && (|d.labels| == 1 || |d.labels| == 3)
    && (forall i, j | 0 <= i < j < |d.labels| :: d.labels[i] != d.labels[j])
    && |d.steps| == |d.labels|
    && forall i | 0 <= i < |d.labels| :: StepInRange(d.labels[i], d.steps[i])
  }

  /** The drawn measurements: one entry per sampled label, in sample order. */
  function GeneratedEntries(d: Draw): (es: seq<RawEntry>)
    requires IsDraw(d)
    ensures |es| == |d.labels|
    ensures forall i | 0 <= i < |es| :: es[i].kind == Some(LabelName(d.labels[i]))
    ensures forall i | 0 <= i < |es| :: es[i].value.Some?
  {
    seq(|d.labels|, i requires 0 <= i < |d.labels| => RawEntry(Some(LabelName(d.labels[i])), Some(StepValue(d.labels[i], d.steps[i]))))
  }

  /** `generate_random_payload()` for the draws `d` at time `now`. */
  function GeneratePayload(d: Draw, now: int): (p: RawPayload)
    requires IsDraw(d)
    ensures p.datalogger == Some(DataloggerIds[d.logger])
    ensures p.location == Some(RawLocation(Some(DataloggerLocations[d.logger].lat), Some(DataloggerLocations[d.logger].lng)))
    ensures p.at.Some? && p.at.value.Iso? && now - 5 * 86400 <= p.at.value.seconds < now
    ensures p.measurements == Some(GeneratedEntries(d))
  {
    var loc := DataloggerLocations[d.logger];
    RawPayload(
      Some(DataloggerIds[d.logger]),
      Some(RawLocation(Some(loc.lat), Some(loc.lng))),
      Some(GeneratedEntries(d)),
      Some(Iso(GeneratedAt(now, d.days, d.hours, d.minutes, d.seconds))))
  }

  lemma DataloggerIdsCanonical(i: nat)
    requires i < 3
    ensures IsCanonical(DataloggerIds[i])
  {
    if i == 0 {
      FirstIdCanonical();
    } else if i == 1 {
      SecondIdCanonical();
    } else {
      ThirdIdCanonical();
    }
  }

  lemma FirstIdCanonical()
    ensures IsCanonical("c2a61e2e-068d-4670-a97c-72bfa5e2a58a")
  {
  }

  lemma SecondIdCanonical()
    ensures IsCanonical("e6e4ae22-f8dd-4e9e-b0e6-7e2ddbc2c4ac")
  {
  }

  lemma ThirdIdCanonical()
    ensures IsCanonical("a7c91fbb-1234-4abc-8d12-1234567890ab")
  {
  }

  /** A drawn value passes its label's rules. */
  lemma StepAccepted(l: Label, k: int)
    requires StepInRange(l, k)
    ensures CheckValue(l, StepValue(l, k)) == None
  {
    match l
    case Temp => TempAcceptedIffGrid(StepValue(l, k));
    case Hum => HumAcceptedIffGrid(StepValue(l, k));
    case Rain => RainAcceptedIffGrid(StepValue(l, k));
  }

  /** Every test datalogger id is accepted as it is. */
  lemma GeneratedIdAccepted(i: nat)
    requires i < 3
    ensures ParseUuid(Trim(DataloggerIds[i])) == Some(DataloggerIds[i])
  {
    var id := DataloggerIds[i];
    DataloggerIdsCanonical(i);
    forall j | 0 <= j < |id| ensures !IsWhitespace(id[j]) {
      if !IsHyphenPosition(j) {
        assert IsLowerHexDigit(id[j]);
      }
    }
    TrimNoWhitespace(id);
    CanonicalRoundTrip(id);
  }

  /** Every drawn entry names its label and passes that label's rules. */
  lemma GeneratedEntriesAccepted(d: Draw)
    requires IsDraw(d)
    ensures forall i | 0 <= i < |d.labels| ::
              && LabelOf(GeneratedEntries(d)[i]) == Some(d.labels[i])
              && GeneratedEntries(d)[i].value.Some?
              && ValueAccepted(d.labels[i], GeneratedEntries(d)[i].value.value)
  {
    var es := GeneratedEntries(d);
    forall i | 0 <= i < |d.labels|
      ensures LabelOf(es[i]) == Some(d.labels[i])
      ensures es[i].value.Some?
      ensures ValueAccepted(d.labels[i], es[i].value.value)
    {
      assert es[i] == RawEntry(Some(LabelName(d.labels[i])), Some(StepValue(d.labels[i], d.steps[i])));
      StepAccepted(d.labels[i], d.steps[i]);
    }
  }

  /** Every generated payload is accepted at its generation time or later. */
  lemma GeneratedPayloadIsValid(d: Draw, now: int, later: int)
    requires IsDraw(d) && now <= later
    ensures ValidatePayload(GeneratePayload(d, now), later).Success?
  {
    GeneratedPayloadConforms(d, now, later);
    AcceptedIffConforms(GeneratePayload(d, now), later);
  }

  /**
   * A generated payload becomes one row per drawn label, in draw order, owned
   * by the drawn datalogger and stamped within the five days before generation.
   */
  lemma GeneratedRows(d: Draw, now: int, later: int)
    requires IsDraw(d) && now <= later
    ensures ValidatePayload(GeneratePayload(d, now), later).Success?
    ensures var rows := RowsOf(ValidatePayload(GeneratePayload(d, now), later).value);
      && |rows| == |d.labels|
      && (forall i | 0 <= i < |rows| :: rows[i].kind == d.labels[i] && rows[i].datalogger == DataloggerIds[d.logger])
      && (forall i | 0 <= i < |rows| :: now - 5 * 86400 <= rows[i].at < now)
  {
    var raw := GeneratePayload(d, now);
    GeneratedPayloadIsValid(d, now, later);
    AcceptedIffConforms(raw, later);
    GeneratedIdAccepted(d.logger);
    var p := ValidatePayload(raw, later).value;
    EntriesOfDraw(d, raw.measurements.value, p);
    RowsOfDraw(d, p, now);
  }

  /** The validated entries carry the drawn labels, as the raw entries name them. */
  lemma EntriesOfDraw(d: Draw, es: seq<RawEntry>, p: Payload)
    requires IsDraw(d) && es == GeneratedEntries(d) && |p.measurements| == |es|
    requires forall i | 0 <= i < |p.measurements| :: LabelOf(es[i]).Some? && es[i].value.Some? && p.measurements[i] == Entry(LabelOf(es[i]).value, es[i].value.value)
    ensures forall i | 0 <= i < |p.measurements| :: p.measurements[i].kind == d.labels[i]
  {
    forall i | 0 <= i < |p.measurements| ensures p.measurements[i].kind == d.labels[i] {
      assert es[i].kind == Some(LabelName(d.labels[i]));
      assert LabelOf(es[i]) == Some(d.labels[i]);
    }
  }

  lemma RowsOfDraw(d: Draw, p: Payload, now: int)
    requires IsDraw(d) && |p.measurements| == |d.labels|
    requires p.datalogger == DataloggerIds[d.logger] && now - 5 * 86400 <= p.at < now
    requires forall i | 0 <= i < |p.measurements| :: p.measurements[i].kind == d.labels[i]
    ensures var rows := RowsOf(p);
      && |rows| == |d.labels|
      && (forall i | 0 <= i < |rows| :: rows[i].kind == d.labels[i] && rows[i].datalogger == DataloggerIds[d.logger])
      && (forall i | 0 <= i < |rows| :: now - 5 * 86400 <= rows[i].at < now)
  {
  }

  lemma GeneratedPayloadConforms(d: Draw, now: int, later: int)
    requires IsDraw(d) && now <= later
    ensures PayloadConforms(GeneratePayload(d, now), later)
  {
    var raw := GeneratePayload(d, now);
    GeneratedIdAccepted(d.logger);
    LocationInRange(d.logger);
    GeneratedEntriesAccepted(d);
    assert raw.datalogger.Some? && ParseUuid(Trim(raw.datalogger.value)).Some?;
    assert raw.measurements.Some? && |raw.measurements.value| > 0;
  }

  /** Every test location is within the coordinate ranges. */
  lemma LocationInRange(i: nat)
    requires i < 3
    ensures -90.0 <= DataloggerLocations[i].lat <= 90.0 && -180.0 <= DataloggerLocations[i].lng <= 180.0
  {
    if i == 0 {
    } else if i == 1 {
    } else {
      assert i == 2;
    }
  }
}
