/**
 * The reference meaning of hour/day aggregation: rows are keyed by their
 * label and the start of the hour or day containing `at`; each key's values,
 * in row order, form its bucket; `rain` buckets reduce to their sum, every
 * other label to its mean; one record per non-empty bucket.
 */
module Buckets {
  import opened Models

  datatype Span = Hour | Day

  function SpanSeconds(span: Span): int {
    match span
    case Hour => 3600
    case Day => 86400
  }

  /** The start of the hour or day containing `t` (minutes, seconds and, for a day, hours zeroed). */
  function Slot(span: Span, t: int): (r: int)
    ensures r <= t < r + SpanSeconds(span)
    ensures r % SpanSeconds(span) == 0
  {
    t - t % SpanSeconds(span)
  }

  /** The slot is the only boundary whose bucket contains `t`. */
  lemma SlotUnique(span: Span, t: int, r: int)
    requires r % SpanSeconds(span) == 0 && r <= t < r + SpanSeconds(span)
    ensures r == Slot(span, t)
  {
    var s := SpanSeconds(span);
    var q := r / s;
    assert r == s * q;
    assert t == s * q + (t - r);
    assert t % s == t - r;
  }

  /** Every boundary at or before `t` is at or before its slot. */
  lemma SlotIsLatestBoundary(span: Span, t: int, b: int)
    requires b % SpanSeconds(span) == 0 && b <= t
    ensures b <= Slot(span, t)
  {
    var s := SpanSeconds(span);
    assert b == s * (b / s);
    assert Slot(span, t) == s * (t / s);
  }

  /** The day slot zeroes the hour as well: day slot <= hour slot <= at, and the day of the hour slot is the day of `t`. */
  lemma DaySlotWithinHourSlot(t: int)
    ensures Slot(Day, t) <= Slot(Hour, t) <= t
    ensures Slot(Day, Slot(Hour, t)) == Slot(Day, t)
    ensures Slot(Hour, Slot(Hour, t)) == Slot(Hour, t)
  {
    var d := Slot(Day, t);
    assert d % 3600 == 0 by {
      assert d == 86400 * (d / 86400);
      assert d == 3600 * (24 * (d / 86400));
    }
    SlotIsLatestBoundary(Hour, t, d);
    SlotUnique(Day, Slot(Hour, t), d);
    SlotUnique(Hour, Slot(Hour, t), Slot(Hour, t));
  }

  datatype Key = Key(kind: Label, slot: int)

  function KeyOf(span: Span, m: Measurement): Key {
    Key(m.kind, Slot(span, m.at))
  }

  /** The values of the rows with key `k`, in row order. */
  function Bucket(ms: seq<Measurement>, span: Span, k: Key): (vs: seq<real>)
    ensures |vs| <= |ms|
  {
    if ms == [] then []
    else
      var last := ms[|ms| - 1];
      Bucket(ms[..|ms| - 1], span, k) + if KeyOf(span, last) == k then [last.value] else []
  }

  /** A bucket holds a value exactly when some row with that key carries it. */
  lemma {:induction false} BucketContents(ms: seq<Measurement>, span: Span, k: Key)
    ensures forall v :: v in Bucket(ms, span, k) <==> exists i | 0 <= i < |ms| :: KeyOf(span, ms[i]) == k && ms[i].value == v
    decreases |ms|
  {
    if ms != [] {
      var init, last := ms[..|ms| - 1], ms[|ms| - 1];
      BucketContents(init, span, k);
      forall v | v in Bucket(ms, span, k)
        ensures exists i | 0 <= i < |ms| :: KeyOf(span, ms[i]) == k && ms[i].value == v
      {
        if v in Bucket(init, span, k) {
          var i :| 0 <= i < |init| && KeyOf(span, init[i]) == k && init[i].value == v;
          assert ms[i] == init[i];
        } else {
          assert KeyOf(span, ms[|ms| - 1]) == k && ms[|ms| - 1].value == v;
        }
      }
      forall v | exists i | 0 <= i < |ms| :: KeyOf(span, ms[i]) == k && ms[i].value == v
        ensures v in Bucket(ms, span, k)
      {
        var i :| 0 <= i < |ms| && KeyOf(span, ms[i]) == k && ms[i].value == v;
        if i < |init| {
          assert init[i] == ms[i];
        }
      }
    }
  }

  /** The distinct keys of `ms`, in order of first appearance (a dictionary's insertion order). */
  function KeyOrder(ms: seq<Measurement>, span: Span): (ks: seq<Key>)
    ensures forall i, j | 0 <= i < j < |ks| :: ks[i] != ks[j]
    ensures |ks| <= |ms|
  {
    if ms == [] then []
    else
      var init := ms[..|ms| - 1];
      var ks := KeyOrder(init, span);
      var k := KeyOf(span, ms[|ms| - 1]);
      assert forall i | 0 <= i < |init| :: init[i] == ms[i];
      if k in ks then ks else ks + [k]
  }

  /** A key is listed exactly when its bucket is non-empty. */
  lemma {:induction false} KeyOrderBucket(ms: seq<Measurement>, span: Span, k: Key)
    ensures k in KeyOrder(ms, span) <==> Bucket(ms, span, k) != []
    decreases |ms|
  {
    if ms != [] {
      KeyOrderBucket(ms[..|ms| - 1], span, k);
    }
  }

  /** Every row's key is listed and the row's value is in that key's bucket. */
  lemma {:induction false} RowInItsBucket(ms: seq<Measurement>, span: Span, i: nat)
    requires i < |ms|
    ensures KeyOf(span, ms[i]) in KeyOrder(ms, span)
    ensures ms[i].value in Bucket(ms, span, KeyOf(span, ms[i]))
    decreases |ms|
  {
    if i < |ms| - 1 {
      var init := ms[..|ms| - 1];
      assert init[i] == ms[i];
      RowInItsBucket(init, span, i);
    }
    KeyOrderBucket(ms, span, KeyOf(span, ms[i]));
  }

  function Sum(vs: seq<real>): real {
    if vs == [] then 0.0 else Sum(vs[..|vs| - 1]) + vs[|vs| - 1]
  }

  function Mean(vs: seq<real>): real
    requires vs != []
  {
    Sum(vs) / |vs| as real
  }

  datatype Reducer = SumOf | MeanOf

  /** The label's reducer: `rain` is summed, every other label averaged. */
  function ReducerFor(l: Label): (r: Reducer)
    ensures r == SumOf <==> l == Rain
    ensures r == MeanOf <==> l != Rain
  {
    if l == Rain then SumOf else MeanOf
  }

  function Reduce(r: Reducer, vs: seq<real>): real
    requires vs != []
  {
    match r
    case SumOf => Sum(vs)
    case MeanOf => Mean(vs)
  }

  datatype Record = Record(kind: Label, timeSlot: int, value: real)

  function RecordKey(r: Record): Key {
    Key(r.kind, r.timeSlot)
  }

  /** The record of a listed key; its bucket is never empty, so the mean is defined. */
  function RecordOf(ms: seq<Measurement>, span: Span, k: Key): (r: Record)
    requires k in KeyOrder(ms, span)
    ensures RecordKey(r) == k
    ensures Bucket(ms, span, k) != []
    ensures k.kind == Rain ==> r.value == Sum(Bucket(ms, span, k))
    ensures k.kind != Rain ==> r.value == Sum(Bucket(ms, span, k)) / |Bucket(ms, span, k)| as real
  {
    KeyOrderBucket(ms, span, k);
    Record(k.kind, k.slot, Reduce(ReducerFor(k.kind), Bucket(ms, span, k)))
  }

  /** The reference result: one record per non-empty bucket. */
  ghost function Aggregation(ms: seq<Measurement>, span: Span): set<Record> {
    set k | k in KeyOrder(ms, span) :: RecordOf(ms, span, k)
  }

  /** The records in first-appearance order of their keys. */
  function OrderedRecords(ms: seq<Measurement>, span: Span): (rs: seq<Record>)
    ensures |rs| == |KeyOrder(ms, span)|
    ensures forall j | 0 <= j < |rs| :: RecordKey(rs[j]) == KeyOrder(ms, span)[j]
    ensures DistinctKeys(rs)
  {
    var ks := KeyOrder(ms, span);
    seq(|ks|, j requires 0 <= j < |ks| => RecordOf(ms, span, ks[j]))
  }

  predicate DistinctKeys(rs: seq<Record>) {
    forall i, j | 0 <= i < j < |rs| :: RecordKey(rs[i]) != RecordKey(rs[j])
  }

  /**
   * A sequence of records, one per listed key and each the record of its key,
   * has pairwise distinct keys and holds exactly the reference result.
   */
  lemma RecordsOfAllKeys(ms: seq<Measurement>, span: Span, rs: seq<Record>, ks: seq<Key>)
    requires |rs| == |ks|
    requires forall i, j | 0 <= i < j < |ks| :: ks[i] != ks[j]
    requires forall k :: k in ks <==> k in KeyOrder(ms, span)
    requires forall j | 0 <= j < |ks| :: ks[j] in KeyOrder(ms, span) && rs[j] == RecordOf(ms, span, ks[j])
    ensures DistinctKeys(rs)
    ensures (set r | r in rs) == Aggregation(ms, span)
  {
    forall r | r in rs ensures r in Aggregation(ms, span) {
      var j :| 0 <= j < |rs| && rs[j] == r;
      assert ks[j] in KeyOrder(ms, span);
    }
    forall r | r in Aggregation(ms, span) ensures r in rs {
      var k :| k in KeyOrder(ms, span) && r == RecordOf(ms, span, k);
      var j :| 0 <= j < |ks| && ks[j] == k;
      assert rs[j] == r;
    }
  }

  /** The ordered records are the reference result, without repeated keys. */
  lemma OrderedRecordsAreAggregation(ms: seq<Measurement>, span: Span)
    ensures DistinctKeys(OrderedRecords(ms, span))
    ensures (set r | r in OrderedRecords(ms, span)) == Aggregation(ms, span)
    ensures |OrderedRecords(ms, span)| == |KeyOrder(ms, span)|
  {
    var ks := KeyOrder(ms, span);
    RecordsOfAllKeys(ms, span, OrderedRecords(ms, span), ks);
  }

  /** Exactly one record per key: two records of the reference result with one key are the same record. */
  lemma OneRecordPerKey(ms: seq<Measurement>, span: Span, r1: Record, r2: Record)
    requires r1 in Aggregation(ms, span) && r2 in Aggregation(ms, span)
    requires RecordKey(r1) == RecordKey(r2)
    ensures r1 == r2
  {
    var k1 :| k1 in KeyOrder(ms, span) && r1 == RecordOf(ms, span, k1);
    var k2 :| k2 in KeyOrder(ms, span) && r2 == RecordOf(ms, span, k2);
  }

  /**
   * Each row contributes to exactly one record: the record of its own key,
   * whose bucket holds the row's value; no other record has that key.
   */
  lemma EachRowInOneRecord(ms: seq<Measurement>, span: Span, i: nat)
    requires i < |ms|
    ensures KeyOf(span, ms[i]) in KeyOrder(ms, span)
    ensures RecordOf(ms, span, KeyOf(span, ms[i])) in Aggregation(ms, span)
    ensures ms[i].value in Bucket(ms, span, KeyOf(span, ms[i]))
    ensures forall r | r in Aggregation(ms, span) && RecordKey(r) == KeyOf(span, ms[i]) ::
              r == RecordOf(ms, span, KeyOf(span, ms[i]))
  {
    RowInItsBucket(ms, span, i);
    var k := KeyOf(span, ms[i]);
    forall r | r in Aggregation(ms, span) && RecordKey(r) == k ensures r == RecordOf(ms, span, k) {
      OneRecordPerKey(ms, span, r, RecordOf(ms, span, k));
    }
  }

  /** No record for an empty bucket: every record's bucket holds at least one row. */
  lemma NoEmptyBucket(ms: seq<Measurement>, span: Span, r: Record)
    requires r in Aggregation(ms, span)
    ensures Bucket(ms, span, RecordKey(r)) != []
    ensures r == RecordOf(ms, span, RecordKey(r))
  {
    var k :| k in KeyOrder(ms, span) && r == RecordOf(ms, span, k);
    KeyOrderBucket(ms, span, k);
  }

  /** The total size of the buckets of `ks`. */
  function SizeSum(ms: seq<Measurement>, span: Span, ks: seq<Key>): nat {
    if ks == [] then 0 else SizeSum(ms, span, ks[..|ks| - 1]) + |Bucket(ms, span, ks[|ks| - 1])|
  }

  lemma {:induction false} SizeSumStep(init: seq<Measurement>, last: Measurement, span: Span, ks: seq<Key>)
    requires forall i, j | 0 <= i < j < |ks| :: ks[i] != ks[j]
    ensures SizeSum(init + [last], span, ks) == SizeSum(init, span, ks) + if KeyOf(span, last) in ks then 1 else 0
    decreases |ks|
  {
    var ms := init + [last];
    assert ms[..|ms| - 1] == init;
    if ks != [] {
      var front := ks[..|ks| - 1];
      SizeSumStep(init, last, span, front);
      assert KeyOf(span, last) in ks <==> KeyOf(span, last) in front || KeyOf(span, last) == ks[|ks| - 1];
      if KeyOf(span, last) == ks[|ks| - 1] {
        assert KeyOf(span, last) !in front;
      }
    }
  }

  /** Every row lands in exactly one bucket: the bucket sizes add up to the number of rows. */
  lemma {:induction false} BucketSizesSumToRows(ms: seq<Measurement>, span: Span)
    ensures SizeSum(ms, span, KeyOrder(ms, span)) == |ms|
    decreases |ms|
  {
    if ms != [] {
      var init, last := ms[..|ms| - 1], ms[|ms| - 1];
      var k := KeyOf(span, last);
      var before := KeyOrder(init, span);
      assert ms == init + [last];
      BucketSizesSumToRows(init, span);
      SizeSumStep(init, last, span, before);
      if k !in before {
        KeyOrderBucket(init, span, k);
        var after := before + [k];
        assert after[..|after| - 1] == before;
      }
    }
  }
}
