/**
 * The request validators and the write path of ingestion.  Each validator is
 * a function from the raw field to either the validated value or the field's
 * errors; the payload validator runs every field and collects every error.
 * `Create` is the transaction that registers the datalogger and appends the
 * measurements.
 */
module Serializers {
  import opened Wrappers
  import opened Uuids
  import opened Fields
  import opened Models
  import opened Buckets

  // ---------------------------------------------------------------- inputs

  /** The nested location; an absent coordinate is None. */
  datatype RawLocation = RawLocation(lat: Option<real>, lng: Option<real>)

  /** One submitted entry; `kind` carries the JSON field `label`; an absent field is None. */
  datatype RawEntry = RawEntry(kind: Option<string>, value: Option<real>)

  /** The ingest payload; an absent field is None. */
  datatype RawPayload = RawPayload(
    datalogger: Option<string>,
    location: Option<RawLocation>,
    measurements: Option<seq<RawEntry>>,
    at: Option<TimeInput>)

  datatype Entry = Entry(kind: Label, value: real)

  /** A validated payload. */
  datatype Payload = Payload(datalogger: Uuid, location: Location, measurements: seq<Entry>, at: int)

  // ---------------------------------------------------------------- location

  const LatRange := "Latitude must be between -90 and 90."
  const LngRange := "Longitude must be between -180 and 180."

  function ValidateLat(v: real): (r: Result<real, string>)
    ensures r.Success? <==> -90.0 <= v <= 90.0
    ensures r.Success? ==> r.value == v
  {
    if !(-90.0 <= v <= 90.0) then Failure(LatRange) else Success(v)
  }

  function ValidateLng(v: real): (r: Result<real, string>)
    ensures r.Success? <==> -180.0 <= v <= 180.0
    ensures r.Success? ==> r.value == v
  {
    if !(-180.0 <= v <= 180.0) then Failure(LngRange) else Success(v)
  }

  function FieldErrors(r: Result<real, string>, f: Field): seq<FieldError> {
    if r.Failure? then [FieldError(f, r.error)] else []
  }

  /** A required coordinate: "This field is required." when absent, else the errors of its range rule. */
  function CoordinateErrors(v: Option<real>, f: Field): seq<FieldError> {
    if v.None? then [FieldError(f, Required)]
    else FieldErrors(if f == LatField then ValidateLat(v.value) else ValidateLng(v.value), f)
  }

  /** The nested location: both coordinates are required and checked, and both errors reported. */
  function ValidateLocation(v: Option<RawLocation>): (r: Result<Location, seq<FieldError>>)
    ensures r.Success? <==>
              && v.Some? && v.value.lat.Some? && v.value.lng.Some?
              && -90.0 <= v.value.lat.value <= 90.0 && -180.0 <= v.value.lng.value <= 180.0
    ensures r.Success? ==> r.value == Location(v.value.lat.value, v.value.lng.value)
    ensures r.Failure? ==> r.error != []
    ensures HasErrorOn(ErrorsOf(r), LocationField) <==> v.None?
    ensures HasErrorOn(ErrorsOf(r), LatField) <==> v.Some? && !(v.value.lat.Some? && -90.0 <= v.value.lat.value <= 90.0)
    ensures HasErrorOn(ErrorsOf(r), LngField) <==> v.Some? && !(v.value.lng.Some? && -180.0 <= v.value.lng.value <= 180.0)
    ensures v.Some? && v.value.lat.None? ==> FieldError(LatField, Required) in ErrorsOf(r)
    ensures v.Some? && v.value.lng.None? ==> FieldError(LngField, Required) in ErrorsOf(r)
    ensures forall e | e in ErrorsOf(r) :: e.field in {LocationField, LatField, LngField}
  {
    match v
    case None => Failure([FieldError(LocationField, Required)])
    case Some(loc) =>
      var lat, lng := CoordinateErrors(loc.lat, LatField), CoordinateErrors(loc.lng, LngField);
      if lat == [] && lng == [] then Success(Location(loc.lat.value, loc.lng.value))
      else
        HasErrorOnConcat(lat, lng, LatField);
        HasErrorOnConcat(lat, lng, LngField);
        HasErrorOnConcat(lat, lng, LocationField);
        Failure(lat + lng)
  }

  // ---------------------------------------------------------------- measurement values

  const TempRange := "Temperature must be between -20 and 40."
  const TempStep := "Temperature must be in steps of 0.1."
  const HumRange := "Humidity must be between 20 and 100."
  const HumStep := "Humidity must be in steps of 0.1."
  const RainRange := "Rain must be between 0 and 2."
  const RainStep := "Rain must be in steps of 0.2."

  /** `v` is a whole number of `1 / perUnit` steps: `v * perUnit` has no fractional part. */
  predicate OnStep(v: real, perUnit: int) {
    (v * perUnit as real).Floor as real == v * perUnit as real
  }

  /** `MeasurementSerializer.validate`: None when accepted, else the value field's message; range before step. */
  function CheckValue(l: Label, v: real): (r: Option<string>)
    ensures r.None? <==> ValueAccepted(l, v)
    ensures r.Some? ==> r.value in {TempRange, TempStep, HumRange, HumStep, RainRange, RainStep}
  {
    match l
    case Temp =>
      if !(-20.0 <= v <= 40.0) then Some(TempRange)
      else if !OnStep(v, 10) then Some(TempStep)
      else None
    case Hum =>
      if !(20.0 <= v <= 100.0) then Some(HumRange)
      else if !OnStep(v, 10) then Some(HumStep)
      else None
    case Rain =>
      if !(0.0 <= v <= 2.0) then Some(RainRange)
      else if !OnStep(v, 5) then Some(RainStep)
      else None
  }

  /** The `k`-th point of the grid of step `1 / n`. */
  function Grid(k: int, n: int): real
    requires n > 0
  {
    k as real / n as real
  }

  lemma OnStepIsGrid(v: real, n: int)
    requires n > 0
    ensures OnStep(v, n) ==> v == Grid((v * n as real).Floor, n)
    ensures forall k: int :: v == Grid(k, n) ==> OnStep(v, n) && (v * n as real).Floor == k
  {
    forall k: int | v == Grid(k, n) ensures OnStep(v, n) && (v * n as real).Floor == k {
      assert v * n as real == k as real;
    }
  }

  lemma GridBounds(v: real, n: int, lo: int, hi: int)
    requires n > 0 && OnStep(v, n)
    ensures (lo as real / n as real <= v <= hi as real / n as real) <==> lo <= (v * n as real).Floor <= hi
  {
    OnStepIsGrid(v, n);
    var k := (v * n as real).Floor;
    assert v * n as real == k as real;
    if lo as real / n as real <= v { assert lo as real <= v * n as real; }
    if v <= hi as real / n as real { assert v * n as real <= hi as real; }
  }

  /** A temperature is accepted iff it is one of -20.0, -19.9, ..., 40.0. */
  lemma TempAcceptedIffGrid(v: real)
    ensures CheckValue(Temp, v) == None <==> exists k: int :: -200 <= k <= 400 && v == Grid(k, 10)
  {
    OnStepIsGrid(v, 10);
    if OnStep(v, 10) { GridBounds(v, 10, -200, 400); }
  }

  /** A humidity is accepted iff it is one of 20.0, 20.1, ..., 100.0. */
  lemma HumAcceptedIffGrid(v: real)
    ensures CheckValue(Hum, v) == None <==> exists k: int :: 200 <= k <= 1000 && v == Grid(k, 10)
  {
    OnStepIsGrid(v, 10);
    if OnStep(v, 10) { GridBounds(v, 10, 200, 1000); }
  }

  /** A rain value is accepted iff it is one of 0.0, 0.2, ..., 2.0. */
  lemma RainAcceptedIffGrid(v: real)
    ensures CheckValue(Rain, v) == None <==> exists k: int :: 0 <= k <= 10 && v == Grid(k, 5)
  {
    OnStepIsGrid(v, 5);
    if OnStep(v, 5) { GridBounds(v, 5, 0, 10); }
  }

  /** An out-of-range value reports the range message, whether or not it is on the step. */
  lemma RangeCheckedBeforeStep(l: Label, v: real)
    ensures l == Temp && !(-20.0 <= v <= 40.0) ==> CheckValue(l, v) == Some(TempRange)
    ensures l == Hum && !(20.0 <= v <= 100.0) ==> CheckValue(l, v) == Some(HumRange)
    ensures l == Rain && !(0.0 <= v <= 2.0) ==> CheckValue(l, v) == Some(RainRange)
  {
  }

  // ---------------------------------------------------------------- measurements

  /** The entry's label: given, and one of the choices. */
  function LabelOf(raw: RawEntry): Option<Label> {
    if raw.kind.Some? then ParseLabel(raw.kind.value) else None
  }

  /**
   * One list item: both fields are required and the label must be a choice,
   * each field reporting its own error; only when both pass do the value
   * rules of the label run.
   */
  function ValidateEntry(raw: RawEntry, i: nat): (r: Result<Entry, seq<FieldError>>)
    ensures r.Success? <==> LabelOf(raw).Some? && raw.value.Some? && ValueAccepted(LabelOf(raw).value, raw.value.value)
    ensures r.Success? ==> r.value == Entry(LabelOf(raw).value, raw.value.value)
    ensures r.Failure? ==> r.error != []
    ensures HasErrorOn(ErrorsOf(r), LabelField(i)) <==> LabelOf(raw).None?
    ensures HasErrorOn(ErrorsOf(r), ValueField(i)) <==>
              raw.value.None? || (LabelOf(raw).Some? && !ValueAccepted(LabelOf(raw).value, raw.value.value))
    ensures raw.kind.None? ==> FieldError(LabelField(i), Required) in ErrorsOf(r)
    ensures raw.value.None? ==> FieldError(ValueField(i), Required) in ErrorsOf(r)
    ensures forall e | e in ErrorsOf(r) :: e.field == LabelField(i) || e.field == ValueField(i)
  {
    var labelErrors :=
      if raw.kind.None? then [FieldError(LabelField(i), Required)]
      else if ParseLabel(raw.kind.value).None? then [FieldError(LabelField(i), InvalidChoice(raw.kind.value))]
      else [];
    var valueErrors := if raw.value.None? then [FieldError(ValueField(i), Required)] else [];
    if labelErrors != [] || valueErrors != [] then
      HasErrorOnConcat(labelErrors, valueErrors, LabelField(i));
      HasErrorOnConcat(labelErrors, valueErrors, ValueField(i));
      Failure(labelErrors + valueErrors)
    else
      var l := LabelOf(raw).value;
      match CheckValue(l, raw.value.value)
      case Some(message) => Failure([FieldError(ValueField(i), message)])
      case None => Success(Entry(l, raw.value.value))
  }

  /** Combines per-item results: all values when every item passed, else every item's errors. */
  function Collect<T>(rs: seq<Result<T, seq<FieldError>>>): (r: Result<seq<T>, seq<FieldError>>)
    requires forall i | 0 <= i < |rs| :: rs[i].Failure? ==> rs[i].error != []
    ensures r.Success? <==> forall i | 0 <= i < |rs| :: rs[i].Success?
    ensures r.Success? ==> |r.value| == |rs| && forall i | 0 <= i < |rs| :: rs[i] == Success(r.value[i])
    ensures r.Failure? ==> r.error != []
  {
    if rs == [] then Success([])
    else
      var n := |rs| - 1;
      var front := Collect(rs[..n]);
      assert forall i | 0 <= i < n :: rs[..n][i] == rs[i];
      if front.Success? && rs[n].Success? then
        var values := front.value + [rs[n].value];
        assert forall i | 0 <= i < n :: values[i] == front.value[i];
        Success(values)
      else
        Failure(ErrorsOf(front) + ErrorsOf(rs[n]))
  }

  /** The combined errors are exactly the items' errors. */
  lemma {:induction false} CollectErrors<T>(rs: seq<Result<T, seq<FieldError>>>)
    requires forall i | 0 <= i < |rs| :: rs[i].Failure? ==> rs[i].error != []
    ensures forall e :: e in ErrorsOf(Collect(rs)) <==> exists i | 0 <= i < |rs| :: e in ErrorsOf(rs[i])
    decreases |rs|
  {
    if rs != [] {
      var n := |rs| - 1;
      var front := rs[..n];
      assert forall i | 0 <= i < n :: front[i] == rs[i];
      CollectErrors(front);
      forall e ensures e in ErrorsOf(Collect(rs)) <==> exists i | 0 <= i < |rs| :: e in ErrorsOf(rs[i]) {
        if e in ErrorsOf(Collect(rs)) {
          if e !in ErrorsOf(rs[n]) {
            var i :| 0 <= i < n && e in ErrorsOf(front[i]);
            assert e in ErrorsOf(rs[i]);
          }
        } else {
          forall i | 0 <= i < |rs| ensures e !in ErrorsOf(rs[i]) {
            if i < n {
              assert rs[i] == front[i];
            }
          }
        }
      }
    }
  }

  /** Every item is validated and every item's error kept. */
  function ValidateEntries(raws: seq<RawEntry>): (r: Result<seq<Entry>, seq<FieldError>>)
    ensures r.Success? <==> forall i | 0 <= i < |raws| :: ValidateEntry(raws[i], i).Success?
    ensures r.Success? ==> |r.value| == |raws|
    ensures r.Success? ==> forall i | 0 <= i < |raws| :: ValidateEntry(raws[i], i) == Success(r.value[i])
    ensures r.Failure? ==> r.error != []
    ensures forall e :: e in ErrorsOf(r) <==> exists i | 0 <= i < |raws| :: e in ErrorsOf(ValidateEntry(raws[i], i))
  {
    var rs := seq(|raws|, i requires 0 <= i < |raws| => ValidateEntry(raws[i], i));
    assert forall i | 0 <= i < |raws| :: rs[i] == ValidateEntry(raws[i], i);
    CollectErrors(rs);
    Collect(rs)
  }

  /** An item's own field has an error in the list iff that item reports it. */
  lemma EntriesErrorOn(raws: seq<RawEntry>, i: nat, f: Field)
    requires i < |raws| && (f == LabelField(i) || f == ValueField(i))
    ensures HasErrorOn(ErrorsOf(ValidateEntries(raws)), f) <==> HasErrorOn(ErrorsOf(ValidateEntry(raws[i], i)), f)
  {
    if HasErrorOn(ErrorsOf(ValidateEntries(raws)), f) {
      var e :| e in ErrorsOf(ValidateEntries(raws)) && e.field == f;
      ErrorFromItsItem(raws, e);
    }
    if HasErrorOn(ErrorsOf(ValidateEntry(raws[i], i)), f) {
      ItemErrorKept(raws, i);
    }
  }

  lemma ErrorFromItsItem(raws: seq<RawEntry>, e: FieldError)
    requires e in ErrorsOf(ValidateEntries(raws)) && (e.field.LabelField? || e.field.ValueField?)
    ensures e.field.index < |raws| && e in ErrorsOf(ValidateEntry(raws[e.field.index], e.field.index))
  {
    var j :| 0 <= j < |raws| && e in ErrorsOf(ValidateEntry(raws[j], j));
    assert e.field == LabelField(j) || e.field == ValueField(j);
  }

  lemma ItemErrorKept(raws: seq<RawEntry>, i: nat)
    requires i < |raws| && ValidateEntry(raws[i], i).Failure?
    ensures ErrorsOf(ValidateEntry(raws[i], i))[0] in ErrorsOf(ValidateEntries(raws))
  {
    var item := ErrorsOf(ValidateEntry(raws[i], i));
    assert item[0] in item;
  }

  /** The list reports errors only on its items' fields. */
  lemma EntriesErrorsOnItems(raws: seq<RawEntry>, e: FieldError)
    requires e in ErrorsOf(ValidateEntries(raws))
    ensures (e.field.LabelField? || e.field.ValueField?) && e.field.index < |raws|
  {
    var j :| 0 <= j < |raws| && e in ErrorsOf(ValidateEntry(raws[j], j));
    assert e.field == LabelField(j) || e.field == ValueField(j);
  }

  const EmptyMeasurements := "Measurements cannot be empty."

  /** The list field, then `validate_measurements`: an empty list is rejected. */
  function ValidateMeasurements(v: Option<seq<RawEntry>>): (r: Result<seq<Entry>, seq<FieldError>>)
    ensures r.Success? ==> v.Some? && |r.value| == |v.value| > 0
    ensures r.Success? ==> forall i | 0 <= i < |v.value| :: ValidateEntry(v.value[i], i) == Success(r.value[i])
    ensures r.Success? <==> v.Some? && |v.value| > 0 && forall i | 0 <= i < |v.value| :: ValidateEntry(v.value[i], i).Success?
    ensures r.Failure? ==> r.error != []
    ensures forall e | e in ErrorsOf(r) :: e.field.LabelField? || e.field.ValueField? || e.field == MeasurementsField
  {
    match v
    case None => Failure([FieldError(MeasurementsField, Required)])
    case Some(raws) =>
      match ValidateEntries(raws)
      case Failure(errors) => Failure(errors)
      case Success(entries) =>
        if entries == [] then Failure([FieldError(MeasurementsField, EmptyMeasurements)]) else Success(entries)
  }


  // ---------------------------------------------------------------- datalogger and at

  const NotAValidDatalogger := "'datalogger' field must be a valid UUID."

  /**
   * The text field (stripped, not blank, then its null-character validator),
   * then `validate_datalogger`: `str(UUID(value))`.
   */
  function ValidateDatalogger(v: Option<string>): (r: Result<Uuid, seq<FieldError>>)
    ensures r.Success? <==> v.Some? && ParseUuid(Trim(v.value)).Some?
    ensures r.Success? ==> r.value == ParseUuid(Trim(v.value)).value && IsCanonical(r.value)
    ensures r.Failure? ==> |r.error| == 1 && r.error[0].field == DataloggerField
    ensures v.None? ==> r.Failure? && r.error[0].message == Required
    ensures v.Some? && '\0' in Trim(v.value) ==> r.Failure? && r.error[0].message == NullCharacters
  {
    match v
    case None => Failure([FieldError(DataloggerField, Required)])
    case Some(s) =>
      if Trim(s) == "" then
        EmptyIdRejected();
        Failure([FieldError(DataloggerField, Blank)])
      else if '\0' in Trim(s) then
        NulNotAnIdChar(Trim(s));
        Failure([FieldError(DataloggerField, NullCharacters)])
      else match ParseUuid(Trim(s))
        case None => Failure([FieldError(DataloggerField, NotAValidDatalogger)])
        case Some(u) => Success(u)
  }

  const FutureAt := "The 'at' datetime cannot be in the future."

  /** The datetime field, then `validate_at`: strictly after `now` is rejected, `now` itself accepted. */
  function ValidateAt(v: Option<TimeInput>, now: int): (r: Result<int, seq<FieldError>>)
    ensures r.Success? <==> v.Some? && v.value.Iso? && v.value.seconds <= now
    ensures r.Success? ==> r.value == v.value.seconds
    ensures r.Failure? ==> |r.error| == 1 && r.error[0].field == AtField
  {
    match v
    case None => Failure([FieldError(AtField, Required)])
    case Some(NotIso) => Failure([FieldError(AtField, DatetimeFormat)])
    case Some(Empty) => Failure([FieldError(AtField, DatetimeFormat)])
    case Some(Iso(t)) => if t > now then Failure([FieldError(AtField, FutureAt)]) else Success(t)
  }

  // ---------------------------------------------------------------- the payload

  /** `DataRecordRequestSerializer.is_valid`: all four fields are validated and all their errors collected. */
  function ValidatePayload(raw: RawPayload, now: int): (r: Result<Payload, seq<FieldError>>)
    ensures r.Failure? ==> r.error != []
    ensures r.Success? ==> raw.measurements.Some? && |r.value.measurements| == |raw.measurements.value| > 0
    ensures r.Success? ==> r.value.at <= now
    ensures r.Success? ==> IsCanonical(r.value.datalogger)
  {
    var datalogger := ValidateDatalogger(raw.datalogger);
    var location := ValidateLocation(raw.location);
    var measurements := ValidateMeasurements(raw.measurements);
    var at := ValidateAt(raw.at, now);
    if datalogger.Success? && location.Success? && measurements.Success? && at.Success? then
      Success(Payload(datalogger.value, location.value, measurements.value, at.value))
    else
      Failure(ErrorsOf(datalogger) + ErrorsOf(location) + ErrorsOf(measurements) + ErrorsOf(at))
  }

  /** The value rules of a label, stated without the messages. */
  predicate ValueAccepted(l: Label, v: real) {
    match l
    case Temp => -20.0 <= v <= 40.0 && OnStep(v, 10)
    case Hum => 20.0 <= v <= 100.0 && OnStep(v, 10)
    case Rain => 0.0 <= v <= 2.0 && OnStep(v, 5)
  }

  /** What an acceptable payload is, field by field. */
  ghost predicate PayloadConforms(raw: RawPayload, now: int) {
    && raw.datalogger.Some? && ParseUuid(Trim(raw.datalogger.value)).Some?
    && raw.location.Some? && raw.location.value.lat.Some? && raw.location.value.lng.Some?
    && -90.0 <= raw.location.value.lat.value <= 90.0 && -180.0 <= raw.location.value.lng.value <= 180.0
    && raw.measurements.Some? && |raw.measurements.value| > 0
    && (forall i | 0 <= i < |raw.measurements.value| ::
          var e := raw.measurements.value[i];
          LabelOf(e).Some? && e.value.Some? && ValueAccepted(LabelOf(e).value, e.value.value))
    && raw.at.Some? && raw.at.value.Iso? && raw.at.value.seconds <= now
  }

  /** A payload is accepted iff it conforms, and the accepted payload holds the inputs, canonicalised. */
  lemma AcceptedIffConforms(raw: RawPayload, now: int)
    ensures ValidatePayload(raw, now).Success? <==> PayloadConforms(raw, now)
    ensures ValidatePayload(raw, now).Success? ==>
              var p := ValidatePayload(raw, now).value;
              && p.datalogger == ParseUuid(Trim(raw.datalogger.value)).value
              && p.location == Location(raw.location.value.lat.value, raw.location.value.lng.value)
              && p.at == raw.at.value.seconds
              && (forall i | 0 <= i < |p.measurements| ::
                    var e := raw.measurements.value[i];
                    p.measurements[i] == Entry(LabelOf(e).value, e.value.value))
  {
    MeasurementsConform(raw.measurements);
  }

  /** The list is accepted iff it is present, non-empty and every item conforms; the items keep their inputs. */
  lemma MeasurementsConform(v: Option<seq<RawEntry>>)
    ensures ValidateMeasurements(v).Success? <==>
              && v.Some? && |v.value| > 0
              && forall i | 0 <= i < |v.value| ::
                   var e := v.value[i];
                   LabelOf(e).Some? && e.value.Some? && ValueAccepted(LabelOf(e).value, e.value.value)
    ensures ValidateMeasurements(v).Success? ==>
              forall i | 0 <= i < |v.value| ::
                var e := v.value[i];
                ValidateMeasurements(v).value[i] == Entry(LabelOf(e).value, e.value.value)
  {
    if v.Some? {
      forall i | 0 <= i < |v.value|
        ensures ValidateEntry(v.value[i], i).Success? <==>
                  var e := v.value[i];
                  LabelOf(e).Some? && e.value.Some? && ValueAccepted(LabelOf(e).value, e.value.value)
      {
      }
    }
  }

  /** Which validator reports a field is decided by the field alone. */
  lemma PayloadErrorsSplit(raw: RawPayload, now: int, f: Field)
    ensures HasErrorOn(ErrorsOf(ValidatePayload(raw, now)), f) <==>
              || HasErrorOn(ErrorsOf(ValidateDatalogger(raw.datalogger)), f)
              || HasErrorOn(ErrorsOf(ValidateLocation(raw.location)), f)
              || HasErrorOn(ErrorsOf(ValidateMeasurements(raw.measurements)), f)
              || HasErrorOn(ErrorsOf(ValidateAt(raw.at, now)), f)
  {
    var datalogger := ErrorsOf(ValidateDatalogger(raw.datalogger));
    var location := ErrorsOf(ValidateLocation(raw.location));
    var measurements := ErrorsOf(ValidateMeasurements(raw.measurements));
    var at := ErrorsOf(ValidateAt(raw.at, now));
    assert ErrorsOf(ValidatePayload(raw, now)) == datalogger + location + measurements + at;
    HasErrorOnConcat(datalogger + location + measurements, at, f);
    HasErrorOnConcat(datalogger + location, measurements, f);
    HasErrorOnConcat(datalogger, location, f);
  }

  /** Every failing field is reported and no passing field is: the errors name exactly the bad fields. */
  lemma ErrorsNameBadFields(raw: RawPayload, now: int)
    ensures var errors := ErrorsOf(ValidatePayload(raw, now));
      && (HasErrorOn(errors, DataloggerField) <==> !(raw.datalogger.Some? && ParseUuid(Trim(raw.datalogger.value)).Some?))
      && (HasErrorOn(errors, LocationField) <==> raw.location.None?)
      && (HasErrorOn(errors, LatField) <==>
            raw.location.Some? && !(raw.location.value.lat.Some? && -90.0 <= raw.location.value.lat.value <= 90.0))
      && (HasErrorOn(errors, LngField) <==>
            raw.location.Some? && !(raw.location.value.lng.Some? && -180.0 <= raw.location.value.lng.value <= 180.0))
      && (HasErrorOn(errors, AtField) <==> !(raw.at.Some? && raw.at.value.Iso? && raw.at.value.seconds <= now))
  {
    DataloggerErrorReported(raw, now);
    LocationErrorReported(raw, now, LocationField);
    LocationErrorReported(raw, now, LatField);
    LocationErrorReported(raw, now, LngField);
    AtErrorReported(raw, now);
  }

  lemma DataloggerErrorReported(raw: RawPayload, now: int)
    ensures HasErrorOn(ErrorsOf(ValidatePayload(raw, now)), DataloggerField) <==>
              !(raw.datalogger.Some? && ParseUuid(Trim(raw.datalogger.value)).Some?)
  {
    PayloadErrorsSplit(raw, now, DataloggerField);
    var d := ErrorsOf(ValidateDatalogger(raw.datalogger));
    if d != [] { assert d[0] in d; }
  }

  lemma LocationErrorReported(raw: RawPayload, now: int, f: Field)
    requires f in {LocationField, LatField, LngField}
    ensures HasErrorOn(ErrorsOf(ValidatePayload(raw, now)), f) <==> HasErrorOn(ErrorsOf(ValidateLocation(raw.location)), f)
  {
    PayloadErrorsSplit(raw, now, f);
    OthersSilentOnLocation(raw, now, f);
  }

  /** The datalogger, list and `at` validators never report a location field. */
  lemma OthersSilentOnLocation(raw: RawPayload, now: int, f: Field)
    requires f in {LocationField, LatField, LngField}
    ensures !HasErrorOn(ErrorsOf(ValidateDatalogger(raw.datalogger)), f)
    ensures !HasErrorOn(ErrorsOf(ValidateMeasurements(raw.measurements)), f)
    ensures !HasErrorOn(ErrorsOf(ValidateAt(raw.at, now)), f)
  {
    OnlyOnField(ErrorsOf(ValidateDatalogger(raw.datalogger)), DataloggerField, f);
    OnlyOnField(ErrorsOf(ValidateAt(raw.at, now)), AtField, f);
    ListSilentOnLocation(raw.measurements, f);
  }

  lemma ListSilentOnLocation(v: Option<seq<RawEntry>>, f: Field)
    requires f in {LocationField, LatField, LngField}
    ensures !HasErrorOn(ErrorsOf(ValidateMeasurements(v)), f)
  {
    var m := ErrorsOf(ValidateMeasurements(v));
    assert forall e | e in m :: e.field != f;
  }

  /** A list of errors that is empty or one error on `g` has none on another field. */
  lemma OnlyOnField(errors: seq<FieldError>, g: Field, f: Field)
    requires errors == [] || (|errors| == 1 && errors[0].field == g)
    requires f != g
    ensures !HasErrorOn(errors, f)
  {
    if errors != [] {
      assert errors == [errors[0]];
    }
  }

  lemma AtErrorReported(raw: RawPayload, now: int)
    ensures HasErrorOn(ErrorsOf(ValidatePayload(raw, now)), AtField) <==>
              !(raw.at.Some? && raw.at.value.Iso? && raw.at.value.seconds <= now)
  {
    PayloadErrorsSplit(raw, now, AtField);
    var a := ErrorsOf(ValidateAt(raw.at, now));
    if a != [] { assert a[0] in a; }
  }

  /** The list's own error appears iff the list is absent or empty; an empty list is never accepted. */
  lemma EmptyListReported(raw: RawPayload, now: int)
    ensures HasErrorOn(ErrorsOf(ValidatePayload(raw, now)), MeasurementsField) <==>
              raw.measurements.None? || raw.measurements.value == []
    ensures raw.measurements == Some([]) ==> ValidatePayload(raw, now).Failure?
  {
    PayloadErrorsSplit(raw, now, MeasurementsField);
    var m := ErrorsOf(ValidateMeasurements(raw.measurements));
    if raw.measurements.None? || raw.measurements.value == [] {
      assert m[0] in m;
    } else if HasErrorOn(m, MeasurementsField) {
      var e :| e in m && e.field == MeasurementsField;
      EntriesErrorsOnItems(raw.measurements.value, e);
    }
  }

  /** An item's label error appears iff its label is absent or not a choice; its value error iff the value is absent, or the label is a choice and the value breaks its rules. */
  lemma EntryErrorsReported(raw: RawPayload, now: int, i: nat)
    requires raw.measurements.Some? && i < |raw.measurements.value|
    ensures var errors := ErrorsOf(ValidatePayload(raw, now));
            var e := raw.measurements.value[i];
      && (HasErrorOn(errors, LabelField(i)) <==> LabelOf(e).None?)
      && (HasErrorOn(errors, ValueField(i)) <==>
            e.value.None? || (LabelOf(e).Some? && !ValueAccepted(LabelOf(e).value, e.value.value)))
  {
    EntryErrorReported(raw, now, i, LabelField(i));
    EntryErrorReported(raw, now, i, ValueField(i));
  }

  lemma EntryErrorReported(raw: RawPayload, now: int, i: nat, f: Field)
    requires raw.measurements.Some? && i < |raw.measurements.value|
    requires f == LabelField(i) || f == ValueField(i)
    ensures HasErrorOn(ErrorsOf(ValidatePayload(raw, now)), f) <==>
              HasErrorOn(ErrorsOf(ValidateEntry(raw.measurements.value[i], i)), f)
  {
    var raws := raw.measurements.value;
    PayloadErrorsSplit(raw, now, f);
    OnlyOnField(ErrorsOf(ValidateDatalogger(raw.datalogger)), DataloggerField, f);
    OnlyOnField(ErrorsOf(ValidateAt(raw.at, now)), AtField, f);
    EntriesErrorOn(raws, i, f);
  }

  /** Re-validating a validated id returns it unchanged. */
  lemma DataloggerRevalidation(v: Option<string>)
    requires ValidateDatalogger(v).Success?
    ensures ValidateDatalogger(Some(ValidateDatalogger(v).value)) == ValidateDatalogger(v)
  {
    var u := ValidateDatalogger(v).value;
    forall i | 0 <= i < |u| ensures !IsWhitespace(u[i]) {
      assert IsHyphenPosition(i) || IsLowerHexDigit(u[i]);
    }
    TrimNoWhitespace(u);
    CanonicalRoundTrip(u);
  }

  // ---------------------------------------------------------------- summary query parameters

  datatype SummaryParams = SummaryParams(
    since: Option<TimeInput>,
    before: Option<TimeInput>,
    datalogger: Option<string>,
    span: Option<string>)

  datatype SummaryQuery = SummaryQuery(since: Option<int>, before: Option<int>, datalogger: Uuid, span: Option<Span>)

  /** The span choice: exactly "hour" and "day". */
  function SpanChoice(s: string): (r: Option<Span>)
    ensures r == Some(Hour) <==> s == "hour"
    ensures r == Some(Day) <==> s == "day"
    ensures r.None? <==> s != "hour" && s != "day"
  {
    if s == "day" then Some(Day) else if s == "hour" then Some(Hour) else None
  }

  /**
   * An optional datetime query parameter; an empty value of a field that is
   * not required is skipped as if absent.
   */
  function OptionalDateTime(v: Option<TimeInput>, f: Field): (r: Result<Option<int>, seq<FieldError>>)
    ensures r.Failure? <==> v == Some(NotIso)
    ensures r.Success? ==> r.value == GivenTime(v)
    ensures v == Some(Empty) ==> r == Success(None)
    ensures r.Failure? ==> r.error == [FieldError(f, DatetimeFormat)]
  {
    match v
    case None => Success(None)
    case Some(Empty) => Success(None)
    case Some(NotIso) => Failure([FieldError(f, DatetimeFormat)])
    case Some(Iso(t)) => Success(Some(t))
  }

  function RequiredUuid(v: Option<string>): (r: Result<Uuid, seq<FieldError>>)
    ensures r.Success? <==> v.Some? && ParseUuid(v.value).Some?
    ensures r.Success? ==> r.value == ParseUuid(v.value).value
    ensures r.Failure? ==> r.error != [] && r.error[0].field == DataloggerField
  {
    match v
    case None => Failure([FieldError(DataloggerField, Required)])
    case Some(s) =>
      match ParseUuid(s)
      case None => Failure([FieldError(DataloggerField, NotAUuid)])
      case Some(u) => Success(u)
  }

  /** The optional span choice; an empty value is skipped as if absent. */
  function OptionalSpan(v: Option<string>): (r: Result<Option<Span>, seq<FieldError>>)
    ensures r.Failure? <==> v.Some? && v.value != "" && SpanChoice(v.value).None?
    ensures r.Success? ==> r.value == if v.Some? && v.value != "" then SpanChoice(v.value) else None
    ensures r.Failure? ==> r.error == [FieldError(SpanField, InvalidChoice(v.value))]
  {
    match v
    case None => Success(None)
    case Some("") => Success(None)
    case Some(s) =>
      match SpanChoice(s)
      case None => Failure([FieldError(SpanField, InvalidChoice(s))])
      case Some(span) => Success(Some(span))
  }

  /** `SummaryQueryParamsSerializer`: datalogger required, since/before/span optional, span one of hour/day. */
  function ValidateSummaryParams(q: SummaryParams): (r: Result<SummaryQuery, seq<FieldError>>)
    ensures r.Success? <==>
              && q.since != Some(NotIso) && q.before != Some(NotIso)
              && q.datalogger.Some? && ParseUuid(q.datalogger.value).Some?
              && (q.span.Some? ==> q.span.value in {"hour", "day", ""})
    ensures r.Success? ==> r.value.since == GivenTime(q.since) && r.value.before == GivenTime(q.before)
    ensures r.Success? ==> r.value.datalogger == ParseUuid(q.datalogger.value).value
    ensures r.Success? ==> r.value.span == if q.span.Some? && q.span.value != "" then SpanChoice(q.span.value) else None
    ensures r.Failure? ==> r.error != []
  {
    var since := OptionalDateTime(q.since, SinceField);
    var before := OptionalDateTime(q.before, BeforeField);
    var datalogger := RequiredUuid(q.datalogger);
    var span := OptionalSpan(q.span);
    if since.Success? && before.Success? && datalogger.Success? && span.Success? then
      Success(SummaryQuery(since.value, before.value, datalogger.value, span.value))
    else
      Failure(ErrorsOf(since) + ErrorsOf(before) + ErrorsOf(datalogger) + ErrorsOf(span))
  }

  /** An empty `span` is no span: the query lists the raw rows, as if `span` were not given. */
  lemma BlankSpanIsAbsent(q: SummaryParams)
    ensures ValidateSummaryParams(q.(span := Some(""))) == ValidateSummaryParams(q.(span := None))
    ensures ValidateSummaryParams(q.(span := Some(""))).Success? ==> ValidateSummaryParams(q.(span := Some(""))).value.span.None?
  {
  }

  /** An empty `since` or `before` is no bound. */
  lemma BlankBoundsAreAbsent(q: SummaryParams)
    ensures ValidateSummaryParams(q.(since := Some(Empty))) == ValidateSummaryParams(q.(since := None))
    ensures ValidateSummaryParams(q.(before := Some(Empty))) == ValidateSummaryParams(q.(before := None))
  {
  }

  // ---------------------------------------------------------------- create

  /** The rows an accepted payload becomes: one per entry, in order, all sharing the owner and `at`. */
  function RowsOf(p: Payload): (rows: seq<Measurement>)
    ensures |rows| == |p.measurements|
    ensures forall i | 0 <= i < |rows| ::
              && rows[i].datalogger == p.datalogger && rows[i].at == p.at
              && rows[i].kind == p.measurements[i].kind && rows[i].value == p.measurements[i].value
  {
    seq(|p.measurements|, i requires 0 <= i < |p.measurements| =>
      Measurement(p.datalogger, p.measurements[i].kind, p.measurements[i].value, p.at))
  }

  /** Every row of an accepted payload satisfies its label's rules and is not in the future. */
  lemma AcceptedRowsConform(raw: RawPayload, now: int)
    requires ValidatePayload(raw, now).Success?
    ensures var rows := RowsOf(ValidatePayload(raw, now).value);
      && |rows| == |raw.measurements.value| > 0
      && forall i | 0 <= i < |rows| ::
           && ValueAccepted(rows[i].kind, rows[i].value)
           && rows[i].at <= now
           && IsCanonical(rows[i].datalogger)
           && Some(LabelName(rows[i].kind)) == raw.measurements.value[i].kind
           && Some(rows[i].value) == raw.measurements.value[i].value
  {
    var p := ValidatePayload(raw, now).value;
    var entries := ValidateMeasurements(raw.measurements);
    assert entries.Success? && p.measurements == entries.value;
    forall i | 0 <= i < |p.measurements|
      ensures ValueAccepted(p.measurements[i].kind, p.measurements[i].value)
      ensures Some(LabelName(p.measurements[i].kind)) == raw.measurements.value[i].kind
      ensures Some(p.measurements[i].value) == raw.measurements.value[i].value
    {
      AcceptedEntryConforms(raw.measurements.value[i], i, p.measurements[i]);
    }
  }

  /** An accepted item keeps its label and value, and the value obeys the label's rules. */
  lemma AcceptedEntryConforms(raw: RawEntry, i: nat, e: Entry)
    requires ValidateEntry(raw, i) == Success(e)
    ensures ValueAccepted(e.kind, e.value)
    ensures Some(LabelName(e.kind)) == raw.kind && Some(e.value) == raw.value
  {
  }

  /** A store write that raised: step 0 is the get-or-create, step k the k-th measurement. */
  datatype StoreFault = WriteFailed(step: nat)

  /** What `create` hands back: the id, the location as stored, and the new rows. */
  datatype Created = Created(datalogger: Uuid, location: Location, measurements: seq<Measurement>)

  /**
   * `DataRecordRequestSerializer.create`, one atomic transaction: get-or-create
   * the datalogger, then one measurement per entry sharing `at`.  `fault`
   * stands for the store raising at that write; the transaction then rolls
   * back and nothing it wrote remains.
   */
  method Create(store: Store, p: Payload, fault: Option<nat>) returns (r: Result<Created, StoreFault>)
    requires store.Valid() && IsCanonical(p.datalogger)
    modifies store
    ensures store.Valid()
    ensures r.Failure? <==> fault.Some? && fault.value <= |p.measurements|
    ensures r.Failure? ==> r.error == WriteFailed(fault.value)
    ensures r.Failure? ==> store.dataloggers == old(store.dataloggers) && store.measurements == old(store.measurements)
    ensures r.Success? ==>
              && store.dataloggers == Register(old(store.dataloggers), p.datalogger, p.location)
              && store.measurements == old(store.measurements) + RowsOf(p)
              && r.value == Created(p.datalogger, store.dataloggers[p.datalogger], RowsOf(p))
  {
    var savedDataloggers, savedMeasurements := store.dataloggers, store.measurements;
    if fault == Some(0) {
      return Failure(WriteFailed(0));
    }
    var stored, _ := store.GetOrCreate(p.datalogger, p.location);
    var instances: seq<Measurement> := [];
    for i := 0 to |p.measurements|
      invariant store.Valid()
      invariant store.dataloggers == Register(savedDataloggers, p.datalogger, p.location)
      invariant stored == store.dataloggers[p.datalogger]
      invariant instances == RowsOf(p)[..i]
      invariant store.measurements == savedMeasurements + instances
      invariant fault.None? || fault.value == 0 || fault.value > i
    {
      if fault == Some(i + 1) {
        store.Restore(savedDataloggers, savedMeasurements);
        return Failure(WriteFailed(i + 1));
      }
      var e := p.measurements[i];
      var m := store.CreateMeasurement(p.datalogger, e.kind, e.value, p.at);
      instances := instances + [m];
    }
    assert RowsOf(p)[..|p.measurements|] == RowsOf(p);
    return Success(Created(p.datalogger, stored, instances));
  }
}
