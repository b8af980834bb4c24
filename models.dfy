/**
 * The records of the system and the store that holds them: a datalogger is
 * keyed by its UUID (the primary key, so one row per id) and carries a
 * location; a measurement belongs to exactly one datalogger and is deleted
 * with it.
 */
module Models {
  import opened Wrappers
  import opened Uuids

  /** `Measurement.LABEL_CHOICES`. */
  datatype Label = Temp | Rain | Hum

  function LabelName(l: Label): string {
    match l
    case Temp => "temp"
    case Rain => "rain"
    case Hum => "hum"
  }

  /** The label choice field: exactly the three choice strings are labels. */
  function ParseLabel(s: string): (r: Option<Label>)
    ensures r.Some? <==> (s == "temp" || s == "rain" || s == "hum")
    ensures r.Some? ==> LabelName(r.value) == s
    ensures forall l: Label :: LabelName(l) == s ==> r == Some(l)
  {
    if s == "temp" then Some(Temp)
    else if s == "rain" then Some(Rain)
    else if s == "hum" then Some(Hum)
    else None
  }

  /** A datalogger id, always in canonical UUID form inside the store. */
  type Uuid = string

  datatype Location = Location(lat: real, lng: real)

  /** One measurement row; `datalogger` is its foreign key. */
  datatype Measurement = Measurement(datalogger: Uuid, kind: Label, value: real, at: int)

  /** The rows that survive deleting datalogger `id`, in their original order. */
  function Detached(ms: seq<Measurement>, id: Uuid): (r: seq<Measurement>)
    ensures forall m: Measurement :: m in r <==> m in ms && m.datalogger != id
    ensures forall m: Measurement :: m.datalogger != id ==> multiset(r)[m] == multiset(ms)[m]
  {
    if ms == [] then []
    else
      var rest := Detached(ms[..|ms| - 1], id);
      var last := ms[|ms| - 1];
      assert ms == ms[..|ms| - 1] + [last];
      if last.datalogger == id then rest else rest + [last]
  }

  /** `get_or_create`'s effect on the datalogger table: a known id keeps its location. */
  function Register(dataloggers: map<Uuid, Location>, id: Uuid, defaults: Location): (r: map<Uuid, Location>)
    ensures r.Keys == dataloggers.Keys + {id}
    ensures id in dataloggers ==> r == dataloggers
    ensures id !in dataloggers ==> r[id] == defaults
    ensures forall other | other in dataloggers :: r[other] == dataloggers[other]
  {
    if id in dataloggers then dataloggers else dataloggers[id := defaults]
  }

  /** First write wins: registering an id twice keeps the first location. */
  lemma RegisterFirstWriteWins(dataloggers: map<Uuid, Location>, id: Uuid, first: Location, second: Location)
    ensures Register(Register(dataloggers, id, first), id, second) == Register(dataloggers, id, first)
    ensures Register(Register(dataloggers, id, first), id, second)[id] ==
            if id in dataloggers then dataloggers[id] else first
  {
  }

  /** Get-or-create adds at most one datalogger. */
  lemma RegisterAddsAtMostOne(dataloggers: map<Uuid, Location>, id: Uuid, defaults: Location)
    ensures |Register(dataloggers, id, defaults)| == if id in dataloggers then |dataloggers| else |dataloggers| + 1
  {
    if id !in dataloggers {
      assert Register(dataloggers, id, defaults).Keys == dataloggers.Keys + {id};
    }
  }

  /**
   * The in-memory store: the datalogger table and the measurement table, the
   * latter in insertion order.
   */
  class Store {
    var dataloggers: map<Uuid, Location>
    var measurements: seq<Measurement>

    /** Ids are canonical UUIDs and every measurement references an existing datalogger. */
    ghost predicate Valid()
      reads this
    {
      SnapshotValid(dataloggers, measurements)
    }

    static ghost predicate SnapshotValid(dataloggers: map<Uuid, Location>, measurements: seq<Measurement>) {
      && (forall id | id in dataloggers :: IsCanonical(id))
      && (forall i | 0 <= i < |measurements| :: measurements[i].datalogger in dataloggers)
    }

    constructor ()
      ensures Valid()
      ensures dataloggers == map[] && measurements == []
    {
      dataloggers := map[];
      measurements := [];
    }

    /** `Datalogger.objects.get_or_create(id=id, defaults=...)`. */
    method GetOrCreate(id: Uuid, defaults: Location) returns (stored: Location, created: bool)
      requires Valid() && IsCanonical(id)
      modifies this
      ensures Valid()
      ensures created <==> id !in old(dataloggers)
      ensures dataloggers == Register(old(dataloggers), id, defaults)
      ensures stored == dataloggers[id]
      ensures measurements == old(measurements)
    {
      created := id !in dataloggers;
      if created {
        dataloggers := dataloggers[id := defaults];
      }
      stored := dataloggers[id];
    }

    /** `Measurement.objects.create(...)`: appends one row owned by an existing datalogger. */
    method CreateMeasurement(datalogger: Uuid, kind: Label, value: real, at: int) returns (m: Measurement)
      requires Valid() && datalogger in dataloggers
      modifies this
      ensures Valid()
      ensures m == Measurement(datalogger, kind, value, at)
      ensures measurements == old(measurements) + [m]
      ensures dataloggers == old(dataloggers)
    {
      m := Measurement(datalogger, kind, value, at);
      measurements := measurements + [m];
    }

    /** Deleting a datalogger cascades to its measurements and to no others. */
    method Delete(id: Uuid)
      requires Valid()
      modifies this
      ensures Valid()
      ensures dataloggers == old(dataloggers) - {id}
      ensures measurements == Detached(old(measurements), id)
    {
      dataloggers := dataloggers - {id};
      measurements := Detached(measurements, id);
    }

    /** Transaction rollback: puts back a snapshot taken at the start of the transaction. */
    method Restore(savedDataloggers: map<Uuid, Location>, savedMeasurements: seq<Measurement>)
      requires SnapshotValid(savedDataloggers, savedMeasurements)
      modifies this
      ensures Valid()
      ensures dataloggers == savedDataloggers && measurements == savedMeasurements
    {
      dataloggers, measurements := savedDataloggers, savedMeasurements;
    }
  }
}
