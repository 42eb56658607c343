/**
 Extraction of the two readings from the device's untyped status: each of
 two fixed paths is walked, checking at every hop that the value is a
 non-null object holding the next key, and both leaves must pass the
 reading guard. Any failure fails the whole extraction (the program throws).
 */
module Fetch {

  import opened Wrappers
  import opened JsValue
  import opened Readings

  const TemperaturePath: seq<string> := ["components", "main", "temperatureMeasurement", "temperature"]
  const HumidityPath: seq<string> := ["components", "main", "relativeHumidityMeasurement", "humidity"]

  /** The test made before descending through key `k`. */
  predicate Descends(v: Value, k: string)
  {
    IsObject(v) && HasKey(v, k)
  }

  /** The value at the end of `path`, if every hop on the way passes `Descends`. */
  function Walk(v: Value, path: seq<string>): Option<Value>
    decreases |path|
  {
    if |path| == 0 then Some(v)
    else if Descends(v, path[0]) then Walk(Get(v, path[0]), path[1..])
    else None
  }

  /** The two readings one status yields. */
  datatype Sample = Sample(temperature: Reading, humidity: Reading)

  /**
   The success condition of the status check exactly as the program spells
   it: one conjunct per hop, in the program's order. The first hop is a plain
   property access `status.components`, which is `undefined`, and so fails
   the object test, when the key is missing.
   */
  function Guard(status: Value): (b: bool)
    ensures b <==>
      && Walk(status, TemperaturePath).Some? && IsReadingResponse(Walk(status, TemperaturePath).value)
      && Walk(status, HumidityPath).Some? && IsReadingResponse(Walk(status, HumidityPath).value)
  {
    var components := Get(status, "components");
    && IsObject(components)
    && HasKey(components, "main")
    && var main := Get(components, "main");
    && IsObject(main)
    && HasKey(main, "temperatureMeasurement")
    && var tm := Get(main, "temperatureMeasurement");
    && IsObject(tm)
    && HasKey(tm, "temperature")
    && IsReadingResponse(Get(tm, "temperature"))
    && HasKey(main, "relativeHumidityMeasurement")
    && var hm := Get(main, "relativeHumidityMeasurement");
    && IsObject(hm)
    && HasKey(hm, "humidity")
    && IsReadingResponse(Get(hm, "humidity"))
  }

  /** The reading at the end of `path`, if the walk succeeds and the leaf passes the guard. */
  function ReadingAt(status: Value, path: seq<string>): Option<ReadingResponse>
  {
    match Walk(status, path)
    case None => None
    case Some(leaf) => AsReadingResponse(leaf)
  }

  /**
   The validated extraction: both readings or, where the program throws,
   nothing. On success the readings are the converted leaves found at the two
   fixed paths.
   */
  function GetData(status: Value, parse: string -> Instant): (r: Option<Sample>)
    ensures r.Some? <==> Guard(status)
    ensures r.Some? ==>
      var tm := Get(Get(Get(status, "components"), "main"), "temperatureMeasurement");
      var hm := Get(Get(Get(status, "components"), "main"), "relativeHumidityMeasurement");
      && AsReadingResponse(Get(tm, "temperature")).Some?
      && AsReadingResponse(Get(hm, "humidity")).Some?
      && r.value.temperature == ToReading(AsReadingResponse(Get(tm, "temperature")).value, parse)
      && r.value.humidity == ToReading(AsReadingResponse(Get(hm, "humidity")).value, parse)
  {
    match (ReadingAt(status, TemperaturePath), ReadingAt(status, HumidityPath))
    case (Some(t), Some(h)) => Some(Sample(ToReading(t, parse), ToReading(h, parse)))
    case _ => None
  }

  /** Walking a path in two pieces is walking it in one. */
  lemma {:induction false} WalkAppend(v: Value, p: seq<string>, q: seq<string>)
    ensures Walk(v, p + q) == (match Walk(v, p) case None => None case Some(u) => Walk(u, q))
    decreases |p|
  {
    if |p| == 0 {
      assert p + q == q;
    } else {
      assert (p + q)[0] == p[0];
      assert (p + q)[1..] == p[1..] + q;
      if Descends(v, p[0]) {
        WalkAppend(Get(v, p[0]), p[1..], q);
      }
    }
  }

  /**
   A single hop that is missing, null or not an object, anywhere on either
   path, fails the whole extraction: neither reading is returned.
   */
  lemma BrokenHopFails(status: Value, path: seq<string>, i: nat, parse: string -> Instant)
    requires path == TemperaturePath || path == HumidityPath
    requires i < |path|
    requires Walk(status, path[..i]).Some?
    requires !Descends(Walk(status, path[..i]).value, path[i])
    ensures GetData(status, parse) == None
  {
    assert path == path[..i] + path[i..];
    WalkAppend(status, path[..i], path[i..]);
    assert path[i..][0] == path[i];
  }

  /** A leaf that is reached but fails the reading guard fails the whole extraction too. */
  lemma BadLeafFails(status: Value, path: seq<string>, parse: string -> Instant)
    requires path == TemperaturePath || path == HumidityPath
    requires Walk(status, path).Some?
    requires !IsReadingResponse(Walk(status, path).value)
    ensures GetData(status, parse) == None
  {
  }

  /**
   The extraction looks at the two leaves and nothing else: statuses that
   agree on what the two paths lead to yield the same result.
   */
  lemma OnlyLeavesMatter(s1: Value, s2: Value, parse: string -> Instant)
    requires Walk(s1, TemperaturePath) == Walk(s2, TemperaturePath)
    requires Walk(s1, HumidityPath) == Walk(s2, HumidityPath)
    ensures GetData(s1, parse) == GetData(s2, parse)
  {
  }

  /** The smallest status the device API can send holding the two given responses. */
  function StatusOf(t: ReadingResponse, h: ReadingResponse): Value
  {
    Obj(map["components" := Obj(map["main" := Obj(map[
      "temperatureMeasurement" := Obj(map["temperature" := ResponseValue(t)]),
      "relativeHumidityMeasurement" := Obj(map["humidity" := ResponseValue(h)])])])])
  }

  /** A well-formed status yields exactly the two converted responses it carries. */
  lemma StatusRoundTrip(t: ReadingResponse, h: ReadingResponse, parse: string -> Instant)
    ensures GetData(StatusOf(t, h), parse) == Some(Sample(ToReading(t, parse), ToReading(h, parse)))
  {
    ResponseRoundTrip(t);
    ResponseRoundTrip(h);
  }
}
