/**
 The two record shapes of the program: the reading as the device API reports
 it (timestamp as a string) and the reading as the program keeps it
 (timestamp as a `Date`), the shape check on an untyped value, and the
 conversion from one to the other.
 */
module Readings {

  import opened Wrappers
  import opened JsValue

  /**
   What `Date.prototype.getTime()` returns: milliseconds since the epoch, or
   `None` for an Invalid Date, whose time value is NaN.
   */
  type Instant = Option<int>

  /**
   `a.getTime() === b.getTime()`. NaN is equal to nothing, itself included,
   so two Invalid Dates are never the same instant.
   */
  function SameInstant(a: Instant, b: Instant): (same: bool)
    ensures same <==> a.Some? && a == b
  {
    a.Some? && b.Some? && a.value == b.value
  }

  /** A reading as the device API reports it. */
  datatype ReadingResponse = ReadingResponse(value: real, unit: string, timestamp: string)

  /** A reading as the program keeps it in a series. */
  datatype Reading = Reading(value: real, unit: string, timestamp: Instant)

  /**
   The type guard on an untyped value: a non-null object whose `value` is a
   number and whose `unit` and `timestamp` are strings. Other keys are ignored.
   */
  function IsReadingResponse(o: Value): (b: bool)
    ensures b <==>
      && o.Obj?
      && "value" in o.fields && o.fields["value"].Num?
      && "unit" in o.fields && o.fields["unit"].Str?
      && "timestamp" in o.fields && o.fields["timestamp"].Str?
  {
    && TypeOf(o) == "object"
    && o != Null
    && HasKey(o, "value")
    && TypeOf(Get(o, "value")) == "number"
    && HasKey(o, "unit")
    && TypeOf(Get(o, "unit")) == "string"
    && HasKey(o, "timestamp")
    && TypeOf(Get(o, "timestamp")) == "string"
  }

  /** The value seen through the type guard: the typed response, if it passes. */
  function AsReadingResponse(o: Value): (r: Option<ReadingResponse>)
    ensures r.Some? <==> IsReadingResponse(o)
    ensures r.Some? ==>
      && o.fields["value"] == Num(r.value.value)
      && o.fields["unit"] == Str(r.value.unit)
      && o.fields["timestamp"] == Str(r.value.timestamp)
  {
    if IsReadingResponse(o) then
      Some(ReadingResponse(Get(o, "value").n, Get(o, "unit").s, Get(o, "timestamp").s))
    else
      None
  }

  /** The untyped object the device API sends for a response. */
  function ResponseValue(resp: ReadingResponse): Value
  {
    Obj(map["value" := Num(resp.value), "unit" := Str(resp.unit), "timestamp" := Str(resp.timestamp)])
  }

  /** Every response the device API can send passes the guard and reads back unchanged. */
  lemma ResponseRoundTrip(resp: ReadingResponse)
    ensures AsReadingResponse(ResponseValue(resp)) == Some(resp)
  {
  }

  /**
   The conversion of a response into a kept reading. `parse` stands for
   `new Date(string).getTime()`, whose string grammar is not modelled.
   */
  function ToReading(resp: ReadingResponse, parse: string -> Instant): (r: Reading)
    ensures r.value == resp.value && r.unit == resp.unit
    ensures r.timestamp == parse(resp.timestamp)
  {
    Reading(resp.value, resp.unit, parse(resp.timestamp))
  }

  /** The response a kept reading with a valid date would be sent as, `format` writing its date. */
  function ToResponse(rd: Reading, format: int -> string): (resp: ReadingResponse)
    requires rd.timestamp.Some?
  {
    ReadingResponse(rd.value, rd.unit, format(rd.timestamp.value))
  }

  /**
   The conversion loses nothing but the spelling of the date: whenever `parse`
   reads back what `format` writes, a reading with a valid date survives the
   trip through its response form.
   */
  lemma ToReadingInvertsToResponse(rd: Reading, format: int -> string, parse: string -> Instant)
    requires rd.timestamp.Some?
    requires forall t :: parse(format(t)) == Some(t)
    ensures ToReading(ToResponse(rd, format), parse) == rd
  {
    var t := rd.timestamp.value;
    assert parse(format(t)) == Some(t);
  }

  /** The kept timestamp depends on the response's timestamp string and on nothing else. */
  lemma TimestampOnlyFromString(a: ReadingResponse, b: ReadingResponse, parse: string -> Instant)
    requires a.timestamp == b.timestamp
    ensures ToReading(a, parse).timestamp == ToReading(b, parse).timestamp
  {
  }
}
