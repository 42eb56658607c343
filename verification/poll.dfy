/**
 One polling round: fetch the status, and on success apply the append rule
 to the humidity series and to the temperature series; on failure (the
 program's catch) change nothing. Rounds repeat on a timer; here they are a
 fold over the statuses the device API returns.
 */
module Poll {

  import opened Wrappers
  import opened JsValue
  import opened Readings
  import opened Fetch
  import opened Store

  /** The two kept series, as held in memory and mirrored in their files. */
  datatype Series = Series(temperatures: seq<Reading>, humidities: seq<Reading>)

  /** The series file at process start when none exists yet holds `[]`. */
  const Initial: Series := Series([], [])

  /** Which of the two files a round would rewrite. */
  datatype Writes = Writes(humidity: bool, temperature: bool)

  datatype Round = Round(series: Series, writes: Writes)

  /** One round of `getDataAndWrite`. */
  function Tick(s: Series, status: Value, parse: string -> Instant): (o: Round)
    ensures !Guard(status) ==> o == Round(s, Writes(false, false))
    ensures Guard(status) ==>
      var sample := GetData(status, parse).value;
      && o.series.humidities == AppendIfNew(s.humidities, sample.humidity).series
      && o.writes.humidity == AppendIfNew(s.humidities, sample.humidity).wrote
      && o.series.temperatures == AppendIfNew(s.temperatures, sample.temperature).series
      && o.writes.temperature == AppendIfNew(s.temperatures, sample.temperature).wrote
  {
    match GetData(status, parse)
    case None => Round(s, Writes(false, false))
    case Some(sample) =>
      var h := AppendIfNew(s.humidities, sample.humidity);
      var t := AppendIfNew(s.temperatures, sample.temperature);
      Round(Series(t.series, h.series), Writes(h.wrote, t.wrote))
  }

  /**
   The two series are decided independently: what happens to one depends on
   that series and the status only, never on the other series.
   */
  lemma TickChannelsIndependent(s1: Series, s2: Series, status: Value, parse: string -> Instant)
    ensures s1.humidities == s2.humidities ==>
      && Tick(s1, status, parse).series.humidities == Tick(s2, status, parse).series.humidities
      && Tick(s1, status, parse).writes.humidity == Tick(s2, status, parse).writes.humidity
    ensures s1.temperatures == s2.temperatures ==>
      && Tick(s1, status, parse).series.temperatures == Tick(s2, status, parse).series.temperatures
      && Tick(s1, status, parse).writes.temperature == Tick(s2, status, parse).writes.temperature
  {
  }

  /** Rounds in a row, with how many times each file was rewritten. */
  datatype Outcome = Outcome(series: Series, temperatureWrites: nat, humidityWrites: nat)

  /**
   Repeated rounds. The series only ever grow at the end, and each file is
   rewritten exactly once per reading appended to its series.
   */
  function Run(s: Series, statuses: seq<Value>, parse: string -> Instant): (o: Outcome)
    decreases |statuses|
    ensures |o.series.temperatures| == |s.temperatures| + o.temperatureWrites
    ensures |o.series.humidities| == |s.humidities| + o.humidityWrites
    ensures o.series.temperatures[..|s.temperatures|] == s.temperatures
    ensures o.series.humidities[..|s.humidities|] == s.humidities
    ensures o.temperatureWrites <= |statuses| && o.humidityWrites <= |statuses|
  {
    if |statuses| == 0 then
      Outcome(s, 0, 0)
    else
      var round := Tick(s, statuses[0], parse);
      var rest := Run(round.series, statuses[1..], parse);
      Outcome(
        rest.series,
        rest.temperatureWrites + (if round.writes.temperature then 1 else 0),
        rest.humidityWrites + (if round.writes.humidity then 1 else 0))
  }

  /** Both series keep, over any number of rounds, the property the rule maintains. */
  lemma {:induction false} RunKeepsFirstUnique(s: Series, statuses: seq<Value>, parse: string -> Instant)
    requires FirstUnique(s.temperatures) && FirstUnique(s.humidities)
    ensures FirstUnique(Run(s, statuses, parse).series.temperatures)
    ensures FirstUnique(Run(s, statuses, parse).series.humidities)
    decreases |statuses|
  {
    if |statuses| > 0 {
      var round := Tick(s, statuses[0], parse);
      if Guard(statuses[0]) {
        var sample := GetData(statuses[0], parse).value;
        AppendKeepsFirstUnique(s.temperatures, sample.temperature);
        AppendKeepsFirstUnique(s.humidities, sample.humidity);
      }
      RunKeepsFirstUnique(round.series, statuses[1..], parse);
    }
  }

  /**
   Starting from the freshly created empty files, both series keep the
   first-element uniqueness over any number of rounds.
   */
  lemma RunFromInitialKeepsFirstUnique(statuses: seq<Value>, parse: string -> Instant)
    ensures FirstUnique(Run(Initial, statuses, parse).series.temperatures)
    ensures FirstUnique(Run(Initial, statuses, parse).series.humidities)
  {
    RunKeepsFirstUnique(Initial, statuses, parse);
  }

  /** A status that fails the check leaves both series and both files untouched. */
  lemma FailedFetchChangesNothing(s: Series, status: Value, parse: string -> Instant)
    requires GetData(status, parse).None?
    ensures Tick(s, status, parse) == Round(s, Writes(false, false))
  {
  }
}
