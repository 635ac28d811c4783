/** read_temperature_data: one sweep over the six CHT and six EGT probes. */
module Sampler {
  import opened ProbeReader
  import opened SensorBank

  /** The record the sender serialises: readings per family in probe order, the capture time and the unit tag. */
  datatype Sample = Sample(cht: seq<real>, egt: seq<real>, timestamp: real, unit: string)

  const UNIT_FAHRENHEIT: string := "F"

  /** The random.uniform draws of one sweep, one per probe, each within the family's span. */
  predicate ValidDraws(family: Family, draws: seq<real>) {
    |draws| == PROBE_COUNT && forall i :: 0 <= i < |draws| ==> 0.0 <= draws[i] <= SimSpan(family)
  }

  /**
   * One sweep. `chtDraws[i]` and `egtDraws[i]` are what random.uniform would return
   * for probe i of a family without a board; `now` is time.time().
   */
  method ReadTemperatureData(reader: SmtcReader, chtDraws: seq<real>, egtDraws: seq<real>, now: real)
    returns (sample: Sample)
    requires ValidDraws(CHT, chtDraws) && ValidDraws(EGT, egtDraws)
    ensures |sample.cht| == PROBE_COUNT && |sample.egt| == PROBE_COUNT
    ensures forall i :: 0 <= i < PROBE_COUNT ==> sample.cht[i] == reader.ReadChtProbe(i, chtDraws[i])
    ensures forall i :: 0 <= i < PROBE_COUNT ==> sample.egt[i] == reader.ReadEgtProbe(i, egtDraws[i])
    ensures reader.chtSensor.None? ==> forall i :: 0 <= i < PROBE_COUNT ==> 300.0 <= sample.cht[i] <= 400.0
    ensures reader.egtSensor.None? ==> forall i :: 0 <= i < PROBE_COUNT ==> 1200.0 <= sample.egt[i] <= 1500.0
    ensures sample.timestamp == now && sample.unit == "F"
  {
    var chtTemps: seq<real> := [];
    var probe := 0;
    while probe < PROBE_COUNT
      invariant 0 <= probe <= PROBE_COUNT
      invariant |chtTemps| == probe
      invariant forall i :: 0 <= i < probe ==> chtTemps[i] == reader.ReadChtProbe(i, chtDraws[i])
    {
      var temp := reader.ReadChtProbe(probe, chtDraws[probe]);
      chtTemps := chtTemps + [temp];
      probe := probe + 1;
    }

    var egtTemps: seq<real> := [];
    probe := 0;
    while probe < PROBE_COUNT
      invariant 0 <= probe <= PROBE_COUNT
      invariant |egtTemps| == probe
      invariant forall i :: 0 <= i < probe ==> egtTemps[i] == reader.ReadEgtProbe(i, egtDraws[i])
    {
      var temp := reader.ReadEgtProbe(probe, egtDraws[probe]);
      egtTemps := egtTemps + [temp];
      probe := probe + 1;
    }

    sample := Sample(chtTemps, egtTemps, now, UNIT_FAHRENHEIT);
  }
}
