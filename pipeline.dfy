/**
 * How the two scripts meet: a simulated row, read back by the logger, and
 * the relation between the simulator's conjunctive `fallback_active` flag
 * and the logger's independent rules (the logger never reads the flag).
 */
module Pipeline {
  import opened Readings
  import opened Classifier
  import opened Calendar
  import opened ReasonsText
  import opened EventLog
  import Simulation

  /** A simulated row as the logger's classifier sees it: every value present. */
  function SampleOfRow(r: Simulation.DataRow): (s: Sample)
    ensures s.temp.Num? && s.moisture.Num? && s.co2.Num? && s.light.Num?
  {
    Sample(Num(r.temp), Num(r.moisture), Num(r.co2), Num(r.light))
  }

  /**
   * The simulator sets the flag exactly when the logger reports both
   * `high_temp` and `low_moisture` for the same row.
   */
  lemma FlagExactlyHotAndDry(r: Simulation.DataRow)
    ensures Simulation.CheckFallback(r.temp, r.moisture)
        <==> HighTemp in Reasons(SampleOfRow(r)) && LowMoisture in Reasons(SampleOfRow(r))
  {
    HighTempExactly(SampleOfRow(r));
    MoistureRules(SampleOfRow(r));
  }

  /** The converse fails: a hot but moist row is logged although its flag is false. */
  lemma LoggedWithoutFlag()
    ensures var r := Simulation.DataRow(0, 36.0, 50.0, 400.0, 0.0);
      !Simulation.CheckFallback(r.temp, r.moisture) && Reasons(SampleOfRow(r)) == [HighTemp]
  {
    ReasonsUnfold(SampleOfRow(Simulation.DataRow(0, 36.0, 50.0, 400.0, 0.0)));
  }

  /** Simulated data has no missing values, so `moisture_dropout` never comes from it. */
  lemma NoDropoutFromSimulator(r: Simulation.DataRow)
    ensures MoistureDropout !in Reasons(SampleOfRow(r))
  {
    MoistureRules(SampleOfRow(r));
  }

  lemma ScenarioReasons()
    ensures var r := Simulation.DataRow(0, 46.2, 35.0, 410.0, 520.0);
      Reasons(SampleOfRow(r)) == [HighTemp, LowMoisture] && Simulation.CheckFallback(r.temp, r.moisture)
  {
    ReasonsUnfold(SampleOfRow(Simulation.DataRow(0, 46.2, 35.0, 410.0, 520.0)));
  }

  lemma ScenarioReasonsText()
    ensures ReasonsString([HighTemp, LowMoisture]) == "high_temp, low_moisture"
  {
    var rs: seq<Reason> := [HighTemp, LowMoisture];
    assert Codes(rs) == ["high_temp", "low_moisture"];
  }

  /** The canonical text of the scenario's event. */
  lemma ScenarioCanonical(ts: string)
    ensures Canonical(ts, "high_temp, low_moisture", FallbackFlag) == ts + ":high_temp, low_moisture:1"
  {
    CanonicalText(ts, "high_temp, low_moisture");
    assert ts + ":" + "high_temp, low_moisture" + ":1" == ts + ":high_temp, low_moisture:1";
  }

  /**
   * A hot, dry sample at any time `t`: the event stores
   * `"high_temp, low_moisture"` with flag 1, and its checksum covers the
   * formatted time followed by `":high_temp, low_moisture:1"`.
   */
  lemma HotDryScenario(t: Timestamp)
    ensures var e := MakeEvent(Entry(t, [HighTemp, LowMoisture]));
      && e.reasons == "high_temp, low_moisture"
      && e.timestamp == Format(t)
      && e.fallbackActive == 1
      && e.crc == Hex8(Checksum(Format(t) + ":high_temp, low_moisture:1"))
  {
    ScenarioReasonsText();
    ScenarioCanonical(Format(t));
  }
}
