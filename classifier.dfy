/**
 * The fallback classifier of `log_to_sqlite.py`: four independent threshold
 * rules, each appending its reason code, in a fixed order, to the list
 * returned for one sample.
 */
module Classifier {
  import opened Readings

  datatype Reason = HighTemp | LowMoisture | MoistureDropout | Co2Noise

  /** The reason code stored in the event table. */
  function Code(r: Reason): string
  {
    match r
    case HighTemp => "high_temp"
    case LowMoisture => "low_moisture"
    case MoistureDropout => "moisture_dropout"
    case Co2Noise => "co2_noise"
  }

  /** Position of a rule in the order the classifier tests the rules. */
  function Rank(r: Reason): nat
  {
    match r
    case HighTemp => 0
    case LowMoisture => 1
    case MoistureDropout => 2
    case Co2Noise => 3
  }

  const RuleOrder: seq<Reason> := [HighTemp, LowMoisture, MoistureDropout, Co2Noise]

  const TempLimit: real := 35.0
  const MoistureLimit: real := 40.0
  const Co2Limit: real := 800.0

  /** One row of the simulated data set as the classifier sees it. */
  datatype Sample = Sample(temp: Reading, moisture: Reading, co2: Reading, light: Reading)

  /** The condition under which each rule appends its code. */
  predicate Fires(r: Reason, s: Sample)
  {
    match r
    case HighTemp => Above(s.temp, TempLimit)
    case LowMoisture => Below(s.moisture, MoistureLimit)
    case MoistureDropout => IsNa(s.moisture)
    case Co2Noise => Above(s.co2, Co2Limit)
  }

  /** Strictly increasing rank: ordered as the rules are tested, and so without duplicates. */
  predicate InRuleOrder(rs: seq<Reason>)
  {
    forall i, j :: 0 <= i < j < |rs| ==> Rank(rs[i]) < Rank(rs[j])
  }

  /** The rules of `rules` that fire on `s`, in the order of `rules`. */
  function Fired(rules: seq<Reason>, s: Sample): (r: seq<Reason>)
    ensures |r| <= |rules|
  {
    if rules == [] then [] else Contribution(rules[0], s) + Fired(rules[1..], s)
  }

  /** The single-rule list a rule contributes. */
  function Contribution(r: Reason, s: Sample): seq<Reason>
  {
    if Fires(r, s) then [r] else []
  }

  /** A rule is kept exactly when it is one of the rules and fires. */
  lemma {:induction false} FiredMembers(rules: seq<Reason>, s: Sample, x: Reason)
    ensures x in Fired(rules, s) <==> x in rules && Fires(x, s)
  {
    if rules != [] {
      FiredMembers(rules[1..], s, x);
      assert x in rules <==> x == rules[0] || x in rules[1..];
    }
  }

  /** Filtering keeps the order of the rules it keeps. */
  lemma {:induction false} FiredOrdered(rules: seq<Reason>, s: Sample)
    requires InRuleOrder(rules)
    ensures InRuleOrder(Fired(rules, s))
  {
    if rules != [] {
      var rest := Fired(rules[1..], s);
      FiredOrdered(rules[1..], s);
      if Fires(rules[0], s) {
        forall x | x in rest ensures Rank(rules[0]) < Rank(x) {
          FiredMembers(rules[1..], s, x);
        }
        var r := [rules[0]] + rest;
        forall i, j | 0 <= i < j < |r| ensures Rank(r[i]) < Rank(r[j]) {
          if i == 0 {
            assert r[j] in rest;
          } else {
            assert r[i] == rest[i - 1] && r[j] == rest[j - 1];
          }
        }
      }
    }
  }

  /** The reason list `get_fallback_reason` returns, as a specification. */
  function Reasons(s: Sample): seq<Reason>
  {
    Fired(RuleOrder, s)
  }

  /** The filter over the rule order, written out rule by rule. */
  lemma ReasonsUnfold(s: Sample)
    ensures Reasons(s) == Contribution(HighTemp, s) + Contribution(LowMoisture, s)
      + Contribution(MoistureDropout, s) + Contribution(Co2Noise, s)
  {
    var r1: seq<Reason> := [LowMoisture, MoistureDropout, Co2Noise];
    var r2: seq<Reason> := [MoistureDropout, Co2Noise];
    var r3: seq<Reason> := [Co2Noise];
    assert r3[1..] == [];
    assert Fired(r3, s) == Contribution(Co2Noise, s);
    assert r2[1..] == r3;
    assert Fired(r2, s) == Contribution(MoistureDropout, s) + Fired(r3, s);
    assert r1[1..] == r2;
    assert Fired(r1, s) == Contribution(LowMoisture, s) + Fired(r2, s);
    assert RuleOrder[1..] == r1;
    assert Fired(RuleOrder, s) == Contribution(HighTemp, s) + Fired(r1, s);
  }

  /**
   * `get_fallback_reason(temp, moisture, co2, light)`: starts from an empty
   * list and appends one code per rule that fires, rule by rule.
   */
  method GetFallbackReason(temp: Reading, moisture: Reading, co2: Reading, light: Reading)
    returns (reasons: seq<Reason>)
    ensures reasons == Reasons(Sample(temp, moisture, co2, light))
  {
    reasons := [];
    if Above(temp, TempLimit) {
      reasons := reasons + [HighTemp];
    }
    if Below(moisture, MoistureLimit) {
      reasons := reasons + [LowMoisture];
    }
    if IsNa(moisture) {
      reasons := reasons + [MoistureDropout];
    }
    if Above(co2, Co2Limit) {
      reasons := reasons + [Co2Noise];
    }
    ReasonsUnfold(Sample(temp, moisture, co2, light));
  }

  /** The list is the fixed rule order filtered to the rules that fired: no duplicates, at most four entries. */
  lemma ReasonsShape(s: Sample)
    ensures |Reasons(s)| <= 4
    ensures InRuleOrder(Reasons(s))
    ensures forall i, j :: 0 <= i < j < |Reasons(s)| ==> Reasons(s)[i] != Reasons(s)[j]
    ensures forall x :: x in Reasons(s) <==> Fires(x, s)
  {
    assert InRuleOrder(RuleOrder);
    FiredOrdered(RuleOrder, s);
    forall x ensures x in Reasons(s) <==> Fires(x, s) {
      FiredMembers(RuleOrder, s, x);
    }
  }

  /** `high_temp` is reported exactly when the temperature exceeds 35; 35 itself does not count. */
  lemma HighTempExactly(s: Sample)
    ensures HighTemp in Reasons(s) <==> s.temp.Num? && s.temp.value > 35.0
    ensures s.temp == Num(35.0) ==> HighTemp !in Reasons(s)
  {
    ReasonsShape(s);
  }

  /** `co2_noise` is reported exactly when CO2 exceeds 800 ppm. */
  lemma Co2NoiseExactly(s: Sample)
    ensures Co2Noise in Reasons(s) <==> s.co2.Num? && s.co2.value > 800.0
    ensures s.co2 == Num(800.0) ==> Co2Noise !in Reasons(s)
  {
    ReasonsShape(s);
  }

  /** A missing moisture value is a dropout and never low; a present one is low exactly below 40. */
  lemma MoistureRules(s: Sample)
    ensures s.moisture.Missing? ==> MoistureDropout in Reasons(s) && LowMoisture !in Reasons(s)
    ensures s.moisture.Num? ==> MoistureDropout !in Reasons(s)
    ensures s.moisture.Num? ==> (LowMoisture in Reasons(s) <==> s.moisture.value < 40.0)
  {
    ReasonsShape(s);
  }

  /** Two samples on which every rule agrees get the same list. */
  lemma {:induction false} FiredAgrees(rules: seq<Reason>, s: Sample, t: Sample)
    requires forall x :: Fires(x, s) == Fires(x, t)
    ensures Fired(rules, s) == Fired(rules, t)
  {
    if rules != [] {
      FiredAgrees(rules[1..], s, t);
    }
  }

  /** The light reading never affects the result. */
  lemma LightIgnored(s: Sample, light: Reading)
    ensures Reasons(s.(light := light)) == Reasons(s)
  {
    FiredAgrees(RuleOrder, s.(light := light), s);
  }

  /** A hot, dry sample with a missing-free, quiet CO2 reading. */
  lemma HotAndDry()
    ensures Reasons(Sample(Num(36.0), Num(39.5), Num(400.0), Missing)) == [HighTemp, LowMoisture]
  {
  }

  /** A missing moisture value alone triggers a dropout; a NaN temperature triggers nothing. */
  lemma DropoutOnly()
    ensures Reasons(Sample(Missing, Missing, Num(800.0), Num(0.0))) == [MoistureDropout]
  {
  }

  /** The codes are pairwise distinct, so a code names its rule. */
  lemma CodesDistinct(a: Reason, b: Reason)
    ensures Code(a) == Code(b) <==> a == b
  {
  }
}
