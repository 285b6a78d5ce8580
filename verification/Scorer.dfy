/** The risk scorer: a weighted, clamped and rounded score and the category rule. */
module Scorer {

  datatype Label = BENIGN | RECON | EXPLOIT | EXFIL | LATERAL | UNKNOWN

  datatype Category = Normal | Suspicious | Warning | Critical
  {
    function Rank(): nat {
      match this
      case Normal => 0
      case Suspicious => 1
      case Warning => 2
      case Critical => 3
    }
  }

  function LabelRisk(l: Label): real {
    match l
    case BENIGN => 0.0
    case RECON => 0.3
    case EXPLOIT => 0.9
    case EXFIL => 0.95
    case LATERAL => 0.85
    case UNKNOWN => 0.0
  }

  predicate Malicious(l: Label) {
    l in {EXPLOIT, EXFIL, LATERAL}
  }

  function RMin(a: real, b: real): real { if b < a then b else a }

  function RMax(a: real, b: real): real { if b > a then b else a }

  /** Python's `round`: to the nearest integer, ties to the even one. */
  function Round(x: real): (n: int)
    ensures -0.5 <= x - n as real <= 0.5
    ensures x - n as real == 0.5 || x - n as real == -0.5 ==> n % 2 == 0
  {
    var f := x.Floor;
    var frac := x - f as real;
    if frac < 0.5 || (frac == 0.5 && f % 2 == 0) then f else f + 1
  }

  /** Nearest and ties-to-even leave exactly one integer. */
  lemma RoundUnique(x: real, n: int)
    requires -0.5 <= x - n as real <= 0.5
    requires x - n as real == 0.5 || x - n as real == -0.5 ==> n % 2 == 0
    ensures Round(x) == n
  {
  }

  lemma RoundMonotone(x: real, y: real)
    requires x <= y
    ensures Round(x) <= Round(y)
  {
  }

  /** The weighted sum before clamping. */
  function Weighted(anomaly: real, intent: Label, conf: real, breach: bool): real {
    60.0 * anomaly + 30.0 * (LabelRisk(intent) * conf) + 10.0 * (if breach then 1.0 else 0.0)
  }

  function Clamp(x: real): real {
    RMin(100.0, RMax(0.0, x))
  }

  function Composite(anomaly: real, intent: Label, conf: real, breach: bool): int {
    Round(Clamp(Weighted(anomaly, intent, conf, breach)))
  }

  predicate AllSignals(anomaly: real, intent: Label, conf: real, breach: bool) {
    anomaly > 0.7 && Malicious(intent) && conf >= 0.6 && breach
  }

  /** The scorer. `Critical` needs all three signals, whatever the composite. */
  function Score(anomaly: real, intent: Label, conf: real, breach: bool): (r: (Category, int))
    ensures 0 <= r.1 <= 100
    ensures r.0.Critical? <==> anomaly > 0.7 && intent in {EXPLOIT, EXFIL, LATERAL} && conf >= 0.6 && breach
    ensures r.0.Critical? ==> r.1 >= 80
    ensures r.0.Normal? <==> r.1 < 20
    ensures r.0.Suspicious? <==> 20 <= r.1 < 50
  {
    var composite := Composite(anomaly, intent, conf, breach);
    CompositeBounds(anomaly, intent, conf, breach);
    if AllSignals(anomaly, intent, conf, breach) then
      (Critical, if composite > 80 then composite else 80)
    else if composite >= 50 then (Warning, composite)
    else if composite >= 20 then (Suspicious, composite)
    else (Normal, composite)
  }

  lemma CompositeBounds(anomaly: real, intent: Label, conf: real, breach: bool)
    ensures 0 <= Composite(anomaly, intent, conf, breach) <= 100
  {
    var w := Weighted(anomaly, intent, conf, breach);
    RoundUnique(0.0, 0);
    RoundUnique(100.0, 100);
    RoundMonotone(0.0, Clamp(w));
    RoundMonotone(Clamp(w), 100.0);
  }

  /** Inside [0, 100] the composite is the integer nearest to the weighted sum; outside it is
      the nearer end. With the critical floor this fixes every score. */
  lemma ScoreMeaning(anomaly: real, intent: Label, conf: real, breach: bool)
    ensures var w := 60.0 * anomaly + 30.0 * (LabelRisk(intent) * conf) + (if breach then 10.0 else 0.0);
      var (cat, score) := Score(anomaly, intent, conf, breach);
      var floor := if cat.Critical? then 80 else 0;
      && (w <= 0.0 ==> score == floor)
      && (w >= 100.0 ==> score == 100)
      && (0.0 <= w <= 100.0 && score > floor ==> -0.5 <= w - score as real <= 0.5)
      && (0.0 <= w <= 100.0 && score == floor ==> w <= floor as real + 0.5)
  {
    RoundUnique(0.0, 0);
    RoundUnique(100.0, 100);
  }

  lemma MulMonotone(a: real, b: real, c: real, d: real)
    requires 0.0 <= a <= b && 0.0 <= d && c <= d
    ensures a * c <= b * d
  {
    assert a * c <= a * d;
    assert a * d <= b * d;
  }

  /** Riskier in any signal never lowers the score or the category: not through the clamp, the
      rounding, or the critical floor. */
  lemma ScoreMonotone(anomaly: real, intent: Label, conf: real, breach: bool,
                      anomaly': real, intent': Label, conf': real, breach': bool)
    requires anomaly <= anomaly' && LabelRisk(intent) <= LabelRisk(intent') && conf <= conf' && (breach ==> breach')
    requires intent == intent' || 0.0 <= conf'
    ensures Score(anomaly, intent, conf, breach).1 <= Score(anomaly', intent', conf', breach').1
    ensures Score(anomaly, intent, conf, breach).0.Rank() <= Score(anomaly', intent', conf', breach').0.Rank()
  {
    CompositeMonotone(anomaly, intent, conf, breach, anomaly', intent', conf', breach');
    if Malicious(intent) {
      MaliciousAreRiskiest(intent, intent');
    }
    assert AllSignals(anomaly, intent, conf, breach) ==> AllSignals(anomaly', intent', conf', breach');
  }

  lemma CompositeMonotone(anomaly: real, intent: Label, conf: real, breach: bool,
                          anomaly': real, intent': Label, conf': real, breach': bool)
    requires anomaly <= anomaly' && LabelRisk(intent) <= LabelRisk(intent') && conf <= conf' && (breach ==> breach')
    requires intent == intent' || 0.0 <= conf'
    ensures Composite(anomaly, intent, conf, breach) <= Composite(anomaly', intent', conf', breach')
  {
    WeightedMonotone(anomaly, intent, conf, breach, anomaly', intent', conf', breach');
    var w, w' := Weighted(anomaly, intent, conf, breach), Weighted(anomaly', intent', conf', breach');
    RoundMonotone(Clamp(w), Clamp(w'));
  }

  lemma MaliciousAreRiskiest(l: Label, l': Label)
    requires LabelRisk(l) <= LabelRisk(l') && Malicious(l)
    ensures Malicious(l')
  {
  }

  lemma WeightedMonotone(anomaly: real, intent: Label, conf: real, breach: bool,
                         anomaly': real, intent': Label, conf': real, breach': bool)
    requires anomaly <= anomaly' && LabelRisk(intent) <= LabelRisk(intent') && conf <= conf' && (breach ==> breach')
    requires intent == intent' || 0.0 <= conf'
    ensures Weighted(anomaly, intent, conf, breach) <= Weighted(anomaly', intent', conf', breach')
  {
    RiskMonotone(LabelRisk(intent), LabelRisk(intent'), conf, conf');
    SumMonotone(anomaly, anomaly', LabelRisk(intent) * conf, LabelRisk(intent') * conf', breach, breach');
  }

  lemma RiskMonotone(r: real, r': real, conf: real, conf': real)
    requires 0.0 <= r <= r' && conf <= conf' && (r == r' || 0.0 <= conf')
    ensures r * conf <= r' * conf'
  {
    if r == r' {
      assert r * (conf' - conf) >= 0.0;
    } else {
      MulMonotone(r, r', conf, conf');
    }
  }

  lemma SumMonotone(a: real, a': real, x: real, x': real, breach: bool, breach': bool)
    requires a <= a' && x <= x' && (breach ==> breach')
    ensures 60.0 * a + 30.0 * x + 10.0 * (if breach then 1.0 else 0.0) <=
            60.0 * a' + 30.0 * x' + 10.0 * (if breach' then 1.0 else 0.0)
  {
  }

  /** With these signals, label `l'` scores at least as high as the less risky `l`. */
  predicate ScoreFollows(a: real, l: Label, l': Label, conf: real, b: bool) {
    0.0 <= a <= 1.0 && LabelRisk(l) <= LabelRisk(l') ==> Score(a, l, conf, b).1 <= Score(a, l', conf, b).1
  }

  predicate CategoryFollows(a: real, l: Label, l': Label, conf: real, b: bool) {
    0.0 <= a <= 1.0 && LabelRisk(l) <= LabelRisk(l') ==> Score(a, l, conf, b).0.Rank() <= Score(a, l', conf, b).0.Rank()
  }

  /** The score and the category follow the risk of the label exactly when the confidence is not
      negative. */
  lemma LabelMonotoneExactly(conf: real)
    ensures (forall a, l, l', b :: ScoreFollows(a, l, l', conf, b)) <==> conf >= 0.0
    ensures (forall a, l, l', b :: CategoryFollows(a, l, l', conf, b)) <==> conf >= 0.0
  {
    if conf >= 0.0 {
      forall a, l, l', b ensures ScoreFollows(a, l, l', conf, b) && CategoryFollows(a, l, l', conf, b) {
        BothFollow(a, l, l', conf, b);
      }
    } else {
      NeitherFollows(conf);
    }
  }

  lemma BothFollow(a: real, l: Label, l': Label, conf: real, b: bool)
    requires conf >= 0.0
    ensures ScoreFollows(a, l, l', conf, b) && CategoryFollows(a, l, l', conf, b)
  {
    if LabelRisk(l) <= LabelRisk(l') {
      ScoreMonotone(a, l, conf, b, a, l', conf, b);
    }
  }

  lemma NeitherFollows(conf: real)
    requires conf < 0.0
    ensures !ScoreFollows(19.5 / 60.0, BENIGN, EXFIL, conf, false)
    ensures !CategoryFollows(19.5 / 60.0, BENIGN, EXFIL, conf, false)
  {
    RiskierScoresLower(conf);
  }

  /** An anomaly on the edge of Suspicious drops to Normal under any negative confidence. */
  lemma RiskierScoresLower(conf: real)
    requires conf < 0.0
    ensures Score(19.5 / 60.0, BENIGN, conf, false) == (Suspicious, 20)
    ensures Score(19.5 / 60.0, EXFIL, conf, false).0.Normal? && Score(19.5 / 60.0, EXFIL, conf, false).1 < 20
  {
    var a := 19.5 / 60.0;
    RoundUnique(19.5, 20);
    assert Weighted(a, BENIGN, conf, false) == 19.5;
    var w := Weighted(a, EXFIL, conf, false);
    assert w == 19.5 + 28.5 * conf;
    assert Clamp(w) < 19.5;
  }

  /** One such input. */
  lemma NegativeConfidenceReverses()
    ensures LabelRisk(RECON) <= LabelRisk(EXFIL)
    ensures Score(1.0, RECON, -1.0, false).1 > Score(1.0, EXFIL, -1.0, false).1
  {
    RoundUnique(51.0, 51);
    RoundUnique(31.5, 32);
    assert Weighted(1.0, RECON, -1.0, false) == 51.0;
    assert Weighted(1.0, EXFIL, -1.0, false) == 31.5;
  }

  /** Intent with a confidence in [0, 1] alone reaches at most 28, with a breach at most 38. */
  lemma IntentAloneBounded(intent: Label, conf: real)
    requires 0.0 <= conf <= 1.0
    ensures Score(0.0, intent, conf, false).1 <= 28
    ensures Score(0.0, intent, conf, true).1 <= 38
    ensures Score(0.0, intent, conf, true).0.Rank() <= Suspicious.Rank()
  {
    assert LabelRisk(intent) * conf <= 0.95 by {
      MulMonotone(LabelRisk(intent), 0.95, conf, 1.0);
    }
    IntentBoundExactly(intent, conf);
  }

  /** For any confidence these bounds hold exactly up to a weight of 0.95. */
  lemma IntentBoundExactly(intent: Label, conf: real)
    ensures Score(0.0, intent, conf, false).1 <= 28 <==> LabelRisk(intent) * conf <= 0.95
    ensures Score(0.0, intent, conf, true).1 <= 38 <==> LabelRisk(intent) * conf <= 0.95
  {
    WithoutAnomaly(intent, conf, false);
    WithoutAnomaly(intent, conf, true);
    RoundUpTo(30.0 * (LabelRisk(intent) * conf), 28);
    RoundUpTo(30.0 * (LabelRisk(intent) * conf) + 10.0, 38);
  }

  /** With no anomaly there is no Critical, and the score is the rounded weight. */
  lemma WithoutAnomaly(intent: Label, conf: real, breach: bool)
    ensures Score(0.0, intent, conf, breach).1 ==
            Round(Clamp(30.0 * (LabelRisk(intent) * conf) + if breach then 10.0 else 0.0))
  {
    assert Weighted(0.0, intent, conf, breach) ==
           30.0 * (LabelRisk(intent) * conf) + if breach then 10.0 else 0.0;
  }

  /** Where a clamped score passes an even bound. */
  lemma RoundUpTo(w: real, bound: int)
    requires 0 <= bound < 100 && bound % 2 == 0
    ensures Round(Clamp(w)) <= bound <==> w <= bound as real + 0.5
  {
    RoundUnique(bound as real + 0.5, bound);
    if w <= bound as real + 0.5 {
      RoundMonotone(Clamp(w), bound as real + 0.5);
    }
  }

  /** Where it reaches one. */
  lemma RoundFrom(w: real, bound: int)
    requires 0 < bound <= 100 && bound % 2 == 0
    ensures Round(Clamp(w)) >= bound <==> w >= bound as real - 0.5
  {
    RoundUnique(bound as real - 0.5, bound);
    if w >= bound as real - 0.5 {
      RoundMonotone(bound as real - 0.5, Clamp(w));
    }
  }

  /** A breach alone scores 10. */
  lemma BreachAlone(breach: bool)
    ensures Score(0.0, UNKNOWN, 0.0, breach) == (Normal, if breach then 10 else 0)
  {
    WithoutAnomaly(UNKNOWN, 0.0, breach);
    RoundUnique(10.0, 10);
    RoundUnique(0.0, 0);
  }

  /** Both bounds are reached, and only because ties round to even. */
  lemma IntentBoundsReached()
    ensures Score(0.0, EXFIL, 1.0, false) == (Suspicious, 28)
    ensures Score(0.0, EXFIL, 1.0, true) == (Suspicious, 38)
  {
    assert Weighted(0.0, EXFIL, 1.0, false) == 28.5;
    assert Weighted(0.0, EXFIL, 1.0, true) == 38.5;
    RoundUnique(28.5, 28);
    RoundUnique(38.5, 38);
  }

  /** Intent alone can never be critical; with no bound on the confidence it reaches Warning
      exactly from this weight on. */
  lemma IntentAloneReachesWarning(intent: Label, conf: real)
    ensures Score(0.0, intent, conf, false).0.Rank() <= Warning.Rank()
    ensures Score(0.0, intent, conf, false).0.Warning? <==> LabelRisk(intent) * conf >= 1.65
  {
    var w := Weighted(0.0, intent, conf, false);
    assert w == 30.0 * (LabelRisk(intent) * conf);
    RoundUnique(49.5, 50);
    if w >= 49.5 {
      RoundMonotone(49.5, Clamp(w));
    } else {
      assert Clamp(w) < 49.5;
    }
  }

  /** The intent weighs 0.65, or with a breach 19/60. */
  predicate Weighty(intent: Label, conf: real, breach: bool) {
    LabelRisk(intent) * conf >= if breach then 19.0 / 60.0 else 0.65
  }

  /** The confidence from which each label alone is an alert; RECON needs more than certainty. */
  lemma LabelAloneAlerts(conf: real)
    ensures !Score(0.0, EXFIL, conf, false).0.Normal? <==> conf >= 13.0 / 19.0
    ensures !Score(0.0, EXPLOIT, conf, false).0.Normal? <==> conf >= 13.0 / 18.0
    ensures !Score(0.0, LATERAL, conf, false).0.Normal? <==> conf >= 13.0 / 17.0
    ensures !Score(0.0, RECON, conf, false).0.Normal? <==> conf >= 13.0 / 6.0
    ensures Score(0.0, BENIGN, conf, false).0.Normal? && Score(0.0, UNKNOWN, conf, false).0.Normal?
  {
    forall l: Label ensures !Score(0.0, l, conf, false).0.Normal? <==> Weighty(l, conf, false) {
      AlertWithoutAnomaly(l, conf, false);
    }
  }

  /** Without an anomaly an event is an alert exactly from this weight of intent on. */
  lemma AlertWithoutAnomaly(intent: Label, conf: real, breach: bool)
    ensures !Score(0.0, intent, conf, breach).0.Normal? <==> Weighty(intent, conf, breach)
  {
    WithoutAnomaly(intent, conf, breach);
    RoundFrom(30.0 * (LabelRisk(intent) * conf) + if breach then 10.0 else 0.0, 20);
    WeightyIsHalf(LabelRisk(intent) * conf, breach);
  }

  lemma WeightyIsHalf(x: real, breach: bool)
    ensures 30.0 * x + (if breach then 10.0 else 0.0) >= 19.5 <==> x >= if breach then 19.0 / 60.0 else 0.65
  {
  }

  /** An anomaly alone is worth at most 60 and is a Warning exactly from 0.825 on. */
  lemma AnomalyAlone(anomaly: real, conf: real)
    requires 0.0 <= anomaly <= 1.0
    ensures Score(anomaly, BENIGN, conf, false).1 <= 60
    ensures Score(1.0, BENIGN, conf, false) == (Warning, 60)
    ensures Score(anomaly, BENIGN, conf, false).0.Warning? <==> anomaly >= 0.825
  {
    var w := Weighted(anomaly, BENIGN, conf, false);
    assert w == 60.0 * anomaly;
    RoundUnique(60.0, 60);
    RoundMonotone(Clamp(w), 60.0);
    RoundUnique(49.5, 50);
    if w >= 49.5 {
      RoundMonotone(49.5, Clamp(w));
    } else {
      assert Clamp(w) < 49.5;
    }
  }
}
