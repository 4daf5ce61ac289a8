/** The metric evaluator of `StringAnalyser` as a pure state machine: the six
    long-lived numbers it keeps, and what `calSenPre`, `compareSensibilityPrecision`
    and `substitutePS` do to them. Percentages are exact rationals. */
module Acceptance {

  /** The fields `__precision`, `__sensibility` (-1 until the first evaluation),
      `__precisionTemp`, `__sensibilityTemp`, `__relevantes`, `__nRelevantes`. */
  datatype Metrics = Metrics(
    precision: real,
    sensibility: real,
    precisionTemp: real,
    sensibilityTemp: real,
    relevantes: nat,
    nRelevantes: nat)

  /** The sentinel of a stored best that has not been set. */
  const Unset: real := -1.0

  /** The state of a new classifier. The source's class-level defaults give the
      temporaries 0 and the counts an empty list, modelled as 0. */
  const Initial: Metrics := Metrics(Unset, Unset, 0.0, 0.0, 0, 0)

  /** A verdict together with the state it leaves. */
  datatype Decision = Decision(accepted: bool, after: Metrics)

  /** What one evaluation of a batch does: it decides, or it stops with Python's
      ZeroDivisionError, leaving whatever it had already stored. */
  datatype Evaluation = Decided(accepted: bool, after: Metrics) | ZeroDivision(after: Metrics)

  /** What a call of `analysePapers` or `calSenPre` ends with: a returned
      verdict, or a ZeroDivisionError raised to the caller. */
  datatype Verdict = Returned(accepted: bool) | ZeroDivisionError

  /** `part / whole * 100`, the source's percentage formula. */
  function Percent(part: nat, whole: nat): (p: real)
    requires part <= whole && whole > 0
    ensures 0.0 <= p <= 100.0
    ensures p == 100.0 <==> part == whole
  {
    part as real / whole as real * 100.0
  }

  /** The verdict of `substitutePS(precisionDiference, sensibilityDiference)`.
      Precision counts as better when it went down. Whatever the branch, the
      rule accepts exactly when sensitivity gained more than precision did. */
  function Accepts(precisionDiference: real, sensibilityDiference: real): (better: bool)
    ensures better <==> sensibilityDiference > precisionDiference
  {
    var precisionBetter := precisionDiference < 0.0;
    var sensibilityBetter := sensibilityDiference > 0.0;
    if sensibilityBetter && precisionBetter then true
    else if sensibilityBetter then sensibilityDiference > precisionDiference
    else if precisionBetter then Abs(precisionDiference) > Abs(sensibilityDiference)
    else false
  }

  function Abs(x: real): real
  {
    if x < 0.0 then -x else x
  }

  /** The stored best replaced by the temporaries. */
  function Install(m: Metrics): Metrics
  {
    m.(precision := m.precisionTemp, sensibility := m.sensibilityTemp)
  }

  /** `substitutePS`: on acceptance the temporaries become the stored best;
      otherwise nothing changes. */
  function Substitute(m: Metrics, precisionDiference: real, sensibilityDiference: real): (d: Decision)
    ensures d.accepted <==> sensibilityDiference > precisionDiference
    ensures d.accepted ==> d.after.precision == m.precisionTemp && d.after.sensibility == m.sensibilityTemp
    ensures !d.accepted ==> d.after == m
    ensures d.after.precisionTemp == m.precisionTemp && d.after.sensibilityTemp == m.sensibilityTemp
    ensures d.after.relevantes == m.relevantes && d.after.nRelevantes == m.nRelevantes
  {
    var better := Accepts(precisionDiference, sensibilityDiference);
    Decision(better, if better then Install(m) else m)
  }

  /** `compareSensibilityPrecision`: on the first evaluation (stored precision
      -1) the temporaries are stored as the best and the differences stay 0, so
      the verdict is False; afterwards the differences against the stored best
      decide. Only the precision sentinel is tested. */
  function Compare(m: Metrics): (d: Decision)
    ensures m.precision == Unset ==> !d.accepted && d.after == Install(m)
    ensures m.precision != Unset ==>
              (d.accepted <==> m.sensibilityTemp - m.sensibility > m.precisionTemp - m.precision)
    ensures m.precision != Unset && !d.accepted ==> d.after == m
    ensures d.accepted ==> d.after == Install(m)
  {
    if m.precision == Unset then
      Substitute(Install(m), 0.0, 0.0)
    else
      Substitute(m, m.precisionTemp - m.precision, m.sensibilityTemp - m.sensibility)
  }

  /** The two gates of `calSenPre`: once both stored values are set, reject a
      sensitivity that falls below 80 after reaching it, and a precision that
      reaches 60 while the stored one is below 60. */
  predicate Gated(m: Metrics, sensibilityTemp: real, precisionTemp: real)
  {
    && m.precision != Unset && m.sensibility != Unset
    && ((sensibilityTemp < 80.0 && m.sensibility >= 80.0) ||
        (precisionTemp >= 60.0 && m.precision < 60.0))
  }

  /** `calSenPre` for `r` relevant and `n` non-relevant papers and `g` goal
      papers: compute sensitivity `r/(r+g)*100`, then precision `r/(r+n)*100`,
      apply the gates, store the counts, and compare. */
  function Evaluate(m: Metrics, r: nat, n: nat, g: nat): (e: Evaluation)
    // Division by zero: nothing stored, or only the sensitivity if it was computed.
    ensures r + g == 0 ==> e == ZeroDivision(m)
    ensures r + g > 0 && r + n == 0 ==> e == ZeroDivision(m.(sensibilityTemp := 0.0))
    // Otherwise the temporaries always hold this batch's percentages.
    ensures r + g > 0 && r + n > 0 ==>
              && e.Decided?
              && e.after.sensibilityTemp == Percent(r, r + g)
              && e.after.precisionTemp == Percent(r, r + n)
    // A gated batch is rejected and leaves the stored best and counts alone.
    ensures e.Decided? && Gated(m, e.after.sensibilityTemp, e.after.precisionTemp) ==>
              && !e.accepted
              && e.after.precision == m.precision && e.after.sensibility == m.sensibility
              && e.after.relevantes == m.relevantes && e.after.nRelevantes == m.nRelevantes
    // Past the gates the counts are stored, whatever the verdict.
    ensures e.Decided? && !Gated(m, e.after.sensibilityTemp, e.after.precisionTemp) ==>
              e.after.relevantes == r && e.after.nRelevantes == n
    // The first evaluation installs its percentages as the best and answers False.
    ensures e.Decided? && m.precision == Unset ==>
              && !e.accepted
              && e.after.precision == e.after.precisionTemp
              && e.after.sensibility == e.after.sensibilityTemp
    // Acceptance installs the percentages; a later rejection keeps the stored best.
    ensures e.Decided? && e.accepted ==>
              e.after.precision == e.after.precisionTemp && e.after.sensibility == e.after.sensibilityTemp
    ensures e.Decided? && !e.accepted && m.precision != Unset ==>
              e.after.precision == m.precision && e.after.sensibility == m.sensibility
  {
    if r + g == 0 then ZeroDivision(m)
    else
      var m1 := m.(sensibilityTemp := Percent(r, r + g));
      if r + n == 0 then ZeroDivision(m1)
      else
        var m2 := m1.(precisionTemp := Percent(r, r + n));
        if Gated(m, m2.sensibilityTemp, m2.precisionTemp) then Decided(false, m2)
        else
          var d := Compare(m2.(relevantes := r, nRelevantes := n));
          Decided(d.accepted, d.after)
  }

  /** The shape the state keeps: both stored values are set together, and every
      percentage lies in [0, 100]. */
  ghost predicate WellFormed(m: Metrics)
  {
    && (m.precision == Unset <==> m.sensibility == Unset)
    && (m.precision != Unset ==> 0.0 <= m.precision <= 100.0 && 0.0 <= m.sensibility <= 100.0)
    && 0.0 <= m.precisionTemp <= 100.0 && 0.0 <= m.sensibilityTemp <= 100.0
  }

  /** Every evaluation keeps the state well formed; so the gate's test of both
      sentinels and the comparison's test of the precision sentinel agree. */
  lemma EvaluateKeepsWellFormed(m: Metrics, r: nat, n: nat, g: nat)
    requires WellFormed(m)
    ensures WellFormed(Evaluate(m, r, n, g).after)
  {
  }

  /** A run of evaluations, one `(r, n)` pair per batch, against `g` goal
      papers; a batch that divides by zero leaves its partial update behind. */
  function Run(m: Metrics, batches: seq<(nat, nat)>, g: nat): Metrics
  {
    if batches == [] then m
    else
      var b := batches[|batches| - 1];
      Evaluate(Run(m, batches[..|batches| - 1], g), b.0, b.1, g).after
  }

  /** Once a stored sensitivity of at least 80 is established, no later batch
      brings it back below 80. */
  lemma {:induction false} SensitivityFloorHolds(m: Metrics, batches: seq<(nat, nat)>, g: nat)
    requires WellFormed(m) && m.sensibility >= 80.0
    ensures Run(m, batches, g).sensibility >= 80.0
    ensures WellFormed(Run(m, batches, g))
  {
    if batches != [] {
      var b := batches[|batches| - 1];
      SensitivityFloorHolds(m, batches[..|batches| - 1], g);
      EvaluateKeepsWellFormed(Run(m, batches[..|batches| - 1], g), b.0, b.1, g);
    }
  }

  /** Once a stored precision below 60 is established, no later batch stores
      a precision of 60 or more. */
  lemma {:induction false} PrecisionCeilingHolds(m: Metrics, batches: seq<(nat, nat)>, g: nat)
    requires WellFormed(m) && m.precision != Unset && m.precision < 60.0
    ensures Run(m, batches, g).precision < 60.0
    ensures Run(m, batches, g).precision != Unset
    ensures WellFormed(Run(m, batches, g))
  {
    if batches != [] {
      var b := batches[|batches| - 1];
      PrecisionCeilingHolds(m, batches[..|batches| - 1], g);
      EvaluateKeepsWellFormed(Run(m, batches[..|batches| - 1], g), b.0, b.1, g);
    }
  }

  /** Evaluating the same counts again right after they were installed (on the
      first call, or by acceptance) is rejected: a configuration never beats itself. */
  lemma RepeatedBatchRejected(m: Metrics, r: nat, n: nat, g: nat)
    requires r + n > 0 && r + g > 0
    requires Evaluate(m, r, n, g).Decided?
    requires Evaluate(m, r, n, g).accepted || m.precision == Unset
    ensures Evaluate(Evaluate(m, r, n, g).after, r, n, g) == Decided(false, Evaluate(m, r, n, g).after)
  {
  }

  /** The first evaluation of a batch with 6 relevant and 14 non-relevant
      papers against 10 goal papers: sensitivity 6/16 = 37.5%, precision
      6/20 = 30%, both installed as the best, verdict False. */
  lemma FirstEvaluationExample()
    ensures Evaluate(Initial, 6, 14, 10) == Decided(false, Metrics(30.0, 37.5, 30.0, 37.5, 6, 14))
  {
  }
}
