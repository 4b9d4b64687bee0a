/** Risk ranks, bands and the scoring rubric (services/ai_eval/cases.py and rubric.py), over exact reals. */
module Rubric {
  import opened Text
  import opened Folding

  // ── Ranks and bands ─────────────────────────────────────────────────────────

  function Strip(s: string): string {
    Trim(IsPythonSpace, s)
  }

  /** `risk_rank`: -1 for anything that is no level. */
  function RiskRank(level: string): int {
    match Lower(Strip(level))
    case "low" => 0
    case "medium" => 1
    case "high" => 2
    case "critical" => 3
    case _ => -1
  }

  datatype RiskBand = RiskBand(exact: Option<string>, min: Option<string>, max: Option<string>)

  predicate Contains(b: RiskBand, level: string) {
    var r := RiskRank(level);
    if b.exact.Some? then r == RiskRank(b.exact.value)
    else !(b.min.Some? && r < RiskRank(b.min.value)) && !(b.max.Some? && r > RiskRank(b.max.value))
  }

  /** The ranks, from low to critical, letter case and blanks around aside; anything else ranks below all of them. */
  lemma RanksAreOrdered(level: string)
    ensures var text := Lower(Strip(level));
            && (text == "low" <==> RiskRank(level) == 0) && (text == "medium" <==> RiskRank(level) == 1)
            && (text == "high" <==> RiskRank(level) == 2) && (text == "critical" <==> RiskRank(level) == 3)
            && (text !in {"low", "medium", "high", "critical"} <==> RiskRank(level) == -1)
  {
  }

  /** The level is in the band: at the exact rank if there is one, and else within the bounds that there are. */
  lemma BandIsARange(b: RiskBand, level: string)
    ensures Contains(b, level) <==>
              match b.exact
              case Some(exact) => RiskRank(level) == RiskRank(exact)
              case None => (b.min.None? || RiskRank(b.min.value) <= RiskRank(level))
                           && (b.max.None? || RiskRank(level) <= RiskRank(b.max.value))
  {
  }

  /** A level the model made up falls in a band exactly when nothing known bounds the band from below. */
  lemma UnknownLevelInBand(b: RiskBand, level: string)
    requires RiskRank(level) == -1
    ensures Contains(b, level)
            <==> if b.exact.Some? then RiskRank(b.exact.value) == -1 else b.min.None? || RiskRank(b.min.value) == -1
  {
  }

  // ── The axes ────────────────────────────────────────────────────────────────

  datatype Factor = Factor(address: string, title: string, severity: string)

  datatype Output = Output(riskLevel: string, description: string, factors: seq<Factor>)

  datatype MustFlag = MustFlag(address: string, minSeverity: string)

  datatype Truth = Truth(risk: RiskBand, mustFlag: seq<MustFlag>, mustNotFlag: seq<string>, churn: seq<string>,
                         keyFacts: seq<string>, forbiddenClaims: seq<string>)

  datatype AxisName =
    RiskBandName | MustFlagName | NoFalseRiskName | KeyFactsName | NoForbiddenName | OtherName(s: string)

  datatype AxisResult = AxisResult(name: AxisName, passed: bool, score: real)

  predicate IsAbout(f: Factor, address: string) {
    Strip(f.address) == address || Within(address, f.title)
  }

  predicate Flagged(out: Output, address: string) {
    exists f :: f in out.factors && IsAbout(f, address)
  }

  predicate Hit(out: Output, m: MustFlag) {
    exists f :: f in out.factors && IsAbout(f, m.address) && RiskRank(f.severity) >= RiskRank(m.minSeverity)
  }

  function Hits(out: Output, expected: seq<MustFlag>): (n: nat)
    ensures n <= |expected|
  {
    if expected == [] then 0
    else Hits(out, expected[..|expected| - 1]) + if Hit(out, expected[|expected| - 1]) then 1 else 0
  }

  /** k of n, exactly. */
  function Share(k: int, n: int): real
    requires n > 0
  {
    k as real / n as real
  }

  lemma ShareOfWhole(k: int, n: int)
    requires 0 <= k <= n && 0 < n
    ensures 0.0 <= Share(k, n) <= 1.0
    ensures Share(k, n) == 1.0 <==> k == n
    ensures Share(k, n) == 0.0 <==> k == 0
  {
    assert Share(k, n) * n as real == k as real;
  }

  function RiskBandAxis(t: Truth, out: Output): AxisResult {
    var ok := Contains(t.risk, Lower(out.riskLevel));
    AxisResult(RiskBandName, ok, if ok then 1.0 else 0.0)
  }

  function MustFlagAxis(t: Truth, out: Output): AxisResult {
    if t.mustFlag == [] then AxisResult(MustFlagName, true, 1.0) else
    var hits := Hits(out, t.mustFlag);
    AxisResult(MustFlagName, hits == |t.mustFlag|, Share(hits, |t.mustFlag|))
  }

  method ScoreMustFlag(t: Truth, out: Output) returns (r: AxisResult)
    ensures r == MustFlagAxis(t, out)
  {
    var expected := t.mustFlag;
    if expected == [] { return AxisResult(MustFlagName, true, 1.0); }
    var hits := 0;
    var i := 0;
    while i < |expected|
      invariant 0 <= i <= |expected| && hits == Hits(out, expected[..i])
    {
      assert expected[..i + 1][..i] == expected[..i];
      var ok := exists f :: f in out.factors && IsAbout(f, expected[i].address)
                            && RiskRank(f.severity) >= RiskRank(expected[i].minSeverity);
      assert ok == Hit(out, expected[i]);
      if ok { hits := hits + 1; }
      i := i + 1;
    }
    assert expected[..i] == expected;
    return AxisResult(MustFlagName, hits == |expected|, hits as real / |expected| as real);
  }

  function Guarded(t: Truth): set<string> {
    (set a | a in t.mustNotFlag) + (set a | a in t.churn)
  }

  function Violations(t: Truth, out: Output): set<string> {
    set a | a in Guarded(t) && Flagged(out, a)
  }

  function NoFalseRiskAxis(t: Truth, out: Output): AxisResult {
    if Guarded(t) == {} then AxisResult(NoFalseRiskName, true, 1.0)
    else AxisResult(NoFalseRiskName, Violations(t, out) == {}, 1.0 - Share(|Violations(t, out)|, |Guarded(t)|))
  }

  /** How many of the texts occur in the description, letter case aside. */
  function Present(texts: seq<string>, description: string): (n: nat)
    ensures n <= |texts|
    ensures n == |texts| <==> forall i :: 0 <= i < |texts| ==> Within(Lower(texts[i]), Lower(description))
    ensures n == 0 <==> forall i :: 0 <= i < |texts| ==> !Within(Lower(texts[i]), Lower(description))
  {
    if texts == [] then 0 else
    var n := |texts| - 1;
    assert texts == texts[..n] + [texts[n]];
    Present(texts[..n], description) + if Within(Lower(texts[n]), Lower(description)) then 1 else 0
  }

  function KeyFactsAxis(t: Truth, out: Output): AxisResult {
    if t.keyFacts == [] then AxisResult(KeyFactsName, true, 1.0) else
    var present := Present(t.keyFacts, out.description);
    AxisResult(KeyFactsName, present == |t.keyFacts|, Share(present, |t.keyFacts|))
  }

  function NoForbiddenAxis(t: Truth, out: Output): AxisResult {
    if t.forbiddenClaims == [] then AxisResult(NoForbiddenName, true, 1.0) else
    var present := Present(t.forbiddenClaims, out.description);
    AxisResult(NoForbiddenName, present == 0, 1.0 - Share(present, |t.forbiddenClaims|))
  }

  function Score(t: Truth, out: Output): seq<AxisResult> {
    [RiskBandAxis(t, out), MustFlagAxis(t, out), NoFalseRiskAxis(t, out), KeyFactsAxis(t, out), NoForbiddenAxis(t, out)]
  }

  // ── What each axis asks ─────────────────────────────────────────────────────

  /** A factor is about an address if that is its own, blanks aside, or stands in its title. */
  ghost predicate About(f: Factor, address: string) {
    Strip(f.address) == address || exists a: string, b: string :: f.title == a + address + b
  }

  ghost predicate Named(out: Output, address: string) {
    exists f :: f in out.factors && About(f, address)
  }

  ghost predicate FlaggedAt(out: Output, m: MustFlag) {
    exists f :: f in out.factors && About(f, m.address) && RiskRank(f.severity) >= RiskRank(m.minSeverity)
  }

  ghost predicate Mentions(description: string, text: string) {
    exists a: string, b: string :: Lower(description) == a + Lower(text) + b
  }

  lemma AboutExactly(f: Factor, address: string)
    ensures IsAbout(f, address) <==> About(f, address)
  {
    WithinExactly(address, f.title);
  }

  lemma HitExactly(out: Output, m: MustFlag)
    ensures Hit(out, m) <==> FlaggedAt(out, m)
    ensures Flagged(out, m.address) <==> Named(out, m.address)
  {
    forall f | f in out.factors ensures IsAbout(f, m.address) <==> About(f, m.address) { AboutExactly(f, m.address); }
  }

  lemma MentionsExactly(description: string, text: string)
    ensures Within(Lower(text), Lower(description)) <==> Mentions(description, text)
  {
    WithinExactly(Lower(text), Lower(description));
  }

  ghost function HitAt(out: Output, expected: seq<MustFlag>): nat -> bool {
    (i: nat) => i < |expected| && FlaggedAt(out, expected[i])
  }

  ghost function MentionedAt(texts: seq<string>, description: string): nat -> bool {
    (i: nat) => i < |texts| && Mentions(description, texts[i])
  }

  lemma {:induction false} HitsAreCounted(out: Output, expected: seq<MustFlag>, n: nat)
    requires n <= |expected|
    ensures Hits(out, expected[..n]) == |Those(HitAt(out, expected), n)|
  {
    if n > 0 {
      HitsAreCounted(out, expected, n - 1);
      OneMore(HitAt(out, expected), n - 1);
      HitExactly(out, expected[n - 1]);
      assert expected[..n][..n - 1] == expected[..n - 1];
    } else {
      assert Those(HitAt(out, expected), 0) == {};
    }
  }

  lemma {:induction false} PresentAreCounted(texts: seq<string>, description: string, n: nat)
    requires n <= |texts|
    ensures Present(texts[..n], description) == |Those(MentionedAt(texts, description), n)|
  {
    if n > 0 {
      PresentAreCounted(texts, description, n - 1);
      OneMore(MentionedAt(texts, description), n - 1);
      MentionsExactly(description, texts[n - 1]);
      assert texts[..n][..n - 1] == texts[..n - 1];
    } else {
      assert Those(MentionedAt(texts, description), 0) == {};
    }
  }

  /** The five axes, in their order. */
  lemma FiveAxes(t: Truth, out: Output)
    ensures var a := Score(t, out);
            && |a| == 5 && a[0] == RiskBandAxis(t, out) && a[1] == MustFlagAxis(t, out)
            && a[2] == NoFalseRiskAxis(t, out) && a[3] == KeyFactsAxis(t, out) && a[4] == NoForbiddenAxis(t, out)
  {
  }

  /** `risk_band`. */
  lemma RiskBandAsks(t: Truth, out: Output)
    ensures var a := RiskBandAxis(t, out);
            && a.name == RiskBandName && (a.passed <==> Contains(t.risk, Lower(out.riskLevel)))
            && a.score == if a.passed then 1.0 else 0.0
  {
  }

  ghost predicate AllFlagged(out: Output, expected: seq<MustFlag>) {
    forall i :: 0 <= i < |expected| ==> FlaggedAt(out, expected[i])
  }

  lemma AllHit(out: Output, expected: seq<MustFlag>)
    ensures Hits(out, expected) == |Those(HitAt(out, expected), |expected|)|
    ensures Hits(out, expected) == |expected| <==> AllFlagged(out, expected)
  {
    var p, n := HitAt(out, expected), |expected|;
    assert expected[..n] == expected;
    HitsAreCounted(out, expected, n);
    AllCounted(p, n);
    if AllFlagged(out, expected) {
      forall i: nat | i < n ensures p(i) { assert FlaggedAt(out, expected[i]); }
    }
    if forall i: nat :: i < n ==> p(i) {
      forall i | 0 <= i < n ensures FlaggedAt(out, expected[i]) { assert p(i); }
    }
  }

  /** `must_flag`: the share of expected resources that a factor is about at no lower a severity. */
  lemma MustFlagAsks(t: Truth, out: Output)
    ensures var a, n := MustFlagAxis(t, out), |t.mustFlag|;
            && a.name == MustFlagName && (a.passed <==> AllFlagged(out, t.mustFlag))
            && a.score == if n == 0 then 1.0 else Share(|Those(HitAt(out, t.mustFlag), n)|, n)
  {
    AllHit(out, t.mustFlag);
  }

  ghost function NamedGuards(t: Truth, out: Output): set<string> {
    set a | a in t.mustNotFlag + t.churn && Named(out, a)
  }

  /** `no_false_risk`: the share of guarded addresses that no factor is about. */
  lemma NoFalseRiskAsks(t: Truth, out: Output)
    ensures var a, guards := NoFalseRiskAxis(t, out), set x | x in t.mustNotFlag + t.churn;
            && a.name == NoFalseRiskName
            && (a.passed <==> forall x :: x in t.mustNotFlag || x in t.churn ==> !Named(out, x))
            && a.score == if guards == {} then 1.0 else 1.0 - Share(|NamedGuards(t, out)|, |guards|)
  {
    var guards := set x | x in t.mustNotFlag + t.churn;
    assert Guarded(t) == guards;
    GuardsNamed(t, out);
    NoGuardNamed(t, out);
  }

  lemma NoGuardNamed(t: Truth, out: Output)
    ensures NamedGuards(t, out) == {} <==> forall x :: x in t.mustNotFlag || x in t.churn ==> !Named(out, x)
  {
    if NamedGuards(t, out) == {} {
      forall x | x in t.mustNotFlag || x in t.churn ensures !Named(out, x) {
        assert x in t.mustNotFlag + t.churn && x !in NamedGuards(t, out);
      }
    }
  }

  lemma GuardsNamed(t: Truth, out: Output)
    ensures Violations(t, out) == NamedGuards(t, out)
  {
    forall x ensures x in Violations(t, out) <==> x in NamedGuards(t, out) {
      HitExactly(out, MustFlag(x, ""));
    }
  }

  /** `key_facts` and `no_forbidden`: which texts the description mentions, letter case aside. */
  lemma TextsAsk(t: Truth, out: Output)
    ensures var a, n := KeyFactsAxis(t, out), |t.keyFacts|;
            && a.name == KeyFactsName
            && (a.passed <==> forall i :: 0 <= i < n ==> Mentions(out.description, t.keyFacts[i]))
            && a.score == if n == 0 then 1.0 else Share(|Those(MentionedAt(t.keyFacts, out.description), n)|, n)
    ensures var a, n := NoForbiddenAxis(t, out), |t.forbiddenClaims|;
            && a.name == NoForbiddenName
            && (a.passed <==> forall i :: 0 <= i < n ==> !Mentions(out.description, t.forbiddenClaims[i]))
            && a.score == if n == 0 then 1.0
                          else 1.0 - Share(|Those(MentionedAt(t.forbiddenClaims, out.description), n)|, n)
  {
    PresentAreCounted(t.keyFacts, out.description, |t.keyFacts|);
    PresentAreCounted(t.forbiddenClaims, out.description, |t.forbiddenClaims|);
    assert t.keyFacts[..|t.keyFacts|] == t.keyFacts && t.forbiddenClaims[..|t.forbiddenClaims|] == t.forbiddenClaims;
    forall text ensures Within(Lower(text), Lower(out.description)) <==> Mentions(out.description, text) {
      MentionsExactly(out.description, text);
    }
  }

  // ── Pass and score ──────────────────────────────────────────────────────────

  function Weight(name: AxisName): real {
    match name
    case RiskBandName => 0.30
    case MustFlagName => 0.30
    case NoFalseRiskName => 0.20
    case KeyFactsName => 0.12
    case NoForbiddenName => 0.08
    case OtherName(_) => 0.0
  }

  const HARD_AXES := [RiskBandName, MustFlagName, NoFalseRiskName]

  /** `by_name[name].passed` of the last axis of that name; an absent axis does not count against the result. */
  predicate PassedIfPresent(axes: seq<AxisResult>, name: AxisName) {
    if axes == [] then true
    else if axes[|axes| - 1].name == name then axes[|axes| - 1].passed
    else PassedIfPresent(axes[..|axes| - 1], name)
  }

  predicate HardPass(axes: seq<AxisResult>) {
    forall name :: name in HARD_AXES ==> PassedIfPresent(axes, name)
  }

  function Total(axes: seq<AxisResult>): real {
    if axes == [] then 0.0 else Weight(axes[0].name) + Total(axes[1..])
  }

  function Got(axes: seq<AxisResult>): real {
    if axes == [] then 0.0 else Weight(axes[0].name) * axes[0].score + Got(axes[1..])
  }

  function OverallScore(axes: seq<AxisResult>): real {
    if Total(axes) == 0.0 then 0.0 else Got(axes) / Total(axes)
  }

  predicate ValidScores(axes: seq<AxisResult>) {
    forall i :: 0 <= i < |axes| ==> 0.0 <= axes[i].score <= 1.0
  }

  lemma {:induction false} GotWithinTotal(axes: seq<AxisResult>)
    requires ValidScores(axes)
    ensures 0.0 <= Got(axes) <= Total(axes)
    ensures Got(axes) == Total(axes)
            <==> forall i :: 0 <= i < |axes| ==> Weight(axes[i].name) == 0.0 || axes[i].score == 1.0
  {
    if axes != [] {
      GotWithinTotal(axes[1..]);
      WeightedScore(Weight(axes[0].name), axes[0].score);
    }
  }

  lemma WeightedScore(w: real, x: real)
    requires 0.0 <= w && 0.0 <= x <= 1.0
    ensures 0.0 <= w * x <= w && (w * x == w <==> w == 0.0 || x == 1.0)
  {
    assert w - w * x == w * (1.0 - x);
  }

  /** Axes with scores in [0, 1] have an overall score in [0, 1], and 1 only with full marks on each weighted axis. */
  lemma OverallInRange(axes: seq<AxisResult>)
    requires ValidScores(axes)
    ensures 0.0 <= OverallScore(axes) <= 1.0
    ensures OverallScore(axes) == 1.0 <==>
              Total(axes) > 0.0 && forall i :: 0 <= i < |axes| ==> Weight(axes[i].name) == 0.0 || axes[i].score == 1.0
  {
    GotWithinTotal(axes);
    if Total(axes) != 0.0 { Ratio(Got(axes), Total(axes)); }
  }

  lemma Ratio(got: real, total: real)
    requires 0.0 <= got <= total && total > 0.0
    ensures 0.0 <= got / total <= 1.0 && (got / total == 1.0 <==> got == total)
  {
    assert got / total * total == got;
  }

  predicate FullMarksIffPassed(a: AxisResult) {
    0.0 <= a.score <= 1.0 && (a.passed <==> a.score == 1.0)
  }

  lemma MustFlagMarks(t: Truth, out: Output)
    ensures FullMarksIffPassed(MustFlagAxis(t, out))
  {
    if t.mustFlag != [] { ShareOfWhole(Hits(out, t.mustFlag), |t.mustFlag|); }
  }

  lemma NoFalseRiskMarks(t: Truth, out: Output)
    ensures FullMarksIffPassed(NoFalseRiskAxis(t, out))
  {
    if Guarded(t) != {} {
      SubsetSize(Violations(t, out), Guarded(t));
      ShareOfWhole(|Violations(t, out)|, |Guarded(t)|);
    }
  }

  lemma TextMarks(t: Truth, out: Output)
    ensures FullMarksIffPassed(KeyFactsAxis(t, out)) && FullMarksIffPassed(NoForbiddenAxis(t, out))
  {
    if t.keyFacts != [] { ShareOfWhole(Present(t.keyFacts, out.description), |t.keyFacts|); }
    if t.forbiddenClaims != [] { ShareOfWhole(Present(t.forbiddenClaims, out.description), |t.forbiddenClaims|); }
  }

  /** An axis passes exactly when its score is 1, and every score is in [0, 1]. */
  lemma PassIsFullMarks(t: Truth, out: Output)
    ensures ValidScores(Score(t, out))
    ensures forall i :: 0 <= i < 5 ==> FullMarksIffPassed(Score(t, out)[i])
  {
    forall i | 0 <= i < 5 ensures FullMarksIffPassed(Score(t, out)[i]) {
      AxisMarks(t, out, i);
    }
  }

  lemma AxisMarks(t: Truth, out: Output, i: nat)
    requires i < 5
    ensures FullMarksIffPassed(Score(t, out)[i])
  {
    match i {
      case 0 =>
      case 1 => MustFlagMarks(t, out);
      case 2 => NoFalseRiskMarks(t, out);
      case _ => TextMarks(t, out);
    }
  }

  predicate InOrder(a: seq<AxisResult>) {
    && |a| == 5 && a[0].name == RiskBandName && a[1].name == MustFlagName && a[2].name == NoFalseRiskName
    && a[3].name == KeyFactsName && a[4].name == NoForbiddenName
  }

  lemma FiveWeights(a: seq<AxisResult>)
    requires InOrder(a)
    ensures Total(a) == 1.0
    ensures Got(a) == 0.30 * a[0].score + 0.30 * a[1].score + 0.20 * a[2].score + 0.12 * a[3].score + 0.08 * a[4].score
  {
    assert a[1..][1..] == a[2..] && a[2..][1..] == a[3..] && a[3..][1..] == a[4..] && a[4..][1..] == [];
    assert Total(a[4..]) == 0.08 && Got(a[4..]) == 0.08 * a[4].score;
    assert Total(a[3..]) == 0.20 && Got(a[3..]) == 0.12 * a[3].score + 0.08 * a[4].score;
    assert Total(a[2..]) == 0.40 && Got(a[2..]) == 0.20 * a[2].score + Got(a[3..]);
  }

  lemma ThreeHardAxes(a: seq<AxisResult>)
    requires InOrder(a)
    ensures HardPass(a) <==> a[0].passed && a[1].passed && a[2].passed
  {
    assert a[..4][..3] == a[..3] && a[..3][..2] == a[..2] && a[..2][..1] == a[..1];
    assert PassedIfPresent(a, NoFalseRiskName) == PassedIfPresent(a[..3], NoFalseRiskName) == a[2].passed;
    assert PassedIfPresent(a, MustFlagName) == PassedIfPresent(a[..3], MustFlagName)
        == PassedIfPresent(a[..2], MustFlagName) == a[1].passed;
    assert a[..1] == [a[0]];
    assert PassedIfPresent(a[..1], RiskBandName) == a[0].passed;
    assert PassedIfPresent(a, RiskBandName) == PassedIfPresent(a[..3], RiskBandName)
        == PassedIfPresent(a[..2], RiskBandName) == PassedIfPresent(a[..1], RiskBandName);
    assert HARD_AXES[0] == RiskBandName && HARD_AXES[1] == MustFlagName && HARD_AXES[2] == NoFalseRiskName;
  }

  /** The weights, and the three axes that a hard pass takes. */
  lemma WeightsAndHardAxes(t: Truth, out: Output)
    ensures var a := Score(t, out);
            && |a| == 5
            && OverallScore(a) == 0.30 * a[0].score + 0.30 * a[1].score + 0.20 * a[2].score + 0.12 * a[3].score
                                  + 0.08 * a[4].score
            && (HardPass(a) <==> a[0].passed && a[1].passed && a[2].passed)
  {
    FiveWeights(Score(t, out));
    ThreeHardAxes(Score(t, out));
  }

  /** Without axes nothing fails and nothing is scored; an axis of another name has no weight and decides nothing. */
  lemma OtherAxesCountForNothing(s: string, passed: bool, score: real)
    ensures HardPass([]) && OverallScore([]) == 0.0
    ensures HardPass([AxisResult(OtherName(s), passed, score)])
    ensures OverallScore([AxisResult(OtherName(s), passed, score)]) == 0.0
  {
    var a := [AxisResult(OtherName(s), passed, score)];
    assert a[1..] == [] && a[..0] == [];
    assert Total(a) == Weight(OtherName(s)) + Total([]);
  }

  lemma OverallOfFive(a: seq<AxisResult>)
    requires InOrder(a) && forall i :: 0 <= i < 5 ==> FullMarksIffPassed(a[i])
    ensures 0.0 <= OverallScore(a) <= 1.0
    ensures OverallScore(a) == 1.0 <==> forall i :: 0 <= i < 5 ==> a[i].passed
    ensures HardPass(a) ==> OverallScore(a) >= 0.8
  {
    FiveWeights(a);
    ThreeHardAxes(a);
    assert OverallScore(a) == Got(a);
  }

  /** The overall score is in [0, 1], is 1 exactly when every axis passes, and is at least 0.8 on a hard pass. */
  lemma OverallOfScore(t: Truth, out: Output)
    ensures var a := Score(t, out);
            && 0.0 <= OverallScore(a) <= 1.0
            && (OverallScore(a) == 1.0 <==> forall i :: 0 <= i < 5 ==> a[i].passed)
            && (HardPass(a) ==> OverallScore(a) >= 0.8)
  {
    PassIsFullMarks(t, out);
    OverallOfFive(Score(t, out));
  }

  lemma SubsetSize<T>(a: set<T>, b: set<T>)
    requires a <= b
    ensures |a| <= |b|
  {
    assert b == a + (b - a);
  }

  // ── More factors ────────────────────────────────────────────────────────────

  lemma {:induction false} HitsGrow(out: Output, more: Output, expected: seq<MustFlag>)
    requires forall f :: f in out.factors ==> f in more.factors
    ensures Hits(out, expected) <= Hits(more, expected)
  {
    if expected != [] { HitsGrow(out, more, expected[..|expected| - 1]); }
  }

  lemma ShareGrows(k: int, l: int, n: int)
    requires k <= l && n > 0
    ensures Share(k, n) <= Share(l, n)
  {
    assert Share(l, n) - Share(k, n) == (l - k) as real / n as real;
  }

  /** Reporting further risk factors never lowers must_flag and never raises no_false_risk. */
  lemma MoreFactors(t: Truth, out: Output, more: Output)
    requires forall f :: f in out.factors ==> f in more.factors
    ensures MustFlagAxis(t, out).score <= MustFlagAxis(t, more).score
    ensures MustFlagAxis(t, out).passed ==> MustFlagAxis(t, more).passed
    ensures NoFalseRiskAxis(t, more).score <= NoFalseRiskAxis(t, out).score
    ensures NoFalseRiskAxis(t, more).passed ==> NoFalseRiskAxis(t, out).passed
  {
    HitsGrow(out, more, t.mustFlag);
    if t.mustFlag != [] { ShareGrows(Hits(out, t.mustFlag), Hits(more, t.mustFlag), |t.mustFlag|); }
    assert Violations(t, out) <= Violations(t, more);
    SubsetSize(Violations(t, out), Violations(t, more));
    if Guarded(t) != {} { ShareGrows(|Violations(t, out)|, |Violations(t, more)|, |Guarded(t)|); }
  }
}
