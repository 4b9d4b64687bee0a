/** Scoring one model's sweep and its aggregate rates (services/ai_eval/report.py), over exact reals. */
module Report {
  import opened Text
  import opened Folding
  import opened Rubric

  datatype Case = Case(id: string, surface: string, truth: Truth, holdout: Option<bool>)

  /** One case's repeats; None is a call that failed. */
  datatype CaseRun = CaseRun(caseId: string, outputs: seq<Option<Output>>)

  datatype CaseScore = CaseScore(caseId: string, surface: string, holdout: bool, nRuns: nat, nOk: nat, hardPass: bool,
                                 overall: real, riskRepeatability: real, hardPassRepeatability: real)

  const HOLDOUT_MODULUS := 4

  /** MD5 of an id, read as a number, and `round(x, 3)`. */
  datatype Context = Context(digest: string -> nat, round: real -> real)

  /** To a nearest multiple of a thousandth, ties either way. */
  ghost predicate Rounds(round: real -> real) {
    forall x {:trigger RoundsTo(x, round(x))} :: RoundsTo(x, round(x))
  }

  predicate RoundsTo(x: real, r: real) {
    -0.0005 <= r - x <= 0.0005 && (r * 1000.0).Floor as real == r * 1000.0
  }

  /** The split of a case; `digest` is MD5 of the id, read as a number. */
  predicate IsHoldout(digest: string -> nat, c: Case) {
    if c.holdout.Some? then c.holdout.value else digest(c.id) % HOLDOUT_MODULUS == 0
  }

  // ── Means ───────────────────────────────────────────────────────────────────

  function Sum(xs: seq<real>): real {
    if xs == [] then 0.0 else Sum(xs[..|xs| - 1]) + xs[|xs| - 1]
  }

  function Mean(xs: seq<real>): real {
    if xs == [] then 0.0 else Sum(xs) / |xs| as real
  }

  function Mark(pass: bool): real {
    if pass then 1.0 else 0.0
  }

  lemma {:induction false} SumConcat(xs: seq<real>, ys: seq<real>)
    ensures Sum(xs + ys) == Sum(xs) + Sum(ys)
  {
    if ys == [] {
      assert xs + ys == xs;
    } else {
      var n := |ys| - 1;
      SumConcat(xs, ys[..n]);
      assert (xs + ys)[..|xs| + n] == xs + ys[..n];
    }
  }

  // ── Repeatability ───────────────────────────────────────────────────────────

  /** How often a level occurs. */
  function Count(levels: seq<string>, x: string): nat {
    if levels == [] then 0 else
    var n := |levels| - 1;
    Count(levels[..n], x) + if levels[n] == x then 1 else 0
  }

  /** The greatest number of occurrences of one of the first n levels. */
  function Modal(levels: seq<string>, n: nat): (m: nat)
    requires n <= |levels|
    ensures m <= |levels|
  {
    if n == 0 then 0 else
    OccurrencesBounded(levels, levels[n - 1]);
    var c, before := Count(levels, levels[n - 1]), Modal(levels, n - 1);
    if c > before then c else before
  }

  lemma {:induction false} OccurrencesBounded(levels: seq<string>, x: string)
    ensures Count(levels, x) <= |levels|
    ensures Count(levels, x) == |levels| <==> forall i :: 0 <= i < |levels| ==> levels[i] == x
  {
    if levels != [] {
      var n := |levels| - 1;
      assert levels == levels[..n] + [levels[n]];
      OccurrencesBounded(levels[..n], x);
      if Count(levels, x) == |levels| {
        forall i | 0 <= i < |levels| ensures levels[i] == x {
          if i < n { assert levels[..n][i] == x; }
        }
      }
    }
  }

  /** The modal count is reached by some level and exceeded by none. */
  lemma {:induction false} ModalIsGreatest(levels: seq<string>, n: nat)
    requires n <= |levels|
    ensures forall i :: 0 <= i < n ==> Count(levels, levels[i]) <= Modal(levels, n)
    ensures n > 0 ==> exists i :: 0 <= i < n && Count(levels, levels[i]) == Modal(levels, n)
  {
    if n > 0 { ModalIsGreatest(levels, n - 1); }
  }

  predicate AllSame(levels: seq<string>) {
    forall i, j :: 0 <= i < |levels| && 0 <= j < |levels| ==> levels[i] == levels[j]
  }

  lemma ModalOfAllSame(levels: seq<string>)
    requires levels != []
    ensures Modal(levels, |levels|) >= 1
    ensures Modal(levels, |levels|) == |levels| <==> AllSame(levels)
  {
    ModalIsGreatest(levels, |levels|);
    var k :| 0 <= k < |levels| && Count(levels, levels[k]) == Modal(levels, |levels|);
    assert levels[0] in multiset(levels);
    OccurrencesBounded(levels, levels[k]);
    OccurrencesBounded(levels, levels[0]);
    if AllSame(levels) { assert Count(levels, levels[0]) == |levels|; }
  }

  // ── Scoring a sweep ─────────────────────────────────────────────────────────

  function Successes(outputs: seq<Option<Output>>): seq<Output> {
    if outputs == [] then []
    else Successes(outputs[..|outputs| - 1])
         + if outputs[|outputs| - 1].Some? then [outputs[|outputs| - 1].value] else []
  }

  function Levels(oks: seq<Output>): seq<string> {
    seq(|oks|, i requires 0 <= i < |oks| => Lower(oks[i].riskLevel))
  }

  /** Which outputs pass against this truth. */
  function Passing(t: Truth): Output -> bool {
    out => HardPass(Score(t, out))
  }

  function MarksOf(p: Output -> bool, oks: seq<Output>): seq<real> {
    seq(|oks|, i requires 0 <= i < |oks| => Mark(p(oks[i])))
  }

  function RiskFigure(round: real -> real, levels: seq<string>): real
    requires levels != []
  {
    round(Share(Modal(levels, |levels|), |levels|))
  }

  function PassFigure(round: real -> real, p: Output -> bool, oks: seq<Output>): real {
    round(Mean(MarksOf(p, oks)))
  }

  /** The score of one case: the headline is that of the first successful repeat. */
  function ScoreRun(env: Context, c: Case, run: CaseRun): CaseScore {
    var oks := Successes(run.outputs);
    if oks == [] then CaseScore(c.id, c.surface, IsHoldout(env.digest, c), |run.outputs|, 0, false, 0.0, 0.0, 0.0)
    else
      CaseScore(c.id, c.surface, IsHoldout(env.digest, c), |run.outputs|, |oks|, Passing(c.truth)(oks[0]),
                env.round(OverallScore(Score(c.truth, oks[0]))), RiskFigure(env.round, Levels(oks)),
                PassFigure(env.round, Passing(c.truth), oks))
  }

  /** `score_model`; None is the KeyError for a run of a case that is not there. */
  method ScoreModel(env: Context, cases: map<string, Case>, runs: seq<CaseRun>)
    returns (scores: Option<seq<CaseScore>>)
    ensures scores.None? <==> exists i :: 0 <= i < |runs| && runs[i].caseId !in cases
    ensures scores.Some? ==> Scored(env, cases, runs, scores.value)
  {
    var out: seq<CaseScore> := [];
    for k := 0 to |runs|
      invariant Scored(env, cases, runs[..k], out)
    {
      if runs[k].caseId !in cases { return None; }
      var score := ScoreRun(env, cases[runs[k].caseId], runs[k]);
      ScoredMore(env, cases, runs, k, out, score);
      out := out + [score];
    }
    assert runs[..|runs|] == runs;
    return Some(out);
  }

  predicate IsScore(env: Context, cases: map<string, Case>, run: CaseRun, score: CaseScore) {
    run.caseId in cases && score == ScoreRun(env, cases[run.caseId], run)
  }

  /** One score per run, in order. */
  predicate Scored(env: Context, cases: map<string, Case>, runs: seq<CaseRun>, scores: seq<CaseScore>) {
    |scores| == |runs| && forall i :: 0 <= i < |runs| ==> IsScore(env, cases, runs[i], scores[i])
  }

  lemma ScoredMore(env: Context, cases: map<string, Case>, runs: seq<CaseRun>, k: nat,
                   scores: seq<CaseScore>, score: CaseScore)
    requires k < |runs| && Scored(env, cases, runs[..k], scores) && IsScore(env, cases, runs[k], score)
    ensures Scored(env, cases, runs[..k + 1], scores + [score])
  {
  }

  lemma RoundedFigure(round: real -> real, x: real)
    requires Rounds(round) && 0.0 <= x <= 1.0
    ensures 0.0 <= round(x) <= 1.0
    ensures x < 0.9995 ==> round(x) < 1.0
    ensures x > 0.9995 ==> round(x) == 1.0
    ensures x >= 0.8 ==> round(x) >= 0.8
  {
    assert RoundsTo(x, round(x));
    var n := (round(x) * 1000.0).Floor;
    assert -0.5 <= n as real - x * 1000.0 <= 0.5;
    assert 0 <= n <= 1000 && (x >= 0.8 ==> n >= 800);
    assert (x < 0.9995 ==> n < 1000) && (x > 0.9995 ==> n == 1000);
  }

  /** So few of n repeats miss that their share is rounded away: fewer than one in 2000, or one in 2000 rounded up. */
  predicate RoundsAway(round: real -> real, misses: int, n: int) {
    2000 * misses < n || (2000 * misses == n && round(0.9995) == 1.0)
  }

  lemma RoundedShare(round: real -> real, k: int, n: int)
    requires Rounds(round) && 0 <= k <= n && 0 < n
    ensures 0.0 <= round(Share(k, n)) <= 1.0
    ensures round(Share(k, n)) == 1.0 <==> RoundsAway(round, n - k, n)
  {
    ShareOfWhole(k, n);
    RoundedFigure(round, Share(k, n));
    ShareAgainstTie(k, n);
  }

  lemma ShareAgainstTie(k: int, n: int)
    requires 0 <= k <= n && 0 < n
    ensures Share(k, n) > 0.9995 <==> 2000 * (n - k) < n
    ensures Share(k, n) == 0.9995 <==> 2000 * (n - k) == n
  {
    Quotient(k as real, n as real, 0.9995);
    AgainstTie(k, n);
  }

  lemma AgainstTie(k: int, n: int)
    ensures k as real > 0.9995 * n as real <==> 2000 * (n - k) < n
    ensures k as real == 0.9995 * n as real <==> 2000 * (n - k) == n
  {
    var d := 2000 * k - 1999 * n;
    assert d as real == 2000.0 * k as real - 1999.0 * n as real;
    assert 2000.0 * (0.9995 * n as real) == 1999.0 * n as real;
  }

  lemma Quotient(k: real, n: real, y: real)
    requires n > 0.0
    ensures k / n > y <==> k > y * n
    ensures k / n == y <==> k == y * n
  {
    var x := k / n;
    assert x * n == k;
    if x > y { assert (x - y) * n > 0.0; }
    if x < y { assert (y - x) * n > 0.0; }
  }

  /** How many of the outputs pass. */
  function Passes(p: Output -> bool, oks: seq<Output>): (n: nat)
    ensures n <= |oks|
  {
    if oks == [] then 0 else Passes(p, oks[..|oks| - 1]) + if p(oks[|oks| - 1]) then 1 else 0
  }

  predicate AllPass(p: Output -> bool, oks: seq<Output>) {
    forall i :: 0 <= i < |oks| ==> p(oks[i])
  }

  lemma {:induction false} PassesAll(p: Output -> bool, oks: seq<Output>)
    ensures Passes(p, oks) == |oks| <==> AllPass(p, oks)
  {
    if oks != [] {
      var k := |oks| - 1;
      PassesAll(p, oks[..k]);
      assert forall i :: 0 <= i < |oks| ==> oks[i] == if i < k then oks[..k][i] else oks[k];
    }
  }

  predicate NonePass(p: Output -> bool, oks: seq<Output>) {
    forall i :: 0 <= i < |oks| ==> !p(oks[i])
  }

  lemma {:induction false} PassesNone(p: Output -> bool, oks: seq<Output>)
    ensures Passes(p, oks) == 0 <==> NonePass(p, oks)
  {
    if oks != [] {
      var k := |oks| - 1;
      PassesNone(p, oks[..k]);
      assert forall i :: 0 <= i < |oks| ==> oks[i] == if i < k then oks[..k][i] else oks[k];
    }
  }

  lemma {:induction false} PassesAllButFirst(p: Output -> bool, oks: seq<Output>)
    requires oks != [] && forall i :: 0 < i < |oks| ==> p(oks[i])
    ensures Passes(p, oks) >= |oks| - 1
  {
    if |oks| > 1 { PassesAllButFirst(p, oks[..|oks| - 1]); }
  }

  lemma {:induction false} MarksSumToPasses(p: Output -> bool, oks: seq<Output>)
    ensures Sum(MarksOf(p, oks)) == Passes(p, oks) as real
  {
    if oks != [] {
      var k := |oks| - 1;
      MarksSumToPasses(p, oks[..k]);
      assert MarksOf(p, oks)[..k] == MarksOf(p, oks[..k]);
    }
  }

  /** The headline's score is in [0, 1], and at least 0.8 if it is a hard pass; without a success it is 0 and none. */
  lemma HeadlineMeaning(env: Context, c: Case, run: CaseRun)
    requires Rounds(env.round)
    ensures var s := ScoreRun(env, c, run);
            0.0 <= s.overall <= 1.0 && (s.hardPass ==> Successes(run.outputs) != [] && s.overall >= 0.8)
  {
    var oks := Successes(run.outputs);
    if oks != [] {
      OverallOfScore(c.truth, oks[0]);
      RoundedFigure(env.round, OverallScore(Score(c.truth, oks[0])));
    }
  }

  /** How many of the levels differ from the modal one. */
  function Strays(levels: seq<string>): (n: nat)
    ensures n <= |levels|
  {
    |levels| - Modal(levels, |levels|)
  }

  /** The figure is in [0, 1], and perfect exactly when what misses is rounded away. */
  predicate IsRounded(round: real -> real, figure: real, misses: int, n: int) {
    0.0 <= figure <= 1.0 && (figure == 1.0 <==> RoundsAway(round, misses, n))
  }

  lemma RiskFigureMeaning(round: real -> real, levels: seq<string>)
    requires Rounds(round) && levels != []
    ensures IsRounded(round, RiskFigure(round, levels), Strays(levels), |levels|)
  {
    RoundedShare(round, Modal(levels, |levels|), |levels|);
  }

  lemma PassFigureMeaning(round: real -> real, p: Output -> bool, oks: seq<Output>)
    requires Rounds(round) && oks != []
    ensures IsRounded(round, PassFigure(round, p, oks), |oks| - Passes(p, oks), |oks|)
  {
    MeanIsShare(p, oks);
    RoundedShare(round, Passes(p, oks), |oks|);
  }

  lemma MeanIsShare(p: Output -> bool, oks: seq<Output>)
    requires oks != []
    ensures Mean(MarksOf(p, oks)) == Share(Passes(p, oks), |oks|)
  {
    MarksSumToPasses(p, oks);
  }

  /** The successful outputs, in order, are what is counted; the first of them is the headline. */
  lemma {:induction false} SuccessesInOrder(outputs: seq<Option<Output>>)
    ensures |Successes(outputs)| == |Those(Succeeds(outputs), |outputs|)|
    ensures outputs != [] && outputs[|outputs| - 1].Some? ==>
              Successes(outputs) == Successes(outputs[..|outputs| - 1]) + [outputs[|outputs| - 1].value]
    ensures outputs != [] && outputs[|outputs| - 1].None? ==> Successes(outputs) == Successes(outputs[..|outputs| - 1])
  {
    if outputs != [] {
      var n := |outputs| - 1;
      SuccessesInOrder(outputs[..n]);
      assert Those(Succeeds(outputs), n) == Those(Succeeds(outputs[..n]), n);
      OneMore(Succeeds(outputs), n);
    } else {
      assert Those(Succeeds(outputs), 0) == {};
    }
  }

  function Succeeds(outputs: seq<Option<Output>>): nat -> bool {
    (i: nat) => i < |outputs| && outputs[i].Some?
  }

  /** The score of a case: what it is a score of, how often it was run, and the verdict on the first success. */
  lemma HeadlineExactly(env: Context, c: Case, run: CaseRun)
    ensures var s, oks := ScoreRun(env, c, run), Successes(run.outputs);
            && s.caseId == c.id && s.surface == c.surface && s.nRuns == |run.outputs| && s.nOk == |oks|
            && (s.holdout <==> c.holdout == Some(true) || (c.holdout == None && env.digest(c.id) % 4 == 0))
            && (s.hardPass <==> oks != [] && HardPass(Score(c.truth, oks[0])))
            && s.overall == (if oks == [] then 0.0 else env.round(OverallScore(Score(c.truth, oks[0]))))
  {
  }

  /** How often a level occurs, and that levels compare without letter case. */
  lemma {:induction false} CountExactly(levels: seq<string>, x: string)
    ensures Count(levels, x) == |Those(LevelIs(levels, x), |levels|)|
  {
    if levels != [] {
      var n := |levels| - 1;
      CountExactly(levels[..n], x);
      assert Those(LevelIs(levels, x), n) == Those(LevelIs(levels[..n], x), n);
      OneMore(LevelIs(levels, x), n);
    } else {
      assert Those(LevelIs(levels, x), 0) == {};
    }
  }

  function LevelIs(levels: seq<string>, x: string): nat -> bool {
    (i: nat) => i < |levels| && levels[i] == x
  }

  lemma LevelsExactly(oks: seq<Output>)
    ensures |Levels(oks)| == |oks| && forall i :: 0 <= i < |oks| ==> Levels(oks)[i] == Lower(oks[i].riskLevel)
  {
  }

  lemma Figures(env: Context, c: Case, run: CaseRun)
    ensures var s, oks := ScoreRun(env, c, run), Successes(run.outputs);
            if oks == [] then s.riskRepeatability == s.hardPassRepeatability == 0.0
            else s.riskRepeatability == RiskFigure(env.round, Levels(oks))
                 && s.hardPassRepeatability == PassFigure(env.round, Passing(c.truth), oks)
                 && s.hardPass == Passing(c.truth)(oks[0])
  {
  }

  /**
   * What the rounded figures say of any sweep with successes: the level repeats perfectly exactly when the repeats that
   * stray from the most frequent one are rounded away, the hard pass exactly when those that fail are.
   */
  lemma CaseScoreMeaning(env: Context, c: Case, run: CaseRun)
    requires Rounds(env.round)
    ensures var s, oks, p := ScoreRun(env, c, run), Successes(run.outputs), Passing(c.truth);
            if oks == [] then s.riskRepeatability == s.hardPassRepeatability == 0.0
            else && IsRounded(env.round, s.riskRepeatability, Strays(Levels(oks)), |oks|)
                 && IsRounded(env.round, s.hardPassRepeatability, |oks| - Passes(p, oks), |oks|)
  {
    var oks := Successes(run.outputs);
    Figures(env, c, run);
    if oks != [] {
      RiskFigureMeaning(env.round, Levels(oks));
      PassFigureMeaning(env.round, Passing(c.truth), oks);
    }
  }

  /**
   * A figure keeps the promise "1.0 = identical every time" exactly when nothing misses or what misses is not rounded
   * away, hence over fewer than 2000 repeats.
   */
  predicate KeptExactly(round: real -> real, figure: real, misses: int, n: int, identical: bool) {
    && ((figure == 1.0 <==> identical) <==> misses == 0 || !RoundsAway(round, misses, n))
    && (n < 2000 ==> (figure == 1.0 <==> identical))
  }

  /** The promise, for the level and for the hard pass of every sweep with successes. */
  lemma IdenticalEveryTimeExactly(env: Context, c: Case, run: CaseRun)
    requires Rounds(env.round) && Successes(run.outputs) != []
    ensures var s, oks, p := ScoreRun(env, c, run), Successes(run.outputs), Passing(c.truth);
            && KeptExactly(env.round, s.riskRepeatability, Strays(Levels(oks)), |oks|, AllSame(Levels(oks)))
            && KeptExactly(env.round, s.hardPassRepeatability, |oks| - Passes(p, oks), |oks|, AllPass(p, oks))
  {
    Figures(env, c, run);
    RiskIdenticalExactly(env.round, Levels(Successes(run.outputs)));
    PassesIdenticalExactly(env.round, Passing(c.truth), Successes(run.outputs));
  }

  lemma RiskIdenticalExactly(round: real -> real, levels: seq<string>)
    requires Rounds(round) && levels != []
    ensures KeptExactly(round, RiskFigure(round, levels), Strays(levels), |levels|, AllSame(levels))
  {
    RiskFigureMeaning(round, levels);
    ModalOfAllSame(levels);
  }

  lemma PassesIdenticalExactly(round: real -> real, p: Output -> bool, oks: seq<Output>)
    requires Rounds(round) && oks != []
    ensures KeptExactly(round, PassFigure(round, p, oks), |oks| - Passes(p, oks), |oks|, AllPass(p, oks))
  {
    PassFigureMeaning(round, p, oks);
    PassesAll(p, oks);
  }

  /** The same verdict on every output. */
  predicate SameVerdict(p: Output -> bool, oks: seq<Output>) {
    forall i, j :: 0 <= i < |oks| && 0 <= j < |oks| ==> p(oks[i]) == p(oks[j])
  }

  lemma VerdictsAgree(p: Output -> bool, oks: seq<Output>)
    requires oks != []
    ensures SameVerdict(p, oks) <==> Passes(p, oks) == |oks| || Passes(p, oks) == 0
  {
    PassesAll(p, oks);
    PassesNone(p, oks);
    if SameVerdict(p, oks) {
      assert forall i :: 0 <= i < |oks| ==> p(oks[i]) == p(oks[0]);
    }
  }

  /** A share of passes tells if the verdict was the same every time, unless all fail or failures are rounded away. */
  predicate TellsVerdict(round: real -> real, figure: real, fails: int, n: int, same: bool) {
    (figure == 1.0 <==> same) <==> fails == 0 || (fails < n && !RoundsAway(round, fails, n))
  }

  /** The promise for the verdict itself is broken by every sweep that always fails as well: its figure is no 1.0. */
  lemma SameVerdictExactly(env: Context, c: Case, run: CaseRun)
    requires Rounds(env.round) && Successes(run.outputs) != []
    ensures var s, oks, p := ScoreRun(env, c, run), Successes(run.outputs), Passing(c.truth);
            TellsVerdict(env.round, s.hardPassRepeatability, |oks| - Passes(p, oks), |oks|, SameVerdict(p, oks))
  {
    Figures(env, c, run);
    VerdictFigure(env.round, Passing(c.truth), Successes(run.outputs));
  }

  lemma VerdictFigure(round: real -> real, p: Output -> bool, oks: seq<Output>)
    requires Rounds(round) && oks != []
    ensures TellsVerdict(round, PassFigure(round, p, oks), |oks| - Passes(p, oks), |oks|, SameVerdict(p, oks))
  {
    PassFigureMeaning(round, p, oks);
    VerdictsAgree(p, oks);
  }

  /** One odd output, then the usual one over and over. */
  function LongSweep(id: string, odd: Output, usual: Output, n: nat): CaseRun {
    CaseRun(id, seq(n, i => Some(if i == 0 then odd else usual)))
  }

  lemma {:induction false} AllSucceed(oks: seq<Output>)
    ensures Successes(seq(|oks|, i requires 0 <= i < |oks| => Some(oks[i]))) == oks
  {
    if oks != [] {
      var n := |oks| - 1;
      AllSucceed(oks[..n]);
      var outputs := seq(|oks|, i requires 0 <= i < |oks| => Some(oks[i]));
      assert outputs[..n] == seq(n, i requires 0 <= i < n => Some(oks[..n][i]));
    }
  }

  lemma LongSweepSucceeds(id: string, odd: Output, usual: Output, n: nat)
    ensures Successes(LongSweep(id, odd, usual, n).outputs) == seq(n, i => if i == 0 then odd else usual)
  {
    var oks := seq(n, i => if i == 0 then odd else usual);
    AllSucceed(oks);
    assert LongSweep(id, odd, usual, n).outputs == seq(|oks|, i requires 0 <= i < |oks| => Some(oks[i]));
  }

  lemma {:induction false} Occurrences(levels: seq<string>, x: string)
    requires levels != [] && forall i :: 0 < i < |levels| ==> levels[i] == x
    ensures Count(levels, x) >= |levels| - 1
  {
    var n := |levels| - 1;
    if n > 0 {
      Occurrences(levels[..n], x);
      assert levels == levels[..n] + [levels[n]];
    }
  }

  lemma OneStray(round: real -> real, levels: seq<string>)
    requires Rounds(round) && |levels| > 2000 && forall i :: 0 < i < |levels| ==> levels[i] == levels[1]
    ensures RiskFigure(round, levels) == 1.0
  {
    Occurrences(levels, levels[1]);
    ModalIsGreatest(levels, |levels|);
    RiskFigureMeaning(round, levels);
  }

  lemma OneFailure(round: real -> real, p: Output -> bool, oks: seq<Output>)
    requires Rounds(round) && |oks| > 2000 && forall i :: 0 < i < |oks| ==> p(oks[i])
    ensures PassFigure(round, p, oks) == 1.0
  {
    PassesAllButFirst(p, oks);
    PassFigureMeaning(round, p, oks);
  }

  /** From 2001 outputs on, one with another level is rounded away. */
  lemma LongSweepHidesALevel(env: Context, c: Case, odd: Output, usual: Output, n: nat)
    requires Rounds(env.round) && n > 2000 && Lower(odd.riskLevel) != Lower(usual.riskLevel)
    ensures var run := LongSweep(c.id, odd, usual, n);
            ScoreRun(env, c, run).riskRepeatability == 1.0 && !AllSame(Levels(Successes(run.outputs)))
  {
    var run := LongSweep(c.id, odd, usual, n);
    LongSweepSucceeds(c.id, odd, usual, n);
    var levels := Levels(Successes(run.outputs));
    assert levels[0] == Lower(odd.riskLevel) && levels[1] == Lower(usual.riskLevel);
    OneStray(env.round, levels);
    Figures(env, c, run);
  }

  /** So is one that fails, even when it is the first, by which the case as a whole fails. */
  lemma LongSweepHidesAFailure(env: Context, c: Case, odd: Output, usual: Output, n: nat)
    requires Rounds(env.round) && n > 2000 && Passing(c.truth)(usual) && !Passing(c.truth)(odd)
    ensures var s := ScoreRun(env, c, LongSweep(c.id, odd, usual, n));
            s.hardPassRepeatability == 1.0 && !s.hardPass
  {
    var run := LongSweep(c.id, odd, usual, n);
    LongSweepSucceeds(c.id, odd, usual, n);
    OneFailure(env.round, Passing(c.truth), Successes(run.outputs));
    Figures(env, c, run);
  }

  // ── Rates over the corpus ───────────────────────────────────────────────────

  /** The marks of the cases that belong to a group. */
  function MarkOf(group: CaseScore -> bool): CaseScore -> seq<real> {
    c => if group(c) then [Mark(c.hardPass)] else []
  }

  function Marks(group: CaseScore -> bool, cs: seq<CaseScore>): seq<real> {
    FlatMap(MarkOf(group), cs)
  }

  function Everyone(): CaseScore -> bool { c => true }

  function InSplit(holdout: bool): CaseScore -> bool { (c: CaseScore) => c.holdout == holdout }

  function OnSurface(surface: string): CaseScore -> bool { (c: CaseScore) => c.surface == surface }

  /** `hard_pass_rate` of everyone, `hard_pass_rate_split` of a split, a `by_surface` entry of a surface. */
  function Rate(group: CaseScore -> bool, cs: seq<CaseScore>): real {
    Mean(Marks(group, cs))
  }

  function Size(group: CaseScore -> bool, cs: seq<CaseScore>): nat {
    |Marks(group, cs)|
  }

  /** A group's rate weighted by its number of cases is its number of hard passes. */
  function Weighted(group: CaseScore -> bool, cs: seq<CaseScore>): (w: real)
    ensures w == Sum(Marks(group, cs))
  {
    Rate(group, cs) * Size(group, cs) as real
  }

  /** The cases of a group, and those of them that pass. */
  function Member(group: CaseScore -> bool, cs: seq<CaseScore>): nat -> bool {
    (i: nat) => i < |cs| && group(cs[i])
  }

  function PassingMember(group: CaseScore -> bool, cs: seq<CaseScore>): nat -> bool {
    (i: nat) => i < |cs| && group(cs[i]) && cs[i].hardPass
  }

  lemma {:induction false} MarksAreCounted(group: CaseScore -> bool, cs: seq<CaseScore>)
    ensures Size(group, cs) == |Those(Member(group, cs), |cs|)|
    ensures Sum(Marks(group, cs)) == |Those(PassingMember(group, cs), |cs|)| as real
  {
    if cs != [] {
      var n := |cs| - 1;
      MarksAreCounted(group, cs[..n]);
      LastMark(group, cs);
      assert Those(Member(group, cs), n) == Those(Member(group, cs[..n]), n);
      assert Those(PassingMember(group, cs), n) == Those(PassingMember(group, cs[..n]), n);
      OneMore(Member(group, cs), n);
      OneMore(PassingMember(group, cs), n);
    } else {
      assert Those(Member(group, cs), 0) == {} && Those(PassingMember(group, cs), 0) == {};
    }
  }

  /** A rate is the share of passing cases among the group's, and 0 of none. */
  lemma RateIsAShare(group: CaseScore -> bool, cs: seq<CaseScore>)
    ensures var n, k := |Those(Member(group, cs), |cs|)|, |Those(PassingMember(group, cs), |cs|)|;
            Rate(group, cs) == if n == 0 then 0.0 else Share(k, n)
  {
    MarksAreCounted(group, cs);
  }

  /** The groups: all cases, those of a split, those of a surface. */
  lemma GroupsAre(c: CaseScore, holdout: bool, surface: string)
    ensures Everyone()(c) && (InSplit(holdout)(c) <==> c.holdout == holdout)
    ensures OnSurface(surface)(c) <==> c.surface == surface
  {
  }

  /** A group that is the disjoint union of two others has their sizes and passes together. */
  lemma {:induction false} DisjointGroups(whole: CaseScore -> bool, a: CaseScore -> bool, b: CaseScore -> bool,
                                          cs: seq<CaseScore>)
    requires forall c :: whole(c) <==> a(c) || b(c)
    requires forall c :: !(a(c) && b(c))
    ensures |Marks(whole, cs)| == |Marks(a, cs)| + |Marks(b, cs)|
    ensures Sum(Marks(whole, cs)) == Sum(Marks(a, cs)) + Sum(Marks(b, cs))
  {
    if cs != [] {
      var n := |cs| - 1;
      DisjointGroups(whole, a, b, cs[..n]);
      LastMark(whole, cs);
      LastMark(a, cs);
      LastMark(b, cs);
    }
  }

  lemma LastMark(group: CaseScore -> bool, cs: seq<CaseScore>)
    requires cs != []
    ensures var n := |cs| - 1;
            && |Marks(group, cs)| == |Marks(group, cs[..n])| + (if group(cs[n]) then 1 else 0)
            && Sum(Marks(group, cs))
               == Sum(Marks(group, cs[..n])) + (if group(cs[n]) then Mark(cs[n].hardPass) else 0.0)
  {
    var n := |cs| - 1;
    SumConcat(Marks(group, cs[..n]), MarkOf(group)(cs[n]));
    assert Sum([Mark(cs[n].hardPass)]) == Mark(cs[n].hardPass) by {
      assert [Mark(cs[n].hardPass)][..0] == [];
    }
  }

  /** The corpus rate is the count-weighted mean of the train and the holdout rate. */
  lemma RateIsWeightedSplit(cs: seq<CaseScore>)
    ensures Size(InSplit(false), cs) + Size(InSplit(true), cs) == Size(Everyone(), cs) == |cs|
    ensures Weighted(Everyone(), cs) == Weighted(InSplit(false), cs) + Weighted(InSplit(true), cs)
  {
    DisjointGroups(Everyone(), InSplit(false), InSplit(true), cs);
    EveryoneCounts(cs);
  }

  lemma {:induction false} EveryoneCounts(cs: seq<CaseScore>)
    ensures |Marks(Everyone(), cs)| == |cs|
  {
    if cs != [] {
      EveryoneCounts(cs[..|cs| - 1]);
      LastMark(Everyone(), cs);
    }
  }

  /** `by_surface`: a list of marks per surface that occurs, then their means. */
  method BySurface(cs: seq<CaseScore>) returns (rates: map<string, real>)
    ensures rates.Keys == SurfacesOf(cs)
    ensures forall s :: s in rates ==> rates[s] == Rate(OnSurface(s), cs)
  {
    var out: map<string, seq<real>> := map[];
    for k := 0 to |cs|
      invariant Grouped(cs, k, out)
    {
      var c := cs[k];
      var marks := (if c.surface in out then out[c.surface] else []) + [Mark(c.hardPass)];
      GroupedMore(cs, k, out, marks);
      out := out[c.surface := marks];
    }
    assert cs[..|cs|] == cs;
    assert forall s :: s in out ==> GroupIs(cs, |cs|, out, s);
    rates := map s | s in out :: Mean(out[s]);
  }

  function SurfacesOf(cs: seq<CaseScore>): set<string> {
    set c | c in cs :: c.surface
  }

  predicate GroupIs(cs: seq<CaseScore>, k: nat, out: map<string, seq<real>>, s: string)
    requires k <= |cs|
  {
    Marks(OnSurface(s), cs[..k]) == if s in out then out[s] else []
  }

  ghost predicate Grouped(cs: seq<CaseScore>, k: nat, out: map<string, seq<real>>)
    requires k <= |cs|
  {
    out.Keys == SurfacesOf(cs[..k]) && forall s :: GroupIs(cs, k, out, s)
  }

  lemma GroupedMore(cs: seq<CaseScore>, k: nat, out: map<string, seq<real>>, marks: seq<real>)
    requires k < |cs| && Grouped(cs, k, out)
    requires marks == (if cs[k].surface in out then out[cs[k].surface] else []) + [Mark(cs[k].hardPass)]
    ensures Grouped(cs, k + 1, out[cs[k].surface := marks])
  {
    OneMoreSurfaceSeen(cs, k);
    var out', next := out[cs[k].surface := marks], k + 1;
    forall s ensures GroupIs(cs, next, out', s) {
      assert GroupIs(cs, k, out, s);
      GroupIsMore(cs, k, out, marks, s);
    }
  }

  lemma GroupIsMore(cs: seq<CaseScore>, k: nat, out: map<string, seq<real>>, marks: seq<real>, s: string)
    requires k < |cs| && GroupIs(cs, k, out, s)
    requires marks == (if cs[k].surface in out then out[cs[k].surface] else []) + [Mark(cs[k].hardPass)]
    ensures GroupIs(cs, k + 1, out[cs[k].surface := marks], s)
  {
    MarksMore(cs, k, s);
  }

  lemma MarksMore(cs: seq<CaseScore>, k: nat, s: string)
    requires k < |cs|
    ensures Marks(OnSurface(s), cs[..k + 1])
         == Marks(OnSurface(s), cs[..k]) + if cs[k].surface == s then [Mark(cs[k].hardPass)] else []
  {
    FlatMapStep(MarkOf(OnSurface(s)), cs, k);
  }

  lemma OneMoreSurfaceSeen(cs: seq<CaseScore>, k: nat)
    requires k < |cs|
    ensures SurfacesOf(cs[..k + 1]) == SurfacesOf(cs[..k]) + {cs[k].surface}
  {
  }

  predicate Distinct(names: seq<string>) {
    forall i, j :: 0 <= i < j < |names| ==> names[i] != names[j]
  }

  function OnAnyOf(names: seq<string>): CaseScore -> bool { (c: CaseScore) => c.surface in names }

  function WeightedRates(cs: seq<CaseScore>, names: seq<string>): real {
    if names == [] then 0.0 else
    WeightedRates(cs, names[..|names| - 1]) + Weighted(OnSurface(names[|names| - 1]), cs)
  }

  lemma {:induction false} RateOverSurfaces(cs: seq<CaseScore>, names: seq<string>)
    requires Distinct(names)
    ensures Sum(Marks(OnAnyOf(names), cs)) == WeightedRates(cs, names)
  {
    if names == [] {
      FlatMapEmpty(MarkOf(OnAnyOf(names)), cs);
    } else {
      var n := |names| - 1;
      RateOverSurfaces(cs, names[..n]);
      OneMoreSurface(names, cs);
    }
  }

  lemma OneMoreSurface(names: seq<string>, cs: seq<CaseScore>)
    requires names != [] && Distinct(names)
    ensures var n := |names| - 1;
            Sum(Marks(OnAnyOf(names), cs)) == Sum(Marks(OnAnyOf(names[..n]), cs)) + Sum(Marks(OnSurface(names[n]), cs))
  {
    var n := |names| - 1;
    assert names == names[..n] + [names[n]];
    DisjointGroups(OnAnyOf(names), OnAnyOf(names[..n]), OnSurface(names[n]), cs);
  }

  lemma {:induction false} SameGroup(a: CaseScore -> bool, b: CaseScore -> bool, cs: seq<CaseScore>)
    requires forall i :: 0 <= i < |cs| ==> a(cs[i]) == b(cs[i])
    ensures Marks(a, cs) == Marks(b, cs)
  {
    if cs != [] { SameGroup(a, b, cs[..|cs| - 1]); }
  }

  /** The corpus rate is the count-weighted mean of the rates by surface, over any list of all the surfaces. */
  lemma RateIsWeightedBySurface(cs: seq<CaseScore>, names: seq<string>)
    requires Distinct(names) && forall i :: 0 <= i < |cs| ==> cs[i].surface in names
    ensures Weighted(Everyone(), cs) == WeightedRates(cs, names)
  {
    RateOverSurfaces(cs, names);
    SameGroup(Everyone(), OnAnyOf(names), cs);
  }
}
