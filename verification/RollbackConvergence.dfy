/** Whole histories of rollback runs: crashes, lost responses, failed saves and reruns from the file on disk. */
module RollbackConvergence {
  import opened Text
  import opened MigrationState
  import opened Rollback
  import opened RollbackSafety
  import RC = RetryClient

  /** What survives a process: the server, the disk, and every call made so far. */
  datatype World = World(live: set<Resource>, files: Files, log: seq<Event>)

  /**
   * One start of the tool: its flags and environment, and what other actors removed from and added to the server
   * beforehand.
   */
  datatype Launch = Launch(cfg: Config, sched: Schedule, gone: set<Resource>, born: set<Resource>)

  /** The resource of a record that the migration created, that still has its identifier and is not rolled back. */
  ghost predicate Tracked(t: Tables, x: Resource) {
    exists ref: Ref ::
      && ref.index < |t[ref.kind]| && var r := t[ref.kind][ref.index];
      && r.createdByMigration && r.terrapodID != "" && r.state != "rolled_back"
      && x == Resource(ref.kind, r.terrapodID)
  }

  /** All launches use the same file; identifiers the server once issued are not issued again. */
  ghost predicate Allowed(path: string, t0: Tables, l: Launch) {
    l.cfg.path == path && HonestSchedule(l.sched) && forall r :: r in l.born ==> !Tracked(t0, r)
  }

  function StartOf(v: StateValue, w: World, l: Launch): Run {
    Started(v, (w.live - l.gone) + l.born, w.files, w.log)
  }

  /** The run of a launch, if the state file loads. */
  function LaunchRun(codec: Codec, w: World, l: Launch): Option<Run> {
    var loaded := LoadValue(codec, w.files, l.cfg.path);
    if loaded.Loaded? then Some(RunRollbackValue(l.cfg, codec, l.sched, StartOf(loaded.value, w, l))) else None
  }

  function AfterLaunch(codec: Codec, w: World, l: Launch): World {
    match LaunchRun(codec, w, l)
    case None => World((w.live - l.gone) + l.born, w.files, w.log)
    case Some(run) => World(run.live, run.files, run.log)
  }

  function History(codec: Codec, w: World, ls: seq<Launch>): World {
    if ls == [] then w else AfterLaunch(codec, History(codec, w, ls[..|ls| - 1]), ls[|ls| - 1])
  }

  /** The file on disk always loads, and progresses from the original. */
  ghost predicate Sound(codec: Codec, path: string, v0: StateValue, w: World) {
    var l := LoadValue(codec, w.files, path);
    l.Loaded? && l.value.header == v0.header && Progress(v0.tables, l.value.tables, w.live)
  }

  lemma StartIsGood(codec: Codec, v0: StateValue, w: World, l: Launch)
    requires Allowed(l.cfg.path, v0.tables, l) && Sound(codec, l.cfg.path, v0, w)
    ensures Good(codec, l.cfg.path, v0, StartOf(LoadValue(codec, w.files, l.cfg.path).value, w, l))
  {
  }

  /** A launch, however it ends, leaves a loadable file that progresses from the original. */
  lemma LaunchIsSound(codec: Codec, v0: StateValue, w: World, l: Launch)
    requires Faithful(codec) && Allowed(l.cfg.path, v0.tables, l) && Sound(codec, l.cfg.path, v0, w)
    ensures LaunchRun(codec, w, l).Some? && Good(codec, l.cfg.path, v0, LaunchRun(codec, w, l).value)
    ensures Sound(codec, l.cfg.path, v0, AfterLaunch(codec, w, l))
  {
    var v := LoadValue(codec, w.files, l.cfg.path).value;
    StartIsGood(codec, v0, w, l);
    AllTargetsListed(v.tables);
    RunIsGood(l.cfg, codec, v0, l.sched, StartOf(v, w, l), AllTargets(v.tables));
    var end := LaunchRun(codec, w, l).value;
    BehindIsProgress(v0.tables, LoadValue(codec, end.files, l.cfg.path).value.tables, end.mem.tables, end.live);
  }

  lemma {:induction false} HistoryIsSound(codec: Codec, path: string, v0: StateValue, w: World, ls: seq<Launch>)
    requires Faithful(codec) && Sound(codec, path, v0, w)
    requires AllAllowed(path, v0.tables, ls)
    ensures Sound(codec, path, v0, History(codec, w, ls))
  {
    if ls != [] {
      var n := |ls| - 1;
      HistoryIsSound(codec, path, v0, w, ls[..n]);
      assert ls[n] in ls;
      LaunchIsSound(codec, v0, History(codec, w, ls[..n]), ls[n]);
    }
  }

  lemma OriginalIsSound(codec: Codec, path: string, v0: StateValue, w: World)
    requires LoadValue(codec, w.files, path) == Loaded(v0)
    ensures Sound(codec, path, v0, w)
  {
  }

  // ── Provenance over histories ───────────────────────────────────────────────

  lemma TargetsOnlyShrink(t0: Tables, t: Tables, live: set<Resource>, ref: Ref)
    requires Progress(t0, t, live) && In(t, ref) && IsTarget(At(t, ref))
    ensures In(t0, ref) && At(t0, ref) == At(t, ref)
  {
  }

  lemma LicenceFromOriginal(t0: Tables, t: Tables, live: set<Resource>, force: bool, log: seq<Event>, from: nat, j: nat)
    requires Progress(t0, t, live) && j < |log| && Licensed(t, force, log, from, j)
    ensures Licensed(t0, force, log, from, j)
  {
    if log[j].DeleteCall? {
      var ref: Ref :|
        && ref.index < |t[ref.kind]| && var r := t[ref.kind][ref.index];
        && r.createdByMigration && r.terrapodID != "" && r.state != "rolled_back"
        && log[j].target == Resource(ref.kind, r.terrapodID)
        && (ref.kind == Workspace && !force ==>
              && j > from && log[j - 1].ReadSerial? && log[j - 1].id == r.terrapodID
              && (log[j - 1].reply.NoState? || (log[j - 1].reply.Serial? && log[j - 1].reply.serial <= r.stateSerial)));
      TargetsOnlyShrink(t0, t, live, ref);
    }
  }

  /** What one launch adds to the log: nothing if it is a dry run, and only calls licensed by the original file. */
  lemma LaunchLog(codec: Codec, v0: StateValue, w: World, l: Launch)
    requires Sound(codec, l.cfg.path, v0, w)
    ensures var log := AfterLaunch(codec, w, l).log;
            && |w.log| <= |log| && log[..|w.log|] == w.log
            && (!l.cfg.apply ==> log == w.log)
            && forall j :: |w.log| <= j < |log| ==> Licensed(v0.tables, l.cfg.force, log, |w.log|, j)
  {
    var v := LoadValue(codec, w.files, l.cfg.path).value;
    AllTargetsListed(v.tables);
    EveryDeleteIsLicensed(l.cfg, codec, l.sched, StartOf(v, w, l), AllTargets(v.tables));
    var log := AfterLaunch(codec, w, l).log;
    forall j | |w.log| <= j < |log| ensures Licensed(v0.tables, l.cfg.force, log, |w.log|, j) {
      LicenceFromOriginal(v0.tables, v.tables, w.live, l.cfg.force, log, |w.log|, j);
    }
  }

  ghost predicate AllAllowed(path: string, t0: Tables, ls: seq<Launch>) {
    forall l :: l in ls ==> Allowed(path, t0, l)
  }

  lemma AllowedPrefix(path: string, t0: Tables, ls: seq<Launch>, n: nat)
    requires AllAllowed(path, t0, ls) && n <= |ls|
    ensures AllAllowed(path, t0, ls[..n])
  {
    forall l | l in ls[..n] ensures Allowed(path, t0, l) { assert l in ls; }
  }

  /** The n-th launch of a history, with what it starts from and what it appends to the log. */
  lemma LaunchOfHistory(codec: Codec, path: string, v0: StateValue, w: World, ls: seq<Launch>, n: nat)
    requires Faithful(codec) && LoadValue(codec, w.files, path) == Loaded(v0) && n < |ls|
    requires AllAllowed(path, v0.tables, ls)
    ensures var before, after := History(codec, w, ls[..n]).log, History(codec, w, ls[..n + 1]).log;
            && before <= after
            && (!ls[n].cfg.apply ==> after == before)
            && forall j :: |before| <= j < |after| ==> Licensed(v0.tables, ls[n].cfg.force, after, |before|, j)
  {
    assert ls[..n + 1][..n] == ls[..n] && ls[n] in ls;
    AllowedPrefix(path, v0.tables, ls, n);
    OriginalIsSound(codec, path, v0, w);
    HistoryIsSound(codec, path, v0, w, ls[..n]);
    LaunchLog(codec, v0, History(codec, w, ls[..n]), ls[n]);
  }

  function LogAt(codec: Codec, w: World, ls: seq<Launch>): nat -> seq<Event> {
    (i: nat) => if i <= |ls| then History(codec, w, ls[..i]).log else History(codec, w, ls).log
  }

  lemma {:induction false} ChainGrows(log: nat -> seq<Event>, n: nat, m: nat)
    requires n <= m && forall i: nat :: n <= i < m ==> log(i) <= log(i + 1)
    ensures log(n) <= log(m)
  {
    if n < m { ChainGrows(log, n, m - 1); }
  }

  /** Later launches only append to the log. */
  lemma LogGrows(codec: Codec, path: string, v0: StateValue, w: World, ls: seq<Launch>, n: nat)
    requires Faithful(codec) && LoadValue(codec, w.files, path) == Loaded(v0) && n <= |ls|
    requires AllAllowed(path, v0.tables, ls)
    ensures History(codec, w, ls[..n]).log <= History(codec, w, ls).log
  {
    var log := LogAt(codec, w, ls);
    forall i: nat | n <= i < |ls| ensures log(i) <= log(i + 1) {
      LaunchOfHistory(codec, path, v0, w, ls, i);
    }
    ChainGrows(log, n, |ls|);
    assert ls[..|ls|] == ls;
  }

  /**
   * Provenance and the guard over any number of runs with any flags and any failures: the stretch of the final log that
   * the n-th launch wrote is empty if it was a dry run, and every delete call in it names a record of the original file
   * that the migration created and that still carried that identifier; if that launch had no --force, the delete of a
   * workspace directly follows a read of its serial at or below the migrated one, or a 404.
   */
  lemma ProvenanceOverHistories(codec: Codec, path: string, v0: StateValue, w: World, ls: seq<Launch>, n: nat)
    requires Faithful(codec) && LoadValue(codec, w.files, path) == Loaded(v0) && n < |ls|
    requires AllAllowed(path, v0.tables, ls)
    ensures var before, after := History(codec, w, ls[..n]).log, History(codec, w, ls[..n + 1]).log;
            var log := History(codec, w, ls).log;
            && before <= after <= log
            && (!ls[n].cfg.apply ==> after == before)
            && forall j :: |before| <= j < |after| ==> Licensed(v0.tables, ls[n].cfg.force, log, |before|, j)
  {
    var before, after := History(codec, w, ls[..n]).log, History(codec, w, ls[..n + 1]).log;
    LaunchOfHistory(codec, path, v0, w, ls, n);
    LogGrows(codec, path, v0, w, ls, n + 1);
    var log := History(codec, w, ls).log;
    forall j | |before| <= j < |after| ensures Licensed(v0.tables, ls[n].cfg.force, log, |before|, j) {
      LicenceKept(v0.tables, ls[n].cfg.force, after, log, |before|, |before|, j);
    }
  }

  // ── What becomes of a record ────────────────────────────────────────────────

  /**
   * The record b that a has become: provenance, serial and every other field are a's, and b is a itself or, a having
   * been a target, marked and without its identifier.
   */
  predicate MarkedOnly(a: Record, b: Record) {
    && b.createdByMigration == a.createdByMigration && b.stateSerial == a.stateSerial && b.others == a.others
    && (b == a || (a.createdByMigration && a.terrapodID != "" && a.state != "rolled_back"
                   && b.state == "rolled_back" && b.terrapodID == ""))
  }

  /** Every record of t has become the one in its place in t'. */
  ghost predicate AllMarkedOnly(t: Tables, t': Tables) {
    forall k: Kind :: |t'[k]| == |t[k]| && forall i :: 0 <= i < |t[k]| ==> MarkedOnly(t[k][i], t'[k][i])
  }

  lemma ProgressMarksOnly(t0: Tables, t: Tables, live: set<Resource>)
    requires Progress(t0, t, live)
    ensures AllMarkedOnly(t0, t)
  {
    forall k: Kind, i | 0 <= i < |t0[k]| ensures i < |t[k]| && MarkedOnly(t0[k][i], t[k][i]) {
      assert In(t0, Ref(k, i)) && In(t, Ref(k, i));
      assert RecordProgress(t0, t, live, Ref(k, i));
    }
  }

  /**
   * Over every history of launches, whatever failed in them: each record in memory and in the file that loads
   * afterwards is the original one, up to the mark on a target; none is added, dropped, moved or otherwise changed.
   */
  lemma HistoryMarksOnly(codec: Codec, path: string, v0: StateValue, w: World, ls: seq<Launch>, last: Launch)
    requires Faithful(codec) && LoadValue(codec, w.files, path) == Loaded(v0)
    requires AllAllowed(path, v0.tables, ls + [last])
    ensures var run := LaunchRun(codec, History(codec, w, ls), last);
            run.Some? && AllMarkedOnly(v0.tables, run.value.mem.tables)
            && var disk := LoadValue(codec, run.value.files, path);
            disk.Loaded? && AllMarkedOnly(v0.tables, disk.value.tables) && disk.value.header == v0.header
  {
    assert last in ls + [last] && (ls + [last])[..|ls|] == ls;
    AllowedPrefix(path, v0.tables, ls + [last], |ls|);
    OriginalIsSound(codec, path, v0, w);
    HistoryIsSound(codec, path, v0, w, ls);
    LaunchIsSound(codec, v0, History(codec, w, ls), last);
    var run := LaunchRun(codec, History(codec, w, ls), last).value;
    var disk := LoadValue(codec, run.files, path).value;
    BehindIsProgress(v0.tables, disk.tables, run.mem.tables, run.live);
    ProgressMarksOnly(v0.tables, run.mem.tables, run.live);
    ProgressMarksOnly(v0.tables, disk.tables, run.live);
  }

  // ── Crash convergence ───────────────────────────────────────────────────────

  function SettledRecord(r: Record): Record {
    if r.createdByMigration && r.terrapodID != "" && r.state != "rolled_back" then
      r.(state := "rolled_back", terrapodID := "")
    else r
  }

  /** The records after everything has been rolled back. */
  function RollBackAll(t: Tables): (t': Tables) {
    map k | k in t :: seq(|t[k]|, i requires 0 <= i < |t[k]| => SettledRecord(t[k][i]))
  }

  predicate Clean(run: Run) {
    !run.died && run.report.errors == [] && run.report.skipped == 0
  }

  lemma CleanSettle(cfg: Config, codec: Codec, run: Run, ref: Ref, action: Action, save: SaveChoice)
    requires In(run.mem.tables, ref) && Clean(Settle(cfg, codec, run, ref, action, save))
    ensures run.report.errors == [] && run.report.skipped == 0
    ensures Settle(cfg, codec, run, ref, action, save).mem.tables
         == Set(run.mem.tables, ref, RolledBack(At(run.mem.tables, ref)))
  {
  }

  lemma CleanDelete(cfg: Config, codec: Codec, run: Run, ref: Ref, choice: Choice)
    requires In(run.mem.tables, ref) && Clean(DeleteTarget(cfg, codec, run, ref, choice))
    ensures run.report.errors == [] && run.report.skipped == 0
    ensures DeleteTarget(cfg, codec, run, ref, choice).mem.tables
         == Set(run.mem.tables, ref, RolledBack(At(run.mem.tables, ref)))
  {
    var r := ResourceOf(ref, At(run.mem.tables, ref));
    var (live, result) := RC.Delete(cfg.maxRetries, choice.net, run.live, r, cfg.attached);
    var sent := run.(live := live, log := run.log + [DeleteCall(r)]);
    if result == RC.Nil {
      CleanSettle(cfg, codec, sent, ref, Deleted, choice.save);
    } else if result == RC.TypedError(RC.NotFound) {
      CleanSettle(cfg, codec, sent, ref, AlreadyGone, choice.save);
    }
  }

  /** A step that leaves no error, no skip and a live process has settled its record, and found none either. */
  lemma CleanStep(cfg: Config, codec: Codec, run: Run, ref: Ref, choice: Choice)
    requires In(run.mem.tables, ref) && cfg.apply && Clean(Step(cfg, codec, run, ref, choice))
    ensures Clean(run)
    ensures Step(cfg, codec, run, ref, choice).mem.tables
            == Set(run.mem.tables, ref, RolledBack(At(run.mem.tables, ref)))
  {
    MidAlive(cfg, codec, run, ref, choice);
    if ref.kind != Workspace {
      CleanDelete(cfg, codec, run, ref, choice);
    } else {
      var read := run.(log := run.log + [ReadSerial(At(run.mem.tables, ref).terrapodID, choice.read)]);
      CleanDelete(cfg, codec, read, ref, choice);
    }
  }

  lemma CleanLastStep(cfg: Config, codec: Codec, sched: Schedule, run: Run, refs: seq<Ref>)
    requires cfg.apply && refs != [] && TargetList(run.mem.tables, refs) && Clean(RunAll(cfg, codec, sched, run, refs))
    ensures var n := |refs| - 1;
            var mid := RunAll(cfg, codec, sched, run, refs[..n]);
            && Clean(mid)
            && In(mid.mem.tables, refs[n]) && In(run.mem.tables, refs[n])
            && RunAll(cfg, codec, sched, run, refs).mem.tables
                 == Set(mid.mem.tables, refs[n], RolledBack(At(run.mem.tables, refs[n])))
  {
    var n := |refs| - 1;
    LastStep(cfg, codec, sched, run, refs);
    NextIsTarget(cfg, codec, sched, run, refs);
    CleanStep(cfg, codec, RunAll(cfg, codec, sched, run, refs[..n]), refs[n], sched(refs[n]));
  }

  predicate Settled(t0: Tables, end: Tables, ref: Ref) {
    && In(t0, ref) && In(end, ref)
    && At(end, ref) == t0[ref.kind][ref.index].(state := "rolled_back", terrapodID := "")
  }

  lemma SettleOneMore(t0: Tables, mid: Tables, end: Tables, last: Ref, ref: Ref)
    requires In(t0, last) && In(mid, last) && end == Set(mid, last, RolledBack(At(t0, last)))
    requires ref == last || Settled(t0, mid, ref)
    ensures Settled(t0, end, ref)
  {
  }

  lemma TargetListPrefix(t: Tables, refs: seq<Ref>, ref: Ref)
    requires refs != [] && TargetList(t, refs) && ref in refs
    ensures TargetList(t, refs[..|refs| - 1]) && (ref in refs[..|refs| - 1] || ref == refs[|refs| - 1])
  {
  }

  lemma {:induction false} CleanRunSettles(cfg: Config, codec: Codec, sched: Schedule, run: Run, refs: seq<Ref>,
                                           ref: Ref)
    requires cfg.apply && TargetList(run.mem.tables, refs) && Clean(RunAll(cfg, codec, sched, run, refs))
    requires ref in refs
    ensures Settled(run.mem.tables, RunAll(cfg, codec, sched, run, refs).mem.tables, ref)
    decreases |refs|
  {
    var before, last := refs[..|refs| - 1], refs[|refs| - 1];
    TargetListPrefix(run.mem.tables, refs, ref);
    CleanLastStep(cfg, codec, sched, run, refs);
    if ref != last {
      CleanRunSettles(cfg, codec, sched, run, before, ref);
    }
    SettleOneMore(run.mem.tables, RunAll(cfg, codec, sched, run, before).mem.tables,
                  RunAll(cfg, codec, sched, run, refs).mem.tables, last, ref);
  }

  lemma SettledEverywhere(t0: Tables, t: Tables, end: Tables, live: set<Resource>, ref: Ref)
    requires Progress(t0, t, live) && SameShape(t, end) && In(t0, ref)
    requires In(t, ref) && In(end, ref) && At(end, ref) == SettledRecord(At(t, ref))
    ensures At(end, ref) == SettledRecord(At(t0, ref))
  {
  }

  lemma CleanRunMemory(codec: Codec, v0: StateValue, w: World, l: Launch)
    requires Faithful(codec) && Allowed(l.cfg.path, v0.tables, l) && Sound(codec, l.cfg.path, v0, w) && l.cfg.apply
    requires LaunchRun(codec, w, l).Some? && Clean(LaunchRun(codec, w, l).value)
    ensures LaunchRun(codec, w, l).value.mem.tables == RollBackAll(v0.tables)
  {
    var v := LoadValue(codec, w.files, l.cfg.path).value;
    var refs, start, end := AllTargets(v.tables), StartOf(v, w, l), LaunchRun(codec, w, l).value;
    AllTargetsListed(v.tables);
    var t, goal := end.mem.tables, RollBackAll(v0.tables);
    forall k: Kind ensures t[k] == goal[k] {
      assert |t[k]| == |v.tables[k]| == |v0.tables[k]|;
      forall i | 0 <= i < |t[k]| ensures t[k][i] == goal[k][i] {
        var ref := Ref(k, i);
        AllTargetsAreExact(v.tables, ref);
        if ref in refs {
          CleanRunSettles(l.cfg, codec, l.sched, start, refs, ref);
        } else {
          UnvisitedUntouched(l.cfg, codec, l.sched, start, refs, ref);
        }
        SettledEverywhere(v0.tables, v.tables, t, w.live, ref);
      }
    }
  }

  lemma NothingLeft(t0: Tables, live: set<Resource>)
    requires Progress(t0, RollBackAll(t0), live)
    ensures forall r :: Tracked(t0, r) ==> r !in live
  {
    forall k: Kind, i | 0 <= i < |t0[k]| && IsTarget(t0[k][i])
      ensures Resource(k, t0[k][i].terrapodID) !in live
    {
      var ref, end := Ref(k, i), RollBackAll(t0);
      assert In(t0, ref) && In(end, ref) && end[k][i] == SettledRecord(t0[k][i]);
      assert RecordProgress(t0, end, live, ref);
    }
  }

  /** The delete of the last target answers 404, and the Save after it does not get through. */
  predicate LastSaveLost(cfg: Config, codec: Codec, sched: Schedule, start: Run, refs: seq<Ref>) {
    refs != [] &&
    var last := refs[|refs| - 1];
    var mid := RunAll(cfg, codec, sched, start, refs[..|refs| - 1]);
    && In(mid.mem.tables, last)
    && RC.Delete(cfg.maxRetries, sched(last).net, mid.live, ResourceOf(last, At(mid.mem.tables, last)), cfg.attached).1
       == RC.TypedError(RC.NotFound)
    && !GetsThrough(mid.files, sched(last).save)
  }

  lemma SettleStale(cfg: Config, codec: Codec, run: Run, ref: Ref, action: Action, save: SaveChoice)
    requires In(run.mem.tables, ref) && Clean(Settle(cfg, codec, run, ref, action, save))
    ensures Settle(cfg, codec, run, ref, action, save).stale <==> !GetsThrough(run.files, save)
    ensures action == Deleted ==> GetsThrough(run.files, save)
  {
    var mem := Stamp(run.mem.(tables := Set(run.mem.tables, ref, RolledBack(At(run.mem.tables, ref)))), cfg.toolVersion,
                     save.now);
    SavedExactly(run.files, cfg.path, codec.render(EncodeState(mem)), save);
  }

  lemma DeleteStale(cfg: Config, codec: Codec, run: Run, ref: Ref, choice: Choice)
    requires In(run.mem.tables, ref) && Clean(DeleteTarget(cfg, codec, run, ref, choice))
    ensures var gone := ResourceOf(ref, At(run.mem.tables, ref));
            DeleteTarget(cfg, codec, run, ref, choice).stale
            <==> RC.Delete(cfg.maxRetries, choice.net, run.live, gone, cfg.attached).1 == RC.TypedError(RC.NotFound)
                 && !GetsThrough(run.files, choice.save)
  {
    var r := ResourceOf(ref, At(run.mem.tables, ref));
    var (live, result) := RC.Delete(cfg.maxRetries, choice.net, run.live, r, cfg.attached);
    var sent := run.(live := live, log := run.log + [DeleteCall(r)]);
    if result == RC.Nil {
      SettleStale(cfg, codec, sent, ref, Deleted, choice.save);
    } else if result == RC.TypedError(RC.NotFound) {
      SettleStale(cfg, codec, sent, ref, AlreadyGone, choice.save);
    }
  }

  /** A clean apply run leaves the file behind memory exactly when its last delete answered 404 and its Save failed. */
  lemma StaleExactly(cfg: Config, codec: Codec, sched: Schedule, start: Run, refs: seq<Ref>)
    requires cfg.apply && TargetList(start.mem.tables, refs) && !start.stale
    requires Clean(RunAll(cfg, codec, sched, start, refs))
    ensures RunAll(cfg, codec, sched, start, refs).stale <==> LastSaveLost(cfg, codec, sched, start, refs)
  {
    if refs != [] {
      var n := |refs| - 1;
      var mid, ref, choice := RunAll(cfg, codec, sched, start, refs[..n]), refs[n], sched(refs[n]);
      LastStep(cfg, codec, sched, start, refs);
      NextIsTarget(cfg, codec, sched, start, refs);
      MidAlive(cfg, codec, mid, ref, choice);
      if ref.kind != Workspace {
        DeleteStale(cfg, codec, mid, ref, choice);
      } else {
        CleanWorkspaceStep(cfg, codec, mid, ref, choice);
        DeleteStale(cfg, codec, mid.(log := mid.log + [ReadSerial(At(mid.mem.tables, ref).terrapodID, choice.read)]),
                    ref, choice);
      }
    }
  }

  lemma CleanWorkspaceStep(cfg: Config, codec: Codec, run: Run, ref: Ref, choice: Choice)
    requires In(run.mem.tables, ref) && ref.kind == Workspace && cfg.apply && !run.died
    requires Clean(Step(cfg, codec, run, ref, choice))
    ensures var read := run.(log := run.log + [ReadSerial(At(run.mem.tables, ref).terrapodID, choice.read)]);
            Step(cfg, codec, run, ref, choice) == DeleteTarget(cfg, codec, read, ref, choice)
  {
    WorkspaceStep(cfg, codec, run, ref, choice);
  }

  /** The same of a launch that loads the file. */
  predicate LaunchSaveLost(codec: Codec, w: World, l: Launch) {
    var loaded := LoadValue(codec, w.files, l.cfg.path);
    loaded.Loaded?
    && LastSaveLost(l.cfg, codec, l.sched, StartOf(loaded.value, w, l), AllTargets(loaded.value.tables))
  }

  /**
   * After any history of runs - responses lost, saves failed, processes killed at any point - a run with --apply that
   * ends with no error and no skip leaves every resource the migration created absent from the server. The records on
   * disk are then those of a complete rollback, unless the delete of the last target answered 404 and the Save after it
   * did not get through.
   */
  lemma CrashConvergence(codec: Codec, path: string, v0: StateValue, w: World, ls: seq<Launch>, last: Launch)
    requires Faithful(codec) && LoadValue(codec, w.files, path) == Loaded(v0)
    requires AllAllowed(path, v0.tables, ls + [last])
    requires last.cfg.apply
    ensures var w' := History(codec, w, ls);
            var run := LaunchRun(codec, w', last);
            run.Some? &&
            (Clean(run.value) ==>
               && (forall r :: Tracked(v0.tables, r) ==> r !in run.value.live)
               && run.value.mem.tables == RollBackAll(v0.tables)
               && var disk := LoadValue(codec, run.value.files, path);
               && disk.Loaded? && disk.value.header == v0.header
               && (disk.value.tables == RollBackAll(v0.tables) <==> !LaunchSaveLost(codec, w', last)))
  {
    assert last in ls + [last];
    AllowedPrefix(path, v0.tables, ls + [last], |ls|);
    assert (ls + [last])[..|ls|] == ls;
    OriginalIsSound(codec, path, v0, w);
    HistoryIsSound(codec, path, v0, w, ls);
    var w' := History(codec, w, ls);
    LaunchIsSound(codec, v0, w', last);
    var run := LaunchRun(codec, w', last).value;
    if Clean(run) {
      CleanRunMemory(codec, v0, w', last);
      NothingLeft(v0.tables, run.live);
      LaunchStale(codec, w', last);
    }
  }

  /** A target ends marked, with its resource gone and its other fields as they were; any other record as it was. */
  predicate Marked(k: Kind, a: Record, b: Record, live: set<Resource>) {
    if a.createdByMigration && a.terrapodID != "" && a.state != "rolled_back" then
      && b.state == "rolled_back" && b.terrapodID == "" && b.others == a.others
      && b.createdByMigration && b.stateSerial == a.stateSerial && Resource(k, a.terrapodID) !in live
    else b == a
  }

  lemma RollBackAllMarks(t0: Tables, live: set<Resource>, k: Kind, i: nat)
    requires i < |t0[k]| && forall x :: Tracked(t0, x) ==> x !in live
    ensures |RollBackAll(t0)[k]| == |t0[k]| && Marked(k, t0[k][i], RollBackAll(t0)[k][i], live)
  {
    var a := t0[k][i];
    if a.createdByMigration && a.terrapodID != "" && a.state != "rolled_back" {
      assert t0[Ref(k, i).kind][Ref(k, i).index] == a;
      assert Tracked(t0, Resource(k, a.terrapodID));
    }
  }

  /**
   * After any history, a clean run with --apply has marked every target of the original file, in memory and, unless its
   * last Save was lost, in the file; the other records are as they were.
   */
  lemma EveryTargetIsMarked(codec: Codec, path: string, v0: StateValue, w: World, ls: seq<Launch>, last: Launch,
                            k: Kind, i: nat)
    requires Faithful(codec) && LoadValue(codec, w.files, path) == Loaded(v0)
    requires AllAllowed(path, v0.tables, ls + [last]) && last.cfg.apply && i < |v0.tables[k]|
    requires var run := LaunchRun(codec, History(codec, w, ls), last); run.Some? && Clean(run.value)
    ensures var run := LaunchRun(codec, History(codec, w, ls), last).value;
            && |run.mem.tables[k]| == |v0.tables[k]|
            && Marked(k, v0.tables[k][i], run.mem.tables[k][i], run.live)
            && (!LaunchSaveLost(codec, History(codec, w, ls), last) ==>
                  var disk := LoadValue(codec, run.files, path);
                  disk.Loaded? && disk.value.tables == run.mem.tables)
  {
    CrashConvergence(codec, path, v0, w, ls, last);
    RollBackAllMarks(v0.tables, LaunchRun(codec, History(codec, w, ls), last).value.live, k, i);
  }

  lemma LaunchStale(codec: Codec, w: World, l: Launch)
    requires l.cfg.apply && LaunchRun(codec, w, l).Some? && Clean(LaunchRun(codec, w, l).value)
    ensures LaunchRun(codec, w, l).value.stale <==> LaunchSaveLost(codec, w, l)
  {
    var v := LoadValue(codec, w.files, l.cfg.path).value;
    AllTargetsListed(v.tables);
    StaleExactly(l.cfg, codec, l.sched, StartOf(v, w, l), AllTargets(v.tables));
  }

  /** A crashed and resumed migration ends with the same file as one uninterrupted run, up to housekeeping fields. */
  lemma ResumedEqualsUninterrupted(codec: Codec, path: string, v0: StateValue, w: World, ls: seq<Launch>, last: Launch,
                                   w1: World, only: Launch)
    requires Faithful(codec)
    requires LoadValue(codec, w.files, path) == Loaded(v0) && LoadValue(codec, w1.files, path) == Loaded(v0)
    requires AllAllowed(path, v0.tables, ls + [last]) && Allowed(path, v0.tables, only)
    requires last.cfg.apply && only.cfg.apply
    ensures var w' := History(codec, w, ls);
            var a, b := LaunchRun(codec, w', last), LaunchRun(codec, w1, only);
            && a.Some? && b.Some?
            && (Clean(a.value) && !LaunchSaveLost(codec, w', last) ==>
                Clean(b.value) && !LaunchSaveLost(codec, w1, only) ==>
                  var fa, fb := LoadValue(codec, a.value.files, path), LoadValue(codec, b.value.files, path);
                  fa.Loaded? && fb.Loaded? && fa.value.tables == fb.value.tables && fa.value.header == fb.value.header)
  {
    CrashConvergence(codec, path, v0, w, ls, last);
    assert [] + [only] == [only] && History(codec, w1, []) == w1;
    CrashConvergence(codec, path, v0, w1, [], only);
  }

  /**
   * "No errors" alone is not enough: when a delete answers 404 and the Save after it fails, the step reports neither an
   * error nor a skip, the process lives on, and the file still names the record as a target.
   */
  lemma SilentlyStaleFile(cfg: Config, codec: Codec, v0: StateValue, run: Run, ref: Ref, choice: Choice)
    requires Faithful(codec) && Good(codec, cfg.path, v0, run) && Clean(run) && !run.stale && cfg.apply
    requires ref.kind != Workspace && In(run.mem.tables, ref) && IsTarget(At(run.mem.tables, ref))
    requires RC.Delete(cfg.maxRetries, choice.net, run.live, ResourceOf(ref, At(run.mem.tables, ref)), cfg.attached).1
          == RC.TypedError(RC.NotFound)
    requires choice.save.fault == CreateFails
    ensures var end := Step(cfg, codec, run, ref, choice);
            && Clean(end) && end.stale
            && var disk := LoadValue(codec, end.files, cfg.path);
            && disk.Loaded? && In(disk.value.tables, ref) && IsTarget(At(disk.value.tables, ref))
  {
    assert LoadValue(codec, run.files, cfg.path).value.tables == run.mem.tables;
  }
}
