/** What rollback keeps at every step, over whole runs, and over whole histories of crashed and repeated runs. */
module RollbackSafety {
  import opened Text
  import opened MigrationState
  import opened Rollback
  import RC = RetryClient

  // ── Progress: the invariant of memory and of the disk ───────────────────────

  /** A record is as in the original file, or it was a target, is marked, and its resource is gone. */
  predicate RecordProgress(t0: Tables, t: Tables, live: set<Resource>, ref: Ref)
    requires In(t0, ref) && In(t, ref)
  {
    || At(t, ref) == At(t0, ref)
    || (IsTarget(At(t0, ref)) && At(t, ref) == RolledBack(At(t0, ref)) && ResourceOf(ref, At(t0, ref)) !in live)
  }

  ghost predicate Progress(t0: Tables, t: Tables, live: set<Resource>) {
    SameShape(t0, t) && forall ref: Ref :: In(t0, ref) && In(t, ref) ==> RecordProgress(t0, t, live, ref)
  }

  /** The disk lags memory: each of its records is the one in memory or still the original. */
  ghost predicate Behind(t0: Tables, disk: Tables, mem: Tables) {
    && SameShape(t0, disk)
    && forall ref: Ref :: In(t0, ref) && In(disk, ref) && In(mem, ref) ==>
         At(disk, ref) == At(mem, ref) || At(disk, ref) == At(t0, ref)
  }

  /** Memory progresses from the original v0; the disk lags it, and agrees with it iff the last Save got through. */
  ghost predicate Good(codec: Codec, path: string, v0: StateValue, run: Run) {
    && run.mem.header == v0.header
    && Progress(v0.tables, run.mem.tables, run.live)
    && LoadValue(codec, run.files, path).Loaded?
    && var disk := LoadValue(codec, run.files, path).value;
    && disk.header == v0.header
    && Behind(v0.tables, disk.tables, run.mem.tables)
    && (!run.stale ==> disk.tables == run.mem.tables)
    && (run.stale && !run.died ==> disk.tables != run.mem.tables)
  }

  lemma ProgressOnSmallerServer(t0: Tables, t: Tables, live: set<Resource>, live': set<Resource>)
    requires Progress(t0, t, live)
    requires forall ref: Ref :: In(t0, ref) && IsTarget(At(t0, ref)) && ResourceOf(ref, At(t0, ref)) in live' ==>
               ResourceOf(ref, At(t0, ref)) in live
    ensures Progress(t0, t, live')
  {
  }

  lemma BehindIsProgress(t0: Tables, disk: Tables, mem: Tables, live: set<Resource>)
    requires Progress(t0, mem, live) && Behind(t0, disk, mem)
    ensures Progress(t0, disk, live)
  {
  }

  lemma SetAt(t: Tables, ref: Ref, r: Record, other: Ref)
    requires In(t, ref) && In(t, other)
    ensures In(Set(t, ref, r), other) && At(Set(t, ref, r), other) == if other == ref then r else At(t, other)
  {
  }

  lemma ProgressBySettling(t0: Tables, t: Tables, live: set<Resource>, ref: Ref)
    requires Progress(t0, t, live) && In(t, ref) && IsTarget(At(t, ref))
    requires ResourceOf(ref, At(t, ref)) !in live
    ensures Progress(t0, Set(t, ref, RolledBack(At(t, ref))), live)
  {
  }

  lemma BehindBySettling(t0: Tables, disk: Tables, mem: Tables, live: set<Resource>, ref: Ref)
    requires Progress(t0, mem, live) && Behind(t0, disk, mem)
    requires In(mem, ref) && IsTarget(At(mem, ref))
    ensures Behind(t0, disk, Set(mem, ref, RolledBack(At(mem, ref))))
    ensures disk != Set(mem, ref, RolledBack(At(mem, ref)))
  {
  }

  lemma SaveTarget(files: Files, path: string, data: Bytes, c: SaveChoice)
    requires path in files
    ensures var (files', r) := SaveFiles(files, path, data, c);
            && path in files'
            && (files'[path] == files[path] || files'[path] == data)
            && (r == Saved ==> files'[path] == data)
            && (r == SaveFailed ==> files'[path] == files[path])
  {
  }

  lemma LoadReadsTarget(codec: Codec, files: Files, files': Files, path: string)
    requires path in files && path in files' && files[path] == files'[path]
    ensures LoadValue(codec, files, path) == LoadValue(codec, files', path)
  {
  }

  lemma LoadWritten(codec: Codec, files: Files, path: string, v: StateValue)
    requires Faithful(codec) && path in files && files[path] == codec.render(EncodeState(v))
    requires v.version == SCHEMA_VERSION
    ensures LoadValue(codec, files, path) == Loaded(v)
  {
    StateRoundTrip(v);
    assert codec.parse(codec.render(EncodeState(v))) == Some(EncodeState(v));
  }

  /** A Save over a loadable file leaves either the old state or the new one to be loaded. */
  lemma SaveOutcomes(codec: Codec, files: Files, path: string, v: StateValue, files': Files, r: SaveResult,
                     c: SaveChoice)
    requires Faithful(codec) && path in files && LoadValue(codec, files, path).Loaded? && v.version == SCHEMA_VERSION
    requires (files', r) == SaveFiles(files, path, codec.render(EncodeState(v)), c)
    ensures LoadValue(codec, files', path) in {LoadValue(codec, files, path), Loaded(v)}
    ensures r == Saved ==> LoadValue(codec, files', path) == Loaded(v)
    ensures r == SaveFailed ==> LoadValue(codec, files', path) == LoadValue(codec, files, path)
  {
    SaveTarget(files, path, codec.render(EncodeState(v)), c);
    if files'[path] == files[path] {
      LoadReadsTarget(codec, files, files', path);
    } else {
      LoadWritten(codec, files', path, v);
    }
    if r == Saved {
      LoadWritten(codec, files', path, v);
    }
  }

  lemma SettleIsGood(cfg: Config, codec: Codec, v0: StateValue, run: Run, ref: Ref, action: Action, save: SaveChoice)
    requires Faithful(codec) && Good(codec, cfg.path, v0, run) && !run.died
    requires In(run.mem.tables, ref) && IsTarget(At(run.mem.tables, ref))
    requires ResourceOf(ref, At(run.mem.tables, ref)) !in run.live
    ensures Good(codec, cfg.path, v0, Settle(cfg, codec, run, ref, action, save))
  {
    var mem := run.mem.(tables := Set(run.mem.tables, ref, RolledBack(At(run.mem.tables, ref))));
    var disk := LoadValue(codec, run.files, cfg.path).value;
    ProgressBySettling(v0.tables, run.mem.tables, run.live, ref);
    BehindBySettling(v0.tables, disk.tables, run.mem.tables, run.live, ref);
    var stamped := Stamp(mem, cfg.toolVersion, save.now);
    var (files, saved) := SaveFiles(run.files, cfg.path, codec.render(EncodeState(stamped)), save);
    SaveOutcomes(codec, run.files, cfg.path, stamped, files, saved, save);
  }

  lemma DeleteIsGood(cfg: Config, codec: Codec, v0: StateValue, run: Run, ref: Ref, choice: Choice)
    requires Faithful(codec) && Good(codec, cfg.path, v0, run) && !run.died
    requires RC.Honest(choice.net, RC.GoneStatus)
    requires In(run.mem.tables, ref) && IsTarget(At(run.mem.tables, ref))
    ensures Good(codec, cfg.path, v0, DeleteTarget(cfg, codec, run, ref, choice))
  {
    var gone := ResourceOf(ref, At(run.mem.tables, ref));
    RC.DeleteMeansGone(cfg.maxRetries, choice.net, run.live, gone, cfg.attached);
    var (live, result) := RC.Delete(cfg.maxRetries, choice.net, run.live, gone, cfg.attached);
    ProgressOnSmallerServer(v0.tables, run.mem.tables, run.live, live);
    var sent := run.(live := live, log := run.log + [DeleteCall(gone)]);
    assert Good(codec, cfg.path, v0, sent);
    if result == RC.Nil {
      SettleIsGood(cfg, codec, v0, sent, ref, Deleted, choice.save);
    } else if result == RC.TypedError(RC.NotFound) {
      SettleIsGood(cfg, codec, v0, sent, ref, AlreadyGone, choice.save);
    }
  }

  /** One iteration, whatever the server, the network and the disk do, keeps the invariant. */
  lemma StepIsGood(cfg: Config, codec: Codec, v0: StateValue, run: Run, ref: Ref, choice: Choice)
    requires Faithful(codec) && Good(codec, cfg.path, v0, run)
    requires RC.Honest(choice.net, RC.GoneStatus)
    requires In(run.mem.tables, ref) && IsTarget(At(run.mem.tables, ref))
    ensures Good(codec, cfg.path, v0, Step(cfg, codec, run, ref, choice))
  {
    var end := Step(cfg, codec, run, ref, choice);
    if run.died || !cfg.apply {
      SameWorldIsGood(codec, cfg.path, v0, run, end);
    } else if ref.kind != Workspace {
      DeleteIsGood(cfg, codec, v0, run, ref, choice);
    } else {
      WorkspaceStepIsGood(cfg, codec, v0, run, ref, choice);
    }
  }

  lemma WorkspaceStepIsGood(cfg: Config, codec: Codec, v0: StateValue, run: Run, ref: Ref, choice: Choice)
    requires Faithful(codec) && Good(codec, cfg.path, v0, run) && RC.Honest(choice.net, RC.GoneStatus)
    requires In(run.mem.tables, ref) && IsTarget(At(run.mem.tables, ref))
    requires ref.kind == Workspace && cfg.apply && !run.died
    ensures Good(codec, cfg.path, v0, Step(cfg, codec, run, ref, choice))
  {
    var read := run.(log := run.log + [ReadSerial(At(run.mem.tables, ref).terrapodID, choice.read)]);
    WorkspaceStep(cfg, codec, run, ref, choice);
    SameWorldIsGood(codec, cfg.path, v0, run, read);
    if Guard(cfg.force, At(run.mem.tables, ref).stateSerial, choice.read) == Proceed {
      DeleteIsGood(cfg, codec, v0, read, ref, choice);
    } else {
      SameWorldIsGood(codec, cfg.path, v0, run, Step(cfg, codec, run, ref, choice));
    }
  }

  lemma SameWorldIsGood(codec: Codec, path: string, v0: StateValue, run: Run, run': Run)
    requires Good(codec, path, v0, run)
    requires run'.mem == run.mem && run'.live == run.live && run'.files == run.files && run'.stale == run.stale
    requires run.died ==> run'.died
    ensures Good(codec, path, v0, run')
  {
  }

  // ── A whole run ─────────────────────────────────────────────────────────────

  /** Records the run has not visited yet are as they were when it started. */
  lemma {:induction false} UnvisitedUntouched(cfg: Config, codec: Codec, sched: Schedule, run: Run, refs: seq<Ref>,
                                              ref: Ref)
    requires forall r :: r in refs ==> In(run.mem.tables, r)
    requires In(run.mem.tables, ref) && ref !in refs
    ensures var end := RunAll(cfg, codec, sched, run, refs);
            In(end.mem.tables, ref) && At(end.mem.tables, ref) == At(run.mem.tables, ref)
  {
    if refs != [] {
      var n := |refs| - 1;
      var mid := RunAll(cfg, codec, sched, run, refs[..n]);
      UnvisitedUntouched(cfg, codec, sched, run, refs[..n], ref);
      LastStep(cfg, codec, sched, run, refs);
      StepTouchesOnlyIts(cfg, codec, mid, refs[n], sched(refs[n]));
      assert refs[n] != ref by { assert refs[n] in refs; }
      SetAt(mid.mem.tables, refs[n], RolledBack(At(mid.mem.tables, refs[n])), ref);
    }
  }

  lemma LastStep(cfg: Config, codec: Codec, sched: Schedule, run: Run, refs: seq<Ref>)
    requires refs != [] && forall r :: r in refs ==> In(run.mem.tables, r)
    ensures var n := |refs| - 1;
            var mid := RunAll(cfg, codec, sched, run, refs[..n]);
            && In(mid.mem.tables, refs[n])
            && RunAll(cfg, codec, sched, run, refs) == Step(cfg, codec, mid, refs[n], sched(refs[n]))
  {
    RunAllStep(cfg, codec, sched, run, refs, |refs| - 1);
    assert refs[..|refs|] == refs;
  }

  ghost predicate TargetList(t: Tables, refs: seq<Ref>) {
    Distinct(refs) && forall ref :: ref in refs ==> In(t, ref) && IsTarget(At(t, ref))
  }

  lemma AllTargetsListed(t: Tables)
    ensures TargetList(t, AllTargets(t))
  {
    RefsUpToDistinct(t, |KINDS|);
    forall ref | ref in AllTargets(t) ensures In(t, ref) && IsTarget(At(t, ref)) {
      AllTargetsAreExact(t, ref);
    }
  }

  /** When a target's turn comes, it is still as the run loaded it. */
  lemma NextIsTarget(cfg: Config, codec: Codec, sched: Schedule, run: Run, refs: seq<Ref>)
    requires refs != [] && TargetList(run.mem.tables, refs)
    ensures var n := |refs| - 1;
            var mid := RunAll(cfg, codec, sched, run, refs[..n]);
            In(mid.mem.tables, refs[n]) && In(run.mem.tables, refs[n])
            && At(mid.mem.tables, refs[n]) == At(run.mem.tables, refs[n])
            && IsTarget(At(run.mem.tables, refs[n]))
  {
    var n := |refs| - 1;
    assert refs[n] in refs;
    UnvisitedUntouched(cfg, codec, sched, run, refs[..n], refs[n]);
  }

  lemma {:induction false} RunIsGood(cfg: Config, codec: Codec, v0: StateValue, sched: Schedule, run: Run,
                                     refs: seq<Ref>)
    requires Faithful(codec) && HonestSchedule(sched) && Good(codec, cfg.path, v0, run)
    requires TargetList(run.mem.tables, refs)
    ensures Good(codec, cfg.path, v0, RunAll(cfg, codec, sched, run, refs))
  {
    if refs != [] {
      var n := |refs| - 1;
      RunIsGood(cfg, codec, v0, sched, run, refs[..n]);
      NextIsTarget(cfg, codec, sched, run, refs);
      LastStep(cfg, codec, sched, run, refs);
      StepIsGood(cfg, codec, v0, RunAll(cfg, codec, sched, run, refs[..n]), refs[n], sched(refs[n]));
    }
  }

  // ── What reaches a delete call ──────────────────────────────────────────────

  /**
   * A delete call in the stretch of the log that starts at `from` names a target; without force, one on a workspace
   * directly follows a read in that stretch that clears it.
   */
  ghost predicate Licensed(t0: Tables, force: bool, log: seq<Event>, from: nat, j: nat)
    requires j < |log|
  {
    log[j].DeleteCall? ==>
      exists ref: Ref ::
        && ref.index < |t0[ref.kind]| && var r := t0[ref.kind][ref.index];
        && r.createdByMigration && r.terrapodID != "" && r.state != "rolled_back"
        && log[j].target == Resource(ref.kind, r.terrapodID)
        && (ref.kind == Workspace && !force ==>
              && j > from && log[j - 1].ReadSerial? && log[j - 1].id == r.terrapodID
              && (log[j - 1].reply.NoState? || (log[j - 1].reply.Serial? && log[j - 1].reply.serial <= r.stateSerial)))
  }

  /** What a step that starts with this log leaves: nothing, a delete, a read, or a read that clears and a delete. */
  predicate Logged(cfg: Config, r: Record, read: ReadReply, ref: Ref, before: seq<Event>, log: seq<Event>) {
    || log == before
    || (cfg.apply && ref.kind != Workspace && log == before + [DeleteCall(ResourceOf(ref, r))])
    || (cfg.apply && ref.kind == Workspace && log == before + [ReadSerial(r.terrapodID, read)])
    || (cfg.apply && ref.kind == Workspace && Guard(cfg.force, r.stateSerial, read) == Proceed
        && log == before + [ReadSerial(r.terrapodID, read)] + [DeleteCall(ResourceOf(ref, r))])
  }

  lemma DeleteLog(cfg: Config, codec: Codec, run: Run, ref: Ref, choice: Choice)
    requires In(run.mem.tables, ref)
    ensures DeleteTarget(cfg, codec, run, ref, choice).log
            == run.log + [DeleteCall(ResourceOf(ref, At(run.mem.tables, ref)))]
  {
  }

  lemma StepLog(cfg: Config, codec: Codec, run: Run, ref: Ref, choice: Choice)
    requires In(run.mem.tables, ref)
    ensures Logged(cfg, At(run.mem.tables, ref), choice.read, ref, run.log, Step(cfg, codec, run, ref, choice).log)
  {
    if run.died || !cfg.apply {
    } else if ref.kind != Workspace {
      DeleteLog(cfg, codec, run, ref, choice);
    } else {
      WorkspaceLog(cfg, codec, run, ref, choice);
    }
  }

  lemma WorkspaceLog(cfg: Config, codec: Codec, run: Run, ref: Ref, choice: Choice)
    requires In(run.mem.tables, ref) && ref.kind == Workspace && cfg.apply && !run.died
    ensures Logged(cfg, At(run.mem.tables, ref), choice.read, ref, run.log, Step(cfg, codec, run, ref, choice).log)
  {
    WorkspaceStep(cfg, codec, run, ref, choice);
    if Guard(cfg.force, At(run.mem.tables, ref).stateSerial, choice.read) == Proceed {
      var read := run.(log := run.log + [ReadSerial(At(run.mem.tables, ref).terrapodID, choice.read)]);
      DeleteLog(cfg, codec, read, ref, choice);
    }
  }

  lemma LoggedIsLicensed(cfg: Config, t0: Tables, read: ReadReply, ref: Ref, before: seq<Event>, log: seq<Event>)
    requires In(t0, ref) && IsTarget(At(t0, ref)) && Logged(cfg, At(t0, ref), read, ref, before, log)
    ensures |before| <= |log| && log[..|before|] == before && (!cfg.apply ==> log == before)
    ensures forall j :: |before| <= j < |log| ==> Licensed(t0, cfg.force, log, |before|, j)
  {
    forall j | |before| <= j < |log| ensures Licensed(t0, cfg.force, log, |before|, j) {
      assert log[j].DeleteCall? ==> log[j].target == ResourceOf(ref, At(t0, ref));
    }
  }

  lemma LicenceKept(t0: Tables, force: bool, log: seq<Event>, log': seq<Event>, from: nat, from': nat, j: nat)
    requires |log| <= |log'| && log'[..|log|] == log && from' <= from && j < |log| && Licensed(t0, force, log, from, j)
    ensures Licensed(t0, force, log', from', j)
  {
  }

  lemma StepLicensed(cfg: Config, codec: Codec, t0: Tables, run: Run, ref: Ref, choice: Choice)
    requires In(run.mem.tables, ref) && In(t0, ref) && At(run.mem.tables, ref) == At(t0, ref) && IsTarget(At(t0, ref))
    ensures var log := Step(cfg, codec, run, ref, choice).log;
            && |run.log| <= |log| && log[..|run.log|] == run.log
            && (!cfg.apply ==> log == run.log)
            && forall j :: |run.log| <= j < |log| ==> Licensed(t0, cfg.force, log, |run.log|, j)
  {
    StepLog(cfg, codec, run, ref, choice);
    LoggedIsLicensed(cfg, t0, choice.read, ref, run.log, Step(cfg, codec, run, ref, choice).log);
  }

  /**
   * Provenance and the advanced-state guard, for every call of a run: only records the migration created and has not
   * rolled back are ever sent to a delete call, and an unforced workspace delete follows a serial read at or below
   * the migrated serial, or a 404. A dry run makes no call at all.
   */
  lemma {:induction false} EveryDeleteIsLicensed(cfg: Config, codec: Codec, sched: Schedule, run: Run, refs: seq<Ref>)
    requires TargetList(run.mem.tables, refs)
    ensures var log := RunAll(cfg, codec, sched, run, refs).log;
            && |run.log| <= |log| && log[..|run.log|] == run.log
            && (!cfg.apply ==> log == run.log)
            && forall j :: |run.log| <= j < |log| ==> Licensed(run.mem.tables, cfg.force, log, |run.log|, j)
  {
    if refs != [] {
      var n := |refs| - 1;
      var mid := RunAll(cfg, codec, sched, run, refs[..n]);
      EveryDeleteIsLicensed(cfg, codec, sched, run, refs[..n]);
      NextIsTarget(cfg, codec, sched, run, refs);
      LastStep(cfg, codec, sched, run, refs);
      StepLicensed(cfg, codec, run.mem.tables, mid, refs[n], sched(refs[n]));
      var log := RunAll(cfg, codec, sched, run, refs).log;
      forall j | |run.log| <= j < |log| ensures Licensed(run.mem.tables, cfg.force, log, |run.log|, j) {
        if j < |mid.log| {
          LicenceKept(run.mem.tables, cfg.force, mid.log, log, |run.log|, |run.log|, j);
        } else {
          LicenceKept(run.mem.tables, cfg.force, log, log, |mid.log|, |run.log|, j);
        }
      }
    }
  }

  // ── The report ──────────────────────────────────────────────────────────────

  predicate FinalAction(apply: bool, e: Entry) {
    if apply
    then e.action in {Deleted, AlreadyGone, Errored} || (e.action == SkippedAdvanced && e.ref.kind == Workspace)
    else e.action == WouldDelete
  }

  function CountKind(refs: seq<Ref>, k: Kind): nat {
    if refs == [] then 0 else CountKind(refs[..|refs| - 1], k) + if refs[|refs| - 1].kind == k then 1 else 0
  }

  function CountAction(entries: seq<Entry>, k: Kind, a: Action): nat {
    if entries == [] then 0
    else
      var last := entries[|entries| - 1];
      CountAction(entries[..|entries| - 1], k, a) + if last.ref.kind == k && last.action == a then 1 else 0
  }

  /** When a kind's turn is: the reverse of the order in which the migration creates. */
  function Turn(k: Kind): nat {
    match k
    case GPGKey => 0
    case AgentPool => 1
    case Notification => 2
    case RunTrigger => 3
    case Varset => 4
    case Workspace => 5
  }

  /** Targets are visited kind by kind, workspaces last, and in slice order within a kind. */
  lemma VisitedInTurn(t: Tables, i: nat, j: nat)
    requires i < j < |AllTargets(t)|
    ensures var a, b := AllTargets(t)[i], AllTargets(t)[j];
            Turn(a.kind) < Turn(b.kind) || (a.kind == b.kind && a.index < b.index)
  {
    InTurnUpTo(t, |KINDS|, i, j);
  }

  lemma TurnOf(n: nat)
    requires n < |KINDS|
    ensures Turn(KINDS[n]) == n
  {
  }

  lemma KindOfVisited(t: Tables, n: nat, i: nat)
    requires n <= |KINDS| && i < |RefsUpTo(t, n)|
    ensures Turn(RefsUpTo(t, n)[i].kind) < n
  {
    var ref := RefsUpTo(t, n)[i];
    assert ref in RefsUpTo(t, n);
    RefsUpToAreExact(t, n, ref);
    var m :| 0 <= m < n && KINDS[..n][m] == ref.kind;
    TurnOf(m);
  }

  lemma {:induction false} InTurnUpTo(t: Tables, n: nat, i: nat, j: nat)
    requires n <= |KINDS| && i < j < |RefsUpTo(t, n)|
    ensures var a, b := RefsUpTo(t, n)[i], RefsUpTo(t, n)[j];
            Turn(a.kind) < Turn(b.kind) || (a.kind == b.kind && a.index < b.index)
  {
    var before := RefsUpTo(t, n - 1);
    TurnOf(n - 1);
    if j < |before| {
      InTurnUpTo(t, n - 1, i, j);
    } else if i < |before| {
      KindOfVisited(t, n - 1, i);
    } else {
      TargetsAscend(t[KINDS[n - 1]], |t[KINDS[n - 1]]|);
    }
  }

  /** The report lists the records of `refs`, in order, under the identifiers they had, one final action each. */
  ghost predicate Lists(t: Tables, refs: seq<Ref>, apply: bool, entries: seq<Entry>) {
    && |entries| == |refs|
    && forall i :: 0 <= i < |refs| ==>
         && In(t, refs[i]) && entries[i].ref == refs[i] && entries[i].id == At(t, refs[i]).terrapodID
         && FinalAction(apply, entries[i])
  }

  ghost predicate Tallied(refs: seq<Ref>, report: Report) {
    && report.skipped == CountAction(report.entries, Workspace, SkippedAdvanced)
    && (forall k: Kind :: k != Workspace ==> CountAction(report.entries, k, SkippedAdvanced) == 0)
    && forall k: Kind :: report.deleted[k] + CountAction(report.entries, k, SkippedAdvanced)
                         + CountAction(report.entries, k, Errored) == CountKind(refs, k)
  }

  /** Up to its errors, a report is the previous one with one entry noted. */
  predicate Extends(before: Report, after: Report, ref: Ref, id: string, a: Action) {
    after.(errors := before.errors) == Noted(before, ref, id, a)
  }

  /** The action a live step notes. */
  function ActionOf(cfg: Config, run: Run, ref: Ref, choice: Choice): Action
    requires In(run.mem.tables, ref)
  {
    var r := At(run.mem.tables, ref);
    if !cfg.apply then WouldDelete
    else if ref.kind == Workspace && Guard(cfg.force, r.stateSerial, choice.read) == Skip then SkippedAdvanced
    else if ref.kind == Workspace && Guard(cfg.force, r.stateSerial, choice.read) == Refuse then Errored
    else
      var result := RC.Delete(cfg.maxRetries, choice.net, run.live, ResourceOf(ref, r), cfg.attached).1;
      if result == RC.Nil then Deleted else if result == RC.TypedError(RC.NotFound) then AlreadyGone else Errored
  }

  lemma StepReport(cfg: Config, codec: Codec, run: Run, ref: Ref, choice: Choice)
    requires In(run.mem.tables, ref)
    requires !Step(cfg, codec, run, ref, choice).died
    ensures var a, id := ActionOf(cfg, run, ref, choice), At(run.mem.tables, ref).terrapodID;
            FinalAction(cfg.apply, Entry(ref, id, a))
            && Extends(run.report, Step(cfg, codec, run, ref, choice).report, ref, id, a)
  {
    if cfg.apply {
      if ref.kind != Workspace {
        DeleteReport(cfg, codec, run, ref, choice);
      } else if Guard(cfg.force, At(run.mem.tables, ref).stateSerial, choice.read) == Proceed {
        var read := run.(log := run.log + [ReadSerial(At(run.mem.tables, ref).terrapodID, choice.read)]);
        DeleteReport(cfg, codec, read, ref, choice);
      }
    }
  }

  lemma DeleteReport(cfg: Config, codec: Codec, run: Run, ref: Ref, choice: Choice)
    requires In(run.mem.tables, ref) && !DeleteTarget(cfg, codec, run, ref, choice).died
    ensures var r := At(run.mem.tables, ref);
            var result := RC.Delete(cfg.maxRetries, choice.net, run.live, ResourceOf(ref, r), cfg.attached).1;
            var a := if result == RC.Nil then Deleted
                     else if result == RC.TypedError(RC.NotFound) then AlreadyGone else Errored;
            Extends(run.report, DeleteTarget(cfg, codec, run, ref, choice).report, ref, r.terrapodID, a)
  {
  }

  // ── What each case of an iteration leaves ───────────────────────────────────

  /** A dry run, and a guard that stops, change the report and the log only. */
  lemma StoppedStep(cfg: Config, codec: Codec, run: Run, ref: Ref, choice: Choice)
    requires In(run.mem.tables, ref) && !run.died
    ensures var r, end := At(run.mem.tables, ref), Step(cfg, codec, run, ref, choice);
            var noted := run.report.entries;
            var log := run.log + [ReadSerial(r.terrapodID, choice.read)];
            && (!cfg.apply ==>
                  end == run.(report := Report(noted + [Entry(ref, r.terrapodID, WouldDelete)],
                                               run.report.deleted + multiset{ref.kind}, run.report.skipped,
                                               run.report.errors)))
            && (cfg.apply && ref.kind == Workspace ==>
                  match choice.read
                  case Serial(n) =>
                    n > r.stateSerial && !cfg.force ==>
                      end == run.(log := log,
                                  report := Report(noted + [Entry(ref, r.terrapodID, SkippedAdvanced)],
                                                   run.report.deleted, run.report.skipped + 1, run.report.errors))
                  case NoState => true
                  case ReadFailed =>
                    !cfg.force ==>
                      end == run.(log := log,
                                  report := Report(noted + [Entry(ref, r.terrapodID, Errored)], run.report.deleted,
                                                   run.report.skipped, run.report.errors + [BlindRead(ref)]))
                  case ReadDied => end == run.(log := log, died := true))
  {
  }

  /** What reaches the delete: everything but workspaces; and those that --force, a 404 or a low serial lets through. */
  predicate Reached(cfg: Config, kind: Kind, migrated: int, read: ReadReply) {
    cfg.apply && (kind == Workspace ==>
      match read
      case Serial(n) => n <= migrated || cfg.force
      case NoState => true
      case ReadFailed => cfg.force
      case ReadDied => false)
  }

  /** Otherwise the delete is sent, and its answer decides. */
  lemma SentStep(cfg: Config, codec: Codec, run: Run, ref: Ref, choice: Choice)
    requires In(run.mem.tables, ref) && !run.died
    requires Reached(cfg, ref.kind, At(run.mem.tables, ref).stateSerial, choice.read)
    ensures var r := At(run.mem.tables, ref);
            var read := if ref.kind == Workspace then [ReadSerial(r.terrapodID, choice.read)] else [];
            Step(cfg, codec, run, ref, choice) == DeleteTarget(cfg, codec, run.(log := run.log + read), ref, choice)
  {
    assert run.log + [] == run.log;
    assert run.(log := run.log) == run;
  }

  lemma AnsweredDelete(cfg: Config, codec: Codec, run: Run, ref: Ref, choice: Choice)
    requires In(run.mem.tables, ref) && !run.died
    ensures var r, end := At(run.mem.tables, ref), DeleteTarget(cfg, codec, run, ref, choice);
            var target := Resource(ref.kind, r.terrapodID);
            var (live, result) := RC.Delete(cfg.maxRetries, choice.net, run.live, target, cfg.attached);
            && end.live == live && end.log == run.log + [DeleteCall(target)]
            && (result == RC.Died ==> end.died)
            && (!end.died ==>
                  && var noted := run.report.entries + [Entry(ref, r.terrapodID, match result
                                                        case Nil => Deleted
                                                        case TypedError(NotFound) => AlreadyGone
                                                        case _ => Errored)];
                  && end.report.entries == noted && end.report.skipped == run.report.skipped
                  && end.report.deleted == (if result == RC.Nil || result == RC.TypedError(RC.NotFound)
                                            then run.report.deleted + multiset{ref.kind} else run.report.deleted)
                  && (end.report.errors != run.report.errors <==>
                        (result == RC.Nil && end.stale)
                        || (result != RC.Nil && result != RC.TypedError(RC.NotFound))))
            && (result != RC.Nil && result != RC.TypedError(RC.NotFound) ==>
                  end.mem == run.mem && end.files == run.files)
  {
  }

  lemma TallyOne(refs: seq<Ref>, before: Report, after: Report, ref: Ref, id: string, a: Action)
    requires Tallied(refs, before) && Extends(before, after, ref, id, a)
    requires a == SkippedAdvanced ==> ref.kind == Workspace
    ensures Tallied(refs + [ref], after)
  {
    var n := |before.entries|;
    assert after.entries[..n] == before.entries;
    assert (refs + [ref])[..|refs|] == refs;
    forall k: Kind
      ensures CountKind(refs + [ref], k) == CountKind(refs, k) + if ref.kind == k then 1 else 0
      ensures CountAction(after.entries, k, SkippedAdvanced)
           == CountAction(before.entries, k, SkippedAdvanced) + if ref.kind == k && a == SkippedAdvanced then 1 else 0
      ensures CountAction(after.entries, k, Errored)
           == CountAction(before.entries, k, Errored) + if ref.kind == k && a == Errored then 1 else 0
    {
    }
  }

  lemma ListOne(t: Tables, refs: seq<Ref>, apply: bool, before: Report, after: Report, ref: Ref, a: Action)
    requires Lists(t, refs, apply, before.entries) && In(t, ref)
    requires Extends(before, after, ref, At(t, ref).terrapodID, a)
    requires FinalAction(apply, Entry(ref, At(t, ref).terrapodID, a))
    ensures Lists(t, refs + [ref], apply, after.entries)
  {
  }

  /** Every record of a finished run is reported once, and the counters of each kind sum to its number of targets. */
  lemma {:induction false} ReportIsComplete(cfg: Config, codec: Codec, sched: Schedule, run: Run, refs: seq<Ref>)
    requires TargetList(run.mem.tables, refs)
    requires run.report == Report([], multiset{}, 0, []) && !run.died
    ensures var end := RunAll(cfg, codec, sched, run, refs);
            end.died || (Lists(run.mem.tables, refs, cfg.apply, end.report.entries) && Tallied(refs, end.report))
  {
    if refs != [] {
      var n := |refs| - 1;
      var mid := RunAll(cfg, codec, sched, run, refs[..n]);
      ReportIsComplete(cfg, codec, sched, run, refs[..n]);
      NextIsTarget(cfg, codec, sched, run, refs);
      LastStep(cfg, codec, sched, run, refs);
      assert refs == refs[..n] + [refs[n]];
      var end := RunAll(cfg, codec, sched, run, refs);
      if !end.died {
        MidAlive(cfg, codec, mid, refs[n], sched(refs[n]));
        CompleteOneMore(cfg, codec, run.mem.tables, refs[..n], mid, refs[n], sched(refs[n]), end);
      }
    }
  }

  lemma CompleteOneMore(cfg: Config, codec: Codec, t0: Tables, refs: seq<Ref>, mid: Run, ref: Ref, choice: Choice,
                        end: Run)
    requires In(t0, ref) && In(mid.mem.tables, ref) && At(mid.mem.tables, ref) == At(t0, ref)
    requires end == Step(cfg, codec, mid, ref, choice) && !end.died
    requires Lists(t0, refs, cfg.apply, mid.report.entries) && Tallied(refs, mid.report)
    ensures Lists(t0, refs + [ref], cfg.apply, end.report.entries) && Tallied(refs + [ref], end.report)
  {
    StepReport(cfg, codec, mid, ref, choice);
    var a := ActionOf(cfg, mid, ref, choice);
    TallyOne(refs, mid.report, end.report, ref, At(t0, ref).terrapodID, a);
    ListOne(t0, refs, cfg.apply, mid.report, end.report, ref, a);
  }

  lemma MidAlive(cfg: Config, codec: Codec, run: Run, ref: Ref, choice: Choice)
    requires In(run.mem.tables, ref) && !Step(cfg, codec, run, ref, choice).died
    ensures !run.died
  {
  }

  lemma {:induction false} CountKindRefs(t: Tables, n: nat, k: Kind)
    requires n <= |KINDS|
    ensures CountKind(RefsUpTo(t, n), k) == if k in KINDS[..n] then |Targets(t[k], |t[k]|)| else 0
  {
    if n > 0 {
      CountKindRefs(t, n - 1, k);
      CountConcat(RefsUpTo(t, n - 1), KindRefs(t, KINDS[n - 1]), k);
      KindRefsUniform(t, KINDS[n - 1], k);
      NextKind(n, k);
    }
  }

  lemma KindRefsUniform(t: Tables, kind: Kind, k: Kind)
    ensures CountKind(KindRefs(t, kind), k) == if k == kind then |Targets(t[kind], |t[kind]|)| else 0
  {
    CountUniform(KindRefs(t, kind), kind, k);
  }

  lemma NextKind(n: nat, k: Kind)
    requires 0 < n <= |KINDS|
    ensures k in KINDS[..n] <==> k in KINDS[..n - 1] || k == KINDS[n - 1]
    ensures !(k in KINDS[..n - 1] && k == KINDS[n - 1])
  {
  }

  lemma {:induction false} CountConcat(a: seq<Ref>, b: seq<Ref>, k: Kind)
    ensures CountKind(a + b, k) == CountKind(a, k) + CountKind(b, k)
  {
    if b == [] {
      assert a + b == a;
    } else {
      assert (a + b)[..|a + b| - 1] == a + b[..|b| - 1];
      CountConcat(a, b[..|b| - 1], k);
    }
  }

  lemma {:induction false} CountUniform(refs: seq<Ref>, kind: Kind, k: Kind)
    requires forall r :: r in refs ==> r.kind == kind
    ensures CountKind(refs, k) == if k == kind then |refs| else 0
  {
    if refs != [] {
      assert refs[|refs| - 1] in refs;
      CountUniform(refs[..|refs| - 1], kind, k);
    }
  }

  /** Accounting over a whole run: deleted, skipped and errored sum to the number of targets, kind by kind. */
  lemma Accounting(cfg: Config, codec: Codec, sched: Schedule, start: Run, k: Kind)
    requires start == Started(start.mem, start.live, start.files, start.log)
    ensures var end := RunRollbackValue(cfg, codec, sched, start);
            var t := start.mem.tables;
            end.died ||
              (&& end.report.deleted[k] + (if k == Workspace then end.report.skipped else 0)
                  + CountAction(end.report.entries, k, Errored) == |Targets(t[k], |t[k]|)|
               && Lists(t, AllTargets(t), cfg.apply, end.report.entries))
  {
    AllTargetsListed(start.mem.tables);
    ReportIsComplete(cfg, codec, sched, start, AllTargets(start.mem.tables));
    CountKindRefs(start.mem.tables, |KINDS|, k);
    EveryKind(k);
    assert KINDS[..|KINDS|] == KINDS;
  }

  /** The dry run lists the same records, under the same identifiers and in the same order, as the run that applies. */
  lemma DryRunFidelity(dry: Config, wet: Config, codec: Codec, sched: Schedule, sched': Schedule, start: Run,
                       start': Run)
    requires start == Started(start.mem, start.live, start.files, start.log) && !dry.apply
    requires start' == Started(start.mem, start'.live, start'.files, start'.log) && wet.apply
    ensures var d, w := RunRollbackValue(dry, codec, sched, start), RunRollbackValue(wet, codec, sched', start');
            && d == start.(report := d.report) && !d.died && d.report.errors == []
            && (!w.died ==>
                  && |d.report.entries| == |w.report.entries|
                  && forall i :: 0 <= i < |d.report.entries| ==>
                       && d.report.entries[i].ref == w.report.entries[i].ref
                       && d.report.entries[i].id == w.report.entries[i].id
                       && d.report.entries[i].action == WouldDelete)
  {
    AllTargetsIn(start.mem.tables);
    DryRunTouchesNothing(dry, codec, sched, start, AllTargets(start.mem.tables));
    Accounting(dry, codec, sched, start, Workspace);
    Accounting(wet, codec, sched', start', Workspace);
  }

  lemma {:induction false} DryRunTouchesNothing(cfg: Config, codec: Codec, sched: Schedule, run: Run, refs: seq<Ref>)
    requires !cfg.apply && forall ref :: ref in refs ==> In(run.mem.tables, ref)
    ensures var end := RunAll(cfg, codec, sched, run, refs);
            end == run.(report := end.report) && end.report.errors == run.report.errors
  {
    if refs != [] {
      LastStep(cfg, codec, sched, run, refs);
      DryRunTouchesNothing(cfg, codec, sched, run, refs[..|refs| - 1]);
    }
  }

  // ── What leaves the server ──────────────────────────────────────────────────

  /** Everything the second set lacks is the resource of a target, or attached to one. */
  ghost predicate OnlyTargetsGone(t: Tables, attached: Resource -> set<Resource>, live: set<Resource>,
                                  live': set<Resource>) {
    live' <= live && forall x :: x in live - live' ==> Removable(t, attached, x)
  }

  ghost predicate Removable(t: Tables, attached: Resource -> set<Resource>, x: Resource) {
    exists ref: Ref ::
      && ref.index < |t[ref.kind]| && var r := t[ref.kind][ref.index];
      && r.createdByMigration && r.terrapodID != "" && r.state != "rolled_back"
      && (x == Resource(ref.kind, r.terrapodID) || x in attached(Resource(ref.kind, r.terrapodID)))
  }

  lemma DeleteRemovesOnly(cfg: Config, codec: Codec, t: Tables, run: Run, ref: Ref, choice: Choice)
    requires In(run.mem.tables, ref) && In(t, ref) && At(run.mem.tables, ref) == At(t, ref) && IsTarget(At(t, ref))
    requires RC.Honest(choice.net, RC.GoneStatus)
    ensures OnlyTargetsGone(t, cfg.attached, run.live, DeleteTarget(cfg, codec, run, ref, choice).live)
  {
    var gone := ResourceOf(ref, At(t, ref));
    RC.DeleteMeansGone(cfg.maxRetries, choice.net, run.live, gone, cfg.attached);
    forall x | x == gone || x in cfg.attached(gone) ensures Removable(t, cfg.attached, x) {}
  }

  lemma StepRemovesOnly(cfg: Config, codec: Codec, t: Tables, run: Run, ref: Ref, choice: Choice)
    requires In(run.mem.tables, ref) && In(t, ref) && At(run.mem.tables, ref) == At(t, ref) && IsTarget(At(t, ref))
    requires RC.Honest(choice.net, RC.GoneStatus)
    ensures OnlyTargetsGone(t, cfg.attached, run.live, Step(cfg, codec, run, ref, choice).live)
  {
    if run.died || !cfg.apply {
    } else if ref.kind != Workspace {
      DeleteRemovesOnly(cfg, codec, t, run, ref, choice);
    } else {
      WorkspaceStep(cfg, codec, run, ref, choice);
      if Guard(cfg.force, At(run.mem.tables, ref).stateSerial, choice.read) == Proceed {
        var read := run.(log := run.log + [ReadSerial(At(t, ref).terrapodID, choice.read)]);
        DeleteRemovesOnly(cfg, codec, t, read, ref, choice);
      }
    }
  }

  /** A run removes from the server only what the migration created, and what the server drops along with it. */
  lemma {:induction false} RunRemovesOnly(cfg: Config, codec: Codec, sched: Schedule, run: Run, refs: seq<Ref>)
    requires TargetList(run.mem.tables, refs) && HonestSchedule(sched)
    ensures OnlyTargetsGone(run.mem.tables, cfg.attached, run.live, RunAll(cfg, codec, sched, run, refs).live)
  {
    if refs != [] {
      var n := |refs| - 1;
      RunRemovesOnly(cfg, codec, sched, run, refs[..n]);
      NextIsTarget(cfg, codec, sched, run, refs);
      LastStep(cfg, codec, sched, run, refs);
      StepRemovesOnly(cfg, codec, run.mem.tables, RunAll(cfg, codec, sched, run, refs[..n]), refs[n], sched(refs[n]));
    }
  }
}
