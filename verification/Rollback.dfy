/**
 * `terrapod-migrate rollback` (migrate/cmd/terrapod-migrate/rollback.go): the six delete loops over the records of the
 * state file, run against a server behind the retrying client and a disk on which every Save may fail.
 */
module Rollback {
  import opened Text
  import opened MigrationState
  import opened Folding
  import RC = RetryClient

  /** A record, as the pointer into a slice that the source passes around. */
  datatype Ref = Ref(kind: Kind, index: nat)

  datatype Resource = Resource(kind: Kind, id: string)

  /** The order of the six loops. */
  const KINDS: seq<Kind> := [GPGKey, AgentPool, Notification, RunTrigger, Varset, Workspace]

  /** The flags and the environment; `attached` are the server's foreign keys with ON DELETE CASCADE. */
  datatype Config = Config(apply: bool, force: bool, maxRetries: int, path: string, toolVersion: string,
                           attached: Resource -> set<Resource>)

  /** What GetCurrentStateVersion came back with: a serial, a 404, any other error, or nothing as the process died. */
  datatype ReadReply = Serial(serial: int) | NoState | ReadFailed | ReadDied

  /** What the environment decides about one target: the serial read, the attempts of the DELETE, the Save after it. */
  datatype Choice = Choice(read: ReadReply, net: nat -> RC.Attempt, save: SaveChoice)

  type Schedule = Ref -> Choice

  ghost predicate HonestSchedule(sched: Schedule) {
    forall ref: Ref :: RC.Honest(sched(ref).net, RC.GoneStatus)
  }

  datatype Action = WouldDelete | Deleted | AlreadyGone | SkippedAdvanced | Errored

  datatype Entry = Entry(ref: Ref, id: string, action: Action)

  datatype Problem = BlindRead(ref: Ref) | DeleteError(ref: Ref) | DeletedButUnsaved(ref: Ref)

  /** `deleted` holds the six deletion counters, one multiplicity for each kind. */
  datatype Report = Report(entries: seq<Entry>, deleted: multiset<Kind>, skipped: nat, errors: seq<Problem>)

  datatype Event = ReadSerial(id: string, reply: ReadReply) | DeleteCall(target: Resource)

  /**
   * A run in progress: memory, server, disk, the calls made so far, the report; whether the last Save failed to reach
   * the disk; whether the process has died.
   */
  datatype Run = Run(mem: StateValue, live: set<Resource>, files: Files, log: seq<Event>, report: Report,
                     stale: bool, died: bool)

  predicate In(t: Tables, ref: Ref) {
    ref.index < |t[ref.kind]|
  }

  function At(t: Tables, ref: Ref): Record
    requires In(t, ref)
  {
    t[ref.kind][ref.index]
  }

  function Set(t: Tables, ref: Ref, r: Record): Tables
    requires In(t, ref)
  {
    t[ref.kind := t[ref.kind][ref.index := r]]
  }

  function ResourceOf(ref: Ref, r: Record): Resource {
    Resource(ref.kind, r.terrapodID)
  }

  function KindRefs(t: Tables, k: Kind): seq<Ref> {
    var ts := Targets(t[k], |t[k]|);
    seq(|ts|, i requires 0 <= i < |ts| => Ref(k, ts[i]))
  }

  /** All targets of the first n loops, in the order they are visited. */
  function RefsUpTo(t: Tables, n: nat): seq<Ref>
    requires n <= |KINDS|
  {
    if n == 0 then [] else RefsUpTo(t, n - 1) + KindRefs(t, KINDS[n - 1])
  }

  function AllTargets(t: Tables): seq<Ref> {
    RefsUpTo(t, |KINDS|)
  }

  // ── One target ──────────────────────────────────────────────────────────────

  function Noted(r: Report, ref: Ref, id: string, action: Action): Report {
    var counted := action in {WouldDelete, Deleted, AlreadyGone};
    r.(entries := r.entries + [Entry(ref, id, action)],
       deleted := if counted then r.deleted + multiset{ref.kind} else r.deleted,
       skipped := if action == SkippedAdvanced then r.skipped + 1 else r.skipped)
  }

  function Complained(r: Report, p: Problem): Report {
    r.(errors := r.errors + [p])
  }

  /** The record is marked and the state saved; after a 404 a failed Save goes unreported. */
  function Settle(cfg: Config, codec: Codec, run: Run, ref: Ref, action: Action, save: SaveChoice): (end: Run)
    requires In(run.mem.tables, ref)
    ensures SameShape(run.mem.tables, end.mem.tables)
  {
    var r := At(run.mem.tables, ref);
    var report := Noted(run.report, ref, r.terrapodID, action);
    var mem := Stamp(run.mem.(tables := Set(run.mem.tables, ref, RolledBack(r))), cfg.toolVersion, save.now);
    var (files, saved) := SaveFiles(run.files, cfg.path, codec.render(EncodeState(mem)), save);
    run.(mem := mem, files := files, stale := saved != Saved, died := saved == SaveDied,
         report :=
           if action == Deleted && saved == SaveFailed then Complained(report, DeletedButUnsaved(ref)) else report)
  }

  function DeleteTarget(cfg: Config, codec: Codec, run: Run, ref: Ref, choice: Choice): (end: Run)
    requires In(run.mem.tables, ref)
    ensures SameShape(run.mem.tables, end.mem.tables)
  {
    var r := At(run.mem.tables, ref);
    var (live, result) := RC.Delete(cfg.maxRetries, choice.net, run.live, ResourceOf(ref, r), cfg.attached);
    var sent := run.(live := live, log := run.log + [DeleteCall(ResourceOf(ref, r))]);
    if result == RC.Nil then Settle(cfg, codec, sent, ref, Deleted, choice.save)
    else if result == RC.TypedError(RC.NotFound) then Settle(cfg, codec, sent, ref, AlreadyGone, choice.save)
    else if result == RC.Died then sent.(died := true)
    else sent.(report := Complained(Noted(run.report, ref, r.terrapodID, Errored), DeleteError(ref)))
  }

  datatype Verdict = Proceed | Skip | Refuse | Dead

  /** The advanced-state guard on a workspace. */
  function Guard(force: bool, migrated: int, read: ReadReply): Verdict {
    match read
    case Serial(current) => if current > migrated && !force then Skip else Proceed
    case NoState => Proceed
    case ReadFailed => if force then Proceed else Refuse
    case ReadDied => Dead
  }

  function Step(cfg: Config, codec: Codec, run: Run, ref: Ref, choice: Choice): (end: Run)
    requires In(run.mem.tables, ref)
    ensures SameShape(run.mem.tables, end.mem.tables)
  {
    var r := At(run.mem.tables, ref);
    if run.died then run
    else if !cfg.apply then run.(report := Noted(run.report, ref, r.terrapodID, WouldDelete))
    else if ref.kind != Workspace then DeleteTarget(cfg, codec, run, ref, choice)
    else
      var read := run.(log := run.log + [ReadSerial(r.terrapodID, choice.read)]);
      match Guard(cfg.force, r.stateSerial, choice.read)
      case Proceed => DeleteTarget(cfg, codec, read, ref, choice)
      case Skip => read.(report := Noted(run.report, ref, r.terrapodID, SkippedAdvanced))
      case Refuse => read.(report := Complained(Noted(run.report, ref, r.terrapodID, Errored), BlindRead(ref)))
      case Dead => read.(died := true)
  }

  predicate SameShape(t: Tables, t': Tables) {
    forall k: Kind :: |t[k]| == |t'[k]|
  }

  function Stepper(cfg: Config, codec: Codec, sched: Schedule): (Run, Ref) -> Run {
    (run: Run, ref: Ref) => if In(run.mem.tables, ref) then Step(cfg, codec, run, ref, sched(ref)) else run
  }

  function RunAll(cfg: Config, codec: Codec, sched: Schedule, run: Run, refs: seq<Ref>): (end: Run)
    ensures SameShape(run.mem.tables, end.mem.tables)
  {
    StepperKeepsShape(cfg, codec, sched);
    ShapeKept(Stepper(cfg, codec, sched), run, refs);
    Fold(Stepper(cfg, codec, sched), run, refs)
  }

  lemma StepperKeepsShape(cfg: Config, codec: Codec, sched: Schedule)
    ensures forall r: Run, ref: Ref :: SameShape(r.mem.tables, Stepper(cfg, codec, sched)(r, ref).mem.tables)
  {
    forall r: Run, ref: Ref ensures SameShape(r.mem.tables, Stepper(cfg, codec, sched)(r, ref).mem.tables) {
      if In(r.mem.tables, ref) {
        var end := Step(cfg, codec, r, ref, sched(ref));
        assert Stepper(cfg, codec, sched)(r, ref) == end;
      }
    }
  }

  lemma {:induction false} ShapeKept(step: (Run, Ref) -> Run, run: Run, refs: seq<Ref>)
    requires forall r: Run, ref: Ref :: SameShape(r.mem.tables, step(r, ref).mem.tables)
    ensures SameShape(run.mem.tables, Fold(step, run, refs).mem.tables)
  {
    if refs != [] {
      ShapeKept(step, run, refs[..|refs| - 1]);
    }
  }

  function Started(v: StateValue, live: set<Resource>, files: Files, log: seq<Event>): Run {
    Run(v, live, files, log, Report([], multiset{}, 0, []), false, false)
  }

  /** A whole run over a loaded state. */
  function RunRollbackValue(cfg: Config, codec: Codec, sched: Schedule, start: Run): Run {
    RunAll(cfg, codec, sched, start, AllTargets(start.mem.tables))
  }

  // ── The target list ─────────────────────────────────────────────────────────

  lemma KindRefsAreExact(t: Tables, k: Kind, ref: Ref)
    ensures ref in KindRefs(t, k) <==> ref.kind == k && In(t, ref) && IsTarget(At(t, ref))
  {
    var ts := Targets(t[k], |t[k]|);
    TargetsAreExact(t[k], |t[k]|);
    if ref.kind == k && ref.index in ts {
      var i :| 0 <= i < |ts| && ts[i] == ref.index;
      assert KindRefs(t, k)[i] == ref;
    }
  }

  lemma KindRefsIn(t: Tables, k: Kind)
    ensures forall ref :: ref in KindRefs(t, k) ==> In(t, ref)
  {
    forall ref | ref in KindRefs(t, k) ensures In(t, ref) { KindRefsAreExact(t, k, ref); }
  }

  lemma {:induction false} RefsUpToAreExact(t: Tables, n: nat, ref: Ref)
    requires n <= |KINDS|
    ensures ref in RefsUpTo(t, n) <==> ref.kind in KINDS[..n] && In(t, ref) && IsTarget(At(t, ref))
  {
    if n > 0 {
      RefsUpToAreExact(t, n - 1, ref);
      KindRefsAreExact(t, KINDS[n - 1], ref);
      assert KINDS[..n] == KINDS[..n - 1] + [KINDS[n - 1]];
    }
  }

  lemma EveryKind(k: Kind)
    ensures k in KINDS
  {
  }

  /** The six loops together visit exactly the target records. */
  lemma AllTargetsAreExact(t: Tables, ref: Ref)
    ensures ref in AllTargets(t) <==>
              && ref.index < |t[ref.kind]| && var r := t[ref.kind][ref.index];
              && r.createdByMigration && r.terrapodID != "" && r.state != "rolled_back"
  {
    RefsUpToAreExact(t, |KINDS|, ref);
    EveryKind(ref.kind);
    assert KINDS[..|KINDS|] == KINDS;
  }

  lemma AllTargetsIn(t: Tables)
    ensures forall ref :: ref in AllTargets(t) ==> In(t, ref)
  {
    forall ref | ref in AllTargets(t) ensures In(t, ref) {
      AllTargetsAreExact(t, ref);
    }
  }

  predicate Distinct(refs: seq<Ref>) {
    forall i, j :: 0 <= i < j < |refs| ==> refs[i] != refs[j]
  }

  lemma {:induction false} RefsUpToDistinct(t: Tables, n: nat)
    requires n <= |KINDS|
    ensures Distinct(RefsUpTo(t, n))
  {
    if n > 0 {
      RefsUpToDistinct(t, n - 1);
      TargetsAscend(t[KINDS[n - 1]], |t[KINDS[n - 1]]|);
      var before := RefsUpTo(t, n - 1);
      forall i | 0 <= i < |before| ensures before[i].kind != KINDS[n - 1] {
        assert before[i] in before;
        RefsUpToAreExact(t, n - 1, before[i]);
        KindsDistinct(n - 1, before[i].kind);
      }
    }
  }

  lemma KindsDistinct(n: nat, k: Kind)
    requires n < |KINDS| && k in KINDS[..n]
    ensures k != KINDS[n]
  {
  }

  // ── The methods ─────────────────────────────────────────────────────────────

  class Server {
    var live: set<Resource>
    var log: seq<Event>

    constructor (live: set<Resource>, log: seq<Event>)
      ensures this.live == live && this.log == log
    {
      this.live, this.log := live, log;
    }

    /** The client's DELETE, through its retry loop. */
    method Delete(maxRetries: int, net: nat -> RC.Attempt, r: Resource, attached: Resource -> set<Resource>)
      returns (result: RC.Result)
      modifies this
      ensures (live, result) == RC.Delete(maxRetries, net, old(live), r, attached)
      ensures log == old(log) + [DeleteCall(r)]
    {
      log := log + [DeleteCall(r)];
      RC.MethodClasses("DELETE");
      var x := RC.Do(maxRetries, "DELETE", net, RC.NeverCancelled(), RC.DeleteHandler(r, attached), live);
      live := x.server;
      result := RC.ResultOf(x.outcome);
    }

    method ReadSerialOf(id: string, reply: ReadReply)
      modifies this`log
      ensures log == old(log) + [ReadSerial(id, reply)]
    {
      log := log + [ReadSerial(id, reply)];
    }
  }

  function View(state: State, server: Server, fs: FileSystem, report: Report, stale: bool, died: bool): Run
    reads state, server, fs
  {
    Run(state.Value(), server.live, fs.files, server.log, report, stale, died)
  }

  /** The body of one loop iteration past the advanced-state guard; `report`, `stale` and `died` are the run's own. */
  method DeleteOne(cfg: Config, codec: Codec, state: State, server: Server, fs: FileSystem, ref: Ref, choice: Choice,
                   report: Report, stale: bool)
    returns (report': Report, stale': bool, died: bool)
    requires In(state.tables, ref)
    modifies state, server, fs
    ensures View(state, server, fs, report', stale', died)
         == DeleteTarget(cfg, codec, old(View(state, server, fs, report, stale, false)), ref, choice)
  {
    report', stale', died := report, stale, false;
    var r := At(state.tables, ref);
    var result := server.Delete(cfg.maxRetries, choice.net, ResourceOf(ref, r), cfg.attached);
    if result == RC.Died {
      died := true;
    } else if result == RC.Nil || result == RC.TypedError(RC.NotFound) {
      var action := if result == RC.Nil then Deleted else AlreadyGone;
      state.tables := Set(state.tables, ref, RolledBack(r));
      report' := Noted(report, ref, r.terrapodID, action);
      var saved := state.Save(codec, fs, cfg.path, cfg.toolVersion, choice.save);
      stale', died := saved != Saved, saved == SaveDied;
      if action == Deleted && saved == SaveFailed {
        report' := Complained(report', DeletedButUnsaved(ref));
      }
    } else {
      report' := Complained(Noted(report, ref, r.terrapodID, Errored), DeleteError(ref));
    }
  }

  /** The advanced-state guard: the serial is read, and what to do is decided. */
  method CheckSerial(cfg: Config, server: Server, r: Record, reply: ReadReply) returns (verdict: Verdict)
    modifies server`log
    ensures verdict == Guard(cfg.force, r.stateSerial, reply)
    ensures server.log == old(server.log) + [ReadSerial(r.terrapodID, reply)]
  {
    server.ReadSerialOf(r.terrapodID, reply);
    match reply {
      case Serial(current) =>
        if current > r.stateSerial && !cfg.force { return Skip; }
      case NoState =>
      case ReadFailed =>
        if !cfg.force { return Refuse; }
      case ReadDied =>
        return Dead;
    }
    return Proceed;
  }

  /** One iteration of one of the six loops. */
  method ProcessTarget(cfg: Config, codec: Codec, state: State, server: Server, fs: FileSystem, ref: Ref,
                       choice: Choice, report: Report, stale: bool)
    returns (report': Report, stale': bool, died: bool)
    requires In(state.tables, ref)
    modifies state, server, fs
    ensures View(state, server, fs, report', stale', died)
         == Step(cfg, codec, old(View(state, server, fs, report, stale, false)), ref, choice)
  {
    report', stale', died := report, stale, false;
    var r := At(state.tables, ref);
    if !cfg.apply {
      report' := Noted(report, ref, r.terrapodID, WouldDelete);
      return;
    }
    if ref.kind == Workspace {
      var verdict := CheckSerial(cfg, server, r, choice.read);
      match verdict {
        case Proceed =>
        case Skip =>
          report' := Noted(report, ref, r.terrapodID, SkippedAdvanced);
          return;
        case Refuse =>
          report' := Complained(Noted(report, ref, r.terrapodID, Errored), BlindRead(ref));
          return;
        case Dead =>
          died := true;
          return;
      }
    }
    report', stale', died := DeleteOne(cfg, codec, state, server, fs, ref, choice, report, stale);
  }

  lemma DeleteTouchesOnlyIts(cfg: Config, codec: Codec, run: Run, ref: Ref, choice: Choice)
    requires In(run.mem.tables, ref)
    ensures var t, t' := run.mem.tables, DeleteTarget(cfg, codec, run, ref, choice).mem.tables;
            t' == t || t' == Set(t, ref, RolledBack(At(t, ref)))
  {
  }

  /** A step changes no record but its own, and of that the mark and the identifier. */
  lemma StepTouchesOnlyIts(cfg: Config, codec: Codec, run: Run, ref: Ref, choice: Choice)
    requires In(run.mem.tables, ref)
    ensures var t, t' := run.mem.tables, Step(cfg, codec, run, ref, choice).mem.tables;
            var r := t[ref.kind][ref.index].(state := "rolled_back", terrapodID := "");
            t' == t || t' == t[ref.kind := t[ref.kind][ref.index := r]]
  {
    if run.died || !cfg.apply {
    } else if ref.kind != Workspace {
      DeleteTouchesOnlyIts(cfg, codec, run, ref, choice);
    } else {
      WorkspaceTouchesOnlyIts(cfg, codec, run, ref, choice);
    }
  }

  /** A step on a workspace: the guard stops it, or it is a delete after the read. */
  lemma WorkspaceStep(cfg: Config, codec: Codec, run: Run, ref: Ref, choice: Choice)
    requires In(run.mem.tables, ref) && ref.kind == Workspace && cfg.apply && !run.died
    ensures var read := run.(log := run.log + [ReadSerial(At(run.mem.tables, ref).terrapodID, choice.read)]);
            var end := Step(cfg, codec, run, ref, choice);
            if Guard(cfg.force, At(run.mem.tables, ref).stateSerial, choice.read) == Proceed
            then end == DeleteTarget(cfg, codec, read, ref, choice)
            else end.mem == run.mem && end.live == run.live && end.files == run.files && end.log == read.log
                 && end.stale == run.stale
  {
  }

  lemma WorkspaceTouchesOnlyIts(cfg: Config, codec: Codec, run: Run, ref: Ref, choice: Choice)
    requires In(run.mem.tables, ref) && ref.kind == Workspace && cfg.apply && !run.died
    ensures var t, t' := run.mem.tables, Step(cfg, codec, run, ref, choice).mem.tables;
            t' == t || t' == Set(t, ref, RolledBack(At(t, ref)))
  {
    WorkspaceStep(cfg, codec, run, ref, choice);
    if Guard(cfg.force, At(run.mem.tables, ref).stateSerial, choice.read) == Proceed {
      var read := run.(log := run.log + [ReadSerial(At(run.mem.tables, ref).terrapodID, choice.read)]);
      DeleteTouchesOnlyIts(cfg, codec, read, ref, choice);
    }
  }

  lemma {:induction false} OtherKindsUntouched(cfg: Config, codec: Codec, sched: Schedule, run: Run, refs: seq<Ref>,
                                               k: Kind)
    requires forall ref :: ref in refs ==> In(run.mem.tables, ref) && ref.kind != k
    ensures RunAll(cfg, codec, sched, run, refs).mem.tables[k] == run.mem.tables[k]
  {
    if refs != [] {
      var n := |refs| - 1;
      assert refs[n] in refs && refs[..n + 1] == refs;
      OtherKindsUntouched(cfg, codec, sched, run, refs[..n], k);
      RunAllStep(cfg, codec, sched, run, refs, n);
      StepTouchesOnlyIts(cfg, codec, RunAll(cfg, codec, sched, run, refs[..n]), refs[n], sched(refs[n]));
    }
  }

  lemma RunAllStep(cfg: Config, codec: Codec, sched: Schedule, run: Run, refs: seq<Ref>, i: nat)
    requires i < |refs| && In(run.mem.tables, refs[i])
    ensures In(RunAll(cfg, codec, sched, run, refs[..i]).mem.tables, refs[i])
    ensures RunAll(cfg, codec, sched, run, refs[..i + 1])
         == Step(cfg, codec, RunAll(cfg, codec, sched, run, refs[..i]), refs[i], sched(refs[i]))
  {
    FoldStep(Stepper(cfg, codec, sched), run, refs, i);
    var mid := RunAll(cfg, codec, sched, run, refs[..i]);
    assert |mid.mem.tables[refs[i].kind]| == |run.mem.tables[refs[i].kind]|;
  }

  lemma RunAllConcat(cfg: Config, codec: Codec, sched: Schedule, run: Run, refs: seq<Ref>, more: seq<Ref>)
    ensures RunAll(cfg, codec, sched, run, refs + more)
         == RunAll(cfg, codec, sched, RunAll(cfg, codec, sched, run, refs), more)
  {
    FoldConcat(Stepper(cfg, codec, sched), run, refs, more);
  }

  /** After a crash nothing more happens. */
  lemma DeadRunsStop(cfg: Config, codec: Codec, sched: Schedule, run: Run, refs: seq<Ref>)
    requires run.died
    ensures RunAll(cfg, codec, sched, run, refs) == run
  {
    FoldFixed(Stepper(cfg, codec, sched), run, refs);
  }

  lemma RunAllDied(cfg: Config, codec: Codec, sched: Schedule, run: Run, refs: seq<Ref>, i: nat)
    requires i <= |refs| && RunAll(cfg, codec, sched, run, refs[..i]).died
    ensures RunAll(cfg, codec, sched, run, refs) == RunAll(cfg, codec, sched, run, refs[..i])
  {
    assert refs[..i] + refs[i..] == refs;
    RunAllConcat(cfg, codec, sched, run, refs[..i], refs[i..]);
    DeadRunsStop(cfg, codec, sched, RunAll(cfg, codec, sched, run, refs[..i]), refs[i..]);
  }

  /** One of the six loops. */
  method RunKind(cfg: Config, codec: Codec, sched: Schedule, state: State, server: Server, fs: FileSystem, k: Kind,
                 report: Report, stale: bool)
    returns (report': Report, stale': bool, died: bool)
    modifies state, server, fs
    ensures View(state, server, fs, report', stale', died)
         == RunAll(cfg, codec, sched, old(View(state, server, fs, report, stale, false)),
                   old(KindRefs(state.tables, k)))
  {
    report', stale', died := report, stale, false;
    ghost var run0 := View(state, server, fs, report, stale, false);
    ghost var mine := KindRefs(state.tables, k);
    KindRefsIn(state.tables, k);
    var targets := state.RollbackTargets(k);
    for i := 0 to |targets|
      invariant !died
      invariant View(state, server, fs, report', stale', died) == RunAll(cfg, codec, sched, run0, mine[..i])
    {
      var ref := Ref(k, targets[i]);
      assert mine[i] == ref && ref in mine;
      RunAllStep(cfg, codec, sched, run0, mine, i);
      report', stale', died := ProcessTarget(cfg, codec, state, server, fs, ref, sched(ref), report', stale');
      if died {
        RunAllDied(cfg, codec, sched, run0, mine, i + 1);
        return;
      }
    }
    assert mine[..|targets|] == mine;
  }

  /** The targets of the loops from the n-th on. */
  function RefsFrom(t: Tables, n: nat): seq<Ref>
    requires n <= |KINDS|
    decreases |KINDS| - n
  {
    if n == |KINDS| then [] else KindRefs(t, KINDS[n]) + RefsFrom(t, n + 1)
  }

  lemma {:induction false} RefsSplit(t: Tables, n: nat)
    requires n <= |KINDS|
    ensures AllTargets(t) == RefsUpTo(t, n) + RefsFrom(t, n)
    decreases |KINDS| - n
  {
    if n < |KINDS| {
      RefsSplit(t, n + 1);
    }
  }

  /** The six loops of the source, one after the other; an early return is the process dying. */
  method RunRollback(cfg: Config, codec: Codec, sched: Schedule, state: State, server: Server, fs: FileSystem)
    returns (report: Report, stale: bool, died: bool)
    modifies state, server, fs
    ensures View(state, server, fs, report, stale, died)
         == RunRollbackValue(cfg, codec, sched, old(Started(state.Value(), server.live, fs.files, server.log)))
  {
    ghost var run0 := Started(state.Value(), server.live, fs.files, server.log);
    ghost var t := state.tables;
    AllTargetsIn(t);
    report, stale, died := Report([], multiset{}, 0, []), false, false;
    for n := 0 to |KINDS|
      invariant !died
      invariant forall ref :: ref in RefsUpTo(t, n) ==> In(t, ref)
      invariant View(state, server, fs, report, stale, died) == RunAll(cfg, codec, sched, run0, RefsUpTo(t, n))
    {
      RefsSplit(t, n);
      RefsSplit(t, n + 1);
      KindUntouchedBefore(cfg, codec, sched, run0, n);
      RunAllConcat(cfg, codec, sched, run0, RefsUpTo(t, n), KindRefs(t, KINDS[n]));
      report, stale, died := RunKind(cfg, codec, sched, state, server, fs, KINDS[n], report, stale);
      if died {
        RunAllConcat(cfg, codec, sched, run0, RefsUpTo(t, n + 1), RefsFrom(t, n + 1));
        DeadRunsStop(cfg, codec, sched, RunAll(cfg, codec, sched, run0, RefsUpTo(t, n + 1)), RefsFrom(t, n + 1));
        return;
      }
    }
  }

  /** When the n-th loop starts, its own slice is as it was loaded. */
  lemma KindUntouchedBefore(cfg: Config, codec: Codec, sched: Schedule, run0: Run, n: nat)
    requires n < |KINDS|
    requires forall ref :: ref in RefsUpTo(run0.mem.tables, n) ==> In(run0.mem.tables, ref)
    ensures RunAll(cfg, codec, sched, run0, RefsUpTo(run0.mem.tables, n)).mem.tables[KINDS[n]]
         == run0.mem.tables[KINDS[n]]
  {
    forall ref | ref in RefsUpTo(run0.mem.tables, n) ensures ref.kind != KINDS[n] {
      RefsUpToAreExact(run0.mem.tables, n, ref);
      KindsDistinct(n, ref.kind);
    }
    OtherKindsUntouched(cfg, codec, sched, run0, RefsUpTo(run0.mem.tables, n), KINDS[n]);
  }
}
