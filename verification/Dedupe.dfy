/**
 * The migration that makes task stages unique per (run, stage)
 * (alembic/versions/5456426d7dd8_task_stage_unique_run_stage.py).
 */
module Dedupe {

  /** A row of `task_stages`; `status` stands for the columns the migration does not read. */
  datatype Stage = Stage(runId: nat, stage: string, createdAt: int, status: string)

  /** A row of `task_stage_results`. */
  datatype StageResult = StageResult(taskStageId: nat, status: string)

  type Stages = map<nat, Stage>

  predicate SamePair(stages: Stages, a: nat, b: nat)
    requires a in stages && b in stages
  {
    stages[a].runId == stages[b].runId && stages[a].stage == stages[b].stage
  }

  /** `ORDER BY created_at ASC, id ASC`. */
  predicate Before(stages: Stages, a: nat, b: nat)
    requires a in stages && b in stages
  {
    stages[a].createdAt < stages[b].createdAt || (stages[a].createdAt == stages[b].createdAt && a < b)
  }

  /** The rows of id's partition up to id itself. */
  function UpTo(stages: Stages, id: nat): set<nat>
    requires id in stages
  {
    set a | a in stages && SamePair(stages, a, id) && !Before(stages, id, a)
  }

  /** `ROW_NUMBER() OVER (PARTITION BY run_id, stage ORDER BY created_at, id)`. */
  function RowNumber(stages: Stages, id: nat): nat
    requires id in stages
  {
    |UpTo(stages, id)|
  }

  /** The oldest row of its (run, stage) pair, the smallest id breaking ties. */
  predicate IsOldest(stages: Stages, id: nat) {
    id in stages && forall a :: a in stages && SamePair(stages, a, id) && a != id ==> Before(stages, id, a)
  }

  lemma {:induction false} SingletonIsOne(s: set<nat>, x: nat)
    requires x in s
    ensures |s| >= 1 && (|s| == 1 <==> s == {x})
  {
    assert s == {x} + (s - {x});
    assert |s| == 1 + |s - {x}|;
  }

  lemma FirstRowIsOldest(stages: Stages, id: nat)
    requires id in stages
    ensures RowNumber(stages, id) == 1 <==> IsOldest(stages, id)
    ensures RowNumber(stages, id) >= 1
    ensures IsOldest(stages, id) <==>
              forall a :: a in stages && stages[a].runId == stages[id].runId && stages[a].stage == stages[id].stage ==>
                a == id || stages[id].createdAt < stages[a].createdAt
                || (stages[id].createdAt == stages[a].createdAt && id < a)
  {
    var upTo := UpTo(stages, id);
    SingletonIsOne(upTo, id);
    if upTo == {id} {
      forall a | a in stages && SamePair(stages, a, id) && a != id ensures Before(stages, id, a) {
        assert a !in upTo;
      }
    }
    if IsOldest(stages, id) {
      forall a | a in upTo ensures a == id {}
    }
  }

  function Oldest(stages: Stages): Stages {
    map id | id in stages && IsOldest(stages, id) :: stages[id]
  }

  /** What `ON DELETE CASCADE` leaves of the results. */
  function OfStages(results: map<nat, StageResult>, stages: Stages): map<nat, StageResult> {
    map r | r in results && results[r].taskStageId in stages :: results[r]
  }

  predicate UniquePairs(stages: Stages) {
    forall a, b :: a in stages && b in stages && SamePair(stages, a, b) ==> a == b
  }

  predicate ForeignKeys(stages: Stages, results: map<nat, StageResult>) {
    forall r :: r in results ==> results[r].taskStageId in stages
  }

  class Database {
    var stages: Stages
    var results: map<nat, StageResult>
    var constrained: bool

    /** What the database enforces by itself. */
    predicate Valid()
      reads this
    {
      ForeignKeys(stages, results) && (constrained ==> UniquePairs(stages))
    }

    /** `DELETE FROM task_stages WHERE id IN (…)`, with the cascade. */
    method DeleteStages(doomed: set<nat>)
      requires Valid()
      modifies this
      ensures Valid() && constrained == old(constrained)
      ensures stages == old(stages) - doomed && results == OfStages(old(results), stages)
    {
      stages := stages - doomed;
      results := map r | r in results && results[r].taskStageId in stages :: results[r];
    }

    /** `create_unique_constraint`: refused by rows that already violate it. */
    method CreateUniqueConstraint() returns (ok: bool)
      requires Valid()
      modifies this`constrained
      ensures Valid()
      ensures ok <==> UniquePairs(stages)
      ensures constrained == (old(constrained) || ok)
    {
      ok := forall a, b :: a in stages && b in stages && SamePair(stages, a, b) ==> a == b;
      constrained := constrained || ok;
    }

    /** An insert into `task_stages`, as two replicas may race to do; the constraint refuses a second row of a pair. */
    method InsertStage(id: nat, row: Stage) returns (ok: bool)
      requires Valid() && id !in stages
      modifies this`stages
      ensures Valid()
      ensures ok <==> !(constrained && exists a :: a in old(stages) && old(stages)[a].runId == row.runId
                                                  && old(stages)[a].stage == row.stage)
      ensures stages == if ok then old(stages)[id := row] else old(stages)
      ensures constrained ==>
                forall a, b :: a in stages && b in stages ==>
                  stages[a].runId == stages[b].runId && stages[a].stage == stages[b].stage ==> a == b
    {
      ok := !(constrained && exists a :: a in stages && stages[a].runId == row.runId && stages[a].stage == row.stage);
      if ok { stages := stages[id := row]; }
    }

    /** Whatever the table held, the constraint is accepted, and what is left is the oldest row of every pair. */
    method Upgrade() returns (ok: bool)
      requires Valid()
      modifies this
      ensures Valid() && ok && constrained
      ensures forall a, b :: a in stages && b in stages ==>
                stages[a].runId == stages[b].runId && stages[a].stage == stages[b].stage ==> a == b
      ensures forall r :: r in results ==> results[r].taskStageId in stages
      ensures stages == Oldest(old(stages))
      ensures results == OfStages(old(results), stages)
    {
      var doomed := set id | id in stages && RowNumber(stages, id) > 1;
      DoomedAreTheRest(stages, doomed);
      ghost var before := stages;
      DeleteStages(doomed);
      OldestIsUnique(before);
      ok := CreateUniqueConstraint();
    }

    method Downgrade()
      requires Valid()
      modifies this`constrained
      ensures Valid() && !constrained
    {
      constrained := false;
    }
  }

  lemma DoomedAreTheRest(stages: Stages, doomed: set<nat>)
    requires doomed == set id | id in stages && RowNumber(stages, id) > 1
    ensures stages - doomed == Oldest(stages)
  {
    forall id | id in stages ensures id in doomed <==> !IsOldest(stages, id) {
      FirstRowIsOldest(stages, id);
    }
  }

  lemma OldestIsUnique(stages: Stages)
    ensures UniquePairs(Oldest(stages))
  {
  }

  /** The oldest of the rows of id's pair among `ids`. */
  lemma {:induction false} OldestAmong(stages: Stages, ids: set<nat>, id: nat) returns (least: nat)
    requires ids <= stages.Keys && id in ids
    ensures least in ids && SamePair(stages, least, id)
    ensures forall a :: a in ids && SamePair(stages, a, id) && a != least ==> Before(stages, least, a)
    decreases ids
  {
    if a :| a in ids && SamePair(stages, a, id) && a != id {
      if Before(stages, a, id) {
        least := OldestAmong(stages, ids - {id}, a);
        assert Before(stages, least, id) by { assert least == a || Before(stages, least, a); }
      } else {
        least := OldestAmong(stages, ids - {a}, id);
        assert Before(stages, least, a) by { assert least == id || Before(stages, least, id); }
      }
    } else {
      least := id;
    }
  }

  /** Exactly one row per (run, stage) pair survives, no pair is lost, and the survivor is its oldest, unaltered. */
  lemma OneRowPerPair(stages: Stages, id: nat)
    requires id in stages
    ensures exists kept ::
              && kept in Oldest(stages) && kept in stages && Oldest(stages)[kept] == stages[kept]
              && stages[kept].runId == stages[id].runId && stages[kept].stage == stages[id].stage
              && (kept == id || stages[kept].createdAt < stages[id].createdAt
                  || (stages[kept].createdAt == stages[id].createdAt && kept < id))
              && forall a :: a in Oldest(stages) && SamePair(stages, a, id) ==> a == kept
  {
    var kept := OldestAmong(stages, stages.Keys, id);
    assert IsOldest(stages, kept);
    assert kept in Oldest(stages);
    forall a | a in Oldest(stages) && SamePair(stages, a, id) ensures a == kept {
    }
  }

  /** A result row goes exactly when its stage row goes. */
  lemma ResultsFollowStages(stages: Stages, results: map<nat, StageResult>, r: nat)
    requires ForeignKeys(stages, results) && r in results
    ensures r in OfStages(results, Oldest(stages)) <==> RowNumber(stages, results[r].taskStageId) == 1
    ensures r in OfStages(results, Oldest(stages)) ==> OfStages(results, Oldest(stages))[r] == results[r]
  {
    FirstRowIsOldest(stages, results[r].taskStageId);
  }

  /** The upgrade is the identity on a table that satisfies the constraint already, hence on its own result. */
  lemma UpgradeIsIdempotent(stages: Stages)
    ensures UniquePairs(stages) <==> Oldest(stages) == stages
    ensures Oldest(Oldest(stages)) == Oldest(stages)
  {
  }
}
