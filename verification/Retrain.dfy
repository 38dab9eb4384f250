/** Retrain and rollback jobs of the ML admin API (web/api/ml_admin.py). Each
    job runs on its own thread; a run is any interleaving of their steps. One
    step is one session block, one lock operation or one manifest operation. */
module Retrain {
  import opened Common
  import opened Versions

  datatype Kind = RetrainJob | RollbackJob

  datatype Status = Pending | Running | Done | Failed

  datatype Job = Job(kind: Kind, status: Status, version: Option<string>, metrics: Option<Metrics>)

  /** Where a thread stands. `lost` tells that its final write to the job row failed. */
  datatype Pc =
    | Starting
    | Refused
    | Locked
    | Training
    | Trained(model: Version)
    | Finishing(status: Status, version: Option<string>, metrics: Option<Metrics>)
    | Leaving(lost: bool)
    | RollbackCreated(name: string)
    | RollbackMarked(name: string)
    | RollbackFinishing(status: Status, version: Option<string>)
    | Ended(lost: bool)

  datatype State = State(jobs: seq<Job>, pcs: seq<Pc>, lock: Option<nat>, manifest: Manifest)

  datatype Outcome = NoData | TrainingFailed | Model(model: Version)

  /** What the environment does to one step: whether the job row can be marked
      running, whether it can be finished, whether the manifest can be read,
      whether the model file exists, and how the training ends. */
  datatype Env = Env(marks: bool, finishes: bool, readable: bool, fileExists: bool, outcome: Outcome)

  datatype Move =
    | PostRetrain(creates: bool)
    | PostRollback(name: string, creates: bool)
    | Advance(thread: nat, env: Env)
    | CliRegister(model: Version, readable: bool)
    | CliRollback(name: string, readable: bool, fileExists: bool)

  const INITIAL := State([], [], None, EMPTY)

  // ----- the steps -----

  function Spawned(s: State, kind: Kind, pc: Pc): State {
    s.(jobs := s.jobs + [Job(kind, Pending, None, None)], pcs := s.pcs + [pc])
  }

  function Finished(job: Job, status: Status, version: Option<string>, metrics: Option<Metrics>): Job {
    job.(status := status,
         version := if version.Some? then version else job.version,
         metrics := if metrics.Some? then metrics else job.metrics)
  }

  /** The metrics of the first entry of that name, or none. */
  function FirstMetrics(list: seq<Version>, name: string): Metrics {
    if list == [] then map[]
    else if list[0].name == name then list[0].metrics
    else FirstMetrics(list[1..], name)
  }

  function Step(s: State, move: Move): State {
    match move
    case PostRetrain(creates) =>
      if s.lock.Some? || !creates then s else Spawned(s, RetrainJob, Starting)
    case PostRollback(name, creates) =>
      if creates then Spawned(s, RollbackJob, RollbackCreated(name)) else s
    case Advance(i, env) =>
      if i < |s.pcs| && i < |s.jobs| then Advanced(s, i, env) else s
    case CliRegister(model, readable) =>
      s.(manifest := Registered(Loaded(s.manifest, readable), model, true))
    case CliRollback(name, readable, fileExists) =>
      s.(manifest := RollBackStep(s.manifest, name, readable, fileExists))
  }

  function RollBackStep(m: Manifest, name: string, readable: bool, fileExists: bool): Manifest {
    if CanRollBack(Loaded(m, readable), name, fileExists) then RolledBack(m, name, fileExists) else m
  }

  /** What one thread sees and changes in a step. */
  datatype Local = Local(job: Job, pc: Pc, lock: Option<nat>, manifest: Manifest)

  function Moved(l: Local, i: nat, env: Env): Local {
    match l.pc
    case Starting =>
      if l.lock.None? then l.(pc := Locked, lock := Some(i)) else l.(pc := Refused)
    case Refused =>
      l.(job := if env.finishes then l.job.(status := Failed) else l.job, pc := Ended(false))
    case Locked =>
      if env.marks then l.(job := l.job.(status := Running), pc := Training) else l.(pc := Leaving(false))
    case Training =>
      if env.outcome.Model? then
        l.(pc := Trained(env.outcome.model),
           manifest := Registered(Loaded(l.manifest, env.readable), env.outcome.model, true))
      else l.(pc := Finishing(Failed, None, None))
    case Trained(model) =>
      var metrics := FirstMetrics(Reverse(Loaded(l.manifest, env.readable).versions), model.name);
      l.(pc := Finishing(Done, Some(model.name), Some(metrics)))
    case Finishing(status, version, metrics) =>
      l.(job := if env.finishes then Finished(l.job, status, version, metrics) else l.job,
         pc := Leaving(!env.finishes))
    case Leaving(lost) => l.(pc := Ended(lost), lock := None)
    case RollbackCreated(name) =>
      if env.marks then l.(job := l.job.(status := Running), pc := RollbackMarked(name)) else l.(pc := Ended(false))
    case RollbackMarked(name) =>
      if CanRollBack(Loaded(l.manifest, env.readable), name, env.fileExists) then
        l.(pc := RollbackFinishing(Done, Some(name)), manifest := RolledBack(l.manifest, name, env.fileExists))
      else l.(pc := RollbackFinishing(Failed, None))
    case RollbackFinishing(status, version) =>
      l.(job := if env.finishes then Finished(l.job, status, version, None) else l.job, pc := Ended(!env.finishes))
    case Ended(_) => l
  }

  function Advanced(s: State, i: nat, env: Env): State
    requires i < |s.pcs| && i < |s.jobs|
  {
    var l := Moved(Local(s.jobs[i], s.pcs[i], s.lock, s.manifest), i, env);
    State(s.jobs[i := l.job], s.pcs[i := l.pc], l.lock, l.manifest)
  }

  /** The state after any interleaving. */
  function Run(moves: seq<Move>): State {
    if moves == [] then INITIAL else Step(Run(moves[..|moves| - 1]), moves[|moves| - 1])
  }

  // ----- threads, rows and the lock -----

  predicate InLock(pc: Pc) {
    pc.Locked? || pc.Training? || pc.Trained? || pc.Finishing? || pc.Leaving?
  }

  predicate Working(pc: Pc) {
    pc.Training? || pc.Trained? || pc.Finishing?
  }

  predicate Lost(pc: Pc) {
    (pc.Leaving? || pc.Ended?) && pc.lost
  }

  predicate Terminal(status: Status) {
    status.Done? || status.Failed?
  }

  /** What a thread's place says about its row. */
  predicate Fits(job: Job, pc: Pc) {
    && (job.status.Done? ==> job.version.Some?)
    && match pc
       case Starting => job.kind.RetrainJob? && job.status.Pending?
       case Refused => job.kind.RetrainJob? && job.status.Pending?
       case Locked => job.kind.RetrainJob? && job.status.Pending?
       case Training => job.kind.RetrainJob? && job.status.Running?
       case Trained(_) => job.kind.RetrainJob? && job.status.Running?
       case Finishing(status, version, _) =>
         job.kind.RetrainJob? && job.status.Running? && Terminal(status) && (status.Done? ==> version.Some?)
       case Leaving(lost) => job.kind.RetrainJob? && (job.status.Running? <==> lost)
       case RollbackCreated(_) => job.kind.RollbackJob? && job.status.Pending?
       case RollbackMarked(_) => job.kind.RollbackJob? && job.status.Running?
       case RollbackFinishing(status, version) =>
         job.kind.RollbackJob? && job.status.Running? && Terminal(status) && (status.Done? ==> version.Some?)
       case Ended(lost) => job.status.Running? <==> lost
  }

  ghost predicate Placed(s: State, i: nat)
    requires i < |s.pcs| && i < |s.jobs|
  {
    Fits(s.jobs[i], s.pcs[i]) && (InLock(s.pcs[i]) <==> s.lock == Some(i))
  }

  ghost predicate Consistent(s: State) {
    && |s.jobs| == |s.pcs|
    && (forall i: nat :: i < |s.pcs| ==> Placed(s, i))
    && (s.lock.Some? ==> s.lock.value < |s.pcs|)
  }

  lemma MovedFits(l: Local, i: nat, env: Env)
    requires Fits(l.job, l.pc) && (InLock(l.pc) <==> l.lock == Some(i))
    ensures var l' := Moved(l, i, env);
      && Fits(l'.job, l'.pc) && (InLock(l'.pc) <==> l'.lock == Some(i))
      && (l'.lock == l.lock || (l.lock.None? && l'.lock == Some(i)) || (l.lock == Some(i) && l'.lock.None?))
  {
  }

  lemma AdvancedConsistent(s: State, i: nat, env: Env)
    requires Consistent(s) && i < |s.pcs|
    ensures Consistent(Advanced(s, i, env))
  {
    var s' := Advanced(s, i, env);
    assert Placed(s, i);
    MovedFits(Local(s.jobs[i], s.pcs[i], s.lock, s.manifest), i, env);
    forall j: nat | j < |s'.pcs| ensures Placed(s', j) {
      assert Placed(s, j);
    }
  }

  lemma StepConsistent(s: State, move: Move)
    requires Consistent(s)
    ensures Consistent(Step(s, move))
  {
    var s' := Step(s, move);
    if move.Advance? {
      if move.thread < |s.pcs| {
        AdvancedConsistent(s, move.thread, move.env);
      }
    } else {
      forall j: nat | j < |s'.pcs| ensures Placed(s', j) {
        if j < |s.pcs| { assert Placed(s, j); }
      }
    }
  }

  lemma {:induction false} RunConsistent(moves: seq<Move>)
    ensures Consistent(Run(moves))
  {
    if moves != [] {
      RunConsistent(moves[..|moves| - 1]);
      StepConsistent(Run(moves[..|moves| - 1]), moves[|moves| - 1]);
    }
  }

  ghost predicate RunningRetrain(s: State, i: nat) {
    i < |s.jobs| && s.jobs[i].kind.RetrainJob? && s.jobs[i].status.Running?
  }

  /** After every interleaving the retrain rows marked running are the one of
      the lock holder at work and those whose final write failed. */
  lemma RunningRows(moves: seq<Move>, i: nat)
    requires i < |Run(moves).jobs|
    ensures var s := Run(moves);
      |s.pcs| == |s.jobs| &&
      (RunningRetrain(s, i) <==>
        s.jobs[i].kind.RetrainJob? && (Lost(s.pcs[i]) || (s.lock == Some(i) && Working(s.pcs[i]))))
  {
    RunConsistent(moves);
    assert Placed(Run(moves), i);
  }

  predicate WritesLast(move: Move) {
    move.Advance? ==> move.env.finishes
  }

  lemma MovedKeepsWrite(l: Local, i: nat, env: Env)
    requires env.finishes && !Lost(l.pc)
    ensures !Lost(Moved(l, i, env).pc)
  {
  }

  lemma {:induction false} NoneLost(moves: seq<Move>, i: nat)
    requires forall m :: m in moves ==> WritesLast(m)
    requires i < |Run(moves).pcs|
    ensures !Lost(Run(moves).pcs[i])
  {
    if moves != [] {
      var init, move := moves[..|moves| - 1], moves[|moves| - 1];
      assert WritesLast(move);
      var s := Run(init);
      RunConsistent(init);
      if i < |s.pcs| {
        NoneLost(init, i);
        if move.Advance? {
          MovedKeepsWrite(Local(s.jobs[i], s.pcs[i], s.lock, s.manifest), i, move.env);
        }
      }
    }
  }

  /** If no final write fails, at most one retrain job is ever running. */
  lemma AtMostOneRunning(moves: seq<Move>, i: nat, j: nat)
    requires forall m :: m in moves ==> WritesLast(m)
    requires RunningRetrain(Run(moves), i) && RunningRetrain(Run(moves), j)
    ensures i == j
  {
    RunningRows(moves, i);
    RunningRows(moves, j);
    NoneLost(moves, i);
    NoneLost(moves, j);
  }

  // ----- rows only move forward -----

  predicate Forward(before: Status, after: Status) {
    || after == before
    || (before.Pending? && (after.Running? || after.Failed?))
    || (before.Running? && Terminal(after))
  }

  lemma StepForward(s: State, move: Move, i: nat)
    requires Consistent(s) && i < |s.jobs|
    ensures i < |Step(s, move).jobs| && Forward(s.jobs[i].status, Step(s, move).jobs[i].status)
    ensures Terminal(s.jobs[i].status) ==> Step(s, move).jobs[i] == s.jobs[i]
  {
    assert Placed(s, i);
  }

  /** A finished row is never written again, and none goes back to pending. */
  lemma {:induction false} RunForward(moves: seq<Move>, k: nat, i: nat)
    requires k <= |moves| && i < |Run(moves[..k]).jobs|
    ensures i < |Run(moves).jobs|
    ensures Terminal(Run(moves[..k]).jobs[i].status) ==> Run(moves).jobs[i] == Run(moves[..k]).jobs[i]
    ensures !Run(moves[..k]).jobs[i].status.Pending? ==> !Run(moves).jobs[i].status.Pending?
  {
    if k == |moves| {
      assert moves[..k] == moves;
    } else {
      var init := moves[..|moves| - 1];
      assert init[..k] == moves[..k];
      RunForward(init, k, i);
      RunConsistent(init);
      StepForward(Run(init), moves[|moves| - 1], i);
    }
  }

  // ----- the manifest under all the threads -----

  /** Whether the step saves a manifest that it built without the old one. */
  predicate Forgets(s: State, move: Move) {
    match move
    case Advance(i, env) => i < |s.pcs| && s.pcs[i].Training? && env.outcome.Model? && !env.readable
    case CliRegister(_, readable) => !readable
    case _ => false
  }

  function RegisteredBy(s: State, move: Move): Option<Version> {
    match move
    case Advance(i, env) =>
      if i < |s.pcs| && i < |s.jobs| && s.pcs[i].Training? && env.outcome.Model?
      then Some(env.outcome.model) else None
    case CliRegister(model, _) => Some(model)
    case _ => None
  }

  lemma StepManifest(s: State, move: Move)
    requires Sound(s.manifest) && |s.pcs| == |s.jobs|
    ensures Sound(Step(s, move).manifest)
    ensures !Forgets(s, move) ==> forall name :: Knows(s.manifest, name) ==> Knows(Step(s, move).manifest, name)
    ensures RegisteredBy(s, move).Some? ==> RegisteredBy(s, move).value in Step(s, move).manifest.versions
  {
    match move
    case Advance(i, env) =>
      if i < |s.pcs| {
        if s.pcs[i].Training? && env.outcome.Model? {
          RegisterKeeps(Loaded(s.manifest, env.readable), env.outcome.model, true);
        } else if s.pcs[i].RollbackMarked? {
          RollBackKeeps(s.manifest, s.pcs[i].name, env.fileExists);
        }
      }
    case CliRegister(model, readable) =>
      RegisterKeeps(Loaded(s.manifest, readable), model, true);
    case CliRollback(name, readable, fileExists) =>
      RollBackKeeps(s.manifest, name, fileExists);
    case _ =>
  }

  /** Versions stay distinct and the current one registered or none, over every
      interleaving, whatever fails. */
  lemma {:induction false} ManifestSound(moves: seq<Move>)
    ensures Sound(Run(moves).manifest)
  {
    if moves != [] {
      ManifestSound(moves[..|moves| - 1]);
      RunConsistent(moves[..|moves| - 1]);
      StepManifest(Run(moves[..|moves| - 1]), moves[|moves| - 1]);
    }
  }

  /** A step makes a known version unknown exactly when it registers another
      one without having been able to read the manifest. */
  lemma ForgottenIff(s: State, move: Move, name: string)
    requires Sound(s.manifest) && |s.pcs| == |s.jobs| && Knows(s.manifest, name)
    ensures !Knows(Step(s, move).manifest, name) <==>
      Forgets(s, move) && RegisteredBy(s, move).Some? && RegisteredBy(s, move).value.name != name
  {
    StepManifest(s, move);
    if Forgets(s, move) {
      UnreadableRegisterForgets(s.manifest, RegisteredBy(s, move).value, name);
    }
  }

  /** The version a thread has produced or its row reports. */
  function Reported(job: Job, pc: Pc): Option<string> {
    match pc
    case Trained(model) => Some(model.name)
    case Finishing(status, version, _) => if status.Done? then version else None
    case RollbackFinishing(status, version) => if status.Done? then version else None
    case _ => if job.status.Done? then job.version else None
  }

  ghost predicate Available(s: State, i: nat)
    requires i < |s.pcs| && i < |s.jobs|
  {
    Reported(s.jobs[i], s.pcs[i]).Some? ==> Knows(s.manifest, Reported(s.jobs[i], s.pcs[i]).value)
  }

  lemma MovedReports(l: Local, i: nat, env: Env)
    requires Fits(l.job, l.pc) && Sound(l.manifest)
    requires Reported(l.job, l.pc).Some? ==> Knows(l.manifest, Reported(l.job, l.pc).value)
    ensures var l' := Moved(l, i, env);
      Reported(l'.job, l'.pc) == Reported(l.job, l.pc) || Reported(l'.job, l'.pc).None? ||
      Knows(l'.manifest, Reported(l'.job, l'.pc).value)
  {
    if l.pc.Training? && env.outcome.Model? {
      RegisterKeeps(Loaded(l.manifest, env.readable), env.outcome.model, true);
    } else if l.pc.RollbackMarked? {
      RollBackKeeps(l.manifest, l.pc.name, env.fileExists);
    }
  }

  lemma StepAvailable(s: State, move: Move, i: nat)
    requires Consistent(s) && Sound(s.manifest) && !Forgets(s, move)
    requires i < |s.pcs| ==> Available(s, i)
    requires i < |Step(s, move).pcs|
    ensures |Step(s, move).jobs| == |Step(s, move).pcs| && Available(Step(s, move), i)
  {
    StepConsistent(s, move);
    StepManifest(s, move);
    if i < |s.pcs| {
      assert Placed(s, i);
      if move.Advance? && move.thread == i {
        MovedReports(Local(s.jobs[i], s.pcs[i], s.lock, s.manifest), i, move.env);
      }
    }
  }

  predicate ReadsManifest(move: Move) {
    match move
    case Advance(_, env) => env.readable
    case CliRegister(_, readable) => readable
    case _ => true
  }

  /** While the manifest can be read, the version a done job reports stays
      registered for ever, and so can be rolled back to. */
  lemma {:induction false} DoneStaysRegistered(moves: seq<Move>, i: nat)
    requires forall m :: m in moves ==> ReadsManifest(m)
    requires i < |Run(moves).pcs|
    ensures |Run(moves).jobs| == |Run(moves).pcs| && Available(Run(moves), i)
    ensures Run(moves).jobs[i].status.Done? ==>
      Run(moves).jobs[i].version.Some? && Knows(Run(moves).manifest, Run(moves).jobs[i].version.value)
  {
    RunConsistent(moves);
    if moves != [] {
      var init, move := moves[..|moves| - 1], moves[|moves| - 1];
      assert ReadsManifest(move);
      if i < |Run(init).pcs| {
        DoneStaysRegistered(init, i);
      }
      RunConsistent(init);
      ManifestSound(init);
      StepAvailable(Run(init), move, i);
    }
    assert Placed(Run(moves), i);
  }

  // ----- when the final write fails -----

  lemma RunNext(moves: seq<Move>, move: Move)
    ensures Run(moves + [move]) == Step(Run(moves), move)
  {
    assert (moves + [move])[..|moves|] == moves;
  }

  /** A row whose final write failed stays running, so a second one can join it. */
  lemma TwoRunning() returns (moves: seq<Move>)
    ensures RunningRetrain(Run(moves), 0) && RunningRetrain(Run(moves), 1)
  {
    var down := Env(true, false, true, true, NoData);
    moves := LostWrite(down);
    moves := Extend(moves, PostRetrain(true));
    moves := Extend(moves, Advance(1, down));
    moves := Extend(moves, Advance(1, down));
  }

  lemma LostWrite(down: Env) returns (moves: seq<Move>)
    requires down.marks && !down.finishes && down.outcome.NoData?
    ensures Run(moves) == State([Job(RetrainJob, Running, None, None)], [Ended(true)], None, EMPTY)
  {
    moves := Extend([], PostRetrain(true));
    moves := Extend(moves, Advance(0, down));
    moves := Extend(moves, Advance(0, down));
    moves := Extend(moves, Advance(0, down));
    assert Run(moves) ==
      State([Job(RetrainJob, Running, None, None)], [Finishing(Failed, None, None)], Some(0), EMPTY);
    moves := Extend(moves, Advance(0, down));
    moves := Extend(moves, Advance(0, down));
  }

  lemma Extend(moves: seq<Move>, move: Move) returns (longer: seq<Move>)
    ensures Run(longer) == Step(Run(moves), move)
  {
    longer := moves + [move];
    RunNext(moves, move);
  }

  // ----- every thread ends and the lock comes free -----

  /** Steps a thread has left at most. */
  function Rank(pc: Pc): nat {
    match pc
    case Starting => 6
    case Refused => 1
    case Locked => 5
    case Training => 4
    case Trained(_) => 3
    case Finishing(_, _, _) => 2
    case Leaving(_) => 1
    case RollbackCreated(_) => 3
    case RollbackMarked(_) => 2
    case RollbackFinishing(_, _) => 1
    case Ended(_) => 0
  }

  function StepsOf(moves: seq<Move>, i: nat): nat {
    if moves == [] then 0
    else
      var last := moves[|moves| - 1];
      StepsOf(moves[..|moves| - 1], i) + (if last.Advance? && last.thread == i then 1 else 0)
  }

  lemma MovedRank(l: Local, i: nat, env: Env)
    ensures Rank(Moved(l, i, env).pc) <= if Rank(l.pc) == 0 then 0 else Rank(l.pc) - 1
  {
  }

  lemma StepRank(s: State, move: Move, i: nat)
    requires |s.jobs| == |s.pcs| && i < |s.pcs|
    ensures i < |Step(s, move).pcs|
    ensures if move.Advance? && move.thread == i && !s.pcs[i].Ended?
            then Rank(Step(s, move).pcs[i]) < Rank(s.pcs[i])
            else Step(s, move).pcs[i] == s.pcs[i]
  {
    if move.Advance? && move.thread == i {
      MovedRank(Local(s.jobs[i], s.pcs[i], s.lock, s.manifest), i, move.env);
    }
  }

  lemma {:induction false} RankFalls(moves: seq<Move>, more: seq<Move>, i: nat)
    requires i < |Run(moves).pcs|
    ensures i < |Run(moves + more).pcs|
    ensures Rank(Run(moves + more).pcs[i]) + StepsOf(more, i) <= Rank(Run(moves).pcs[i]) ||
            Run(moves + more).pcs[i].Ended?
  {
    if more == [] {
      assert moves + more == moves;
    } else {
      var init, last := more[..|more| - 1], more[|more| - 1];
      RankFalls(moves, init, i);
      assert moves + more == (moves + init) + [last];
      RunNext(moves + init, last);
      RunConsistent(moves + init);
      StepRank(Run(moves + init), last, i);
    }
  }

  /** However the others interleave, a thread ends within six steps of its own,
      and once all have ended the training lock is free. */
  lemma ThreadsEnd(moves: seq<Move>, more: seq<Move>, i: nat)
    requires i < |Run(moves).pcs| && StepsOf(more, i) >= 6
    ensures i < |Run(moves + more).pcs| && Run(moves + more).pcs[i].Ended?
    ensures (forall j :: 0 <= j < |Run(moves + more).pcs| ==> Run(moves + more).pcs[j].Ended?) ==>
      Run(moves + more).lock.None?
  {
    RankFalls(moves, more, i);
    RunConsistent(moves + more);
    var s := Run(moves + more);
    if s.lock.Some? {
      assert Placed(s, s.lock.value);
    }
  }

  // ----- the metrics a job reports -----

  ghost predicate KeepsModel(s: State, i: nat)
    requires i < |s.pcs|
  {
    s.pcs[i].Trained? ==> s.pcs[i].model in s.manifest.versions
  }

  lemma StepKeepsModel(s: State, move: Move, i: nat)
    requires Consistent(s) && Sound(s.manifest) && i < |Step(s, move).pcs| && !move.CliRegister?
    requires i < |s.pcs| ==> KeepsModel(s, i)
    ensures KeepsModel(Step(s, move), i)
  {
    if i < |s.pcs| {
      assert Placed(s, i);
      if move.Advance? && move.thread < |s.pcs| {
        assert Placed(s, move.thread);
        StepManifest(s, move);
      }
    }
  }

  lemma {:induction false} ModelStays(moves: seq<Move>, i: nat)
    requires forall m :: m in moves ==> !m.CliRegister?
    requires i < |Run(moves).pcs|
    ensures KeepsModel(Run(moves), i)
  {
    if moves != [] {
      var init, last := moves[..|moves| - 1], moves[|moves| - 1];
      if i < |Run(init).pcs| {
        ModelStays(init, i);
      }
      RunConsistent(init);
      ManifestSound(init);
      StepKeepsModel(Run(init), last, i);
    }
  }

  lemma {:induction false} FirstOfReverse(versions: seq<Version>, v: Version)
    requires Distinct(versions) && v in versions
    ensures FirstMetrics(Reverse(versions), v.name) == v.metrics
  {
    var init, last := versions[..|versions| - 1], versions[|versions| - 1];
    if last != v {
      assert versions == init + [last];
      var k :| 0 <= k < |versions| && versions[k] == v;
      FirstOfReverse(init, v);
    }
  }

  /** Under the lock a retrain job reads back the metrics its own training
      registered, unless someone registers from the command line meanwhile. */
  lemma ReadsItsOwnMetrics(moves: seq<Move>, i: nat, env: Env)
    requires forall m :: m in moves ==> !m.CliRegister?
    requires i < |Run(moves).pcs| && Run(moves).pcs[i].Trained? && env.readable
    ensures var model, after := Run(moves).pcs[i].model, Run(moves + [Advance(i, env)]);
      i < |after.pcs| && after.pcs[i] == Finishing(Done, Some(model.name), Some(model.metrics))
  {
    ModelStays(moves, i);
    ManifestSound(moves);
    RunConsistent(moves);
    RunNext(moves, Advance(i, env));
    FirstOfReverse(Run(moves).manifest.versions, Run(moves).pcs[i].model);
  }

  // ----- the thread target -----

  /** A thread's next n steps with no other in between. */
  function Alone(s: State, i: nat, env: Env, n: nat): State
    requires i < |s.pcs| && i < |s.jobs|
    ensures i < |Alone(s, i, env, n).pcs| && i < |Alone(s, i, env, n).jobs|
  {
    if n == 0 then s else Advanced(Alone(s, i, env, n - 1), i, env)
  }

  function LocalOf(s: State, i: nat): Local
    requires i < |s.pcs| && i < |s.jobs|
  {
    Local(s.jobs[i], s.pcs[i], s.lock, s.manifest)
  }

  function MovedTimes(l: Local, i: nat, env: Env, n: nat): Local {
    if n == 0 then l else Moved(MovedTimes(l, i, env, n - 1), i, env)
  }

  lemma {:induction false} AloneIsLocal(s: State, i: nat, env: Env, n: nat)
    requires i < |s.pcs| && i < |s.jobs|
    ensures LocalOf(Alone(s, i, env, n), i) == MovedTimes(LocalOf(s, i), i, env, n)
  {
    if n > 0 { AloneIsLocal(s, i, env, n - 1); }
  }

  lemma LocalJob(l: Local, i: nat, env: Env)
    requires l.pc.Starting? && l.lock.None? && Sound(l.manifest) && env.marks && env.finishes && env.readable
    ensures var l' := MovedTimes(l, i, env, 6);
      && l'.lock.None? && l'.pc == Ended(false)
      && (if env.outcome.Model? then
            var model, versions := env.outcome.model, l'.manifest.versions;
            && l'.job.status.Done? && l'.job.version == Some(model.name) && l'.job.metrics == Some(model.metrics)
            && l'.manifest.current == Some(model.name)
            && versions != [] && versions[|versions| - 1] == model
          else l'.job.status.Failed? && l'.manifest == l.manifest)
  {
    ThreeMoves(l, i, env);
    var l3 := MovedTimes(l, i, env, 3);
    MoveAgain(l, i, env, 3);
    MoveAgain(l, i, env, 4);
    MoveAgain(l, i, env, 5);
    if env.outcome.Model? {
      RegisterSets(l.manifest, env.outcome.model, true);
      ReadBack(l.manifest, env.outcome.model);
      EndsDone(l3, i, env);
    } else {
      EndsFailed(l3, i, env);
    }
  }

  lemma MoveAgain(l: Local, i: nat, env: Env, n: nat)
    ensures MovedTimes(l, i, env, n + 1) == Moved(MovedTimes(l, i, env, n), i, env)
  {
  }

  lemma ReadBack(m: Manifest, model: Version)
    requires Sound(m)
    ensures FirstMetrics(Reverse(Registered(m, model, true).versions), model.name) == model.metrics
  {
    RegisterKeeps(m, model, true);
    FirstOfReverse(Registered(m, model, true).versions, model);
  }

  lemma EndsDone(l: Local, i: nat, env: Env)
    requires l.pc.Trained? && env.readable && env.finishes
    requires FirstMetrics(Reverse(l.manifest.versions), l.pc.model.name) == l.pc.model.metrics
    ensures Moved(Moved(Moved(l, i, env), i, env), i, env) ==
      Local(Finished(l.job, Done, Some(l.pc.model.name), Some(l.pc.model.metrics)), Ended(false), None, l.manifest)
  {
    var model, l1 := l.pc.model, Moved(l, i, env);
    assert l1 == l.(pc := Finishing(Done, Some(model.name), Some(model.metrics)));
    assert Moved(l1, i, env) ==
      l1.(job := Finished(l.job, Done, Some(model.name), Some(model.metrics)), pc := Leaving(false));
  }

  lemma EndsFailed(l: Local, i: nat, env: Env)
    requires l.pc == Finishing(Failed, None, None) && env.finishes
    ensures Moved(Moved(Moved(l, i, env), i, env), i, env) ==
      Local(Finished(l.job, Failed, None, None), Ended(false), None, l.manifest)
  {
    var l1 := Moved(l, i, env);
    assert l1 == l.(job := Finished(l.job, Failed, None, None), pc := Leaving(false));
    assert Moved(l1, i, env) == l1.(pc := Ended(false), lock := None);
  }

  lemma ThreeMoves(l: Local, i: nat, env: Env)
    requires l.pc.Starting? && l.lock.None? && env.marks && env.readable
    ensures MovedTimes(l, i, env, 3) ==
      var l2 := Local(l.job.(status := Running), Training, Some(i), l.manifest);
      if env.outcome.Model? then
        l2.(pc := Trained(env.outcome.model), manifest := Registered(l.manifest, env.outcome.model, true))
      else l2.(pc := Finishing(Failed, None, None))
  {
    assert MovedTimes(l, i, env, 0) == l;
    var l1 := MovedTimes(l, i, env, 1);
    assert l1 == Moved(l, i, env) == l.(pc := Locked, lock := Some(i));
    var l2 := MovedTimes(l, i, env, 2);
    assert l2 == Moved(l1, i, env);
    assert MovedTimes(l, i, env, 3) == Moved(l2, i, env);
  }

  /** A job that runs alone ends with a finished row and a free lock, and is
      done exactly when the training produced a model: then that model is
      current, its entry the newest, and the row carries its name and metrics. */
  lemma LoneJob(s: State, i: nat, env: Env)
    requires Consistent(s) && Sound(s.manifest) && i < |s.pcs| && s.pcs[i].Starting? && s.lock.None?
    requires env.marks && env.finishes && env.readable
    ensures var s' := Alone(s, i, env, 6);
      && s'.lock.None? && s'.pcs[i] == Ended(false)
      && (if env.outcome.Model? then
            var model, versions := env.outcome.model, s'.manifest.versions;
            && s'.jobs[i].status.Done? && s'.jobs[i].version == Some(model.name)
            && s'.jobs[i].metrics == Some(model.metrics)
            && s'.manifest.current == Some(model.name)
            && versions != [] && versions[|versions| - 1] == model
          else s'.jobs[i].status.Failed? && s'.manifest == s.manifest)
  {
    assert Placed(s, i);
    AloneIsLocal(s, i, env, 6);
    LocalJob(LocalOf(s, i), i, env);
  }

  /** A job that finds the lock taken fails its row and touches nothing else. */
  lemma RefusedJobFails(s: State, i: nat, env: Env)
    requires Consistent(s) && i < |s.pcs| && s.pcs[i].Starting? && s.lock.Some? && env.finishes
    ensures var s' := Alone(s, i, env, 2);
      s'.jobs[i].status.Failed? && s'.pcs[i].Ended? && s'.lock == s.lock && s'.manifest == s.manifest
  {
    assert Placed(s, i);
    var s1 := Advanced(s, i, env);
    assert Alone(s, i, env, 0) == s && Alone(s, i, env, 1) == s1;
    assert Alone(s, i, env, 2) == Advanced(s1, i, env);
  }

  /** A rollback job that runs alone is done exactly for a registered version
      whose file exists, which is then current; otherwise it fails and the
      manifest stays. It never touches the training lock. */
  lemma LoneRollback(s: State, i: nat, env: Env, name: string)
    requires Consistent(s) && Sound(s.manifest) && i < |s.pcs| && s.pcs[i] == RollbackCreated(name)
    requires env.marks && env.finishes && env.readable
    ensures var s' := Alone(s, i, env, 3);
      && s'.pcs[i] == Ended(false) && s'.lock == s.lock && s'.manifest.versions == s.manifest.versions
      && (if env.fileExists && exists k :: 0 <= k < |s.manifest.versions| && s.manifest.versions[k].name == name then
            s'.jobs[i].status.Done? && s'.jobs[i].version == Some(name) && s'.manifest.current == Some(name)
          else s'.jobs[i].status.Failed? && s'.manifest == s.manifest)
  {
    assert Placed(s, i);
    RollBackSets(s.manifest, name, env.fileExists);
    var s1 := Advanced(s, i, env);
    var s2 := Advanced(s1, i, env);
    assert Alone(s, i, env, 0) == s && Alone(s, i, env, 1) == s1;
    assert Alone(s, i, env, 2) == s2;
    assert Alone(s, i, env, 3) == Advanced(s2, i, env);
  }

  /** A retrain request is turned away exactly while the training lock is held;
      otherwise it adds a pending row and its thread. */
  lemma PostIsTurnedAwayIff(s: State)
    ensures var s' := Step(s, PostRetrain(true));
      if s.lock.Some? then s' == s
      else && s'.jobs == s.jobs + [Job(RetrainJob, Pending, None, None)]
           && s'.pcs == s.pcs + [Starting] && s'.lock == s.lock && s'.manifest == s.manifest
  {
  }

  /** A step of anyone else leaves a thread, its row and its hold on the lock alone. */
  lemma OthersLeave(s: State, move: Move, i: nat)
    requires Consistent(s) && i < |s.pcs| && !(move.Advance? && move.thread == i)
    ensures var s' := Step(s, move);
      && i < |s'.pcs| && i < |s'.jobs| && s'.pcs[i] == s.pcs[i] && s'.jobs[i] == s.jobs[i]
      && (s.lock == Some(i) <==> s'.lock == Some(i))
  {
    assert Placed(s, i);
    StepConsistent(s, move);
    assert Placed(Step(s, move), i);
  }

  /** The shared state of the server process and its database. Between any two
      steps of a thread the others may take any number of theirs. */
  class Server {
    var jobs: seq<Job>
    var lock: Option<nat>
    var manifest: Manifest
    var pcs: seq<Pc>
    /** Everything that happened, in order. */
    ghost var moves: seq<Move>

    function Now(): State
      reads this
    {
      State(jobs, pcs, lock, manifest)
    }

    ghost predicate InStep()
      reads this
    {
      Now() == Run(moves)
    }

    constructor ()
      ensures InStep() && moves == []
    {
      jobs, lock, manifest, pcs, moves := [], None, EMPTY, [], [];
    }

    /** The other threads, requests and command lines run for a while. */
    method OthersRun(i: nat)
      requires InStep() && i < |pcs| && i < |jobs|
      modifies this
      ensures InStep() && old(moves) <= moves
      ensures Own(moves, i) == Own(old(moves), i)
      ensures i < |pcs| && i < |jobs| && pcs[i] == old(pcs[i]) && jobs[i] == old(jobs[i])
      ensures lock == Some(i) <==> old(lock) == Some(i)
    {
      var bound: int := *;
      var n := if bound < 0 then 0 else bound;
      for k := 0 to n
        invariant InStep() && old(moves) <= moves
        invariant Own(moves, i) == Own(old(moves), i)
        invariant i < |pcs| && i < |jobs| && pcs[i] == old(pcs[i]) && jobs[i] == old(jobs[i])
        invariant lock == Some(i) <==> old(lock) == Some(i)
      {
        var move: Move := *;
        if !(move.Advance? && move.thread == i) {
          var next := Step(Now(), move);
          RunConsistent(moves);
          OthersLeave(Now(), move, i);
          RunNext(moves, move);
          OwnNext(moves, move, i);
          jobs, pcs, lock, manifest := next.jobs, next.pcs, next.lock, next.manifest;
          moves := moves + [move];
        }
      }
    }

    /** Move the thread on: its job row, its place, the lock and the manifest
        must be what the protocol's step gives. */
    ghost method Took(i: nat, env: Env, before: State)
      requires before == Run(moves) && i < |before.pcs| && i < |before.jobs|
      requires Now() == Advanced(before, i, env)
      modifies this`moves
      ensures InStep() && moves == old(moves) + [Advance(i, env)]
      ensures Own(moves, i) == Own(old(moves), i) + [env]
    {
      RunNext(moves, Advance(i, env));
      OwnNext(moves, Advance(i, env), i);
      moves := moves + [Advance(i, env)];
    }

    method MarkRunning(i: nat, up: bool) returns (raised: bool)
      requires i < |jobs|
      modifies this`jobs
      ensures raised <==> !up
      ensures jobs == if up then old(jobs)[i := old(jobs)[i].(status := Running)] else old(jobs)
    {
      if !up { return true; }
      jobs := jobs[i := jobs[i].(status := Running)];
      return false;
    }

    method FinishJob(i: nat, status: Status, version: Option<string>, metrics: Option<Metrics>, up: bool)
      returns (raised: bool)
      requires i < |jobs|
      modifies this`jobs
      ensures raised <==> !up
      ensures jobs == if up then old(jobs)[i := Finished(old(jobs)[i], status, version, metrics)] else old(jobs)
    {
      if !up { return true; }
      var job := jobs[i].(status := status);
      if version.Some? { job := job.(version := version); }
      if metrics.Some? { job := job.(metrics := metrics); }
      jobs := jobs[i := job];
      return false;
    }

    // The stages of a retrain thread, each after the others ran for a while.

    method Acquire(i: nat, env: Env) returns (acquired: bool)
      requires InStep() && i < |jobs| && i < |pcs| && pcs[i].Starting?
      modifies this
      ensures InStep() && old(moves) <= moves && Own(moves, i) == Own(old(moves), i) + [env]
      ensures i < |pcs| && i < |jobs|
      ensures if acquired then pcs[i].Locked? && lock == Some(i) else pcs[i].Refused? && lock != Some(i)
      ensures jobs[i] == old(jobs[i])
    {
      RunConsistent(moves);
      assert Placed(Now(), i);
      OthersRun(i);
      ghost var before := Now();
      acquired := lock.None?;
      if acquired { lock := Some(i); }
      pcs := pcs[i := if acquired then Locked else Refused];
      Took(i, env, before);
    }

    /** The final write of a refused thread. */
    method Refuse(i: nat, env: Env)
      requires InStep() && i < |jobs| && i < |pcs| && pcs[i].Refused? && lock != Some(i)
      modifies this
      ensures InStep() && old(moves) <= moves && Own(moves, i) == Own(old(moves), i) + [env]
      ensures i < |pcs| && i < |jobs| && pcs[i].Ended? && lock != Some(i)
      ensures env.finishes ==> jobs[i].status.Failed?
    {
      OthersRun(i);
      ghost var before := Now();
      var raised := FinishJob(i, Failed, None, None, env.finishes);
      pcs := pcs[i := Ended(false)];
      Took(i, env, before);
    }

    method Mark(i: nat, env: Env) returns (raised: bool)
      requires InStep() && i < |jobs| && i < |pcs| && pcs[i].Locked? && lock == Some(i)
      modifies this
      ensures InStep() && old(moves) <= moves && Own(moves, i) == Own(old(moves), i) + [env]
      ensures i < |pcs| && i < |jobs| && lock == Some(i)
      ensures raised <==> !env.marks
      ensures if raised then pcs[i].Leaving? else pcs[i].Training?
    {
      OthersRun(i);
      ghost var before := Now();
      raised := MarkRunning(i, env.marks);
      pcs := pcs[i := if raised then Leaving(false) else Training];
      Took(i, env, before);
    }

    /** Fetch, train and register; None when there is no model. */
    method Train(i: nat, env: Env) returns (model: Option<Version>)
      requires InStep() && i < |jobs| && i < |pcs| && pcs[i].Training? && lock == Some(i)
      modifies this
      ensures InStep() && old(moves) <= moves && Own(moves, i) == Own(old(moves), i) + [env]
      ensures i < |pcs| && i < |jobs| && lock == Some(i)
      ensures model == if env.outcome.Model? then Some(env.outcome.model) else None
      ensures pcs[i] == if model.Some? then Trained(model.value) else Finishing(Failed, None, None)
    {
      OthersRun(i);
      ghost var before := Now();
      model := None;
      if env.outcome.Model? {
        model := Some(env.outcome.model);
        manifest := Registered(Loaded(manifest, env.readable), env.outcome.model, true);
      }
      pcs := pcs[i := if model.Some? then Trained(model.value) else Finishing(Failed, None, None)];
      Took(i, env, before);
    }

    /** Look the new version's metrics up in the manifest. */
    method ReadMetrics(i: nat, model: Version, env: Env) returns (metrics: Metrics)
      requires InStep() && i < |jobs| && i < |pcs| && pcs[i] == Trained(model) && lock == Some(i)
      modifies this
      ensures InStep() && old(moves) <= moves && Own(moves, i) == Own(old(moves), i) + [env]
      ensures i < |pcs| && i < |jobs| && lock == Some(i)
      ensures pcs[i] == Finishing(Done, Some(model.name), Some(metrics))
    {
      OthersRun(i);
      ghost var before := Now();
      metrics := FindMetrics(Reverse(Loaded(manifest, env.readable).versions), model.name);
      pcs := pcs[i := Finishing(Done, Some(model.name), Some(metrics))];
      Took(i, env, before);
    }

    method Finish(i: nat, status: Status, version: Option<string>, metrics: Option<Metrics>, env: Env)
      requires InStep() && i < |jobs| && i < |pcs| && pcs[i] == Finishing(status, version, metrics) && lock == Some(i)
      modifies this
      ensures InStep() && old(moves) <= moves && Own(moves, i) == Own(old(moves), i) + [env]
      ensures i < |pcs| && i < |jobs| && pcs[i].Leaving? && lock == Some(i)
      ensures env.finishes ==> jobs[i].status == status && (version.Some? ==> jobs[i].version == version)
    {
      OthersRun(i);
      ghost var before := Now();
      var raised := FinishJob(i, status, version, metrics, env.finishes);
      pcs := pcs[i := Leaving(raised)];
      Took(i, env, before);
    }

    method Release(i: nat, env: Env)
      requires InStep() && i < |jobs| && i < |pcs| && pcs[i].Leaving? && lock == Some(i)
      modifies this
      ensures InStep() && old(moves) <= moves && Own(moves, i) == Own(old(moves), i) + [env]
      ensures i < |pcs| && i < |jobs| && pcs[i].Ended? && lock != Some(i) && jobs[i] == old(jobs[i])
    {
      OthersRun(i);
      ghost var before := Now();
      lock := None;
      pcs := pcs[i := Ended(pcs[i].lost)];
      Took(i, env, before);
    }

    /** The part under the lock, up to its release: the steps from envs[1] on. */
    method WorkLocked(i: nat, envs: seq<Env>) returns (step: nat)
      requires InStep() && i < |jobs| && i < |pcs| && pcs[i].Locked? && lock == Some(i) && |envs| == 6
      modifies this
      ensures InStep() && old(moves) <= moves
      ensures step == if !envs[1].marks then 2 else if envs[2].outcome.Model? then 5 else 4
      ensures Own(moves, i) == Own(old(moves), i) + envs[1..step]
      ensures i < |pcs| && i < |jobs| && pcs[i].Leaving? && lock == Some(i)
      ensures step == 4 && envs[3].finishes ==> jobs[i].status.Failed?
      ensures step == 5 && envs[4].finishes ==>
        jobs[i].status.Done? && jobs[i].version == Some(envs[2].outcome.model.name)
    {
      ghost var own := Own(moves, i);
      var raised := Mark(i, envs[1]);
      step := 2;
      if !raised {
        var model := Train(i, envs[2]);
        if model.None? {
          Finish(i, Failed, None, None, envs[3]);
          step := 4;
        } else {
          var metrics := ReadMetrics(i, model.value, envs[3]);
          Finish(i, Done, Some(model.value.name), Some(metrics), envs[4]);
          step := 5;
        }
      }
      WorkSteps(own, Own(moves, i), envs, step);
    }

    /** The body of a retrain thread, whose n-th step meets envs[n]. However the
        others interleave and whatever fails, all it does is n protocol steps of
        this thread: two when the lock was taken, three when the row could not be
        marked, otherwise five without a model and six with one. It ends without
        the lock and, if its final write takes effect, with the row of that end. */
    method RunRetrainJob(i: nat, envs: seq<Env>) returns (ghost n: nat)
      requires InStep() && i < |jobs| && i < |pcs| && pcs[i].Starting? && |envs| == 6
      modifies this
      ensures InStep() && old(moves) <= moves
      ensures n == 2 || n == if !envs[1].marks then 3 else if envs[2].outcome.Model? then 6 else 5
      ensures Own(moves, i) == Own(old(moves), i) + envs[..n]
      ensures i < |pcs| && i < |jobs| && pcs[i].Ended? && lock != Some(i)
      ensures n == 2 && envs[1].finishes ==> jobs[i].status.Failed?
      ensures n == 5 && envs[3].finishes ==> jobs[i].status.Failed?
      ensures n == 6 && envs[4].finishes ==>
        jobs[i].status.Done? && jobs[i].version == Some(envs[2].outcome.model.name)
    {
      ghost var own := Own(moves, i);
      var acquired := Acquire(i, envs[0]);
      if !acquired {
        Refuse(i, envs[1]);
        AllSteps(own, Own(moves, i), envs, 1);
        return 2;
      }
      var step := WorkLocked(i, envs);
      Release(i, envs[step]);
      AllSteps(own, Own(moves, i), envs, step);
      n := step + 1;
    }

    static method FindMetrics(list: seq<Version>, name: string) returns (metrics: Metrics)
      ensures metrics == FirstMetrics(list, name)
    {
      assert list[0..] == list;
      for k := 0 to |list|
        invariant FirstMetrics(list, name) == FirstMetrics(list[k..], name)
      {
        assert list[k..][1..] == list[k + 1..];
        if list[k].name == name { return list[k].metrics; }
      }
      return map[];
    }
  }

  /** What the environment did to each own step of a thread. */
  function Own(moves: seq<Move>, i: nat): seq<Env> {
    if moves == [] then []
    else
      var last := moves[|moves| - 1];
      Own(moves[..|moves| - 1], i) + (if last.Advance? && last.thread == i then [last.env] else [])
  }

  lemma WorkSteps(own: seq<Env>, now: seq<Env>, envs: seq<Env>, step: nat)
    requires |envs| == 6 && (step == 2 || step == 4 || step == 5)
    requires step == 2 ==> now == own + [envs[1]]
    requires step == 4 ==> now == own + [envs[1]] + [envs[2]] + [envs[3]]
    requires step == 5 ==> now == own + [envs[1]] + [envs[2]] + [envs[3]] + [envs[4]]
    ensures now == own + envs[1..step]
  {
  }

  lemma AllSteps(own: seq<Env>, now: seq<Env>, envs: seq<Env>, step: nat)
    requires 1 <= step < |envs| && now == own + [envs[0]] + envs[1..step] + [envs[step]]
    ensures now == own + envs[..step + 1]
  {
    assert envs[..step + 1] == [envs[0]] + envs[1..step] + [envs[step]];
  }

  lemma OwnNext(moves: seq<Move>, move: Move, i: nat)
    ensures Own(moves + [move], i) ==
      Own(moves, i) + (if move.Advance? && move.thread == i then [move.env] else [])
  {
    assert (moves + [move])[..|moves|] == moves;
  }
}
