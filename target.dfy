/** The per-target worker of autobuild/texmacsmachine.py (TexmacsMachine):
    a FIFO list of jobs, a worker loop that pops the head and runs it, and
    the two jobs, build (four stages under one lease) and test (one stage
    under its own lease). The background thread is modelled by explicit
    steps; what a job meets (the outputs the lease reads and the stage that
    raises, if any) is an oracle per job. The trace records, in order, each
    lease acquisition, each stage started and each release. */
module Target {
  import opened Text
  import opened Lease

  /** The five abstract pipeline operations of a target. */
  datatype Stage = DuplicateAndCopyPatch | CopySrcToRemote | BuildPackage | CopyPackagesFromRemote | TestPackage

  /** The closures build() and test() enqueue. */
  datatype Job = BuildJob | TestJob

  datatype Event = Acquired | Ran(stage: Stage) | Released

  /** What one job meets: the status outputs and ping answers its lease
      sees, and the index of the stage that raises, if one does. */
  datatype Env = Env(qmStatus: string, pctStatus: string, upAnswers: seq<bool>, downAnswers: seq<bool>, raisesAt: Option<nat>)

  /** The stages of a job, in the order _build and _test call them. */
  function Stages(job: Job): seq<Stage>
  {
    match job
    case BuildJob => [DuplicateAndCopyPatch, CopySrcToRemote, BuildPackage, CopyPackagesFromRemote]
    case TestJob => [TestPackage]
  }

  /** The job raises: one of its stages fails. */
  predicate Raises(job: Job, env: Env)
  {
    env.raisesAt.Some? && env.raisesAt.value < |Stages(job)|
  }

  /** The stages started: all of them, or those up to the one that raises. */
  function StagesRun(job: Job, env: Env): seq<Stage>
  {
    if Raises(job, env) then Stages(job)[..env.raisesAt.value + 1] else Stages(job)
  }

  function RanAll(stages: seq<Stage>): seq<Event>
  {
    if stages == [] then [] else RanAll(stages[..|stages| - 1]) + [Ran(stages[|stages| - 1])]
  }

  /** One job: the lease taken, the stages started, the lease released on
      every exit path. */
  function JobTrace(job: Job, env: Env): seq<Event>
  {
    [Acquired] + RanAll(StagesRun(job, env)) + [Released]
  }

  /** A run of jobs, one after the other, in their order. */
  function JobsTrace(jobs: seq<Job>, envs: seq<Env>): seq<Event>
    requires |envs| == |jobs|
  {
    if jobs == [] then []
    else JobsTrace(jobs[..|jobs| - 1], envs[..|envs| - 1]) + JobTrace(jobs[|jobs| - 1], envs[|envs| - 1])
  }

  /** The commands one job makes its machine issue, whichever job it is:
      nothing on a plain machine; on the Proxmox machine the status queries
      and starts of use(), its pings until the first answer, then the
      shutdowns of release() and its pings until the first silence when
      the lease powered the machine up. */
  function JobCommands(kind: Kind, ip: string, env: Env): seq<string>
  {
    if kind == Kind.Plain then []
    else
      var status := env.qmStatus + env.pctStatus;
      UseCommands(ip, status) + Pings(ip, PollCount(env.upAnswers, true))
      + ReleaseCommands(ip, !Running(status))
      + (if Running(status) then [] else Pings(ip, PollCount(env.downAnswers, false)))
  }

  /** The commands a run of jobs issues, one job after the other. */
  function JobsCommands(kind: Kind, ip: string, envs: seq<Env>): seq<string>
  {
    if envs == [] then []
    else JobsCommands(kind, ip, envs[..|envs| - 1]) + JobCommands(kind, ip, envs[|envs| - 1])
  }

  /** to_release after a job: decided afresh by the status on the Proxmox
      machine, untouched on a plain one. */
  function ToReleaseAfter(kind: Kind, env: Env, before: bool): bool
  {
    if kind == Kind.LocalProxmox then !Running(env.qmStatus + env.pctStatus) else before
  }

  /** The oracles suffice for the lease to return: the machine comes up,
      and it goes down again when the lease powered it up. */
  predicate EnvFits(kind: Kind, env: Env)
  {
    kind == Kind.LocalProxmox ==>
      true in env.upAnswers && (!Running(env.qmStatus + env.pctStatus) ==> false in env.downAnswers)
  }

  /** The number of leases held after a trace, from none. */
  function Held(trace: seq<Event>): int
  {
    if trace == [] then 0
    else
      var e := trace[|trace| - 1];
      Held(trace[..|trace| - 1]) + (if e == Acquired then 1 else if e == Released then -1 else 0)
  }

  /** At point `i` of the trace at most one lease is held, and the event
      there is a stage start under a lease, an acquisition with none held
      or a release of the one held. */
  predicate ExclusiveAt(trace: seq<Event>, i: nat)
    requires i <= |trace|
  {
    && 0 <= Held(trace[..i]) <= 1
    && (i < |trace| && trace[i].Ran? ==> Held(trace[..i]) == 1)
    && (i < |trace| && trace[i] == Acquired ==> Held(trace[..i]) == 0)
    && (i < |trace| && trace[i] == Released ==> Held(trace[..i]) == 1)
  }

  /** Leases never overlap and stages run only under a lease: along the
      trace at most one lease is held, and a stage starts only while one is. */
  predicate Exclusive(trace: seq<Event>)
  {
    forall i :: 0 <= i <= |trace| ==> ExclusiveAt(trace, i)
  }

  class Worker {
    const name: string
    const ip: string
    const machine: Machine
    /** command_queue */
    var queue: seq<Job>
    /** thread_continue */
    var threadContinue: bool
    /** the worker thread has not died of an exception */
    var alive: bool
    var trace: seq<Event>

    constructor (name: string, ip: string, machine: Machine)
      ensures this.name == name && this.ip == ip && this.machine == machine
      ensures queue == [] && threadContinue && alive && trace == []
    {
      this.name := name;
      this.ip := ip;
      this.machine := machine;
      queue := [];
      threadContinue := true;
      alive := true;
      trace := [];
    }

    /** build(): enqueue the build job. */
    method Build()
      modifies this`queue
      ensures queue == old(queue) + [BuildJob]
    {
      queue := queue + [BuildJob];
    }

    /** test(): enqueue the test job. */
    method Test()
      modifies this`queue
      ensures queue == old(queue) + [TestJob]
    {
      queue := queue + [TestJob];
    }

    /** join(): stop the loop; it pops nothing more (see Step). */
    method Join()
      modifies this`threadContinue
      ensures !threadContinue
    {
      threadContinue := false;
    }

    /** Start stage `index` of a job; returns whether it raised. */
    method RunStage(stage: Stage, index: nat, env: Env) returns (raised: bool)
      modifies this`trace
      ensures trace == old(trace) + [Ran(stage)]
      ensures raised == (env.raisesAt == Some(index))
    {
      trace := trace + [Ran(stage)];
      raised := env.raisesAt == Some(index);
    }

    /** _build: the four stages in order inside one MachineLock. */
    method RunBuild(env: Env) returns (raised: bool)
      requires !machine.held && EnvFits(machine.kind, env)
      modifies this`trace, machine`held, machine`toRelease, machine`issued
      ensures !machine.held
      ensures trace == old(trace) + JobTrace(BuildJob, env)
      ensures raised == Raises(BuildJob, env)
      ensures machine.issued == old(machine.issued) + JobCommands(machine.kind, ip, env)
      ensures machine.toRelease == ToReleaseAfter(machine.kind, env, old(machine.toRelease))
    {
      var lock := new MachineLock(machine, ip);
      var polls := lock.Enter(env.qmStatus, env.pctStatus, env.upAnswers);
      trace := trace + [Acquired];
      raised := RunBuildStages(env);
      var suppress, downPolls := lock.Exit(raised, env.downAnswers);
      trace := trace + [Released];
      LeaseCommands(machine.kind, ip, env, polls, downPolls);
    }

    /** The body of _build's `with` block: the four stages in order, up to
        the first that raises. */
    method RunBuildStages(env: Env) returns (raised: bool)
      modifies this`trace
      ensures trace == old(trace) + RanAll(StagesRun(BuildJob, env))
      ensures raised == Raises(BuildJob, env)
    {
      ghost var t0 := trace;
      raised := RunStage(DuplicateAndCopyPatch, 0, env);
      if !raised {
        raised := RunStage(CopySrcToRemote, 1, env);
        if !raised {
          raised := RunStage(BuildPackage, 2, env);
          if !raised {
            raised := RunStage(CopyPackagesFromRemote, 3, env);
          }
        }
      }
      BuildRan(env);
    }

    /** _test: the test stage inside its own MachineLock. */
    method RunTest(env: Env) returns (raised: bool)
      requires !machine.held && EnvFits(machine.kind, env)
      modifies this`trace, machine`held, machine`toRelease, machine`issued
      ensures !machine.held
      ensures trace == old(trace) + JobTrace(TestJob, env)
      ensures raised == Raises(TestJob, env)
      ensures machine.issued == old(machine.issued) + JobCommands(machine.kind, ip, env)
      ensures machine.toRelease == ToReleaseAfter(machine.kind, env, old(machine.toRelease))
    {
      var lock := new MachineLock(machine, ip);
      var polls := lock.Enter(env.qmStatus, env.pctStatus, env.upAnswers);
      trace := trace + [Acquired];
      raised := RunStage(TestPackage, 0, env);
      assert RanAll([TestPackage]) == [Ran(TestPackage)];
      var suppress, downPolls := lock.Exit(raised, env.downAnswers);
      trace := trace + [Released];
      LeaseCommands(machine.kind, ip, env, polls, downPolls);
    }

    /** One pass of _thread_main: while thread_continue holds (and the
        thread is alive), pop the head of the queue and run it; an empty
        queue runs nothing. A job that raises ends the thread, as nothing
        catches the exception. */
    method Step(env: Env)
      requires !machine.held && EnvFits(machine.kind, env)
      modifies this`queue, this`alive, this`trace, machine`held, machine`toRelease, machine`issued
      ensures !machine.held
      ensures !(old(threadContinue) && old(alive) && old(queue) != []) ==>
        && queue == old(queue) && trace == old(trace) && alive == old(alive)
        && machine.issued == old(machine.issued) && machine.toRelease == old(machine.toRelease)
      ensures old(threadContinue) && old(alive) && old(queue) != [] ==>
        && queue == old(queue)[1..]
        && trace == old(trace) + JobTrace(old(queue)[0], env)
        && alive == !Raises(old(queue)[0], env)
        && machine.issued == old(machine.issued) + JobCommands(machine.kind, ip, env)
        && machine.toRelease == ToReleaseAfter(machine.kind, env, old(machine.toRelease))
    {
      if !threadContinue || !alive || |queue| == 0 {
        return;
      }
      var job := queue[0];
      queue := queue[1..];
      var raised;
      match job {
        case BuildJob => raised := RunBuild(env);
        case TestJob => raised := RunTest(env);
      }
      if raised {
        alive := false;
      }
    }

    /** wait(): return once the queue is empty. Sequentially, waiting is the
        worker running its queued jobs in order; `envs[i]` is what the
        `i`-th of them meets. The head is popped before it runs, so a raise
        in the last job still empties the queue and the wait returns, with
        the worker dead; a raise in an earlier job ends the worker with jobs
        left, and the wait would never return. An empty queue returns at
        once, whatever the state of the worker. */
    method Wait(envs: seq<Env>)
      requires queue != [] ==> threadContinue && alive
      requires !machine.held
      requires |envs| == |queue|
      requires forall i :: 0 <= i < |queue| ==> EnvFits(machine.kind, envs[i])
      requires forall i :: 0 <= i < |queue| - 1 ==> !Raises(queue[i], envs[i])
      modifies this`queue, this`alive, this`trace, machine`held, machine`toRelease, machine`issued
      ensures queue == [] && !machine.held
      ensures alive == (old(alive) && !(old(queue) != [] && Raises(old(queue)[|old(queue)| - 1], envs[|envs| - 1])))
      ensures trace == old(trace) + JobsTrace(old(queue), envs)
      ensures machine.issued == old(machine.issued) + JobsCommands(machine.kind, ip, envs)
      ensures machine.toRelease ==
        if envs == [] then old(machine.toRelease) else ToReleaseAfter(machine.kind, envs[|envs| - 1], old(machine.toRelease))
    {
      ghost var q0, t0, alive0 := queue, trace, alive;
      ghost var c0, r0 := machine.issued, machine.toRelease;
      var i := 0;
      while |queue| > 0
        invariant WaitProgress(q0, t0, alive0, envs, i)
        invariant WaitLease(c0, r0, envs, i)
        decreases |queue|
      {
        WaitStep(envs, i, q0, t0, alive0, c0, r0);
        i := i + 1;
      }
      assert q0[..i] == q0 && envs[..i] == envs;
    }

    /** The state of wait() after the first `i` of the jobs `q0`, queued
        when the trace was `t0` and the worker's liveness `alive0`, have
        run. */
    ghost predicate WaitProgress(q0: seq<Job>, t0: seq<Event>, alive0: bool, envs: seq<Env>, i: nat)
      reads this, machine
    {
      && |envs| == |q0| && i <= |q0| && queue == q0[i..] && !machine.held
      && (q0 != [] ==> alive0)
      && (i < |q0| ==> threadContinue && alive)
      && (i == |q0| ==> alive == (alive0 && !(q0 != [] && Raises(q0[|q0| - 1], envs[|q0| - 1]))))
      && (forall k :: 0 <= k < |q0| ==> EnvFits(machine.kind, envs[k]))
      && (forall k :: 0 <= k < |q0| - 1 ==> !Raises(q0[k], envs[k]))
      && trace == t0 + JobsTrace(q0[..i], envs[..i])
    }

    /** The machine during wait() after the first `i` jobs have run, from
        the commands `c0` and the flag `r0` it had. */
    ghost predicate WaitLease(c0: seq<string>, r0: bool, envs: seq<Env>, i: nat)
      reads this, machine
    {
      MachineAfter(machine.kind, ip, c0, r0, envs, i, machine.issued, machine.toRelease)
    }

    /** One pass of the worker loop during wait(): the head job runs. */
    method WaitStep(envs: seq<Env>, i: nat, ghost q0: seq<Job>, ghost t0: seq<Event>, ghost alive0: bool,
                    ghost c0: seq<string>, ghost r0: bool)
      requires WaitProgress(q0, t0, alive0, envs, i) && WaitLease(c0, r0, envs, i) && queue != []
      modifies this`queue, this`alive, this`trace, machine`held, machine`toRelease, machine`issued
      ensures WaitProgress(q0, t0, alive0, envs, i + 1) && WaitLease(c0, r0, envs, i + 1)
      ensures |queue| < old(|queue|)
    {
      assert queue[0] == q0[i];
      ghost var issued, toRelease := machine.issued, machine.toRelease;
      Step(envs[i]);
      JobsTraceStep(q0, envs, i);
      ConcatAssoc(t0, JobsTrace(q0[..i], envs[..i]), JobTrace(q0[i], envs[i]));
      LeaseNext(machine.kind, ip, c0, r0, envs, i, issued, toRelease);
    }
  }

  // ---------------------------------------------------------------------
  // Lemmas the methods rest on

  lemma RanAllPrefix(stages: seq<Stage>, n: nat)
    requires n <= |stages|
    ensures n > 0 ==> RanAll(stages[..n]) == RanAll(stages[..n - 1]) + [Ran(stages[n - 1])]
  {
    if n > 0 {
      assert stages[..n][..n - 1] == stages[..n - 1];
    }
  }

  /** The stage starts of a build, by the stage that raises. */
  lemma BuildRan(env: Env)
    ensures RanAll(StagesRun(BuildJob, env)) ==
      if env.raisesAt == Some(0) then [Ran(DuplicateAndCopyPatch)]
      else if env.raisesAt == Some(1) then [Ran(DuplicateAndCopyPatch), Ran(CopySrcToRemote)]
      else if env.raisesAt == Some(2) then [Ran(DuplicateAndCopyPatch), Ran(CopySrcToRemote), Ran(BuildPackage)]
      else [Ran(DuplicateAndCopyPatch), Ran(CopySrcToRemote), Ran(BuildPackage), Ran(CopyPackagesFromRemote)]
  {
    var s := Stages(BuildJob);
    assert s[..4] == s;
    RanAllPrefix(s, 4);
    RanAllPrefix(s, 3);
    RanAllPrefix(s, 2);
    RanAllPrefix(s, 1);
    assert s[..0] == [];
  }

  /** What the lease issued, by the probe counts use() and release() met. */
  lemma LeaseCommands(kind: Kind, ip: string, env: Env, polls: nat, downPolls: nat)
    requires EnvFits(kind, env)
    requires kind == Kind.LocalProxmox ==> FirstAnswer(env.upAnswers, true, polls)
    requires kind == Kind.LocalProxmox && !Running(env.qmStatus + env.pctStatus) ==> FirstAnswer(env.downAnswers, false, downPolls)
    requires kind == Kind.LocalProxmox && Running(env.qmStatus + env.pctStatus) ==> downPolls == 0
    ensures kind == Kind.LocalProxmox ==>
      JobCommands(kind, ip, env) ==
        UseCommands(ip, env.qmStatus + env.pctStatus) + Pings(ip, polls)
        + ReleaseCommands(ip, !Running(env.qmStatus + env.pctStatus)) + Pings(ip, downPolls)
  {
    if kind == Kind.LocalProxmox {
      FirstAnswerUnique(env.upAnswers, true, polls, PollCount(env.upAnswers, true));
      if Running(env.qmStatus + env.pctStatus) {
        assert Pings(ip, downPolls) == [];
      } else {
        FirstAnswerUnique(env.downAnswers, false, downPolls, PollCount(env.downAnswers, false));
      }
    }
  }

  /** The commands issued and the flag of a machine after the first `i`
      jobs of a run, from `c0` and `r0`. */
  predicate MachineAfter(kind: Kind, ip: string, c0: seq<string>, r0: bool, envs: seq<Env>, i: nat, issued: seq<string>, toRelease: bool)
  {
    && i <= |envs|
    && issued == c0 + JobsCommands(kind, ip, envs[..i])
    && toRelease == if i == 0 then r0 else ToReleaseAfter(kind, envs[i - 1], r0)
  }

  lemma LeaseNext(kind: Kind, ip: string, c0: seq<string>, r0: bool, envs: seq<Env>, i: nat, issued: seq<string>, toRelease: bool)
    requires MachineAfter(kind, ip, c0, r0, envs, i, issued, toRelease) && i < |envs|
    ensures MachineAfter(kind, ip, c0, r0, envs, i + 1, issued + JobCommands(kind, ip, envs[i]), ToReleaseAfter(kind, envs[i], toRelease))
  {
    JobsCommandsStep(kind, ip, envs, i);
    ConcatAssoc(c0, JobsCommands(kind, ip, envs[..i]), JobCommands(kind, ip, envs[i]));
  }

  lemma ConcatAssoc<T>(p: seq<T>, q: seq<T>, r: seq<T>)
    ensures p + q + r == p + (q + r)
  {
  }

  lemma JobsCommandsStep(kind: Kind, ip: string, envs: seq<Env>, i: nat)
    requires i < |envs|
    ensures JobsCommands(kind, ip, envs[..i + 1]) == JobsCommands(kind, ip, envs[..i]) + JobCommands(kind, ip, envs[i])
  {
    assert envs[..i + 1][..i] == envs[..i];
  }

  lemma JobsTraceStep(jobs: seq<Job>, envs: seq<Env>, i: nat)
    requires |envs| == |jobs| && i < |jobs|
    ensures JobsTrace(jobs[..i + 1], envs[..i + 1]) == JobsTrace(jobs[..i], envs[..i]) + JobTrace(jobs[i], envs[i])
  {
    assert jobs[..i + 1][..i] == jobs[..i];
    assert envs[..i + 1][..i] == envs[..i];
  }

  // ---------------------------------------------------------------------
  // Properties

  /** A build that does not raise runs all four stages, in order; one that
      raises at stage k runs exactly the stages up to k. */
  lemma BuildStagesInOrder(env: Env)
    ensures !Raises(BuildJob, env) ==>
      JobTrace(BuildJob, env) == [Acquired, Ran(DuplicateAndCopyPatch), Ran(CopySrcToRemote), Ran(BuildPackage), Ran(CopyPackagesFromRemote), Released]
    ensures Raises(BuildJob, env) ==> |StagesRun(BuildJob, env)| == env.raisesAt.value + 1
    ensures StagesRun(BuildJob, env) <= Stages(BuildJob)
  {
    var s := Stages(BuildJob);
    assert s[..4] == s;
    RanAllPrefix(s, 4);
    RanAllPrefix(s, 3);
    RanAllPrefix(s, 2);
    RanAllPrefix(s, 1);
    assert s[..0] == [];
  }

  /** Running jobs one after the other concatenates their traces: the run
      of a queue is the run of its front followed by the run of its back. */
  lemma {:induction false} JobsTraceAppend(a: seq<Job>, ea: seq<Env>, b: seq<Job>, eb: seq<Env>)
    requires |ea| == |a| && |eb| == |b|
    ensures JobsTrace(a + b, ea + eb) == JobsTrace(a, ea) + JobsTrace(b, eb)
    decreases |b|
  {
    if b == [] {
      assert a + b == a && ea + eb == ea;
    } else {
      var n := |b| - 1;
      JobsTraceAppend(a, ea, b[..n], eb[..n]);
      JobsTraceLast(a + b, ea + eb);
      JobsTraceLast(b, eb);
      SnocSplit(a, b);
      SnocSplit(ea, eb);
      ConcatAssoc(JobsTrace(a, ea), JobsTrace(b[..n], eb[..n]), JobTrace(b[n], eb[n]));
    }
  }

  lemma JobsTraceLast(jobs: seq<Job>, envs: seq<Env>)
    requires |envs| == |jobs| && jobs != []
    ensures JobsTrace(jobs, envs) == JobsTrace(jobs[..|jobs| - 1], envs[..|envs| - 1]) + JobTrace(jobs[|jobs| - 1], envs[|envs| - 1])
  {
  }

  /** Held of a concatenation adds up. */
  lemma {:induction false} HeldAppend(x: seq<Event>, y: seq<Event>)
    ensures Held(x + y) == Held(x) + Held(y)
    decreases |y|
  {
    if y == [] {
      assert x + y == x;
    } else {
      HeldAppend(x, y[..|y| - 1]);
      assert (x + y)[..|x + y| - 1] == x + y[..|y| - 1];
    }
  }

  /** A stage run holds no lease of its own. */
  lemma {:induction false} HeldRanAll(stages: seq<Stage>)
    ensures Held(RanAll(stages)) == 0
    ensures forall e :: e in RanAll(stages) ==> e.Ran?
    decreases |stages|
  {
    if stages != [] {
      HeldRanAll(stages[..|stages| - 1]);
      HeldAppend(RanAll(stages[..|stages| - 1]), [Ran(stages[|stages| - 1])]);
    }
  }

  /** One job takes the lease once and gives it back once. */
  lemma JobHeld(job: Job, env: Env)
    ensures Held(JobTrace(job, env)) == 0
    ensures Exclusive(JobTrace(job, env))
  {
    var r := RanAll(StagesRun(job, env));
    HeldRanAll(StagesRun(job, env));
    forall k | 0 <= k < |r|
      ensures r[k].Ran?
    {
      assert r[k] in r;
    }
    LeaseExclusive(r);
  }

  /** Stage starts only. */
  predicate AllRan(r: seq<Event>)
  {
    forall k :: 0 <= k < |r| ==> r[k].Ran?
  }

  lemma {:induction false} HeldAllRan(r: seq<Event>)
    requires AllRan(r)
    ensures Held(r) == 0
    decreases |r|
  {
    if r != [] {
      HeldAllRan(r[..|r| - 1]);
    }
  }

  /** A lease around stage starts is exclusive and ends holding none. */
  lemma LeaseExclusive(r: seq<Event>)
    requires AllRan(r)
    ensures Held([Acquired] + r + [Released]) == 0
    ensures Exclusive([Acquired] + r + [Released])
  {
    var t := [Acquired] + r + [Released];
    forall i | 0 <= i <= |t|
      ensures ExclusiveAt(t, i)
    {
      LeaseAt(r, i);
    }
    LeaseAt(r, |t|);
    assert t[..|t|] == t;
  }

  lemma LeaseAt(r: seq<Event>, i: nat)
    requires AllRan(r) && i <= |r| + 2
    ensures Held(([Acquired] + r + [Released])[..i]) == if i == 0 || i == |r| + 2 then 0 else 1
    ensures 1 <= i <= |r| ==> ([Acquired] + r + [Released])[i].Ran?
  {
    var t := [Acquired] + r + [Released];
    assert Held([Acquired]) == 1 by {
      assert [Acquired][..0] == [];
    }
    if i == 0 {
      assert t[..i] == [];
    } else if i <= |r| + 1 {
      var pre := r[..i - 1];
      assert t[..i] == [Acquired] + pre;
      assert AllRan(pre) by {
        forall k | 0 <= k < |pre|
          ensures pre[k].Ran?
        {
          assert pre[k] == r[k];
        }
      }
      HeldAllRan(pre);
      HeldAppend([Acquired], pre);
      if i <= |r| {
        assert t[i] == r[i - 1];
      }
    } else {
      assert t[..i] == ([Acquired] + r) + [Released];
      HeldAllRan(r);
      HeldAppend([Acquired], r);
      HeldAppend([Acquired] + r, [Released]);
      assert Held([Released]) == -1 by {
        assert [Released][..0] == [];
      }
    }
  }

  /** Two exclusive traces, the first ending with no lease held, make an
      exclusive trace. */
  lemma ExclusiveAppend(x: seq<Event>, y: seq<Event>)
    requires Exclusive(x) && Held(x) == 0 && Exclusive(y)
    ensures Exclusive(x + y)
  {
    forall i | 0 <= i <= |x + y|
      ensures ExclusiveAt(x + y, i)
    {
      ExclusiveAppendAt(x, y, i);
    }
  }

  lemma ExclusiveAppendAt(x: seq<Event>, y: seq<Event>, i: nat)
    requires Exclusive(x) && Held(x) == 0 && Exclusive(y) && i <= |x + y|
    ensures ExclusiveAt(x + y, i)
  {
    var t := x + y;
    if i < |x| {
      assert t[..i] == x[..i];
      assert ExclusiveAt(x, i);
      assert t[i] == x[i];
    } else {
      var j := i - |x|;
      assert t[..i] == x + y[..j];
      HeldAppend(x, y[..j]);
      assert Held(t[..i]) == Held(y[..j]);
      assert ExclusiveAt(y, j);
      if j < |y| {
        assert t[i] == y[j];
      }
    }
  }

  /** Whatever the jobs meet, a run of jobs holds at most one lease at a
      time, runs every stage under a lease and ends holding none. */
  lemma {:induction false} JobsExclusive(jobs: seq<Job>, envs: seq<Env>)
    requires |envs| == |jobs|
    ensures Exclusive(JobsTrace(jobs, envs)) && Held(JobsTrace(jobs, envs)) == 0
    decreases |jobs|
  {
    if jobs == [] {
      var t := JobsTrace(jobs, envs);
      assert t == [];
      forall i | 0 <= i <= |t|
        ensures t[..i] == []
      {
      }
    } else {
      var n := |jobs| - 1;
      JobsExclusive(jobs[..n], envs[..n]);
      JobHeld(jobs[n], envs[n]);
      ExclusiveAppend(JobsTrace(jobs[..n], envs[..n]), JobTrace(jobs[n], envs[n]));
      HeldAppend(JobsTrace(jobs[..n], envs[..n]), JobTrace(jobs[n], envs[n]));
    }
  }

  /** system(): the command handed to launch_command is the command with
      every backslash doubled; halving them recovers the original, and the
      doubling adds one character per backslash. */
  function SystemCommand(command: string): (run: string)
    ensures UnescapeBackslashes(run) == command
    ensures |run| == |command| + multiset(command)['\\']
  {
    UnescapeEscape(command);
    EscapeLength(command);
    EscapeBackslashes(command)
  }
}
