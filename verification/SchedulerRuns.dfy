/** Whole runs of the scheduler: the promises that hold after any number of steps taken by
    disciplined clients, whatever the clock, the events and the bodies do. */
module SchedulerRuns {
  import opened Common
  import opened Scheduler
  import opened SchedulerSafety

  /** `acts` is a run from `s` to `s'` that control flow and discipline allow. */
  ghost predicate Run(s: State, acts: seq<Action>, s': State)
    decreases |acts|
  {
    if acts == [] then s' == s
    else
      && Enabled(s, acts[0]) && Disciplined(s, acts[0])
      && Step(s, acts[0]).Ok? && Run(Step(s, acts[0]).s, acts[1..], s')
  }

  ghost predicate Reachable(s: State) { exists acts :: Run(INIT, acts, s) }

  lemma {:induction false} RunInv(s: State, acts: seq<Action>, s': State)
    requires Inv(s) && Run(s, acts, s')
    ensures Inv(s')
    decreases |acts|
  {
    if acts != [] {
      StepInv(s, acts[0]);
      RunInv(Step(s, acts[0]).s, acts[1..], s');
    }
  }

  lemma ReachableInv(s: State)
    requires Reachable(s)
    ensures Inv(s)
  {
    var acts :| Run(INIT, acts, s);
    InitInv();
    RunInv(INIT, acts, s);
  }

  /** In a reachable state a step neither crashes nor breaks the invariant if and only if it is
      disciplined. */
  lemma DisciplineIsExact(s: State, a: Action)
    requires Reachable(s) && Enabled(s, a)
    ensures (Step(s, a).Ok? && Inv(Step(s, a).s)) <==> Disciplined(s, a)
  {
    ReachableInv(s);
    if Disciplined(s, a) { StepInv(s, a); } else { StepBreaks(s, a); }
  }

  // ----- places, frees and termination -----

  datatype Spot = Current | Queue | SleepTree | WaitTree

  /** Where a coroutine is; the running one may still hang in a tree that it has not left yet. */
  function Spots(s: State, c: Co): set<Spot> {
    if s.curr == Some(c) then {Current}
    else
      (if c in s.ready then {Queue} else {})
      + (if c in s.sleeping.Values then {SleepTree} else {})
      + (if c in s.waiting.Values then {WaitTree} else {})
  }

  lemma SomeKey(m: map<Fd, Co>) returns (f: Fd)
    requires m != map[]
    ensures f in m
  {
    f :| f in m;
  }

  lemma KeyOf(m: map<Fd, Co>, c: Co) returns (f: Fd)
    requires c in m.Values
    ensures f in m && m[f] == c
  {
    f :| f in m && m[f] == c;
  }

  lemma TreeMembers(s: State, c: Co)
    requires Inv(s)
    ensures c in s.sleeping.Values <==> c in s.rec && Asleep(s.rec, s.sleeping, c)
    ensures c in s.waiting.Values <==> c in s.rec && s.rec[c].pc.InPoll?
  {
    if c in s.rec { CoreAt(s.rec, s.curr, s.ready, s.sleeping, s.waiting, c); }
    if c in s.waiting.Values {
      var f := KeyOf(s.waiting, c);
      assert s.waiting[f] in s.rec;
    }
    if c in s.rec && s.rec[c].pc.InPoll? {
      assert s.waiting[s.rec[c].pc.fd] == c;
    }
  }

  /** Each live coroutine is in exactly one place; anything else, freed coroutines included, is in
      none. */
  lemma OnePlace(s: State, c: Co)
    requires Reachable(s)
    ensures c in s.rec ==> exists p :: Spots(s, c) == {p}
    ensures c !in s.rec ==> Spots(s, c) == {}
  {
    ReachableInv(s);
    TreeMembers(s, c);
    if c in s.rec {
      CoreAt(s.rec, s.curr, s.ready, s.sleeping, s.waiting, c);
      if s.curr == Some(c) { assert Spots(s, c) == {Current}; }
      else if c in s.ready { assert Spots(s, c) == {Queue}; }
      else if s.rec[c].pc.InPoll? { assert Spots(s, c) == {WaitTree}; }
      else { assert Spots(s, c) == {SleepTree}; }
    }
  }

  /** No container links a coroutine twice. */
  lemma LinkedOnce(s: State)
    requires Reachable(s)
    ensures NoDup(s.ready)
    ensures forall k, k' :: k in s.sleeping && k' in s.sleeping && s.sleeping[k] == s.sleeping[k'] ==> k == k'
    ensures forall f, f' :: f in s.waiting && f' in s.waiting && s.waiting[f] == s.waiting[f'] ==> f == f'
  {
    ReachableInv(s);
    forall k, k' | k in s.sleeping && k' in s.sleeping && s.sleeping[k] == s.sleeping[k'] ensures k == k' {
      assert s.rec[s.sleeping[k]].sleep == k;
    }
    forall f, f' | f in s.waiting && f' in s.waiting && s.waiting[f] == s.waiting[f'] ensures f == f' {
      assert s.rec[s.waiting[f]].pc == InPoll(f);
    }
  }

  /** What there is an account of: the live coroutines and the freed ones. */
  ghost function Known(s: State): set<Co> { s.rec.Keys + set c | c in s.freed }

  /** No step loses a coroutine, and only a creation adds one. */
  lemma StepKnown(s: State, a: Action)
    requires Enabled(s, a) && Step(s, a).Ok?
    ensures Known(Step(s, a).s) == Known(s) + if a.Create? then {a.co} else {}
  {
    match a
    case Create(c) => CreateKnown(s, c);
    case ExpireStep(t) => ExpireKnown(s, t);
    case ReadyStep => ReadyKnown(s);
    case DispatchStep => DispatchKnown(s);
    case SleepTimed(ms, t) => SleepKnown(s, s.curr.value, ms, t);
    case SleepZero => YieldKnown(s.(ready := s.ready + [s.curr.value]), s.curr.value);
    case Yield => YieldKnown(s, s.curr.value);
    case Renice => ReniceKnown(s, s.curr.value);
    case PollFd(fd, dir) => PollFdKnown(s, s.curr.value, fd, dir);
    case PollReturn => PollReturnKnown(s, s.curr.value);
    case Return => ReturnKnown(s, s.curr.value);
    case _ =>
  }

  lemma CreateKnown(s: State, c: Co)
    ensures Known(StepCreate(s, c)) == Known(s) + {c}
  {
  }

  lemma ResumeKnown(s: State, c: Co)
    requires Resume(s, c).Ok?
    ensures Known(Resume(s, c).s) == Known(s)
  {
  }

  lemma FreeKnown(s: State, c: Co)
    requires c in s.rec
    ensures Known(Free(s, c)) == Known(s)
  {
  }

  lemma ExpireKnown(s: State, t: nat)
    requires StepExpire(s, t).Ok?
    ensures Known(StepExpire(s, t).s) == Known(s)
  {
    if s.sleeping != map[] && Min(s.sleeping.Keys) <= t {
      var k := Min(s.sleeping.Keys);
      ResumeKnown(s.(sleeping := s.sleeping - {k}, now := t, woken := s.woken + [Wake(k, t)]), s.sleeping[k]);
    }
  }

  lemma ReadyKnown(s: State)
    requires s.phase.Ready? && StepReady(s).Ok?
    ensures Known(StepReady(s).s) == Known(s)
  {
    if s.ready != [] {
      var c := s.ready[0];
      var s1 := s.(ready := s.ready[1..], phase := s.phase.(ran := s.phase.ran + [c]));
      if FDEOF in s.rec[c].status { FreeKnown(s1, c); } else { ResumeKnown(s1, c); }
    }
  }

  lemma DispatchKnown(s: State)
    requires s.phase.Dispatch? && StepDispatch(s).Ok?
    ensures Known(StepDispatch(s).s) == Known(s)
  {
    if s.phase.pending != [] {
      var ev := s.phase.pending[|s.phase.pending| - 1];
      var c := s.waiting[ev.fd];
      ResumeKnown(s.(phase := Dispatch(s.phase.pending[..|s.phase.pending| - 1], s.phase.resumed + {c}),
                     rec := s.rec[c := s.rec[c].(status := if ev.hup then {FDEOF} else {})]), c);
    }
  }

  lemma SleepKnown(s: State, c: Co, ms: nat, t: nat)
    requires c in s.rec
    ensures Known(Sleepdown(s, c, ms, t)) == Known(s)
  {
  }

  lemma ReniceKnown(s: State, c: Co)
    requires c in s.rec
    ensures Known(StepRenice(s, c)) == Known(s)
  {
    var s1 := s.(rec := s.rec[c := s.rec[c].(ops := s.rec[c].ops + 1)]);
    YieldKnown(s1.(ready := s1.ready + [c]), c);
  }

  lemma PollReturnKnown(s: State, c: Co)
    requires c in s.rec && s.rec[c].pc.InPoll? && StepPollReturn(s, c).Ok?
    ensures Known(StepPollReturn(s, c).s) == Known(s)
  {
  }

  lemma ReturnKnown(s: State, c: Co)
    requires c in s.rec
    ensures Known(StepReturn(s, c)) == Known(s)
  {
    ReturnIs(s, c);
    FreeKnown(s, c);
  }

  lemma YieldKnown(s: State, c: Co)
    requires c in s.rec
    ensures Known(YieldNow(s, c)) == Known(s)
  {
  }

  lemma PollFdKnown(s: State, c: Co, fd: Fd, dir: Direction)
    requires c in s.rec && StepPollFd(s, c, fd, dir).Ok?
    ensures Known(StepPollFd(s, c, fd, dir).s) == Known(s)
  {
    var st := s.rec[c].status;
    YieldKnown(s.(interest := s.interest + {fd}, waiting := s.waiting[fd := c],
                  rec := s.rec[c := s.rec[c].(status := st + RawWaitBits(dir), fd := fd, pc := InPoll(fd))]), c);
  }

  lemma {:induction false} RunKnown(s: State, acts: seq<Action>, s': State)
    requires Run(s, acts, s')
    ensures Known(s') == Known(s) + Created(acts)
    decreases |acts|
  {
    if acts != [] {
      StepKnown(s, acts[0]);
      RunKnown(Step(s, acts[0]).s, acts[1..], s');
      assert acts == [acts[0]] + acts[1..];
    }
  }

  ghost function Created(acts: seq<Action>): set<Co> { set a | a in acts && a.Create? :: a.co }

  /** The counter counts the live coroutines; every coroutine ever created is either live or freed,
      and the freed ones were freed once and are linked nowhere. */
  lemma FreedOnce(acts: seq<Action>, s: State)
    requires Run(INIT, acts, s)
    ensures s.spawned == |s.rec|
    ensures forall c :: c in Created(acts) <==> (c in s.rec || c in s.freed)
    ensures NoDup(s.freed) && forall c :: c in s.freed ==> c !in s.rec && Spots(s, c) == {}
  {
    assert Reachable(s);
    ReachableInv(s);
    RunKnown(INIT, acts, s);
    assert forall c :: c in Known(s) <==> c in s.rec || c in s.freed;
    forall c | c in s.freed ensures c !in s.rec && Spots(s, c) == {} { OnePlace(s, c); }
  }

  /** When the run loop exits, every coroutine ever created has been freed exactly once, and nothing
      else has. */
  lemma AllFreedAtExit(acts: seq<Action>, s: State)
    requires Run(INIT, acts, s) && Enabled(s, Loop) && Step(s, Loop).s.phase.Done?
    ensures forall c :: multiset(s.freed)[c] == if c in Created(acts) then 1 else 0
  {
    assert Reachable(s);
    ExitsWhenEmpty(s);
    FreedOnce(acts, s);
    forall c ensures multiset(s.freed)[c] == if c in Created(acts) then 1 else 0 {
      Occurs(s.freed, c);
    }
  }

  lemma {:induction false} Occurs(q: seq<Co>, c: Co)
    requires NoDup(q)
    ensures multiset(q)[c] == if c in q then 1 else 0
  {
    if q != [] {
      assert q == [q[0]] + q[1..];
      Occurs(q[1..], c);
    }
  }

  /** The run loop ends exactly when no coroutine is left. */
  lemma ExitsWhenEmpty(s: State)
    requires Reachable(s) && Enabled(s, Loop)
    ensures Step(s, Loop).s.phase.Done? <==> s.spawned == 0
  {
    ReachableInv(s);
    if s.rec != map[] {
      var c :| c in s.rec;
      CoreAt(s.rec, s.curr, s.ready, s.sleeping, s.waiting, c);
    }
    if !IsDone(s) {
      if s.ready != [] { assert s.ready[0] in s.rec; }
      else if s.sleeping != map[] { var k :| k in s.sleeping; assert s.sleeping[k] in s.rec; }
      else { var f := SomeKey(s.waiting); assert s.waiting[f] in s.rec; }
    }
  }

  // ----- sleeping -----

  /** A live coroutine outside the sleep tree has a stale key strictly below every key in it, so
      looking for it under that key finds nobody. */
  lemma StaleKeys(s: State, c: Co)
    requires Reachable(s) && c in s.rec && c !in s.sleeping.Values
    ensures forall k :: k in s.sleeping ==> s.rec[c].sleep < k
  {
    ReachableInv(s);
    TreeMembers(s, c);
  }

  /** A timed sleep moves nobody but its caller: every other sleeper keeps its deadline. */
  lemma SleepMovesOnlyCaller(s: State, ms: nat, t: nat)
    requires Reachable(s) && Enabled(s, SleepTimed(ms, t))
    ensures var s', c := Step(s, SleepTimed(ms, t)).s, s.curr.value;
            && c in s'.sleeping.Values
            && (forall k :: k in s.sleeping && s.sleeping[k] != c ==> k in s'.sleeping && s'.sleeping[k] == s.sleeping[k])
            && (forall k :: k in s'.sleeping && s'.sleeping[k] != c ==> k in s.sleeping && s.sleeping[k] == s'.sleeping[k])
  {
    ReachableInv(s);
    var c := s.curr.value;
    var s' := Step(s, SleepTimed(ms, t)).s;
    if s.rec[c].sleep in s.sleeping { EvictsOnlyItself(s.rec, s.sleeping, s.now, c); }
    assert s'.sleeping[s'.rec[c].sleep] == c;
  }

  /** The deadline given is the least unused one from now plus the request on, so collisions
      cost at most a microsecond for every other sleeper. */
  lemma LeastDeadline(s: State, ms: nat, t: nat)
    requires Reachable(s) && Enabled(s, SleepTimed(ms, t))
    ensures var c := s.curr.value;
            var k := Step(s, SleepTimed(ms, t)).s.rec[c].sleep;
            && t + ms * 1000 <= k <= t + ms * 1000 + |s.sleeping|
            && (k !in s.sleeping || s.sleeping[k] == c)
            && forall j :: t + ms * 1000 <= j < k ==> j in s.sleeping && s.sleeping[j] != c
  {
    ReachableInv(s);
    var c := s.curr.value;
    var rest := s.sleeping - {s.rec[c].sleep};
    if s.rec[c].sleep in s.sleeping { EvictsOnlyItself(s.rec, s.sleeping, s.now, c); }
    SubsetSize(rest.Keys, s.sleeping.Keys);
  }

  /** Over a whole run the deadlines of woken sleepers strictly increase, and none is woken
      before its deadline. */
  lemma WakesInOrder(s: State)
    requires Reachable(s)
    ensures forall i :: 0 <= i < |s.woken| ==> s.woken[i].deadline <= s.woken[i].at <= s.now
    ensures forall i, j :: 0 <= i < j < |s.woken| ==> s.woken[i].deadline < s.woken[j].deadline
    ensures forall i, k :: 0 <= i < |s.woken| && k in s.sleeping ==> s.woken[i].deadline < k
  {
    ReachableInv(s);
  }

  /** The expiry phase ends only when every remaining deadline is later than the last reading. */
  lemma ExpiryComplete(s: State, t: nat)
    requires Reachable(s) && Enabled(s, ExpireStep(t))
    ensures Step(s, ExpireStep(t)).Ok?
    ensures var s' := Step(s, ExpireStep(t)).s;
            s'.phase.Ready? <==> forall k :: k in s.sleeping ==> t < k
  {
    ReachableInv(s);
    ExpireInv(s, t);
    if s.sleeping != map[] {
      assert Min(s.sleeping.Keys) in s.sleeping;
    }
  }

  // ----- the ready phase -----

  /** Leaving the ready phase: exactly the coroutines queued at its start have run, each once and
      in that order; the end-of-file branch is never taken. */
  lemma FifoRound(s: State, a: Action)
    requires Reachable(s) && Enabled(s, a) && Disciplined(s, a) && s.phase.Ready?
    ensures Step(s, a).Ok?
    ensures var s' := Step(s, a).s;
            && (s'.phase.Poll? ==> s.phase.ran == s.phase.queued && NoDup(s.phase.ran))
            && (!s'.phase.Poll? ==> s'.phase.Ready? && s'.phase.queued == s.phase.queued && s.phase.ran <= s'.phase.ran)
            && (a.ReadyStep? ==> s'.freed == s.freed)
  {
    ReachableInv(s);
    StepInv(s, a);
    if a.ReadyStep? { ReadyStepRound(s); } else { LastRan(s); PhaseStep(s, a); }
  }

  lemma ReadyStepRound(s: State)
    requires Inv(s) && s.phase.Ready? && s.curr.None?
    ensures var o := StepReady(s);
            && o.Ok? && o.s.freed == s.freed
            && (if s.ready == [] then o.s.phase.Poll? && s.phase.ran == s.phase.queued
                else o.s.phase == s.phase.(ran := s.phase.ran + [s.ready[0]]))
  {
    if s.ready != [] { ReadyHead(s); }
  }

  lemma PhaseStep(s: State, a: Action)
    requires Enabled(s, a) && s.phase.Ready? && s.curr.Some? && Step(s, a).Ok?
    ensures Step(s, a).s.phase == s.phase || (Step(s, a).s.phase.Poll? && s.phase.last == s.curr)
  {
  }

  lemma LastRan(s: State)
    requires Inv(s) && s.phase.Ready? && s.curr.Some?
    ensures s.phase.last == s.curr ==> s.phase.ran == s.phase.queued
  {
    var q, r := s.phase.queued, s.phase.ran;
    assert r[|r| - 1] == q[..|r|][|r| - 1] == q[|r| - 1];
    assert |r| < |q| ==> q[|r| - 1] != q[|q| - 1];
  }

  /** The phase starts with the whole ready queue. */
  lemma RoundStarts(s: State, t: nat)
    requires Reachable(s) && Enabled(s, ExpireStep(t))
    ensures var o := Step(s, ExpireStep(t));
            o.Ok? && (o.s.phase.Ready? ==> o.s.phase.queued == s.ready == o.s.ready && o.s.phase.ran == [])
  {
    ReachableInv(s);
    ExpireInv(s, t);
  }

  // ----- events -----

  /** Every event of a batch finds a live waiter for its descriptor that was not resumed before in
      this batch, and the registered descriptors are those of the wait tree. */
  lemma EventsFindWaiters(s: State)
    requires Reachable(s)
    ensures s.interest == s.waiting.Keys
    ensures s.phase.Dispatch? ==> forall i :: 0 <= i < |s.phase.pending| ==>
              var fd := s.phase.pending[i].fd;
              && fd in s.waiting && s.waiting[fd] in s.rec && s.rec[s.waiting[fd]].pc == InPoll(fd)
              && s.waiting[fd] !in s.phase.resumed
  {
    ReachableInv(s);
  }

  // ----- what happens without discipline -----

  /** A run that control flow allows, disciplined or not, up to its end or its first fault. */
  ghost function Execute(o: Outcome, acts: seq<Action>): Outcome
    decreases |acts|
  {
    if acts == [] || o.Crash? || !Enabled(o.s, acts[0]) then o
    else Execute(Step(o.s, acts[0]), acts[1..])
  }

  lemma ExecuteOne(s: State, a: Action, acts: seq<Action>)
    requires Enabled(s, a)
    ensures Execute(Ok(s), [a] + acts) == Execute(Step(s, a), acts)
  {
    assert ([a] + acts)[1..] == acts;
  }

  /** The coroutine 0, alone, runs for the first time. */
  ghost const ONE_RUNNING := State(Ready(Some(0), [0], [0]), Some(0), map[0 := Rec({READY}, -1, 0, 0, Body)],
                                  [], map[], map[], {}, 1, [], 0, [])

  /** From the start to the body of the only coroutine. */
  lemma OneStarts(acts: seq<Action>)
    ensures Execute(Ok(INIT), [Create(0), Begin, Loop, ExpireStep(0), ReadyStep] + acts) == Execute(Ok(ONE_RUNNING), acts)
  {
    var a2 := [ReadyStep] + acts;
    var a3 := [ExpireStep(0)] + a2;
    var a4 := [Loop] + a3;
    var a5 := [Begin] + a4;
    assert [Create(0), Begin, Loop, ExpireStep(0), ReadyStep] + acts == [Create(0)] + a5;
    var s1 := StepCreate(INIT, 0);
    ExecuteOne(INIT, Create(0), a5);
    ExecuteOne(s1, Begin, a4);
    ExecuteOne(s1.(phase := Check), Loop, a3);
    var s2 := s1.(phase := Expire);
    ExecuteOne(s2, ExpireStep(0), a2);
    var s3 := s2.(phase := Ready(Some(0), [0], []));
    ExecuteOne(s3, ReadyStep, acts);
    OneResumes(s3);
  }

  lemma OneResumes(s: State)
    requires s == StepCreate(INIT, 0).(phase := Ready(Some(0), [0], []))
    ensures StepReady(s) == Ok(ONE_RUNNING)
  {
    var t := StepReady(s).s;
    assert t.rec == ONE_RUNNING.rec;
    assert t.ready == [] && t.phase.ran == [0];
  }

  lemma OneSleeps(ms: nat, acts: seq<Action>)
    requires ms > 0
    ensures Execute(Ok(ONE_RUNNING), [SleepTimed(ms, 0)] + acts) == Execute(Ok(OneAsleep(ms)), acts)
  {
    ExecuteOne(ONE_RUNNING, SleepTimed(ms, 0), acts);
    LeastFreeIs((ONE_RUNNING.sleeping - {0}).Keys, ms * 1000, ms * 1000);
    var s := Sleepdown(ONE_RUNNING, 0, ms, 0);
    assert s.rec[0].status == {READY, SLEEPING};
    assert s.rec == OneAsleep(ms).rec;
    assert s.sleeping == map[ms * 1000 := 0];
  }

  /** The coroutine 0 is running and linked in the sleep tree. */
  ghost function OneAsleep(ms: nat): State {
    State(Ready(Some(0), [0], [0]), Some(0), map[0 := Rec({READY, SLEEPING}, -1, ms * 1000, 0, Body)],
          [], map[ms * 1000 := 0], map[], {}, 1, [], 0, [])
  }

  /** A coroutine that returns after a timed sleep without yielding is freed while the sleep tree
      still links it, and the scheduler follows the dangling link when the deadline has passed. */
  lemma ReturnWhileAsleepCrashes(ms: nat)
    requires ms > 0
    ensures Execute(Ok(INIT), [Create(0), Begin, Loop, ExpireStep(0), ReadyStep]
                              + [SleepTimed(ms, 0), Return, PollStep(ms * 1000, []), Loop, ExpireStep(ms * 1000)]) == Crash(UseAfterFree)
  {
    var k := ms * 1000;
    var a1 := [ExpireStep(k)];
    var a2 := [Loop] + a1;
    var a3 := [PollStep(k, [])] + a2;
    var a4 := [Return] + a3;
    assert [SleepTimed(ms, 0), Return, PollStep(k, []), Loop, ExpireStep(k)] == [SleepTimed(ms, 0)] + a4;
    OneStarts([SleepTimed(ms, 0)] + a4);
    OneSleeps(ms, a4);
    ExecuteOne(OneAsleep(ms), Return, a3);
    DanglingCrashes(StepReturn(OneAsleep(ms), 0), k, 0);
  }

  /** A freed coroutine that the sleep tree links with the earliest deadline. */
  lemma DanglingCrashes(s: State, k: nat, c: Co)
    requires s.phase.Poll? && s.curr.None? && s.now <= k && s.sleeping == map[k := c] && c !in s.rec
    ensures Execute(Ok(s), [PollStep(k, [])] + ([Loop] + [ExpireStep(k)])) == Crash(UseAfterFree)
  {
    ExecuteOne(s, PollStep(k, []), [Loop] + [ExpireStep(k)]);
    MinIs(s.sleeping.Keys, k);
    var s2 := s.(now := k, phase := Check);
    ExecuteOne(s2, Loop, [ExpireStep(k)]);
    assert [ExpireStep(k)] == [ExpireStep(k)] + [];
    ExecuteOne(s2.(phase := Expire), ExpireStep(k), []);
  }
}
