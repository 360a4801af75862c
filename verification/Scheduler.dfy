/** The scheduler of core/nty_schedule.c and core/nty_coroutine.c as a step machine.

    One step is one thing that the run loop or the running coroutine does between two points
    where the other can look.  The sleep tree and the wait tree appear as the maps that
    `RBTree` maintains; the clock, the events and the bodies of coroutines are arbitrary inputs. */
module Scheduler {
  import opened Common

  /** The identity of a coroutine object; an object that was freed keeps its identity. */
  type Co = nat

  /** A file descriptor that epoll accepts. */
  type Fd = nat

  // ----- status bits (core/nty_coroutine.h:92-109) -----

  const WAIT_READ := 0
  const WAIT_WRITE := 1
  const NEW := 2
  const READY := 3
  const EXITED := 4
  const SLEEPING := 6
  const FDEOF := 8
  const DETACH := 9

  /** What a poll asks for: POLLIN, else POLLOUT, or none of the two. */
  datatype Direction = In | Out | Neither

  /** The bits set by OR-ing in NTY_COROUTINE_STATUS_WAIT_READ (the number 0) or
      NTY_COROUTINE_STATUS_WAIT_WRITE (the number 1) without shifting. */
  function RawWaitBits(d: Direction): set<nat> { if d == Out then {0} else {} }

  /** Where a coroutine continues when it is resumed. */
  datatype Pc = Start | Body | InPoll(fd: Fd)

  datatype Rec = Rec(status: set<nat>, fd: int, sleep: nat, ops: nat, pc: Pc)

  datatype Event = Event(fd: Fd, hup: bool)

  /** A sleeper taken out of the tree: its deadline and the clock reading that allowed it. */
  datatype Wake = Wake(deadline: nat, at: nat)

  datatype Phase =
    | Setup
    | Check
    | Expire
    | Ready(last: Option<Co>, queued: seq<Co>, ran: seq<Co>)
    | Poll
    | Dispatch(pending: seq<Event>, resumed: set<Co>)
    | Done

  datatype State = State(
    phase: Phase,
    curr: Option<Co>,
    rec: map<Co, Rec>,
    ready: seq<Co>,
    sleeping: map<nat, Co>,
    waiting: map<Fd, Co>,
    interest: set<Fd>,
    spawned: int,
    freed: seq<Co>,
    now: nat,
    woken: seq<Wake>)

  const INIT := State(Setup, None, map[], [], map[], map[], {}, 0, [], 0, [])

  /** Places where the C code would follow a dangling or null pointer, or fail an assertion. */
  datatype Fault = UseAfterFree | NoWaiter | AlreadyWaiting | NoDirection | DuplicateFd

  datatype Outcome = Ok(s: State) | Crash(why: Fault)

  datatype Action =
    | Create(co: Co)
    | Begin
    | Loop
    | ExpireStep(t: nat)
    | ReadyStep
    | PollStep(t: nat, events: seq<Event>)
    | DispatchStep
    | SleepZero
    | SleepTimed(ms: nat, t: nat)
    | Yield
    | Renice
    | PollFd(fd: Fd, dir: Direction)
    | PollReturn
    | Return

  /** The steps that the running coroutine takes, creations aside. */
  predicate OfBody(a: Action) {
    a.SleepZero? || a.SleepTimed? || a.Yield? || a.Renice? || a.PollFd? || a.PollReturn? || a.Return?
  }

  // ----- sleeping -----

  ghost function AtLeast(keys: set<int>, d: int): set<int> { set k | k in keys && d <= k }

  /** The collision loop of sleepdown: the least unused deadline from `d` on. */
  ghost function LeastFree(keys: set<int>, d: int): (k: int)
    ensures d <= k && k !in keys && (forall j :: d <= j < k ==> j in keys)
    ensures k - d <= |AtLeast(keys, d)| <= |keys|
    decreases |AtLeast(keys, d)|
  {
    SubsetSize(AtLeast(keys, d), keys);
    if d in keys then
      assert AtLeast(keys, d) == AtLeast(keys, d + 1) + {d};
      LeastFree(keys, d + 1)
    else d
  }

  ghost predicate Taken(keys: set<int>, d: int, k: int) { forall j :: d <= j < k ==> j in keys }

  lemma SomeFree(keys: set<int>, d: int) returns (k: int)
    ensures d <= k && k !in keys
  {
    k := LeastFree(keys, d);
  }

  lemma TakenMore(keys: set<int>, d: int, k: int)
    requires Taken(keys, d, k) && k in keys
    ensures Taken(keys, d, k + 1)
  {
  }

  /** The least unused deadline is the only one with everything before it taken. */
  lemma LeastFreeIs(keys: set<int>, d: int, k: int)
    requires d <= k && k !in keys && Taken(keys, d, k)
    ensures k == LeastFree(keys, d)
  {
  }

  lemma {:induction false} SubsetSize<A>(a: set<A>, b: set<A>)
    requires a <= b
    ensures |a| <= |b|
  {
    if a != {} {
      var x :| x in a;
      SubsetSize(a - {x}, b - {x});
    }
  }

  ghost predicate IsMin(keys: set<nat>, k: nat) { k in keys && forall j :: j in keys ==> k <= j }

  lemma {:induction false} MinExists(keys: set<nat>)
    requires keys != {}
    ensures exists k :: IsMin(keys, k)
  {
    var x :| x in keys;
    if keys != {x} {
      MinExists(keys - {x});
      var m :| IsMin(keys - {x}, m);
      forall j | j in keys ensures j == x || m <= j {
        assert j != x ==> j in keys - {x};
      }
      assert IsMin(keys, if x < m then x else m);
    } else {
      assert IsMin(keys, x);
    }
  }

  lemma MinIs(keys: set<nat>, k: nat)
    requires IsMin(keys, k)
    ensures Min(keys) == k
  {
  }

  ghost function Min(keys: set<nat>): (k: nat)
    requires keys != {}
    ensures IsMin(keys, k)
  {
    MinExists(keys);
    var k :| IsMin(keys, k);
    k
  }

  /** nty_schedule_sched_sleepdown: whoever sits at the stale key is evicted first. */
  ghost function Sleepdown(s: State, c: Co, ms: nat, t: nat): State
    requires c in s.rec
  {
    var rest := s.sleeping - {s.rec[c].sleep};
    var k := LeastFree(rest.Keys, t + ms * 1000);
    if ms == 0 then
      s.(sleeping := rest, rec := s.rec[c := s.rec[c].(sleep := t)], now := t)
    else Arm(s, c, k, t)
  }

  ghost function Arm(s: State, c: Co, k: nat, t: nat): State
    requires c in s.rec
  {
    s.(sleeping := (s.sleeping - {s.rec[c].sleep})[k := c], now := t,
       rec := s.rec[c := s.rec[c].(sleep := k, status := s.rec[c].status + {SLEEPING})])
  }

  // ----- switching -----

  /** nty_coroutine_resume up to the switch into the coroutine. */
  ghost function Resume(s: State, c: Co): Outcome {
    if c !in s.rec then Crash(UseAfterFree)
    else if NEW in s.rec[c].status then
      Ok(s.(curr := Some(c), rec := s.rec[c := s.rec[c].(status := {READY}, pc := Body)]))
    else Ok(s.(curr := Some(c)))
  }

  ghost function Free(s: State, c: Co): State {
    s.(rec := s.rec - {c}, spawned := s.spawned - 1, freed := s.freed + [c])
  }

  /** The rest of the loop body after a resume in the ready phase. */
  ghost function AfterRun(ph: Phase, c: Co): Phase {
    if ph.Ready? && ph.last == Some(c) then Poll else ph
  }

  /** nty_coroutine_yield and the part of nty_coroutine_resume after the switch back. */
  ghost function YieldNow(s: State, c: Co): State
    requires c in s.rec
  {
    var s1 := s.(curr := None, phase := AfterRun(s.phase, c), rec := s.rec[c := s.rec[c].(ops := 0)]);
    if {EXITED, DETACH} <= s.rec[c].status then Free(s1, c) else s1
  }

  // ----- steps -----

  /** The steps that control flow allows in `s`, with the inputs that the environment may supply:
      a clock that does not run backwards, events of registered descriptors, fresh objects. */
  ghost predicate Enabled(s: State, a: Action) {
    match a
    case Create(c) => c !in s.rec && c !in s.freed && (s.phase.Setup? || Running(s, Body))
    case Begin => s.phase.Setup?
    case Loop => s.phase.Check?
    case ExpireStep(t) => s.phase.Expire? && s.curr.None? && s.now <= t
    case ReadyStep => s.phase.Ready? && s.curr.None?
    case PollStep(t, events) => s.phase.Poll? && s.now <= t && EventsOf(s.interest, events)
    case DispatchStep => s.phase.Dispatch? && s.curr.None?
    case SleepTimed(ms, t) => Running(s, Body) && 0 < ms && s.now <= t
    case PollReturn => s.curr.Some? && s.curr.value in s.rec && s.rec[s.curr.value].pc.InPoll?
    case _ => Running(s, Body)
  }

  ghost predicate Running(s: State, pc: Pc) { s.curr.Some? && s.curr.value in s.rec && s.rec[s.curr.value].pc == pc }

  /** epoll_wait reports each registered descriptor at most once. */
  ghost predicate EventsOf(interest: set<Fd>, events: seq<Event>) {
    && (forall i :: 0 <= i < |events| ==> events[i].fd in interest)
    && (forall i, j :: 0 <= i < j < |events| ==> events[i].fd != events[j].fd)
  }

  /** The running coroutine is linked in the sleep tree: a timed sleep does not yield by itself. */
  ghost predicate Armed(s: State) { s.curr.Some? && s.curr.value in s.sleeping.Values }

  /** What the runtime asks of its clients: after a timed sleep the next switch is a plain yield,
      a plain yield happens only then, a poll asks for input or output, and no descriptor has two
      waiters.  (Renice switches on every fifth call only.) */
  ghost predicate Disciplined(s: State, a: Action) {
    match a
    case Yield => Armed(s)
    case SleepZero => !Armed(s)
    case Renice => Armed(s) && s.curr.value in s.rec ==> s.rec[s.curr.value].ops + 1 < 5
    case Return => !Armed(s)
    case PollFd(fd, dir) => !Armed(s) && fd !in s.waiting && dir != Neither
    case _ => true
  }

  ghost function Step(s: State, a: Action): Outcome
    requires Enabled(s, a)
  {
    match a
    case Create(c) => Ok(StepCreate(s, c))
    case Begin => Ok(s.(phase := Check))
    case Loop => Ok(s.(phase := if IsDone(s) then Done else Expire))
    case ExpireStep(t) => StepExpire(s, t)
    case ReadyStep => StepReady(s)
    case PollStep(t, events) => Ok(StepPoll(s, t, events))
    case DispatchStep => StepDispatch(s)
    case SleepTimed(ms, t) => Ok(Sleepdown(s, s.curr.value, ms, t))
    case Yield => Ok(YieldNow(s, s.curr.value))
    case SleepZero => Ok(YieldNow(s.(ready := s.ready + [s.curr.value]), s.curr.value))
    case Renice => Ok(StepRenice(s, s.curr.value))
    case PollFd(fd, dir) => StepPollFd(s, s.curr.value, fd, dir)
    case PollReturn => StepPollReturn(s, s.curr.value)
    case Return => Ok(StepReturn(s, s.curr.value))
  }

  ghost function StepCreate(s: State, c: Co): State {
    s.(rec := s.rec[c := Rec({NEW}, -1, 0, 0, Start)], ready := s.ready + [c], spawned := s.spawned + 1)
  }

  predicate IsDone(s: State) { s.waiting == map[] && s.sleeping == map[] && s.ready == [] }

  /** One call of nty_schedule_expired, and the resume it leads to. */
  ghost function StepExpire(s: State, t: nat): Outcome {
    if s.sleeping != map[] && Min(s.sleeping.Keys) <= t then
      var k := Min(s.sleeping.Keys);
      Resume(s.(sleeping := s.sleeping - {k}, now := t, woken := s.woken + [Wake(k, t)]), s.sleeping[k])
    else
      Ok(s.(now := t, phase := Ready(Last(s.ready), s.ready, [])))
  }

  function Last(q: seq<Co>): Option<Co> { if q == [] then None else Some(q[|q| - 1]) }

  ghost function StepReady(s: State): Outcome
    requires s.phase.Ready?
  {
    if s.ready == [] then Ok(s.(phase := Poll))
    else
      var c := s.ready[0];
      var s1 := s.(ready := s.ready[1..], phase := s.phase.(ran := s.phase.ran + [c]));
      if c !in s.rec then Crash(UseAfterFree)
      else if FDEOF in s.rec[c].status then Ok(Free(s1, c).(phase := Poll))
      else Resume(s1, c)
  }

  /** nty_schedule_min_timeout. */
  ghost function MinTimeout(s: State, t: nat): nat {
    if s.sleeping == map[] then 3000000
    else if Min(s.sleeping.Keys) > t then Min(s.sleeping.Keys) - t else 0
  }

  ghost function StepPoll(s: State, t: nat, events: seq<Event>): State {
    if MinTimeout(s, t) != 0 && s.ready == [] then s.(now := t, phase := Dispatch(events, {}))
    else s.(now := t, phase := Check)
  }

  /** The event list is read from its end; nty_schedule_search_wait follows the result unchecked. */
  ghost function StepDispatch(s: State): Outcome
    requires s.phase.Dispatch?
  {
    if s.phase.pending == [] then Ok(s.(phase := Check))
    else
      var ev := s.phase.pending[|s.phase.pending| - 1];
      if ev.fd !in s.waiting then Crash(NoWaiter)
      else
        var c := s.waiting[ev.fd];
        if c !in s.rec then Crash(UseAfterFree)
        else
          Resume(s.(phase := Dispatch(s.phase.pending[..|s.phase.pending| - 1], s.phase.resumed + {c}),
                    rec := s.rec[c := s.rec[c].(status := if ev.hup then {FDEOF} else {})]), c)
  }

  ghost function StepRenice(s: State, c: Co): State
    requires c in s.rec
  {
    var s1 := s.(rec := s.rec[c := s.rec[c].(ops := s.rec[c].ops + 1)]);
    if s.rec[c].ops + 1 < 5 then s1 else YieldNow(s1.(ready := s1.ready + [c]), c)
  }

  /** nty_poll_inner up to its yield: EPOLL_CTL_ADD, then nty_schedule_sched_wait with timeout 1. */
  ghost function StepPollFd(s: State, c: Co, fd: Fd, dir: Direction): Outcome
    requires c in s.rec
  {
    var st := s.rec[c].status;
    if WAIT_READ in st || WAIT_WRITE in st then Crash(AlreadyWaiting)
    else if dir == Neither then Crash(NoDirection)
    else if fd in s.waiting then Crash(DuplicateFd)
    else
      Ok(YieldNow(s.(interest := s.interest + {fd}, waiting := s.waiting[fd := c],
                     rec := s.rec[c := s.rec[c].(status := st + RawWaitBits(dir), fd := fd, pc := InPoll(fd))]), c))
  }

  /** nty_poll_inner after its yield: EPOLL_CTL_DEL, then nty_schedule_desched_wait, which clears
      the status before desched_sleepdown looks at it. */
  ghost function StepPollReturn(s: State, c: Co): Outcome
    requires c in s.rec && s.rec[c].pc.InPoll?
  {
    var fd := s.rec[c].pc.fd;
    if fd !in s.waiting || s.waiting[fd] !in s.rec then Crash(NoWaiter)
    else
      var w := s.waiting[fd];
      var rec := s.rec[w := s.rec[w].(status := {})];
      Ok(s.(interest := s.interest - {fd}, waiting := s.waiting - {fd}, rec := rec[c := rec[c].(pc := Body)]))
  }

  ghost function StepReturn(s: State, c: Co): State
    requires c in s.rec
  {
    YieldNow(s.(rec := s.rec[c := s.rec[c].(status := s.rec[c].status + {EXITED, FDEOF, DETACH})]), c)
  }
}
