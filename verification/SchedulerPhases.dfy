/** In which order things happen: the phases of the run loop, the ready queue, a batch of events, the
    calls of renice; and how a run ends. */
module SchedulerPhases {
  import opened Common
  import opened Scheduler
  import opened SchedulerSafety
  import opened SchedulerRuns

  // ----- asking epoll -----

  /** The timeout is the time to the earliest deadline, and zero exactly when a deadline has passed. */
  lemma MinTimeoutIs(s: State, t: nat)
    requires s.sleeping != map[]
    ensures MinTimeout(s, t) == 0 <==> exists k :: k in s.sleeping && k <= t
    ensures MinTimeout(s, t) != 0 ==> IsMin(s.sleeping.Keys, t + MinTimeout(s, t))
  {
    var k := Min(s.sleeping.Keys);
    assert k in s.sleeping;
  }

  /** Epoll is asked, and its events are handled, exactly when nothing is ready and every deadline is
      still to come; otherwise the loop starts again at once. */
  lemma AsksEpoll(s: State, t: nat, events: seq<Event>)
    requires Enabled(s, PollStep(t, events))
    ensures var s' := Step(s, PollStep(t, events)).s;
            && s' == s.(now := t, phase := s'.phase)
            && s'.phase == (if s.ready == [] && (forall k :: k in s.sleeping ==> t < k) then Dispatch(events, {}) else Check)
  {
    if s.sleeping != map[] { MinTimeoutIs(s, t); }
  }

  // ----- the order of the phases -----

  predicate Follows(p: Phase, q: Phase) {
    match p
    case Setup => q.Setup? || q.Check?
    case Check => q.Expire? || q.Done?
    case Expire => q.Expire? || q.Ready?
    case Ready(_, _, _) => q.Ready? || q.Poll?
    case Poll => q.Check? || q.Dispatch?
    case Dispatch(_, _) => q.Dispatch? || q.Check?
    case Done => false
  }

  /** A body changes the phase only by switching away as the last of a round. */
  lemma BodyPhase(s: State, a: Action)
    requires Enabled(s, a) && Step(s, a).Ok? && (OfBody(a) || a.Create?)
    ensures Step(s, a).s.phase == s.phase || (Step(s, a).s.phase.Poll? && s.phase.Ready? && s.phase.last == s.curr)
  {
    if a.Return? { ReturnIs(s, s.curr.value); }
  }

  lemma LoopPhase(s: State, a: Action)
    requires Inv(s) && Enabled(s, a) && Disciplined(s, a) && Step(s, a).Ok? && !OfBody(a) && !a.Create?
    ensures Follows(s.phase, Step(s, a).s.phase)
    ensures a.DispatchStep? && !Step(s, a).s.phase.Dispatch? ==> s.phase.pending == []
    ensures a.ReadyStep? && Step(s, a).s.phase.Poll? ==> s.ready == []
  {
    if a.ReadyStep? { ReadyStepRound(s); }
  }

  /** The phases follow each other as in the source, and what ends each of them is: the expiry loop
      begins only with a failed exit test, the run ends only with a successful one, and a batch of
      events ends only when none of it is left. */
  lemma PhaseOrder(s: State, a: Action)
    requires Reachable(s) && Enabled(s, a) && Disciplined(s, a)
    ensures Step(s, a).Ok?
    ensures var s' := Step(s, a).s;
            && Follows(s.phase, s'.phase)
            && (s'.phase.Expire? && !s.phase.Expire? ==> a.Loop? && !IsDone(s))
            && (s'.phase.Done? ==> a.Loop? && IsDone(s))
            && (s'.phase.Dispatch? && !s.phase.Dispatch? ==> a.PollStep? && s'.phase == Dispatch(a.events, {}))
            && (s.phase.Dispatch? && !s'.phase.Dispatch? ==> a.DispatchStep? && s.phase.pending == [])
            && (s.phase.Ready? && !s'.phase.Ready? ==> s.phase.ran == s.phase.queued)
  {
    ReachableInv(s);
    StepInv(s, a);
    if OfBody(a) || a.Create? {
      BodyPhase(s, a);
    } else {
      LoopPhase(s, a);
    }
    if s.phase.Ready? { FifoRound(s, a); }
    if a.PollStep? { AsksEpoll(s, a.t, a.events); }
  }

  // ----- the end of a run -----

  /** How many steps of the loop are left at most when there is no coroutine any more. */
  function ToGo(p: Phase): nat {
    match p
    case Done => 0
    case Check => 1
    case Setup => 2
    case Dispatch(_, _) => 2
    case Poll => 3
    case Ready(_, _, _) => 4
    case Expire => 5
  }

  /** Whatever is linked anywhere is live. */
  lemma LinkedLive(s: State)
    requires Inv(s)
    ensures s.curr.Some? || s.ready != [] || s.sleeping != map[] || s.waiting != map[] ==> s.rec != map[]
    ensures s.phase.Dispatch? && s.phase.pending != [] ==> s.waiting != map[]
  {
    if s.ready != [] {
      assert s.ready[0] in s.rec;
    } else if s.sleeping != map[] {
      var k :| k in s.sleeping;
      assert s.sleeping[k] in s.rec;
    } else if s.waiting != map[] {
      var f := SomeKey(s.waiting);
      assert s.waiting[f] in s.rec;
    }
    if s.phase.Dispatch? && s.phase.pending != [] { assert s.phase.pending[0].fd in s.waiting.Keys; }
  }

  lemma NothingLeft(s: State)
    requires Inv(s) && s.rec == map[]
    ensures s.curr.None? && s.ready == [] && s.sleeping == map[] && s.waiting == map[] && s.interest == {}
    ensures s.phase.Dispatch? ==> s.phase.pending == []
  {
    LinkedLive(s);
  }

  lemma EmptyStep(s: State, a: Action)
    requires Inv(s) && s.rec == map[] && Enabled(s, a) && !a.Create?
    ensures Step(s, a).Ok? && Step(s, a).s.rec == map[] && ToGo(Step(s, a).s.phase) < ToGo(s.phase)
  {
    NothingLeft(s);
  }

  /** A step that the loop can take unless it has ended. */
  lemma EmptyMoves(s: State) returns (a: Action)
    requires Inv(s) && s.rec == map[] && !s.phase.Done?
    ensures Enabled(s, a) && Disciplined(s, a) && !a.Create?
  {
    NothingLeft(s);
    match s.phase
    case Setup => a := Begin;
    case Check => a := Loop;
    case Expire => a := ExpireStep(s.now);
    case Ready(_, _, _) => a := ReadyStep;
    case Poll => a := PollStep(s.now, []);
    case Dispatch(_, _) => a := DispatchStep;
  }

  /** Once no coroutine is left, wherever in the loop that is, the run takes at most five more steps,
      and it goes on until it has ended. */
  lemma {:induction false} EmptyEnds(s: State, acts: seq<Action>, s': State)
    requires Inv(s) && s.rec == map[] && Run(s, acts, s') && forall i :: 0 <= i < |acts| ==> !acts[i].Create?
    ensures |acts| + ToGo(s'.phase) <= ToGo(s.phase) <= 5
    ensures s'.rec == map[] && (s'.phase.Done? || exists a :: Enabled(s', a) && Disciplined(s', a) && !a.Create?)
    decreases |acts|
  {
    if acts == [] {
      if !s.phase.Done? {
        var a := EmptyMoves(s);
      }
    } else {
      EmptyStep(s, acts[0]);
      StepInv(s, acts[0]);
      forall i | 0 <= i < |acts[1..]| ensures !acts[1..][i].Create? { assert acts[1..][i] == acts[i + 1]; }
      EmptyEnds(Step(s, acts[0]).s, acts[1..], s');
    }
  }

  // ----- a batch of events -----

  /** A run inside one batch: every state but the last is in the dispatch phase. */
  ghost predicate Batch(s: State, acts: seq<Action>, s': State)
    decreases |acts|
  {
    if acts == [] then s' == s
    else
      && s.phase.Dispatch? && Enabled(s, acts[0]) && Disciplined(s, acts[0])
      && Step(s, acts[0]).Ok? && Batch(Step(s, acts[0]).s, acts[1..], s')
  }

  /** Whom the loop resumes during the batch. */
  ghost function Served(s: State, acts: seq<Action>, s': State): seq<Co>
    requires Batch(s, acts, s')
    decreases |acts|
  {
    if acts == [] then []
    else
      var t := Step(s, acts[0]).s;
      (if acts[0].DispatchStep? && t.curr.Some? then [t.curr.value] else []) + Served(t, acts[1..], s')
  }

  /** The waiters of the events, from the last event to the first. */
  ghost function Backwards(waiting: map<Fd, Co>, pending: seq<Event>): seq<Co>
    requires forall i :: 0 <= i < |pending| ==> pending[i].fd in waiting
  {
    if pending == [] then []
    else
      var n := |pending| - 1;
      [waiting[pending[n].fd]] + Backwards(waiting, pending[..n])
  }

  lemma {:induction false} SameWaiters(w: map<Fd, Co>, w': map<Fd, Co>, pending: seq<Event>)
    requires forall i :: 0 <= i < |pending| ==> pending[i].fd in w && pending[i].fd in w' && w[pending[i].fd] == w'[pending[i].fd]
    ensures Backwards(w, pending) == Backwards(w', pending)
  {
    if pending != [] { SameWaiters(w, w', pending[..|pending| - 1]); }
  }

  lemma PendingWait(s: State)
    requires Inv(s) && s.phase.Dispatch?
    ensures forall i :: 0 <= i < |s.phase.pending| ==>
              s.phase.pending[i].fd in s.waiting && s.waiting[s.phase.pending[i].fd] !in s.phase.resumed
  {
    forall i | 0 <= i < |s.phase.pending|
      ensures s.phase.pending[i].fd in s.waiting && s.waiting[s.phase.pending[i].fd] !in s.phase.resumed
    {
      assert s.phase.pending[i].fd in s.waiting.Keys;
    }
  }

  /** A step of a body leaves the waiters of pending events alone: it can only remove its own entry. */
  lemma BodyWaiters(s: State, a: Action)
    requires Inv(s) && s.phase.Dispatch? && Enabled(s, a) && Disciplined(s, a) && Step(s, a).Ok? && (OfBody(a) || a.Create?)
    ensures forall f :: f in s.waiting && s.waiting[f] !in s.phase.resumed ==>
              f in Step(s, a).s.waiting && Step(s, a).s.waiting[f] == s.waiting[f]
  {
    match a
    case PollReturn => OwnEntry(s, s.curr.value);
    case Return => ReturnIs(s, s.curr.value);
    case PollFd(fd, dir) => PollWaiters(s, s.curr.value, fd, dir);
    case _ =>
  }

  lemma PollWaiters(s: State, c: Co, fd: Fd, dir: Direction)
    requires c in s.rec && StepPollFd(s, c, fd, dir).Ok?
    ensures fd !in s.waiting && StepPollFd(s, c, fd, dir).s.waiting == s.waiting[fd := c]
  {
  }

  lemma OwnEntry(s: State, c: Co)
    requires Inv(s) && s.phase.Dispatch? && s.curr == Some(c) && s.rec[c].pc.InPoll?
    ensures s.rec[c].pc.fd in s.waiting && s.waiting[s.rec[c].pc.fd] == c && c in s.phase.resumed
  {
    CoreAt(s.rec, s.curr, s.ready, s.sleeping, s.waiting, c);
  }

  /** One event: the waiter of the last one pending becomes the current coroutine, marked with end of
      file exactly when the event says so, and the rest of the batch stays. */
  lemma EventServed(s: State)
    requires Inv(s) && s.phase.Dispatch? && s.curr.None? && s.phase.pending != []
    ensures Step(s, DispatchStep).Ok?
    ensures var n := |s.phase.pending| - 1;
            var ev, s' := s.phase.pending[n], Step(s, DispatchStep).s;
            && ev.fd in s.waiting && s'.curr == Some(s.waiting[ev.fd]) && s'.waiting == s.waiting
            && s'.curr.value in s'.rec && (FDEOF in s'.rec[s'.curr.value].status <==> ev.hup)
            && s'.phase.Dispatch? && s'.phase.pending == s.phase.pending[..n]
  {
    DispatchWaiter(s);
  }

  /** A whole batch: when it is over, the loop has resumed exactly the waiters that its events had at
      the start, each once, from the last event to the first. */
  lemma {:induction false} BatchServed(s: State, acts: seq<Action>, s': State)
    requires Inv(s) && s.phase.Dispatch? && Batch(s, acts, s') && !s'.phase.Dispatch?
    ensures forall i :: 0 <= i < |s.phase.pending| ==> s.phase.pending[i].fd in s.waiting
    ensures Served(s, acts, s') == Backwards(s.waiting, s.phase.pending)
    decreases |acts|
  {
    PendingWait(s);
    var a, t := acts[0], Step(s, acts[0]).s;
    StepInv(s, a);
    if a.DispatchStep? {
      if s.phase.pending != [] {
        EventServed(s);
        BatchServed(t, acts[1..], s');
      } else {
        assert t.phase.Check?;
      }
    } else {
      BodyKeepsBatch(s, a);
      BatchServed(t, acts[1..], s');
    }
  }

  lemma BodyKeepsBatch(s: State, a: Action)
    requires Inv(s) && s.phase.Dispatch? && Enabled(s, a) && Disciplined(s, a) && Step(s, a).Ok? && (OfBody(a) || a.Create?)
    ensures var t, q := Step(s, a).s, s.phase.pending;
            && t.phase == s.phase && (forall i :: 0 <= i < |q| ==> q[i].fd in s.waiting && q[i].fd in t.waiting)
            && Backwards(t.waiting, q) == Backwards(s.waiting, q)
  {
    PendingWait(s);
    BodyPhase(s, a);
    BodyWaiters(s, a);
    SameWaiters(s.waiting, Step(s, a).s.waiting, s.phase.pending);
  }

  // ----- the ready queue over a run -----

  /** Who joins the queue in a step: a new coroutine, or one that gives up the processor for others. */
  ghost function Joins(s: State, a: Action): seq<Co>
    requires Enabled(s, a) && Step(s, a).Ok?
  {
    if a.Create? then [a.co]
    else if a.SleepZero? || (a.Renice? && Step(s, a).s.curr.None?) then [s.curr.value]
    else []
  }

  /** Whom a step of the ready phase resumes. */
  ghost function Starts(s: State, a: Action): seq<Co>
    requires Enabled(s, a) && Step(s, a).Ok?
  {
    if a.ReadyStep? && Step(s, a).s.curr.Some? then [Step(s, a).s.curr.value] else []
  }

  lemma StepQueue(s: State, a: Action)
    requires Inv(s) && Enabled(s, a) && Disciplined(s, a) && Step(s, a).Ok?
    ensures s.ready + Joins(s, a) == Starts(s, a) + Step(s, a).s.ready
  {
    if a.ReadyStep? {
      ReadyQueue(s);
      Empty(s.ready);
    } else {
      if OfBody(a) { BodyQueue(s, a); } else { LoopQueue(s, a); }
      Empty(Step(s, a).s.ready);
    }
  }

  lemma Empty<A>(q: seq<A>)
    ensures q + [] == q == [] + q
  {
  }

  lemma LoopQueue(s: State, a: Action)
    requires Enabled(s, a) && Step(s, a).Ok? && !OfBody(a) && !a.ReadyStep?
    ensures Step(s, a).s.ready == if a.Create? then s.ready + [a.co] else s.ready
  {
  }

  lemma BodyQueue(s: State, a: Action)
    requires Inv(s) && Enabled(s, a) && Disciplined(s, a) && Step(s, a).Ok? && OfBody(a)
    ensures Step(s, a).s.ready ==
            s.ready + if a.SleepZero? || (a.Renice? && Step(s, a).s.curr.None?) then [s.curr.value] else []
  {
    Empty(s.ready);
    match a
    case Return => ReturnIs(s, s.curr.value);
    case Yield => YieldQueue(s, s.curr.value);
    case SleepZero => YieldQueue(s.(ready := s.ready + [s.curr.value]), s.curr.value);
    case Renice => ReniceQueue(s, s.curr.value);
    case PollFd(fd, dir) => PollQueue(s, s.curr.value, fd, dir);
    case _ =>
  }

  lemma ReadyQueue(s: State)
    requires Inv(s) && s.phase.Ready? && s.curr.None?
    ensures StepReady(s).Ok?
    ensures var t := StepReady(s).s;
            if s.ready == [] then t.ready == [] && t.curr.None? else t.curr == Some(s.ready[0]) && s.ready == [s.ready[0]] + t.ready
  {
    if s.ready != [] { ReadyHead(s); }
  }

  lemma YieldQueue(s: State, c: Co)
    requires c in s.rec
    ensures YieldNow(s, c).ready == s.ready && YieldNow(s, c).curr.None?
  {
  }

  lemma ReniceQueue(s: State, c: Co)
    requires c in s.rec && s.curr == Some(c)
    ensures var t := StepRenice(s, c); t.ready == s.ready + if t.curr.None? then [c] else []
  {
    var s1 := s.(rec := s.rec[c := s.rec[c].(ops := s.rec[c].ops + 1)]);
    YieldQueue(s1.(ready := s1.ready + [c]), c);
  }

  lemma PollQueue(s: State, c: Co, fd: Fd, dir: Direction)
    requires c in s.rec && StepPollFd(s, c, fd, dir).Ok?
    ensures StepPollFd(s, c, fd, dir).s.ready == s.ready
  {
  }

  ghost function Joined(s: State, acts: seq<Action>, s': State): seq<Co>
    requires Run(s, acts, s')
    decreases |acts|
  {
    if acts == [] then [] else Joins(s, acts[0]) + Joined(Step(s, acts[0]).s, acts[1..], s')
  }

  ghost function Started(s: State, acts: seq<Action>, s': State): seq<Co>
    requires Run(s, acts, s')
    decreases |acts|
  {
    if acts == [] then [] else Starts(s, acts[0]) + Started(Step(s, acts[0]).s, acts[1..], s')
  }

  /** First in, first out over any run: what was queued and what joined is what was started, in that
      order, and what is still queued. */
  lemma {:induction false} QueueFifo(s: State, acts: seq<Action>, s': State)
    requires Inv(s) && Run(s, acts, s')
    ensures s.ready + Joined(s, acts, s') == Started(s, acts, s') + s'.ready
    decreases |acts|
  {
    if acts != [] {
      var t := Step(s, acts[0]).s;
      StepInv(s, acts[0]);
      StepQueue(s, acts[0]);
      QueueFifo(t, acts[1..], s');
      Chain(s.ready, Joins(s, acts[0]), Joined(t, acts[1..], s'), Starts(s, acts[0]), t.ready, Started(t, acts[1..], s'), s'.ready);
    }
  }

  lemma Chain<A>(q: seq<A>, j: seq<A>, js: seq<A>, b: seq<A>, r: seq<A>, bs: seq<A>, q': seq<A>)
    requires q + j == b + r && r + js == bs + q'
    ensures q + (j + js) == (b + bs) + q'
  {
    assert q + (j + js) == (q + j) + js == (b + r) + js == b + (r + js) == b + (bs + q') == (b + bs) + q';
  }

  // ----- renice -----

  /** The calls of renice to the account of the current coroutine. */
  ghost function Calls(s: State): nat {
    if s.curr.Some? && s.curr.value in s.rec then s.rec[s.curr.value].ops else 0
  }

  /** Nobody else has any, and it has fewer than five. */
  ghost predicate Tally(s: State) {
    forall c :: c in s.rec ==> s.rec[c].ops < 5 && (s.curr != Some(c) ==> s.rec[c].ops == 0)
  }

  lemma YieldTally(s: State, c: Co)
    requires c in s.rec && s.curr == Some(c) && forall d :: d in s.rec && d != c ==> s.rec[d].ops == 0
    ensures Tally(YieldNow(s, c)) && YieldNow(s, c).curr.None?
  {
  }

  lemma ResumeTally(s: State, c: Co)
    requires Tally(s) && s.curr.None? && Resume(s, c).Ok?
    ensures var t := Resume(s, c).s; Tally(t) && t.curr == Some(c) && Calls(t) == 0
  {
  }

  lemma ExpireTally(s: State, t: nat)
    requires Tally(s) && s.curr.None? && StepExpire(s, t).Ok?
    ensures var s' := StepExpire(s, t).s; Tally(s') && Calls(s') == 0
  {
    if s.sleeping != map[] && Min(s.sleeping.Keys) <= t {
      var k := Min(s.sleeping.Keys);
      ResumeTally(s.(sleeping := s.sleeping - {k}, now := t, woken := s.woken + [Wake(k, t)]), s.sleeping[k]);
    }
  }

  lemma ReadyTally(s: State)
    requires Tally(s) && s.phase.Ready? && s.curr.None? && StepReady(s).Ok?
    ensures var s' := StepReady(s).s; Tally(s') && Calls(s') == 0
  {
    if s.ready != [] {
      var c := s.ready[0];
      var s1 := s.(ready := s.ready[1..], phase := s.phase.(ran := s.phase.ran + [c]));
      if FDEOF !in s.rec[c].status { ResumeTally(s1, c); }
    }
  }

  lemma DispatchTally(s: State)
    requires Tally(s) && s.phase.Dispatch? && s.curr.None? && StepDispatch(s).Ok?
    ensures var s' := StepDispatch(s).s; Tally(s') && Calls(s') == 0
  {
    if s.phase.pending != [] {
      var ev := s.phase.pending[|s.phase.pending| - 1];
      var c := s.waiting[ev.fd];
      ResumeTally(s.(phase := Dispatch(s.phase.pending[..|s.phase.pending| - 1], s.phase.resumed + {c}),
                     rec := s.rec[c := s.rec[c].(status := if ev.hup then {FDEOF} else {})]), c);
    }
  }

  lemma LoopTally(s: State, a: Action)
    requires Tally(s) && Enabled(s, a) && Step(s, a).Ok? && !OfBody(a)
    ensures var s' := Step(s, a).s; Tally(s') && (s'.curr == s.curr || Calls(s') == 0) && (s'.curr == s.curr ==> Calls(s') == Calls(s))
  {
    match a
    case ReadyStep => ReadyTally(s);
    case DispatchStep => DispatchTally(s);
    case ExpireStep(t) => ExpireTally(s, t);
    case _ =>
  }

  /** What a body does to the count, `s'` being the state after its step. */
  ghost predicate Counted(s: State, a: Action, s': State) {
    && Tally(s') && (s'.curr == s.curr || s'.curr.None?)
    && (s'.curr == s.curr ==> Calls(s') == Calls(s) + if a.Renice? then 1 else 0)
    && (a.Renice? ==> (s'.curr.None? <==> Calls(s) == 4))
  }

  lemma ReniceTally(s: State, c: Co)
    requires Tally(s) && s.curr == Some(c) && c in s.rec
    ensures Counted(s, Renice, StepRenice(s, c))
  {
    var s1 := s.(rec := s.rec[c := s.rec[c].(ops := s.rec[c].ops + 1)]);
    if s.rec[c].ops + 1 >= 5 { YieldTally(s1.(ready := s1.ready + [c]), c); }
  }

  lemma PollFdTally(s: State, c: Co, fd: Fd, dir: Direction)
    requires Tally(s) && s.curr == Some(c) && c in s.rec && StepPollFd(s, c, fd, dir).Ok?
    ensures Counted(s, PollFd(fd, dir), StepPollFd(s, c, fd, dir).s)
  {
    var st := s.rec[c].status;
    YieldTally(s.(interest := s.interest + {fd}, waiting := s.waiting[fd := c],
                  rec := s.rec[c := s.rec[c].(status := st + RawWaitBits(dir), fd := fd, pc := InPoll(fd))]), c);
  }

  lemma PollReturnTally(s: State, c: Co)
    requires Tally(s) && s.curr == Some(c) && c in s.rec && s.rec[c].pc.InPoll? && StepPollReturn(s, c).Ok?
    ensures Counted(s, PollReturn, StepPollReturn(s, c).s)
  {
  }

  lemma ReturnTally(s: State, c: Co)
    requires Tally(s) && s.curr == Some(c) && c in s.rec
    ensures Counted(s, Return, StepReturn(s, c))
  {
    ReturnIs(s, c);
  }

  lemma BodyTally(s: State, a: Action)
    requires Tally(s) && Enabled(s, a) && Step(s, a).Ok? && OfBody(a)
    ensures Counted(s, a, Step(s, a).s)
  {
    var c := s.curr.value;
    match a
    case SleepZero => YieldTally(s.(ready := s.ready + [c]), c);
    case Yield => YieldTally(s, c);
    case Renice => ReniceTally(s, c);
    case PollFd(fd, dir) => PollFdTally(s, c, fd, dir);
    case PollReturn => PollReturnTally(s, c);
    case Return => ReturnTally(s, c);
    case _ =>
  }

  lemma {:induction false} RunTally(s: State, acts: seq<Action>, s': State)
    requires Tally(s) && Run(s, acts, s')
    ensures Tally(s')
    decreases |acts|
  {
    if acts != [] {
      if OfBody(acts[0]) { BodyTally(s, acts[0]); } else { LoopTally(s, acts[0]); }
      RunTally(Step(s, acts[0]).s, acts[1..], s');
    }
  }

  /** A coroutine begins every turn with a count of zero, only its own calls of renice count, and just
      the fifth of them within a turn switches away. */
  lemma ReniceEveryFifth(s: State, a: Action)
    requires Reachable(s) && Enabled(s, a) && Disciplined(s, a)
    ensures Step(s, a).Ok?
    ensures var s' := Step(s, a).s;
            && (s'.curr != s.curr ==> Calls(s') == 0)
            && (s'.curr == s.curr ==> Calls(s') == Calls(s) + if a.Renice? then 1 else 0)
            && (a.Renice? ==> (s'.curr.None? <==> Calls(s) == 4))
  {
    ReachableInv(s);
    StepInv(s, a);
    var acts :| Run(INIT, acts, s);
    RunTally(INIT, acts, s);
    if OfBody(a) { BodyTally(s, a); } else { LoopTally(s, a); }
  }

  // ----- waiting and sleeping, in detail -----

  /** A poll for input leaves the status as it is, one for output adds exactly the bit 0, and it is
      this bit alone that makes another poll fail while it is there. */
  lemma WaitBits(s: State, fd: Fd, dir: Direction)
    requires Inv(s) && Enabled(s, PollFd(fd, dir)) && Disciplined(s, PollFd(fd, dir))
    ensures var c, s' := s.curr.value, Step(s, PollFd(fd, dir)).s;
            && Step(s, PollFd(fd, dir)).Ok? && c in s'.rec
            && s'.rec[c].status == s.rec[c].status + (if dir == Out then {WAIT_READ} else {})
            && (forall f :: StepPollFd(s', c, f, dir) == Crash(AlreadyWaiting) <==> dir == Out)
  {
    var c := s.curr.value;
    CoreAt(s.rec, s.curr, s.ready, s.sleeping, s.waiting, c);
    ArmedAsleep(s, c);
    PollFdIs(s, c, fd, dir, Rec(s.rec[c].status + RawWaitBits(dir), fd, s.rec[c].sleep, 0, InPoll(fd)));
  }

  /** A request to sleep for no time links nobody: it only takes its caller out of the sleep tree. */
  lemma ZeroSleepLinksNobody(s: State, c: Co, t: nat)
    requires Inv(s) && c in s.rec
    ensures var s' := Sleepdown(s, c, 0, t);
            && c !in s'.sleeping.Values && s'.rec[c].sleep == t
            && (forall k :: k in s'.sleeping <==> k in s.sleeping && s.sleeping[k] != c)
            && (forall k :: k in s'.sleeping ==> s'.sleeping[k] == s.sleeping[k])
  {
    if s.rec[c].sleep in s.sleeping { EvictsOnlyItself(s.rec, s.sleeping, s.now, c); }
    TreeMembers(s, c);
    forall k | k in s.sleeping && s.sleeping[k] == c ensures k == s.rec[c].sleep { assert s.rec[s.sleeping[k]].sleep == k; }
  }
}
