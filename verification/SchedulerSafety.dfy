/** What holds in every state that disciplined clients can reach. */
module SchedulerSafety {
  import opened Common
  import opened Scheduler

  type Recs = map<Co, Rec>
  type SleepTree = map<nat, Co>
  type WaitTree = map<Fd, Co>

  predicate Asleep(rec: Recs, sleeping: SleepTree, c: Co)
    requires c in rec
  {
    rec[c].sleep in sleeping && sleeping[rec[c].sleep] == c
  }

  /** Everything linked anywhere is live and carries the key under which it hangs. */
  ghost predicate Links(rec: Recs, curr: Option<Co>, ready: seq<Co>, sleeping: SleepTree, waiting: WaitTree) {
    && NoDup(ready) && (forall i :: 0 <= i < |ready| ==> ready[i] in rec)
    && (forall k :: k in sleeping ==> sleeping[k] in rec && rec[sleeping[k]].sleep == k)
    && (forall f :: f in waiting ==> waiting[f] in rec && rec[waiting[f]].pc == InPoll(f))
    && (curr.Some? ==> curr.value in rec)
  }

  predicate Place(c: Co, r: Rec, curr: Option<Co>, ready: seq<Co>, sleeping: SleepTree, waiting: WaitTree) {
    var asleep := r.sleep in sleeping && sleeping[r.sleep] == c;
    && (r.pc.InPoll? ==> r.pc.fd in waiting && waiting[r.pc.fd] == c)
    && (c in ready ==> curr != Some(c) && !asleep && !r.pc.InPoll?)
    && (asleep ==> !r.pc.InPoll?)
    && (curr == Some(c) || c in ready || asleep || r.pc.InPoll?)
  }

  /** Every live coroutine is in exactly one place; one that polls is in the wait tree until it
      takes itself out, and only the running coroutine can also be in the sleep tree. */
  ghost predicate Places(rec: Recs, curr: Option<Co>, ready: seq<Co>, sleeping: SleepTree, waiting: WaitTree) {
    forall c :: c in rec ==> Place(c, rec[c], curr, ready, sleeping, waiting)
  }

  predicate Bit(c: Co, r: Rec, curr: Option<Co>, ready: seq<Co>) {
    && EXITED !in r.status
    && (FDEOF in r.status ==> curr == Some(c) && r.pc.InPoll?)
    && (WAIT_READ in r.status || WAIT_WRITE in r.status ==> r.pc.InPoll?)
    && (NEW in r.status <==> r.pc == Start)
    && (r.pc == Start ==> c in ready)
  }

  ghost predicate Bits(rec: Recs, curr: Option<Co>, ready: seq<Co>) {
    forall c :: c in rec ==> Bit(c, rec[c], curr, ready)
  }

  ghost predicate Below(x: nat, sleeping: SleepTree) { forall k :: k in sleeping ==> x < k }

  /** The stale-key invariant: a coroutine outside the sleep tree has a key below all keys in it. */
  ghost predicate Stale(rec: Recs, sleeping: SleepTree, now: nat) {
    && Below(0, sleeping)
    && forall c :: c in rec && !Asleep(rec, sleeping, c) ==> rec[c].sleep <= now && Below(rec[c].sleep, sleeping)
  }

  ghost predicate Log(woken: seq<Wake>, sleeping: SleepTree, now: nat) {
    && (forall i :: 0 <= i < |woken| ==> woken[i].deadline <= woken[i].at <= now && Below(woken[i].deadline, sleeping))
    && (forall i, j :: 0 <= i < j < |woken| ==> woken[i].deadline < woken[j].deadline)
  }

  ghost predicate Counts(rec: Recs, spawned: int, freed: seq<Co>) {
    spawned == |rec| && NoDup(freed) && forall i :: 0 <= i < |freed| ==> freed[i] !in rec
  }

  ghost predicate ReadyPhase(last: Option<Co>, queued: seq<Co>, ran: seq<Co>, curr: Option<Co>, ready: seq<Co>) {
    && last == Last(queued) && NoDup(queued) && |ran| <= |queued| && ran == queued[..|ran|]
    && |queued| - |ran| <= |ready| && ready[..|queued| - |ran|] == queued[|ran|..]
    && (curr.Some? ==> 0 < |ran| && ran[|ran| - 1] == curr.value)
    && (curr.None? && queued != [] ==> |ran| < |queued|)
    && (queued == [] ==> ready == [])
  }

  ghost predicate DispatchPhase(pending: seq<Event>, resumed: set<Co>, curr: Option<Co>, waiting: WaitTree) {
    && EventsOf(waiting.Keys, pending)
    && (forall i :: 0 <= i < |pending| ==> waiting[pending[i].fd] !in resumed)
    && (curr.Some? ==> curr.value in resumed)
  }

  ghost predicate Phases(phase: Phase, curr: Option<Co>, ready: seq<Co>, waiting: WaitTree) {
    match phase
    case Ready(last, queued, ran) => ReadyPhase(last, queued, ran, curr, ready)
    case Dispatch(pending, resumed) => DispatchPhase(pending, resumed, curr, waiting)
    case Expire => true
    case _ => curr.None?
  }

  /** Who is where, and with which status bits. */
  ghost predicate Core(rec: Recs, curr: Option<Co>, ready: seq<Co>, sleeping: SleepTree, waiting: WaitTree) {
    && Links(rec, curr, ready, sleeping, waiting)
    && Places(rec, curr, ready, sleeping, waiting)
    && Bits(rec, curr, ready)
  }

  ghost predicate Inv(s: State) {
    && Core(s.rec, s.curr, s.ready, s.sleeping, s.waiting)
    && Stale(s.rec, s.sleeping, s.now)
    && Log(s.woken, s.sleeping, s.now)
    && Counts(s.rec, s.spawned, s.freed)
    && Phases(s.phase, s.curr, s.ready, s.waiting)
    && s.interest == s.waiting.Keys
  }

  ghost predicate Good(o: Outcome) { o.Ok? && Inv(o.s) }

  lemma InitInv()
    ensures Inv(INIT)
  {
  }

  // ----- moving one coroutine -----

  lemma CoreAt(rec: Recs, curr: Option<Co>, ready: seq<Co>, sleeping: SleepTree, waiting: WaitTree, c: Co)
    requires Core(rec, curr, ready, sleeping, waiting) && c in rec
    ensures Place(c, rec[c], curr, ready, sleeping, waiting) && Bit(c, rec[c], curr, ready)
  {
  }

  lemma CoreCreate(rec: Recs, curr: Option<Co>, ready: seq<Co>, sleeping: SleepTree, waiting: WaitTree, c: Co, r: Rec)
    requires Core(rec, curr, ready, sleeping, waiting) && c !in rec && Below(0, sleeping)
    requires r.status == {NEW} && r.pc == Start && r.sleep == 0
    ensures Core(rec[c := r], curr, ready + [c], sleeping, waiting)
  {
    forall d | d in rec
      ensures Place(d, rec[d], curr, ready + [c], sleeping, waiting) && Bit(d, rec[d], curr, ready + [c])
    {
      CoreAt(rec, curr, ready, sleeping, waiting, d);
    }
  }

  /** From the head of the ready queue to the processor. */
  lemma CoreRun(rec: Recs, ready: seq<Co>, sleeping: SleepTree, waiting: WaitTree, c: Co, r: Rec)
    requires Core(rec, None, ready, sleeping, waiting) && ready != [] && c == ready[0]
    requires r == if NEW in rec[c].status then rec[c].(status := {READY}, pc := Body) else rec[c]
    ensures Core(rec[c := r], Some(c), ready[1..], sleeping, waiting)
  {
    CoreAt(rec, None, ready, sleeping, waiting, c);
    forall d | d in rec && d != c
      ensures Place(d, rec[d], Some(c), ready[1..], sleeping, waiting) && Bit(d, rec[d], Some(c), ready[1..])
    {
      CoreAt(rec, None, ready, sleeping, waiting, d);
      assert ready == [c] + ready[1..];
    }
  }

  /** From the sleep tree to the processor. */
  lemma CoreWake(rec: Recs, ready: seq<Co>, sleeping: SleepTree, waiting: WaitTree, k: nat)
    requires Core(rec, None, ready, sleeping, waiting) && k in sleeping
    ensures Core(rec, Some(sleeping[k]), ready, sleeping - {k}, waiting)
    ensures NEW !in rec[sleeping[k]].status
  {
    var c := sleeping[k];
    forall d | d in rec
      ensures Place(d, rec[d], Some(c), ready, sleeping - {k}, waiting) && Bit(d, rec[d], Some(c), ready)
    {
      CoreAt(rec, None, ready, sleeping, waiting, d);
    }
    CoreAt(rec, None, ready, sleeping, waiting, c);
  }

  /** A waiter is resumed but stays in the wait tree. */
  lemma CoreEvent(rec: Recs, ready: seq<Co>, sleeping: SleepTree, waiting: WaitTree, fd: Fd, r: Rec)
    requires Core(rec, None, ready, sleeping, waiting) && fd in waiting
    requires r == rec[waiting[fd]].(status := r.status) && r.status <= {FDEOF}
    ensures Core(rec[waiting[fd] := r], Some(waiting[fd]), ready, sleeping, waiting)
  {
    var c := waiting[fd];
    forall d | d in rec
      ensures Place(d, rec[d], Some(c), ready, sleeping, waiting) && (d != c ==> Bit(d, rec[d], Some(c), ready))
    {
      CoreAt(rec, None, ready, sleeping, waiting, d);
    }
  }

  /** From the processor into the sleep tree (it stays the running coroutine). */
  lemma CoreArm(rec: Recs, ready: seq<Co>, sleeping: SleepTree, waiting: WaitTree, c: Co, k: nat, r: Rec)
    requires Core(rec, Some(c), ready, sleeping, waiting) && rec[c].pc == Body
    requires rec[c].sleep in sleeping ==> sleeping[rec[c].sleep] == c
    requires k !in sleeping - {rec[c].sleep} && r == rec[c].(sleep := k, status := rec[c].status + {SLEEPING})
    ensures Core(rec[c := r], Some(c), ready, (sleeping - {rec[c].sleep})[k := c], waiting)
  {
    var tree := (sleeping - {rec[c].sleep})[k := c];
    CoreAt(rec, Some(c), ready, sleeping, waiting, c);
    forall d | d in rec && d != c ensures Place(d, rec[d], Some(c), ready, tree, waiting) && Bit(d, rec[d], Some(c), ready) {
      CoreAt(rec, Some(c), ready, sleeping, waiting, d);
    }
  }

  /** A yield that leaves the coroutine in the sleep tree, or puts it at the end of the queue. */
  lemma CoreYield(rec: Recs, ready: seq<Co>, ready': seq<Co>, sleeping: SleepTree, waiting: WaitTree, c: Co, r: Rec)
    requires Core(rec, Some(c), ready, sleeping, waiting) && rec[c].pc == Body && r == rec[c].(ops := r.ops)
    requires ready' == if Asleep(rec, sleeping, c) then ready else ready + [c]
    ensures Core(rec[c := r], None, ready', sleeping, waiting)
  {
    CoreAt(rec, Some(c), ready, sleeping, waiting, c);
    forall d | d in rec && d != c ensures Place(d, rec[d], None, ready', sleeping, waiting) && Bit(d, rec[d], None, ready') {
      CoreAt(rec, Some(c), ready, sleeping, waiting, d);
    }
  }

  /** From the processor into the wait tree. */
  lemma CoreWait(rec: Recs, ready: seq<Co>, sleeping: SleepTree, waiting: WaitTree, c: Co, fd: Fd, r: Rec)
    requires Core(rec, Some(c), ready, sleeping, waiting) && rec[c].pc == Body && !Asleep(rec, sleeping, c) && fd !in waiting
    requires r.pc == InPoll(fd) && r.sleep == rec[c].sleep && r.status <= rec[c].status + {0}
    ensures Core(rec[c := r], None, ready, sleeping, waiting[fd := c])
  {
    CoreAt(rec, Some(c), ready, sleeping, waiting, c);
    forall d | d in rec && d != c
      ensures Place(d, rec[d], None, ready, sleeping, waiting[fd := c]) && Bit(d, rec[d], None, ready)
    {
      CoreAt(rec, Some(c), ready, sleeping, waiting, d);
    }
  }

  /** Out of the wait tree. */
  lemma CoreUnwait(rec: Recs, ready: seq<Co>, sleeping: SleepTree, waiting: WaitTree, c: Co, fd: Fd, r: Rec)
    requires Core(rec, Some(c), ready, sleeping, waiting) && rec[c].pc == InPoll(fd)
    requires r == rec[c].(status := {}, pc := Body)
    ensures Core(rec[c := r], Some(c), ready, sleeping, waiting - {fd})
  {
    CoreAt(rec, Some(c), ready, sleeping, waiting, c);
    forall d | d in rec && d != c
      ensures Place(d, rec[d], Some(c), ready, sleeping, waiting - {fd}) && Bit(d, rec[d], Some(c), ready)
    {
      CoreAt(rec, Some(c), ready, sleeping, waiting, d);
    }
  }

  /** From the processor to nowhere. */
  lemma CoreFree(rec: Recs, ready: seq<Co>, sleeping: SleepTree, waiting: WaitTree, c: Co)
    requires Core(rec, Some(c), ready, sleeping, waiting) && rec[c].pc == Body && !Asleep(rec, sleeping, c)
    ensures Core(rec - {c}, None, ready, sleeping, waiting)
  {
    CoreAt(rec, Some(c), ready, sleeping, waiting, c);
    forall d | d in rec && d != c ensures Place(d, rec[d], None, ready, sleeping, waiting) && Bit(d, rec[d], None, ready) {
      CoreAt(rec, Some(c), ready, sleeping, waiting, d);
    }
  }

  lemma CoreSame(rec: Recs, curr: Option<Co>, ready: seq<Co>, sleeping: SleepTree, waiting: WaitTree, c: Co, r: Rec)
    requires Core(rec, curr, ready, sleeping, waiting) && c in rec && r == rec[c].(ops := r.ops)
    ensures Core(rec[c := r], curr, ready, sleeping, waiting)
  {
    forall d | d in rec ensures Place(d, rec[d], curr, ready, sleeping, waiting) && Bit(d, rec[d], curr, ready) {
      CoreAt(rec, curr, ready, sleeping, waiting, d);
    }
  }

  /** Only the sleep field matters for the stale-key invariant, only the keys for the counts. */
  lemma SameSleep(rec: Recs, c: Co, r: Rec, sleeping: SleepTree, now: nat)
    requires c in rec && r.sleep == rec[c].sleep && Stale(rec, sleeping, now)
    ensures Stale(rec[c := r], sleeping, now) && rec[c := r].Keys == rec.Keys
  {
    var rec' := rec[c := r];
    forall d | d in rec' && !Asleep(rec', sleeping, d)
      ensures rec'[d].sleep <= now && Below(rec'[d].sleep, sleeping)
    {
      assert !Asleep(rec, sleeping, d);
    }
  }

  lemma SameKeys(rec: Recs, rec': Recs, spawned: int, freed: seq<Co>)
    requires Counts(rec, spawned, freed) && rec'.Keys == rec.Keys
    ensures Counts(rec', spawned, freed)
  {
    assert |rec| == |rec.Keys| && |rec'| == |rec'.Keys|;
  }

  // ----- one lemma per kind of step -----

  lemma CreateInv(s: State, c: Co)
    requires Inv(s) && Enabled(s, Create(c))
    ensures Inv(StepCreate(s, c))
  {
    var r := Rec({NEW}, -1, 0, 0, Start);
    CoreCreate(s.rec, s.curr, s.ready, s.sleeping, s.waiting, c, r);
    CreateRest(s.rec, s.sleeping, s.now, s.spawned, s.freed, c, r);
  }

  lemma CreateRest(rec: Recs, sleeping: SleepTree, now: nat, spawned: int, freed: seq<Co>, c: Co, r: Rec)
    requires Stale(rec, sleeping, now) && Counts(rec, spawned, freed) && c !in rec && c !in freed && r.sleep == 0
    requires forall k :: k in sleeping ==> sleeping[k] in rec
    ensures Stale(rec[c := r], sleeping, now) && Counts(rec[c := r], spawned + 1, freed)
  {
  }

  lemma LoopInv(s: State)
    requires Inv(s) && s.curr.None? && (s.phase.Setup? || s.phase.Check?)
    ensures Inv(s.(phase := Check)) && Inv(s.(phase := Expire)) && Inv(s.(phase := Done))
  {
  }

  /** The woken deadline is the least, so it stays below the deadlines that remain. */
  lemma ExpireTime(rec: Recs, woken: seq<Wake>, sleeping: SleepTree, now: nat, t: nat, k: nat)
    requires Stale(rec, sleeping, now) && Log(woken, sleeping, now) && now <= t && IsMin(sleeping.Keys, k) && k <= t
    ensures Stale(rec, sleeping - {k}, t) && Log(woken + [Wake(k, t)], sleeping - {k}, t)
  {
    forall c | c in rec && !Asleep(rec, sleeping - {k}, c)
      ensures rec[c].sleep <= t && Below(rec[c].sleep, sleeping - {k})
    {
      assert Asleep(rec, sleeping, c) ==> rec[c].sleep == k;
    }
  }

  lemma ExpireInv(s: State, t: nat)
    requires Inv(s) && s.phase.Expire? && s.curr.None? && s.now <= t
    ensures Good(StepExpire(s, t))
  {
    if s.sleeping != map[] && Min(s.sleeping.Keys) <= t {
      var k := Min(s.sleeping.Keys);
      CoreWake(s.rec, s.ready, s.sleeping, s.waiting, k);
      ExpireTime(s.rec, s.woken, s.sleeping, s.now, t, k);
    }
  }

  /** The head of the ready queue is the next of the queued ones. */
  lemma NextQueued(last: Option<Co>, queued: seq<Co>, ran: seq<Co>, ready: seq<Co>)
    requires ReadyPhase(last, queued, ran, None, ready) && ready != []
    ensures ReadyPhase(last, queued, ran + [ready[0]], Some(ready[0]), ready[1..])
  {
    var n := |queued| - |ran|;
    assert ready[0] == ready[..n][0] == queued[|ran|];
    assert ran + [ready[0]] == queued[..|ran| + 1];
    assert ready[1..][..n - 1] == ready[..n][1..] == queued[|ran| + 1..];
  }

  /** It is live and not at end of file. */
  lemma ReadyHead(s: State)
    requires Inv(s) && s.ready != []
    ensures s.ready[0] in s.rec && FDEOF !in s.rec[s.ready[0]].status
  {
    CoreAt(s.rec, s.curr, s.ready, s.sleeping, s.waiting, s.ready[0]);
  }

  lemma ReadyIs(s: State, c: Co, r: Rec)
    requires s.phase.Ready? && s.ready != [] && c == s.ready[0] && c in s.rec && FDEOF !in s.rec[c].status
    requires r == if NEW in s.rec[c].status then s.rec[c].(status := {READY}, pc := Body) else s.rec[c]
    ensures StepReady(s) == Ok(s.(curr := Some(c), ready := s.ready[1..], rec := s.rec[c := r],
                                  phase := s.phase.(ran := s.phase.ran + [c])))
  {
    assert s.rec[c := s.rec[c]] == s.rec;
  }

  lemma ReadyInv(s: State)
    requires Inv(s) && s.phase.Ready? && s.curr.None?
    ensures Good(StepReady(s))
  {
    if s.ready != [] {
      var c := s.ready[0];
      ReadyHead(s);
      var r := if NEW in s.rec[c].status then s.rec[c].(status := {READY}, pc := Body) else s.rec[c];
      ReadyIs(s, c, r);
      CoreRun(s.rec, s.ready, s.sleeping, s.waiting, c, r);
      NextQueued(s.phase.last, s.phase.queued, s.phase.ran, s.ready);
      RestKept(s, c, r);
    }
  }

  /** A new record for `c` that keeps its key changes neither times nor counts. */
  lemma RestKept(s: State, c: Co, r: Rec)
    requires Stale(s.rec, s.sleeping, s.now) && Counts(s.rec, s.spawned, s.freed) && c in s.rec && r.sleep == s.rec[c].sleep
    ensures Stale(s.rec[c := r], s.sleeping, s.now) && Counts(s.rec[c := r], s.spawned, s.freed)
  {
    SameSleep(s.rec, c, r, s.sleeping, s.now);
    SameKeys(s.rec, s.rec[c := r], s.spawned, s.freed);
  }

  lemma PollInv(s: State, t: nat, events: seq<Event>)
    requires Inv(s) && s.phase.Poll? && s.now <= t && EventsOf(s.interest, events)
    ensures Inv(StepPoll(s, t, events))
  {
  }

  /** The last pending event belongs to a live waiter that this batch has not resumed yet. */
  lemma DispatchWaiter(s: State)
    requires Inv(s) && s.phase.Dispatch? && s.curr.None? && s.phase.pending != []
    ensures var ev := s.phase.pending[|s.phase.pending| - 1];
            && ev.fd in s.waiting && s.waiting[ev.fd] in s.rec && s.waiting[ev.fd] !in s.phase.resumed
            && s.rec[s.waiting[ev.fd]].pc == InPoll(ev.fd)
            && DispatchPhase(s.phase.pending[..|s.phase.pending| - 1], s.phase.resumed + {s.waiting[ev.fd]},
                             Some(s.waiting[ev.fd]), s.waiting)
  {
    var n := |s.phase.pending| - 1;
    var ev := s.phase.pending[n];
    forall i | 0 <= i < n ensures s.waiting[s.phase.pending[i].fd] != s.waiting[ev.fd] {
      assert s.rec[s.waiting[s.phase.pending[i].fd]].pc != s.rec[s.waiting[ev.fd]].pc;
    }
  }

  lemma DispatchInv(s: State)
    requires Inv(s) && s.phase.Dispatch? && s.curr.None?
    ensures Good(StepDispatch(s))
  {
    if s.phase.pending != [] {
      DispatchWaiter(s);
      var ev := s.phase.pending[|s.phase.pending| - 1];
      var c := s.waiting[ev.fd];
      var r := s.rec[c].(status := if ev.hup then {FDEOF} else {});
      CoreEvent(s.rec, s.ready, s.sleeping, s.waiting, ev.fd, r);
      SameSleep(s.rec, c, r, s.sleeping, s.now);
      SameKeys(s.rec, s.rec[c := r], s.spawned, s.freed);
    }
  }

  /** Sleepdown looks for its caller under a possibly stale key: it finds the caller or nobody. */
  lemma EvictsOnlyItself(rec: Recs, sleeping: SleepTree, now: nat, c: Co)
    requires Stale(rec, sleeping, now) && c in rec && rec[c].sleep in sleeping
    ensures sleeping[rec[c].sleep] == c
  {
    assert !Below(rec[c].sleep, sleeping);
  }

  lemma SleepTime(rec: Recs, woken: seq<Wake>, sleeping: SleepTree, now: nat, c: Co, k: nat, r: Rec, t: nat)
    requires Stale(rec, sleeping, now) && Log(woken, sleeping, now)
    requires c in rec && now <= t < k && r.sleep == k && k !in sleeping - {rec[c].sleep}
    ensures var tree := (sleeping - {rec[c].sleep})[k := c];
            Stale(rec[c := r], tree, t) && Log(woken, tree, t) && rec[c := r].Keys == rec.Keys
  {
    if rec[c].sleep in sleeping { EvictsOnlyItself(rec, sleeping, now, c); }
    var tree := (sleeping - {rec[c].sleep})[k := c];
    forall d | d in rec && d != c && !Asleep(rec, tree, d) ensures rec[d].sleep <= t && Below(rec[d].sleep, tree) {
      assert !Asleep(rec, sleeping, d);
    }
  }

  lemma ArmInv(s: State, c: Co, k: nat, t: nat)
    requires Inv(s) && Running(s, Body) && s.curr == Some(c)
    requires s.now <= t < k && k !in s.sleeping - {s.rec[c].sleep}
    ensures Inv(Arm(s, c, k, t))
  {
    if s.rec[c].sleep in s.sleeping { EvictsOnlyItself(s.rec, s.sleeping, s.now, c); }
    var r := s.rec[c].(sleep := k, status := s.rec[c].status + {SLEEPING});
    CoreArm(s.rec, s.ready, s.sleeping, s.waiting, c, k, r);
    SleepTime(s.rec, s.woken, s.sleeping, s.now, c, k, r, t);
    SameKeys(s.rec, s.rec[c := r], s.spawned, s.freed);
  }

  lemma SleepTimedInv(s: State, c: Co, ms: nat, t: nat)
    requires Inv(s) && Running(s, Body) && s.curr == Some(c) && 0 < ms && s.now <= t
    ensures Inv(Sleepdown(s, c, ms, t))
  {
    ArmInv(s, c, LeastFree((s.sleeping - {s.rec[c].sleep}).Keys, t + ms * 1000), t);
  }

  /** Being in the sleep tree at all means hanging under one's own key. */
  lemma ArmedAsleep(s: State, c: Co)
    requires Inv(s) && s.curr == Some(c)
    ensures c in s.rec && (Armed(s) <==> Asleep(s.rec, s.sleeping, c))
  {
  }

  lemma SwitchOut(s: State, c: Co, ready': seq<Co>)
    requires Inv(s) && Running(s, Body) && s.curr == Some(c)
    requires ready' == if Armed(s) then s.ready else s.ready + [c]
    ensures Inv(YieldNow(s.(ready := ready'), c))
  {
    ArmedAsleep(s, c);
    CoreAt(s.rec, s.curr, s.ready, s.sleeping, s.waiting, c);
    var r := s.rec[c].(ops := 0);
    CoreYield(s.rec, s.ready, ready', s.sleeping, s.waiting, c, r);
    SameSleep(s.rec, c, r, s.sleeping, s.now);
    SameKeys(s.rec, s.rec[c := r], s.spawned, s.freed);
    AfterRunPhase(s.phase, c, s.ready, ready', s.waiting, s.waiting);
  }

  /** The phase after a coroutine has switched back, whatever it appended to the queue and
      whichever descriptor outside the batch it registered. */
  lemma AfterRunPhase(ph: Phase, c: Co, ready: seq<Co>, ready': seq<Co>, waiting: WaitTree, waiting': WaitTree)
    requires Phases(ph, Some(c), ready, waiting) && ready <= ready'
    requires forall f :: f in waiting ==> f in waiting' && waiting'[f] == waiting[f]
    ensures Phases(AfterRun(ph, c), None, ready', waiting')
  {
    if ph.Ready? {
      var n := |ph.queued| - |ph.ran|;
      assert ready'[..n] == ready[..n];
      assert ph.ran[|ph.ran| - 1] == ph.queued[|ph.ran| - 1];
    }
  }

  lemma ReniceInv(s: State, c: Co)
    requires Inv(s) && Running(s, Body) && s.curr == Some(c) && Disciplined(s, Renice)
    ensures Inv(StepRenice(s, c))
  {
    var r := s.rec[c].(ops := s.rec[c].ops + 1);
    var s1 := s.(rec := s.rec[c := r]);
    CountOps(s, c, r);
    if r.ops >= 5 {
      assert Running(s1, Body) && !Armed(s1);
      SwitchOut(s1, c, s1.ready + [c]);
    }
  }

  lemma CountOps(s: State, c: Co, r: Rec)
    requires Inv(s) && c in s.rec && r == s.rec[c].(ops := r.ops)
    ensures Inv(s.(rec := s.rec[c := r]))
  {
    CoreSame(s.rec, s.curr, s.ready, s.sleeping, s.waiting, c, r);
    SameSleep(s.rec, c, r, s.sleeping, s.now);
    SameKeys(s.rec, s.rec[c := r], s.spawned, s.freed);
  }

  lemma PollFdIs(s: State, c: Co, fd: Fd, dir: Direction, r: Rec)
    requires c in s.rec && Bit(c, s.rec[c], s.curr, s.ready) && s.rec[c].pc == Body && fd !in s.waiting && dir != Neither
    requires r == Rec(s.rec[c].status + RawWaitBits(dir), fd, s.rec[c].sleep, 0, InPoll(fd))
    ensures StepPollFd(s, c, fd, dir) == Ok(s.(curr := None, phase := AfterRun(s.phase, c), interest := s.interest + {fd},
                                              waiting := s.waiting[fd := c], rec := s.rec[c := r]))
  {
    assert s.rec[c := r.(ops := s.rec[c].ops)][c := r] == s.rec[c := r];
  }

  lemma PollFdInv(s: State, c: Co, fd: Fd, dir: Direction)
    requires Inv(s) && Running(s, Body) && s.curr == Some(c) && !Armed(s) && fd !in s.waiting && dir != Neither
    ensures Good(StepPollFd(s, c, fd, dir))
  {
    ArmedAsleep(s, c);
    CoreAt(s.rec, s.curr, s.ready, s.sleeping, s.waiting, c);
    var r := Rec(s.rec[c].status + RawWaitBits(dir), fd, s.rec[c].sleep, 0, InPoll(fd));
    PollFdIs(s, c, fd, dir, r);
    WaitInv(s, c, fd, r);
  }

  lemma WaitInv(s: State, c: Co, fd: Fd, r: Rec)
    requires Inv(s) && s.curr == Some(c) && c in s.rec && s.rec[c].pc == Body && !Asleep(s.rec, s.sleeping, c)
    requires fd !in s.waiting && r.pc == InPoll(fd) && r.sleep == s.rec[c].sleep && r.status <= s.rec[c].status + {0}
    ensures Inv(s.(curr := None, phase := AfterRun(s.phase, c), interest := s.interest + {fd},
                   waiting := s.waiting[fd := c], rec := s.rec[c := r]))
  {
    CoreWait(s.rec, s.ready, s.sleeping, s.waiting, c, fd, r);
    RestKept(s, c, r);
    AfterRunPhase(s.phase, c, s.ready, s.ready, s.waiting, s.waiting[fd := c]);
  }

  lemma PollReturnIs(s: State, c: Co, fd: Fd, r: Rec)
    requires c in s.rec && s.rec[c].pc == InPoll(fd) && fd in s.waiting && s.waiting[fd] == c
    requires r == s.rec[c].(status := {}, pc := Body)
    ensures StepPollReturn(s, c) == Ok(s.(interest := s.interest - {fd}, waiting := s.waiting - {fd}, rec := s.rec[c := r]))
  {
    assert s.rec[c := s.rec[c].(status := {})][c := r] == s.rec[c := r];
  }

  lemma PollReturnInv(s: State, c: Co)
    requires Inv(s) && s.curr == Some(c) && c in s.rec && s.rec[c].pc.InPoll?
    ensures Good(StepPollReturn(s, c))
  {
    CoreAt(s.rec, s.curr, s.ready, s.sleeping, s.waiting, c);
    var fd, r := s.rec[c].pc.fd, s.rec[c].(status := {}, pc := Body);
    PollReturnIs(s, c, fd, r);
    UnwaitInv(s, c, fd, r);
  }

  lemma UnwaitInv(s: State, c: Co, fd: Fd, r: Rec)
    requires Inv(s) && s.curr == Some(c) && c in s.rec && s.rec[c].pc == InPoll(fd) && r == s.rec[c].(status := {}, pc := Body)
    ensures Inv(s.(interest := s.interest - {fd}, waiting := s.waiting - {fd}, rec := s.rec[c := r]))
  {
    CoreAt(s.rec, s.curr, s.ready, s.sleeping, s.waiting, c);
    CoreUnwait(s.rec, s.ready, s.sleeping, s.waiting, c, fd, r);
    RestKept(s, c, r);
    assert (s.waiting - {fd}).Keys == s.waiting.Keys - {fd};
  }

  lemma ReturnIs(s: State, c: Co)
    requires c in s.rec
    ensures StepReturn(s, c) == s.(curr := None, phase := AfterRun(s.phase, c), rec := s.rec - {c},
                                   spawned := s.spawned - 1, freed := s.freed + [c])
  {
    var r := s.rec[c].(status := s.rec[c].status + {EXITED, FDEOF, DETACH});
    assert s.rec[c := r][c := r.(ops := 0)] - {c} == s.rec - {c};
  }

  lemma FreeCounts(rec: Recs, spawned: int, freed: seq<Co>, c: Co)
    requires Counts(rec, spawned, freed) && c in rec
    ensures Counts(rec - {c}, spawned - 1, freed + [c])
  {
    assert (rec - {c}).Keys == rec.Keys - {c};
  }

  lemma ReturnInv(s: State, c: Co)
    requires Inv(s) && Running(s, Body) && s.curr == Some(c) && !Armed(s)
    ensures Inv(StepReturn(s, c))
  {
    ArmedAsleep(s, c);
    ReturnIs(s, c);
    CoreFree(s.rec, s.ready, s.sleeping, s.waiting, c);
    AfterRunPhase(s.phase, c, s.ready, s.ready, s.waiting, s.waiting);
    FreeCounts(s.rec, s.spawned, s.freed, c);
  }

  // ----- what an undisciplined client breaks -----

  lemma BreaksYield(s: State, c: Co)
    requires s.curr == Some(c) && c in s.rec && s.rec[c].pc == Body && EXITED !in s.rec[c].status
    requires c !in s.ready && !Asleep(s.rec, s.sleeping, c)
    ensures !Inv(YieldNow(s, c))
  {
    var s' := YieldNow(s, c);
    assert !Place(c, s'.rec[c], s'.curr, s'.ready, s'.sleeping, s'.waiting);
  }

  lemma BreaksQueue(s: State, c: Co)
    requires s.curr == Some(c) && c in s.rec && s.rec[c].pc == Body && EXITED !in s.rec[c].status
    requires Asleep(s.rec, s.sleeping, c)
    ensures !Inv(YieldNow(s.(ready := s.ready + [c]), c))
  {
    var s' := YieldNow(s.(ready := s.ready + [c]), c);
    assert !Place(c, s'.rec[c], s'.curr, s'.ready, s'.sleeping, s'.waiting);
  }

  lemma BreaksPoll(s: State, c: Co, fd: Fd, dir: Direction)
    requires s.curr == Some(c) && c in s.rec && s.rec[c].pc == Body && EXITED !in s.rec[c].status
    requires Asleep(s.rec, s.sleeping, c) && fd !in s.waiting
    ensures !Good(StepPollFd(s, c, fd, dir))
  {
    var o := StepPollFd(s, c, fd, dir);
    if o.Ok? {
      assert !Place(c, o.s.rec[c], o.s.curr, o.s.ready, o.s.sleeping, o.s.waiting);
    }
  }

  lemma BreaksReturn(s: State, c: Co)
    requires s.curr == Some(c) && c in s.rec && Asleep(s.rec, s.sleeping, c)
    ensures !Inv(StepReturn(s, c))
  {
    var s' := StepReturn(s, c);
    assert s'.sleeping[s.rec[c].sleep] !in s'.rec;
  }

  // ----- discipline is exactly what the invariant needs -----

  /** A disciplined step never crashes and keeps the invariant. */
  lemma StepInv(s: State, a: Action)
    requires Inv(s) && Enabled(s, a) && Disciplined(s, a)
    ensures Good(Step(s, a))
  {
    match a
    case Create(c) => CreateInv(s, c);
    case Begin => LoopInv(s);
    case Loop => LoopInv(s);
    case ExpireStep(t) => ExpireInv(s, t);
    case ReadyStep => ReadyInv(s);
    case PollStep(t, events) => PollInv(s, t, events);
    case DispatchStep => DispatchInv(s);
    case SleepTimed(ms, t) => SleepTimedInv(s, s.curr.value, ms, t);
    case Yield => SwitchOut(s, s.curr.value, s.ready);
    case SleepZero => SwitchOut(s, s.curr.value, s.ready + [s.curr.value]);
    case Renice => ReniceInv(s, s.curr.value);
    case PollFd(fd, dir) => PollFdInv(s, s.curr.value, fd, dir);
    case PollReturn => PollReturnInv(s, s.curr.value);
    case Return => ReturnInv(s, s.curr.value);
  }

  /** An undisciplined step crashes, or leaves a coroutine in two places, in none, or freed but
      still linked. */
  lemma StepBreaks(s: State, a: Action)
    requires Inv(s) && Enabled(s, a) && !Disciplined(s, a)
    ensures !Good(Step(s, a))
  {
    var c := s.curr.value;
    ArmedAsleep(s, c);
    CoreAt(s.rec, s.curr, s.ready, s.sleeping, s.waiting, c);
    match a
    case Yield => BreaksYield(s, c);
    case SleepZero => BreaksQueue(s, c);
    case Renice => BreaksQueue(s.(rec := s.rec[c := s.rec[c].(ops := s.rec[c].ops + 1)]), c);
    case PollFd(fd, dir) => if Armed(s) && fd !in s.waiting { BreaksPoll(s, c, fd, dir); }
    case Return => BreaksReturn(s, c);
    case _ =>
  }
}
