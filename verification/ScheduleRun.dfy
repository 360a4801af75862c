/** The functions of core/nty_schedule.c and core/nty_coroutine.c on the data structures of `Schedule`.

    Each of them takes the structures from representing a state of the step machine to representing the
    next one, so that every run of the machine is a run of the structures, and what `SchedulerRuns`
    proves of the machine holds of them. */
module ScheduleRun {
  import opened Common
  import opened RBNode
  import opened Scheduler
  import opened SchedulerSafety
  import opened SchedulerRuns
  import opened Schedule

  lemma Overwrite<K, V>(m: map<K, V>, k: K, v: V, w: V)
    ensures m[k := v][k := w] == m[k := w]
  {
  }

  /** The state `t` differs from `s` only in what the structures do not hold. */
  lemma Ignored(sch: Schedule, s: State, t: State)
    requires sch.Represents(s)
    requires t.rec == s.rec && t.sleeping == s.sleeping && t.waiting == s.waiting && t.ready == s.ready && t.curr == s.curr
    requires t.spawned == s.spawned && t.interest == s.interest && StageOf(t.phase) == StageOf(s.phase)
    ensures sch.Represents(t)
  {
  }

  // ----- sleeping -----

  /** nty_schedule_sched_sleepdown; `now` is the clock reading since the scheduler was born. */
  method SchedSleepdown(sch: Schedule, co: Coroutine, msecs: nat, now: nat, ghost s: State)
    requires sch.Represents(s) && sch.Live(co)
    modifies sch.sleeping, sch.sleeping.Repr, co.sleepNode, co`status
    ensures sch.cos == old(sch.cos)
    ensures sch.Represents(Sleepdown(s, co.id, msecs, now))
  {
    ghost var s1 := s.(sleeping := s.sleeping - {s.rec[co.id].sleep});
    SleepdownIs(s, co.id, msecs, now);
    DropStale(sch, co, s);
    Relink(sch, co, msecs, now, s1);
    Ignored(sch, Relinked(s1, co.id, msecs, now), Sleepdown(s, co.id, msecs, now));
  }

  method Relink(sch: Schedule, co: Coroutine, msecs: nat, now: nat, ghost s: State)
    requires sch.Represents(s) && sch.Live(co) && co.sleepNode !in sch.sleeping.Repr
    modifies sch.sleeping, sch.sleeping.Repr, co.sleepNode, co`status
    ensures sch.cos == old(sch.cos) && sch.Represents(Relinked(s, co.id, msecs, now))
  {
    var d := now + msecs * 1000;
    RelinkedIs(s, co.id, msecs, now, d);
    sch.SetSleep(co, d, s);
    if msecs != 0 {
      SleepAt(sch, co, d, s);
    }
  }

  lemma RelinkedIs(s: State, c: Co, msecs: nat, now: nat, d: nat)
    requires c in s.rec && d == now + msecs * 1000
    ensures msecs == 0 ==> Relinked(s, c, msecs, now) == WithKey(s, c, d)
    ensures msecs != 0 ==> Relinked(s, c, msecs, now) == Dozing(s, c, LeastFree(s.sleeping.Keys, d))
  {
  }

  /** `s`, without its caller in the sleep tree, after the caller has got its deadline. */
  ghost function Relinked(s: State, c: Co, msecs: nat, now: nat): State
    requires c in s.rec
  {
    var d := now + msecs * 1000;
    if msecs == 0 then WithKey(s, c, d) else Dozing(s, c, LeastFree(s.sleeping.Keys, d))
  }

  /** The second half, with a request that is not zero. */
  method SleepAt(sch: Schedule, co: Coroutine, d: nat, ghost s: State)
    requires sch.Live(co) && co.id in s.rec && sch.Represents(WithKey(s, co.id, d)) && co.sleepNode !in sch.sleeping.Repr
    modifies sch.sleeping, sch.sleeping.Repr, co.sleepNode, co`status
    ensures sch.cos == old(sch.cos)
    ensures sch.Represents(Dozing(s, co.id, LeastFree(s.sleeping.Keys, d)))
  {
    ghost var k := Collide(sch, co, d, s);
    LeastFreeIs(s.sleeping.Keys, d, k);
    ghost var t := WithKey(s, co.id, k).(sleeping := s.sleeping[k := co.id]);
    Overwrite(s.rec, co.id, t.rec[co.id], Dozing(s, co.id, k).rec[co.id]);
    assert WithStatus(t, co.id, {SLEEPING}) == Dozing(s, co.id, k);
    AddStatus(sch, co, {SLEEPING}, t);
  }

  ghost function Dozing(s: State, c: Co, k: nat): State
    requires c in s.rec
  {
    s.(sleeping := s.sleeping[k := c], rec := s.rec[c := s.rec[c].(sleep := k, status := s.rec[c].status + {SLEEPING})])
  }

  lemma SleepdownIs(s: State, c: Co, msecs: nat, now: nat)
    requires c in s.rec
    ensures Sleepdown(s, c, msecs, now) ==
            Relinked(s.(sleeping := s.sleeping - {s.rec[c].sleep}), c, msecs, now).(now := now)
  {
  }

  /** Takes out whoever hangs under the caller's present key. */
  method DropStale(sch: Schedule, co: Coroutine, ghost s: State)
    requires sch.Represents(s) && sch.Live(co)
    modifies sch.sleeping, sch.sleeping.Repr
    ensures sch.cos == old(sch.cos)
    ensures sch.Live(co) && sch.Represents(s.(sleeping := s.sleeping - {s.rec[co.id].sleep}))
    ensures co.sleepNode !in sch.sleeping.Repr && sch.sleeping.Repr <= old(sch.sleeping.Repr)
  {
    SameKeySameNode(sch, co, s);
    Absent(s, s.rec[co.id].sleep);
    var tmp := sch.FindSleeper(co.sleepNode.key, s);
    if tmp != null {
      sch.RemoveSleeper(tmp, s.rec[co.id].sleep, s);
    }
  }

  lemma Absent(s: State, k: nat)
    ensures k !in s.sleeping ==> s.(sleeping := s.sleeping - {k}) == s
  {
    if k !in s.sleeping { assert s.sleeping - {k} == s.sleeping; }
  }

  lemma SameKeySameNode(sch: Schedule, co: Coroutine, s: State)
    requires sch.Represents(s) && sch.Live(co)
    ensures co.sleepNode.key == s.rec[co.id].sleep
    ensures co.sleepNode in sch.sleeping.Repr ==> co.sleepNode.key in s.sleeping
    ensures forall n :: n in sch.sleeping.Repr && n.key == co.sleepNode.key && co.sleepNode in sch.sleeping.Repr ==> n == co.sleepNode
  {
    forall n | n in sch.sleeping.Repr ensures n.key in s.sleeping && s.sleeping[n.key] == n.co {
      Member(sch.sleeping, n);
    }
  }

  /** The loop that tries the next microsecond until the deadline is unused. */
  method Collide(sch: Schedule, co: Coroutine, d: nat, ghost s: State) returns (ghost k: nat)
    requires sch.Live(co) && co.id in s.rec && sch.Represents(WithKey(s, co.id, d)) && co.sleepNode !in sch.sleeping.Repr
    modifies sch.sleeping, sch.sleeping.Repr, co.sleepNode
    ensures sch.cos == old(sch.cos)
    ensures sch.Live(co) && d <= k && k !in s.sleeping && Taken(s.sleeping.Keys, d, k)
    ensures sch.Represents(WithKey(s, co.id, k).(sleeping := s.sleeping[k := co.id]))
  {
    ghost var goal := SomeFree(s.sleeping.Keys, d);
    k := d;
    while true
      invariant sch.Live(co) && sch.Represents(WithKey(s, co.id, k))
      invariant co.sleepNode !in sch.sleeping.Repr && sch.sleeping.Repr == old(sch.sleeping.Repr)
      invariant d <= k <= goal && Taken(s.sleeping.Keys, d, k)
      decreases goal - k
    {
      var done := Try(sch, co, k, s);
      if done {
        return;
      }
      TakenMore(s.sleeping.Keys, d, k);
      k := k + 1;
    }
  }

  method Bump(sch: Schedule, co: Coroutine, ghost k: nat, ghost s: State)
    requires sch.Live(co) && co.id in s.rec && sch.Represents(WithKey(s, co.id, k)) && co.sleepNode !in sch.sleeping.Repr
    modifies co.sleepNode`key
    ensures sch.Live(co) && sch.Represents(WithKey(s, co.id, k + 1)) && sch.sleeping.Repr == old(sch.sleeping.Repr)
  {
    ghost var t := WithKey(s, co.id, k);
    sch.Holds(co, t);
    var next := co.sleepNode.key + 1;
    assert next == k + 1;
    Rekey(s, co.id, k, next);
    sch.SetSleep(co, next, t);
  }

  lemma Rekey(s: State, c: Co, k: nat, k': nat)
    requires c in s.rec
    ensures WithKey(WithKey(s, c, k), c, k') == WithKey(s, c, k')
  {
  }

  /** One pass of that loop. */
  method Try(sch: Schedule, co: Coroutine, ghost k: nat, ghost s: State) returns (done: bool)
    requires sch.Live(co) && co.id in s.rec && sch.Represents(WithKey(s, co.id, k)) && co.sleepNode !in sch.sleeping.Repr
    modifies sch.sleeping, sch.sleeping.Repr, co.sleepNode
    ensures sch.cos == old(sch.cos)
    ensures sch.Live(co) && done == (k !in s.sleeping)
    ensures done ==> sch.Represents(WithKey(s, co.id, k).(sleeping := s.sleeping[k := co.id]))
    ensures !done ==>
              && sch.Represents(WithKey(s, co.id, k + 1))
              && co.sleepNode !in sch.sleeping.Repr && sch.sleeping.Repr == old(sch.sleeping.Repr)
  {
    ghost var t := WithKey(s, co.id, k);
    var tmp := sch.InsertSleeper(co, t);
    done := tmp == null;
    if !done {
      Bump(sch, co, k, s);
    }
  }

  /** nty_schedule_expired: the sleeper with the least deadline, if that has passed. */
  method Expired(sch: Schedule, now: nat, ghost s: State) returns (co: Coroutine?)
    requires sch.Represents(s)
    modifies sch.sleeping, sch.sleeping.Repr
    ensures sch.cos == old(sch.cos)
    ensures co == null <==> s.sleeping == map[] || now < Min(s.sleeping.Keys)
    ensures co == null ==> sch.Represents(s.(now := now))
    ensures co != null ==>
              sch.Live(co) && co.id == s.sleeping[Min(s.sleeping.Keys)] && sch.Represents(Woken(s, now))
  {
    var n := Earliest(sch.sleeping, s.sleeping);
    if n == null || now < n.key {
      Ignored(sch, s, s.(now := now));
      return null;
    }
    co := sch.cos[n.co];
    Awake(sch, n, now, s);
  }

  method Awake(sch: Schedule, n: Node, now: nat, ghost s: State)
    requires sch.Represents(s) && n in sch.sleeping.Repr && s.sleeping != map[] && n.key == Min(s.sleeping.Keys)
    modifies sch.sleeping, sch.sleeping.Repr
    ensures sch.cos == old(sch.cos) && sch.Represents(Woken(s, now))
  {
    sch.RemoveSleeper(n, Min(s.sleeping.Keys), s);
    Ignored(sch, s.(sleeping := s.sleeping - {Min(s.sleeping.Keys)}), Woken(s, now));
  }

  /** `s` after the earliest sleeper has been taken out. */
  ghost function Woken(s: State, now: nat): State
    requires s.sleeping != map[]
  {
    var k := Min(s.sleeping.Keys);
    s.(sleeping := s.sleeping - {k}, now := now, woken := s.woken + [Wake(k, now)])
  }

  /** nty_schedule_min_timeout. */
  method TimeoutUsecs(sch: Schedule, now: nat, ghost s: State) returns (usecs: nat)
    requires sch.Represents(s)
    ensures usecs == MinTimeout(s, now)
  {
    var n := Earliest(sch.sleeping, s.sleeping);
    if n == null {
      return 3000000;
    }
    if n.key > now {
      return n.key - now;
    }
    return 0;
  }

  // ----- waiting -----

  /** nty_schedule_search_wait: the result of the lookup is followed unchecked. */
  method SearchWait(sch: Schedule, fd: Fd, ghost s: State) returns (co: Coroutine)
    requires sch.Represents(s) && fd in s.waiting && s.waiting[fd] in s.rec
    modifies sch.Of(s.waiting[fd])`status
    ensures sch.cos == old(sch.cos)
    ensures sch.Live(co) && co.id == s.waiting[fd] && co.status == {}
    ensures sch.Represents(s.(rec := s.rec[co.id := s.rec[co.id].(status := {})]))
  {
    var n := sch.FindWaiter(fd, s);
    co := sch.cos[n.co];
    sch.SetStatus(co, {}, s);
  }

  /** nty_schedule_desched_wait: the status is cleared before desched_sleepdown tests it, so the sleep
      tree is left alone. */
  method DeschedWait(sch: Schedule, fd: Fd, ghost s: State) returns (co: Coroutine)
    requires sch.Represents(s) && fd in s.waiting && s.waiting[fd] in s.rec
    modifies sch.waiting, sch.waiting.Repr, sch.Of(s.waiting[fd])`status
    ensures sch.cos == old(sch.cos)
    ensures sch.Live(co) && co.id == s.waiting[fd] && co.waitNode !in sch.waiting.Repr
    ensures sch.Represents(s.(waiting := s.waiting - {fd}, rec := s.rec[co.id := s.rec[co.id].(status := {})]))
  {
    var n := sch.FindWaiter(fd, s);
    co := sch.cos[n.co];
    sch.RemoveWaiter(n, fd, s);
    sch.SetStatus(co, {}, s.(waiting := s.waiting - {fd}));
    if SLEEPING in co.status {
      assert false;
    }
  }

  /** Which of its assertions fails. */
  ghost function WaitFault(s: State, c: Co, fd: Fd, dir: Direction): Option<Fault>
    requires c in s.rec
  {
    var st := s.rec[c].status;
    if WAIT_READ in st || WAIT_WRITE in st then Some(AlreadyWaiting)
    else if dir == Neither then Some(NoDirection)
    else if fd in s.waiting then Some(DuplicateFd)
    else None
  }

  ghost function Waits(s: State, c: Co, fd: Fd, dir: Direction): State
    requires c in s.rec
  {
    s.(waiting := s.waiting[fd := c], rec := s.rec[c := s.rec[c].(status := s.rec[c].status + RawWaitBits(dir), fd := fd)])
  }

  /** nty_schedule_sched_wait with timeout 1. */
  method SchedWait(sch: Schedule, co: Coroutine, fd: Fd, dir: Direction, ghost s: State) returns (r: Option<Fault>)
    requires sch.Represents(s) && sch.Live(co) && co.waitNode !in sch.waiting.Repr
    modifies sch.waiting, sch.waiting.Repr, co.waitNode, co`status
    ensures sch.cos == old(sch.cos)
    ensures sch.curr == old(sch.curr) && r == WaitFault(s, co.id, fd, dir)
    ensures r.None? ==> sch.Represents(Waits(s, co.id, fd, dir))
  {
    sch.Holds(co, s);
    if WAIT_READ in co.status || WAIT_WRITE in co.status {
      return Some(AlreadyWaiting);
    }
    if dir == Neither {
      return Some(NoDirection);
    }
    r := MarkAndLink(sch, co, fd, dir, s);
  }

  method MarkAndLink(sch: Schedule, co: Coroutine, fd: Fd, dir: Direction, ghost s: State) returns (r: Option<Fault>)
    requires sch.Represents(s) && sch.Live(co) && co.waitNode !in sch.waiting.Repr
    modifies sch.waiting, sch.waiting.Repr, co.waitNode, co`status
    ensures sch.cos == old(sch.cos) && sch.curr == old(sch.curr) && r == if fd in s.waiting then Some(DuplicateFd) else None
    ensures r.None? ==> sch.Represents(Waits(s, co.id, fd, dir))
  {
    ghost var s1 := WithStatus(s, co.id, RawWaitBits(dir));
    WaitsFacts(s, co.id, fd, dir);
    AddStatus(sch, co, RawWaitBits(dir), s);
    r := LinkWait(sch, co, fd, s1);
  }

  method LinkWait(sch: Schedule, co: Coroutine, fd: Fd, ghost s: State) returns (r: Option<Fault>)
    requires sch.Represents(s) && sch.Live(co) && co.waitNode !in sch.waiting.Repr
    modifies sch.waiting, sch.waiting.Repr, co.waitNode
    ensures sch.cos == old(sch.cos) && r == if fd in s.waiting then Some(DuplicateFd) else None
    ensures r.None? ==> sch.Represents(WithFd(s, co.id, fd).(waiting := s.waiting[fd := co.id]))
  {
    ghost var s1 := WithFd(s, co.id, fd);
    sch.SetFd(co, fd, s);
    var tmp := sch.InsertWaiter(co, s1);
    r := if tmp == null then None else Some(DuplicateFd);
  }

  ghost function WithFd(s: State, c: Co, fd: Fd): State
    requires c in s.rec
  {
    s.(rec := s.rec[c := s.rec[c].(fd := fd)])
  }

  lemma WaitsFacts(s: State, c: Co, fd: Fd, dir: Direction)
    requires c in s.rec
    ensures Waits(s, c, fd, dir) == WithFd(WithStatus(s, c, RawWaitBits(dir)), c, fd).(waiting := s.waiting[fd := c])
    ensures EXITED !in s.rec[c].status ==> EXITED !in Waits(s, c, fd, dir).rec[c].status
  {
    Overwrite(s.rec, c, WithStatus(s, c, RawWaitBits(dir)).rec[c], Waits(s, c, fd, dir).rec[c]);
  }

  // ----- switching -----

  ghost function WithStatus(s: State, c: Co, bits: set<nat>): State
    requires c in s.rec
  {
    s.(rec := s.rec[c := s.rec[c].(status := s.rec[c].status + bits)])
  }

  /** `co->status |= bits` */
  method AddStatus(sch: Schedule, co: Coroutine, bits: set<nat>, ghost s: State)
    requires sch.Represents(s) && sch.Live(co)
    modifies co`status
    ensures sch.cos == old(sch.cos) && sch.Kept() && sch.Represents(WithStatus(s, co.id, bits))
  {
    sch.Holds(co, s);
    sch.SetStatus(co, co.status + bits, s);
  }

  /** nty_coroutine_resume up to the switch. */
  method SwitchTo(sch: Schedule, co: Coroutine, ghost s: State)
    requires sch.Represents(s) && sch.Live(co)
    modifies sch`curr, co`status, co`pc
    ensures Resume(s, co.id).Ok? && sch.Represents(Resume(s, co.id).s) && sch.cos == old(sch.cos)
  {
    sch.Holds(co, s);
    if NEW in co.status {
      ghost var s1 := s.(rec := s.rec[co.id := s.rec[co.id].(status := {READY})]);
      ghost var s2 := s1.(rec := s1.rec[co.id := s1.rec[co.id].(pc := Body)]);
      ResumeNew(s, co.id, s1, s2);
      sch.SetStatus(co, {READY}, s);
      sch.SetPc(co, Body, s1);
      sch.SetCurrent(co, s2);
    } else {
      sch.SetCurrent(co, s);
    }
  }

  lemma ResumeNew(s: State, c: Co, s1: State, s2: State)
    requires c in s.rec && NEW in s.rec[c].status
    requires s1 == s.(rec := s.rec[c := s.rec[c].(status := {READY})])
    requires s2 == s1.(rec := s1.rec[c := s1.rec[c].(pc := Body)])
    ensures Resume(s, c) == Ok(s2.(curr := Some(c)))
  {
    Overwrite(s.rec, c, s1.rec[c], s2.rec[c]);
  }

  ghost predicate Unlinked(s: State, c: Co) { c !in s.ready && c !in s.sleeping.Values && c !in s.waiting.Values }

  /** nty_coroutine_yield, the rest of nty_coroutine_resume after the switch back, and the test for
      the last coroutine of a round. */
  method SwitchBack(sch: Schedule, ghost s: State)
    requires sch.Represents(s) && sch.curr != null
    requires {EXITED, DETACH} <= s.rec[sch.curr.id].status ==> Unlinked(s, sch.curr.id)
    modifies sch`curr, sch`stage, sch`cos, sch`spawned, sch.curr`ops
    ensures sch.Represents(YieldNow(s, old(sch.curr).id)) && Parts(sch.cos) <= old(Parts(sch.cos))
    ensures !({EXITED, DETACH} <= s.rec[old(sch.curr).id].status) ==> sch.cos == old(sch.cos)
  {
    var c := sch.curr.id;
    ghost var t := Suspended(s, c);
    YieldIs(s, c);
    Suspend(sch, s);
    EndOfRun(sch, c, s, t);
  }

  /** `s` after nty_coroutine_resume has returned. */
  ghost function Suspended(s: State, c: Co): State
    requires c in s.rec
  {
    var t := s.(rec := s.rec[c := s.rec[c].(ops := 0)], curr := None);
    if {EXITED, DETACH} <= s.rec[c].status then Free(t, c) else t
  }

  lemma YieldIs(s: State, c: Co)
    requires c in s.rec
    ensures YieldNow(s, c) == Suspended(s, c).(phase := AfterRun(s.phase, c)) && Suspended(s, c).phase == s.phase
  {
  }

  method Suspend(sch: Schedule, ghost s: State)
    requires sch.Represents(s) && sch.curr != null
    requires {EXITED, DETACH} <= s.rec[sch.curr.id].status ==> Unlinked(s, sch.curr.id)
    modifies sch`curr, sch`cos, sch`spawned, sch.curr`ops
    ensures sch.Represents(Suspended(s, old(sch.curr).id)) && Parts(sch.cos) <= old(Parts(sch.cos))
    ensures !({EXITED, DETACH} <= s.rec[old(sch.curr).id].status) ==> sch.cos == old(sch.cos)
  {
    var co := sch.curr;
    ghost var c := co.id;
    ghost var s1 := s.(rec := s.rec[c := s.rec[c].(ops := 0)]);
    ghost var s2 := s1.(curr := None);
    assert s2 == s.(rec := s.rec[c := s.rec[c].(ops := 0)], curr := None);
    sch.Holds(co, s);
    var exited := {EXITED, DETACH} <= co.status;
    sch.SetOps(co, 0, s);
    sch.SetCurrent(null, s1);
    if exited {
      OneLess(sch.cos, c);
      sch.Release(co, s2);
    }
  }

  /** `if (co == last_co_ready) break;` */
  method EndOfRun(sch: Schedule, c: Co, ghost s: State, ghost t: State)
    requires sch.Represents(t) && t.phase == s.phase
    modifies sch`stage
    ensures sch.Represents(t.(phase := AfterRun(s.phase, c))) && sch.cos == old(sch.cos)
  {
    if sch.stage.AtReady? && sch.stage.last == Some(c) {
      sch.SetStage(AtPoll, Poll, t);
    }
  }

  // ----- the steps of the machine -----

  lemma StageIs(ph: Phase)
    ensures ph.Dispatch? ==> StageOf(ph) == AtDispatch(ph.pending)
    ensures ph.Ready? ==> StageOf(ph) == AtReady(ph.last)
    ensures StageOf(Poll) == AtPoll && StageOf(Check) == AtCheck && StageOf(Expire) == AtExpire && StageOf(Done) == AtDone
  {
  }

  /** The parts of a coroutine belong to the scheduler. */
  lemma InsideOne(cos: Table, co: Coroutine)
    requires co.id in cos && cos[co.id] == co
    ensures co in Parts(cos) && co.sleepNode in Parts(cos) && co.waitNode in Parts(cos) && co.elem in Parts(cos)
  {
  }

  /** So does everything that is linked. */
  lemma Inside(sch: Schedule, s: State)
    requires sch.Represents(s)
    ensures sch.sleeping.Repr <= Parts(sch.cos) && sch.waiting.Repr <= Parts(sch.cos)
    ensures forall e :: e in sch.ready.contents ==> e in Parts(sch.cos)
  {
  }

  lemma OneMore(cos: Table, co: Coroutine)
    requires co.id !in cos
    ensures Parts(cos[co.id := co]) <= Parts(cos) + co.Own()
  {
    var more := cos[co.id := co];
    forall o | o in Parts(more) ensures o in Parts(cos) + co.Own() {
      if c :| c in more && (o == more[c] || o == more[c].sleepNode || o == more[c].waitNode || o == more[c].elem) {
        if c != co.id { InsideOneAt(cos, c); }
      }
    }
  }

  lemma InsideOneAt(cos: Table, c: Co)
    requires c in cos
    ensures cos[c] in Parts(cos) && cos[c].sleepNode in Parts(cos) && cos[c].waitNode in Parts(cos) && cos[c].elem in Parts(cos)
  {
  }

  /** nty_coroutine_create. */
  method DoCreate(sch: Schedule, c: Co, ghost s: State) returns (ghost added: set<object>)
    requires sch.Represents(s) && c !in s.rec && c !in s.ready
    modifies sch`cos, sch`spawned, sch.ready, sch.ready.contents
    ensures sch.Represents(StepCreate(s, c)) && fresh(added) && Parts(sch.cos) <= old(Parts(sch.cos)) + added
  {
    ghost var s1 := s.(rec := s.rec[c := Rec({NEW}, -1, 0, 0, Pc.Start)], spawned := s.spawned + 1);
    CreateIs(s, c);
    ghost var was := sch.cos;
    var co := sch.Allocate(c, s);
    added := co.Own();
    OneMore(was, co);
    sch.Enqueue(co, s1);
  }

  lemma CreateIs(s: State, c: Co)
    ensures var t := s.(rec := s.rec[c := Rec({NEW}, -1, 0, 0, Pc.Start)], spawned := s.spawned + 1);
            StepCreate(s, c) == t.(ready := t.ready + [c])
  {
  }

  /** The condition of the loop of nty_schedule_run. */
  method DoLoop(sch: Schedule, ghost s: State)
    requires sch.Represents(s)
    modifies sch`stage
    ensures sch.Represents(s.(phase := if IsDone(s) then Done else Expire)) && sch.cos == old(sch.cos)
  {
    var done := Finished(sch, s);
    StageIs(Done);
    if done {
      sch.SetStage(AtDone, Done, s);
    } else {
      sch.SetStage(AtExpire, Expire, s);
    }
  }

  /** nty_schedule_isdone. */
  method Finished(sch: Schedule, ghost s: State) returns (done: bool)
    requires sch.Represents(s)
    ensures done <==> IsDone(s)
  {
    var w := Empty(sch.waiting, s.waiting);
    var sl := Empty(sch.sleeping, s.sleeping);
    var q := sch.ready.Empty();
    return w && sl && q;
  }

  /** One test of the expiry loop, with the resume or the way on to the ready queue. */
  method DoExpire(sch: Schedule, t: nat, ghost s: State)
    requires sch.Represents(s)
    modifies sch.Footprint()
    ensures StepExpire(s, t).Ok? && sch.Represents(StepExpire(s, t).s) && sch.cos == old(sch.cos)
  {
    Inside(sch, s);
    ExpireIs(s, t);
    var co := Expired(sch, t, s);
    if co != null {
      InsideOne(sch.cos, co);
      SwitchTo(sch, co, Woken(s, t));
    } else {
      ToReady(sch, s.(now := t));
    }
  }

  lemma ExpireIs(s: State, t: nat)
    ensures StepExpire(s, t) ==
            if s.sleeping != map[] && Min(s.sleeping.Keys) <= t then Resume(Woken(s, t), s.sleeping[Min(s.sleeping.Keys)])
            else Ok(s.(now := t).(phase := Ready(Last(s.ready), s.ready, [])))
  {
  }

  /** `last_co_ready = TAILQ_LAST(...)`. */
  method ToReady(sch: Schedule, ghost s: State)
    requires sch.Represents(s)
    modifies sch`stage
    ensures sch.cos == old(sch.cos) && sch.Represents(s.(phase := Ready(Last(s.ready), s.ready, [])))
  {
    var last := sch.LastReady(s);
    sch.SetStage(AtReady(last), Ready(last, s.ready, []), s);
  }

  /** One pass of the loop over the ready queue. */
  method DoReady(sch: Schedule, ghost s: State)
    requires sch.Represents(s) && s.phase.Ready? && s.curr.None?
    requires s.ready != [] ==> s.ready[0] in s.rec && Unlinked(s.(ready := s.ready[1..]), s.ready[0])
    modifies sch.Footprint()
    ensures StepReady(s).Ok? && sch.Represents(StepReady(s).s) && Parts(sch.cos) <= old(Parts(sch.cos))
  {
    StageIs(Poll);
    TakenIs(s);
    var empty := sch.ready.Empty();
    if empty {
      sch.SetStage(AtPoll, Poll, s);
    } else {
      Inside(sch, s);
      var co := Take(sch, s);
      InsideOne(sch.cos, co);
      RunOne(sch, co, TakenOff(s));
    }
  }

  /** `s` without the head of its ready queue. */
  ghost function TakenOff(s: State): State
    requires s.phase.Ready? && s.ready != []
  {
    s.(ready := s.ready[1..], phase := s.phase.(ran := s.phase.ran + [s.ready[0]]))
  }

  lemma TakenIs(s: State)
    requires s.phase.Ready?
    ensures s.ready == [] ==> StepReady(s) == Ok(s.(phase := Poll))
    ensures s.ready != [] && s.ready[0] in s.rec ==>
              var c := s.ready[0];
              StepReady(s) == if FDEOF in s.rec[c].status then Ok(Free(TakenOff(s), c).(phase := Poll)) else Resume(TakenOff(s), c)
  {
  }

  method Take(sch: Schedule, ghost s: State) returns (co: Coroutine)
    requires sch.Represents(s) && s.phase.Ready? && s.ready != []
    modifies sch.ready, sch.ready.contents
    ensures sch.Live(co) && co == sch.cos[s.ready[0]] && co.id == s.ready[0] && sch.cos == old(sch.cos)
    ensures sch.Represents(TakenOff(s))
  {
    co := sch.Dequeue(s);
    Ignored(sch, s.(ready := s.ready[1..]), TakenOff(s));
  }

  method RunOne(sch: Schedule, co: Coroutine, ghost s: State)
    requires sch.Represents(s) && s.curr.None? && sch.Live(co) && Unlinked(s, co.id)
    modifies sch`curr, sch`cos, sch`spawned, sch`stage, co`status, co`pc
    ensures FDEOF in s.rec[co.id].status ==> sch.Represents(Free(s, co.id).(phase := Poll))
    ensures FDEOF !in s.rec[co.id].status ==> Resume(s, co.id).Ok? && sch.Represents(Resume(s, co.id).s)
    ensures Parts(sch.cos) <= old(Parts(sch.cos))
  {
    sch.Holds(co, s);
    if FDEOF in co.status {
      OneLess(sch.cos, co.id);
      StageIs(Poll);
      sch.Release(co, s);
      sch.SetStage(AtPoll, Poll, Free(s, co.id));
    } else {
      SwitchTo(sch, co, s);
    }
  }

  lemma OneLess(cos: Table, c: Co)
    ensures Parts(cos - {c}) <= Parts(cos)
  {
    var less := cos - {c};
    forall o | o in Parts(less) ensures o in Parts(cos) {
      if d :| d in less && (o == less[d] || o == less[d].sleepNode || o == less[d].waitNode || o == less[d].elem) {
        InsideOneAt(cos, d);
      }
    }
  }

  /** nty_schedule_epoll; what epoll_wait reports is an input. */
  method DoPoll(sch: Schedule, t: nat, events: seq<Event>, ghost s: State)
    requires sch.Represents(s)
    modifies sch`stage
    ensures sch.Represents(StepPoll(s, t, events)) && sch.cos == old(sch.cos)
  {
    PolledIs(s, t, events);
    var usecs := TimeoutUsecs(sch, t, s);
    var empty := sch.ready.Empty();
    Ignored(sch, s, s.(now := t));
    Leave(sch, usecs != 0 && empty, events, s.(now := t));
  }

  method Leave(sch: Schedule, wait: bool, events: seq<Event>, ghost s: State)
    requires sch.Represents(s)
    modifies sch`stage
    ensures sch.cos == old(sch.cos) && sch.Represents(s.(phase := if wait then Dispatch(events, {}) else Check))
  {
    StageIs(Dispatch(events, {}));
    if wait {
      sch.SetStage(AtDispatch(events), Dispatch(events, {}), s);
    } else {
      sch.SetStage(AtCheck, Check, s);
    }
  }

  lemma PolledIs(s: State, t: nat, events: seq<Event>)
    ensures StepPoll(s, t, events) ==
            s.(now := t).(phase := if MinTimeout(s, t) != 0 && s.ready == [] then Dispatch(events, {}) else Check)
  {
  }

  /** One pass of the loop over the events, from the last one to the first. */
  method DoDispatch(sch: Schedule, ghost s: State)
    requires sch.Represents(s) && s.phase.Dispatch?
    requires s.phase.pending != [] ==>
               var fd := s.phase.pending[|s.phase.pending| - 1].fd; fd in s.waiting && s.waiting[fd] in s.rec
    modifies sch.Footprint()
    ensures StepDispatch(s).Ok? && sch.Represents(StepDispatch(s).s) && sch.cos == old(sch.cos)
  {
    StageIs(s.phase);
    SplitLast(s.phase.pending);
    var pending := sch.stage.pending;
    if pending == [] {
      sch.SetStage(AtCheck, Check, s);
    } else {
      var ev := pending[|pending| - 1];
      Handle(sch, pending[..|pending| - 1], ev, s);
    }
  }

  lemma SplitLast(q: seq<Event>)
    ensures q != [] ==> q == q[..|q| - 1] + [q[|q| - 1]]
  {
  }

  method Handle(sch: Schedule, rest: seq<Event>, ev: Event, ghost s: State)
    requires sch.Represents(s) && s.phase.Dispatch? && s.phase.pending == rest + [ev]
    requires ev.fd in s.waiting && s.waiting[ev.fd] in s.rec
    modifies sch.Footprint()
    ensures StepDispatch(s).Ok? && sch.Represents(StepDispatch(s).s) && sch.cos == old(sch.cos)
  {
    ghost var c := s.waiting[ev.fd];
    ghost var ph := Dispatch(rest, s.phase.resumed + {c});
    ghost var s2 := Notified(s, ev);
    DispatchIs(s, rest, ev);
    InsideOneAt(sch.cos, c);
    StageIs(ph);
    var co := Notify(sch, ev, s);
    sch.SetStage(AtDispatch(rest), ph, s2);
    SwitchTo(sch, co, s2.(phase := ph));
  }

  ghost function Notified(s: State, ev: Event): State
    requires ev.fd in s.waiting && s.waiting[ev.fd] in s.rec
  {
    var c := s.waiting[ev.fd];
    s.(rec := s.rec[c := s.rec[c].(status := if ev.hup then {FDEOF} else {})])
  }

  /** The waiter of an event, with its status set. */
  method Notify(sch: Schedule, ev: Event, ghost s: State) returns (co: Coroutine)
    requires sch.Represents(s) && ev.fd in s.waiting && s.waiting[ev.fd] in s.rec
    modifies sch.Of(s.waiting[ev.fd])`status
    ensures sch.Live(co) && co.id == s.waiting[ev.fd] && sch.cos == old(sch.cos) && sch.Represents(Notified(s, ev))
  {
    ghost var s1 := Cleared(s, s.waiting[ev.fd]);
    NotifiedIs(s, ev);
    co := SearchWait(sch, ev.fd, s);
    if ev.hup {
      AddStatus(sch, co, {FDEOF}, s1);
    }
  }

  ghost function Cleared(s: State, c: Co): State
    requires c in s.rec
  {
    s.(rec := s.rec[c := s.rec[c].(status := {})])
  }

  lemma NotifiedIs(s: State, ev: Event)
    requires ev.fd in s.waiting && s.waiting[ev.fd] in s.rec
    ensures var c, s1 := s.waiting[ev.fd], Cleared(s, s.waiting[ev.fd]);
            Notified(s, ev) == if ev.hup then WithStatus(s1, c, {FDEOF}) else s1
  {
    var c := s.waiting[ev.fd];
    Overwrite(s.rec, c, s.rec[c].(status := {}), Notified(s, ev).rec[c]);
    assert {} + {FDEOF} == {FDEOF};
  }

  lemma DispatchIs(s: State, rest: seq<Event>, ev: Event)
    requires s.phase.Dispatch? && s.phase.pending == rest + [ev] && ev.fd in s.waiting && s.waiting[ev.fd] in s.rec
    ensures var c := s.waiting[ev.fd]; StepDispatch(s) == Resume(Notified(s, ev).(phase := Dispatch(rest, s.phase.resumed + {c})), c)
  {
    assert s.phase.pending[..|s.phase.pending| - 1] == rest;
  }

  // ----- the steps of a body -----

  /** nty_coroutine_sleep of zero. */
  method DoSleepZero(sch: Schedule, ghost s: State)
    requires sch.Represents(s) && sch.curr != null && sch.curr.id !in s.ready && EXITED !in s.rec[sch.curr.id].status
    modifies sch.Footprint()
    ensures sch.Represents(YieldNow(s.(ready := s.ready + [old(sch.curr).id]), old(sch.curr).id))
    ensures sch.cos == old(sch.cos)
  {
    Inside(sch, s);
    InsideOne(sch.cos, sch.curr);
    ghost var s1 := s.(ready := s.ready + [sch.curr.id]);
    sch.Enqueue(sch.curr, s);
    SwitchBack(sch, s1);
  }

  /** nty_coroutine_sleep of more than zero: it does not yield. */
  method DoSleepTimed(sch: Schedule, ms: nat, t: nat, ghost s: State)
    requires sch.Represents(s) && sch.curr != null
    modifies sch.Footprint()
    ensures sch.Represents(Sleepdown(s, old(sch.curr).id, ms, t)) && sch.cos == old(sch.cos)
  {
    Inside(sch, s);
    InsideOne(sch.cos, sch.curr);
    SchedSleepdown(sch, sch.curr, ms, t, s);
  }

  /** nty_coroutine_yield. */
  method DoYield(sch: Schedule, ghost s: State)
    requires sch.Represents(s) && sch.curr != null && EXITED !in s.rec[sch.curr.id].status
    modifies sch.Footprint()
    ensures sch.Represents(YieldNow(s, old(sch.curr).id)) && sch.cos == old(sch.cos)
  {
    InsideOne(sch.cos, sch.curr);
    SwitchBack(sch, s);
  }

  /** nty_coroutine_renice. */
  method DoRenice(sch: Schedule, ghost s: State)
    requires sch.Represents(s) && sch.curr != null && sch.curr.id !in s.ready && EXITED !in s.rec[sch.curr.id].status
    modifies sch.Footprint()
    ensures sch.Represents(StepRenice(s, old(sch.curr).id)) && sch.cos == old(sch.cos)
  {
    var co := sch.curr;
    InsideOne(sch.cos, co);
    ReniceIs(s, co.id);
    var ops := CountOp(sch, co, s);
    if ops >= 5 {
      DoSleepZero(sch, Counted(s, co.id));
    }
  }

  ghost function Counted(s: State, c: Co): State
    requires c in s.rec
  {
    s.(rec := s.rec[c := s.rec[c].(ops := s.rec[c].ops + 1)])
  }

  lemma ReniceIs(s: State, c: Co)
    requires c in s.rec
    ensures s.rec[c].ops + 1 < 5 ==> StepRenice(s, c) == Counted(s, c)
    ensures s.rec[c].ops + 1 >= 5 ==> StepRenice(s, c) == YieldNow(Counted(s, c).(ready := s.ready + [c]), c)
    ensures Counted(s, c).rec[c].status == s.rec[c].status
  {
  }

  lemma CountedIs(s: State, c: Co, ops: nat)
    requires c in s.rec && ops == s.rec[c].ops + 1
    ensures s.(rec := s.rec[c := s.rec[c].(ops := ops)]) == Counted(s, c)
  {
  }

  method CountOp(sch: Schedule, co: Coroutine, ghost s: State) returns (ops: nat)
    requires sch.Represents(s) && sch.Live(co)
    modifies co`ops
    ensures ops == s.rec[co.id].ops + 1 && sch.cos == old(sch.cos) && sch.Represents(Counted(s, co.id))
  {
    sch.Holds(co, s);
    ops := co.ops + 1;
    CountedIs(s, co.id, ops);
    sch.SetOps(co, ops, s);
  }

  /** The running coroutine returns: _exec. */
  method DoReturn(sch: Schedule, ghost s: State)
    requires sch.Represents(s) && sch.curr != null && Unlinked(s, sch.curr.id)
    modifies sch.Footprint()
    ensures sch.Represents(StepReturn(s, old(sch.curr).id)) && Parts(sch.cos) <= old(Parts(sch.cos))
  {
    var co := sch.curr;
    InsideOne(sch.cos, co);
    ghost var s1 := WithStatus(s, co.id, {EXITED, FDEOF, DETACH});
    AddStatus(sch, co, {EXITED, FDEOF, DETACH}, s);
    SwitchBack(sch, s1);
  }

  /** nty_poll_inner up to its yield. */
  method DoPollFd(sch: Schedule, fd: Fd, dir: Direction, ghost s: State) returns (r: Option<Fault>)
    requires sch.Represents(s) && sch.curr != null && EXITED !in s.rec[sch.curr.id].status && sch.curr.waitNode !in sch.waiting.Repr
    modifies sch.Footprint()
    ensures var o := StepPollFd(s, old(sch.curr).id, fd, dir);
            if o.Crash? then r == Some(o.why) else r.None? && sch.Represents(o.s)
    ensures sch.cos == old(sch.cos)
  {
    var co := sch.curr;
    InsideOne(sch.cos, co);
    Inside(sch, s);
    PollIs(s, co.id, fd, dir);
    ghost var s1 := s.(interest := s.interest + {fd});
    sch.SetInterest(sch.interest + {fd}, s);
    r := Register(sch, co, fd, dir, s1);
  }

  /** nty_schedule_sched_wait and the yield. */
  method Register(sch: Schedule, co: Coroutine, fd: Fd, dir: Direction, ghost s: State) returns (r: Option<Fault>)
    requires sch.Represents(s) && sch.curr == co && EXITED !in s.rec[co.id].status && co.waitNode !in sch.waiting.Repr
    modifies sch.waiting, sch.waiting.Repr, co.waitNode, sch`curr, sch`stage, sch`cos, sch`spawned, co`status, co`ops, co`pc
    ensures r == WaitFault(s, co.id, fd, dir) && sch.cos == old(sch.cos)
    ensures var t := Waits(s, co.id, fd, dir);
            r.None? ==> sch.Represents(YieldNow(t.(rec := t.rec[co.id := t.rec[co.id].(pc := InPoll(fd))]), co.id))
  {
    WaitsFacts(s, co.id, fd, dir);
    r := SchedWait(sch, co, fd, dir, s);
    if r.None? {
      WaitThere(sch, fd, Waits(s, co.id, fd, dir));
    }
  }

  method WaitThere(sch: Schedule, fd: Fd, ghost s: State)
    requires sch.Represents(s) && sch.curr != null && EXITED !in s.rec[sch.curr.id].status
    modifies sch`curr, sch`stage, sch`cos, sch`spawned, sch.curr`ops, sch.curr`pc
    ensures sch.cos == old(sch.cos)
    ensures sch.Represents(YieldNow(s.(rec := s.rec[old(sch.curr).id := s.rec[old(sch.curr).id].(pc := InPoll(fd))]), old(sch.curr).id))
  {
    ghost var s1 := s.(rec := s.rec[sch.curr.id := s.rec[sch.curr.id].(pc := InPoll(fd))]);
    sch.SetPc(sch.curr, InPoll(fd), s);
    SwitchBack(sch, s1);
  }

  lemma PollIs(s: State, c: Co, fd: Fd, dir: Direction)
    requires c in s.rec
    ensures var t, st := Waits(s.(interest := s.interest + {fd}), c, fd, dir), s.rec[c].status;
            StepPollFd(s, c, fd, dir) ==
              if WAIT_READ in st || WAIT_WRITE in st then Crash(AlreadyWaiting)
              else if dir == Neither then Crash(NoDirection)
              else if fd in s.waiting then Crash(DuplicateFd)
              else Ok(YieldNow(t.(rec := t.rec[c := t.rec[c].(pc := InPoll(fd))]), c))
  {
    var r := s.rec[c].(status := s.rec[c].status + RawWaitBits(dir), fd := fd);
    Overwrite(s.rec, c, r, r.(pc := InPoll(fd)));
  }

  /** nty_poll_inner after its yield. */
  method DoPollReturn(sch: Schedule, ghost s: State)
    requires sch.Represents(s) && sch.curr != null && s.rec[sch.curr.id].pc.InPoll?
    requires var fd := s.rec[sch.curr.id].pc.fd; fd in s.waiting && s.waiting[fd] == sch.curr.id
    modifies sch.Footprint()
    ensures StepPollReturn(s, old(sch.curr).id).Ok? && sch.Represents(StepPollReturn(s, old(sch.curr).id).s)
    ensures sch.cos == old(sch.cos)
  {
    var co := sch.curr;
    ghost var c := co.id;
    InsideOne(sch.cos, co);
    Inside(sch, s);
    sch.Holds(co, s);
    var fd := co.pc.fd;
    ghost var s1 := s.(interest := s.interest - {fd});
    ghost var s2 := s1.(waiting := s1.waiting - {fd}, rec := s1.rec[c := s1.rec[c].(status := {})]);
    assert StepPollReturn(s, c) == Ok(s2.(rec := s2.rec[c := s2.rec[c].(pc := Body)]));
    sch.SetInterest(sch.interest - {fd}, s);
    var w := DeschedWait(sch, fd, s1);
    sch.SetPc(w, Body, s2);
  }

  // ----- whole runs -----

  /** What the invariant says of the running coroutine. */
  lemma RunningFacts(s: State, c: Co)
    requires Inv(s) && s.curr == Some(c)
    ensures c in s.rec && c !in s.ready && EXITED !in s.rec[c].status
    ensures s.rec[c].pc.InPoll? ==> s.rec[c].pc.fd in s.waiting && s.waiting[s.rec[c].pc.fd] == c
    ensures s.rec[c].pc == Body ==> c !in s.waiting.Values
    ensures s.rec[c].pc == Body && !Armed(s) ==> Unlinked(s, c)
  {
    CoreAt(s.rec, s.curr, s.ready, s.sleeping, s.waiting, c);
    TreeMembers(s, c);
    ArmedAsleep(s, c);
  }

  /** What it says of the head of the ready queue. */
  lemma HeadFacts(s: State)
    requires Inv(s) && s.ready != []
    ensures s.ready[0] in s.rec && Unlinked(s.(ready := s.ready[1..]), s.ready[0])
  {
    var c := s.ready[0];
    CoreAt(s.rec, s.curr, s.ready, s.sleeping, s.waiting, c);
    TreeMembers(s, c);
  }

  lemma NotWaiting(sch: Schedule, co: Coroutine, s: State)
    requires sch.Represents(s) && sch.Live(co) && co.id !in s.waiting.Values
    ensures co.waitNode !in sch.waiting.Repr
  {
    Schedule.NotLinked(sch.waiting, co.id, s.waiting);
  }

  /** What the run loop does between two resumes. */
  method StepLoop(sch: Schedule, a: Action, ghost s: State) returns (ghost added: set<object>)
    requires sch.Represents(s) && Enabled(s, a) && (a.Create? ==> a.co !in s.ready)
    requires a.Create? || a.Begin? || a.Loop? || a.PollStep?
    modifies sch.Footprint()
    ensures Step(s, a).Ok? && sch.Represents(Step(s, a).s)
    ensures fresh(added) && Parts(sch.cos) <= old(Parts(sch.cos)) + added
  {
    added := {};
    match a
    case Create(c) =>
      Inside(sch, s);
      added := DoCreate(sch, c, s);
    case Begin =>
      sch.SetStage(AtCheck, Check, s);
    case Loop =>
      DoLoop(sch, s);
    case PollStep(t, events) =>
      DoPoll(sch, t, events, s);
  }

  /** What it does to resume the next coroutine. */
  method StepResume(sch: Schedule, a: Action, ghost s: State)
    requires sch.Represents(s) && Enabled(s, a) && (a.ExpireStep? || a.ReadyStep? || a.DispatchStep?)
    requires a.ReadyStep? && s.ready != [] ==> s.ready[0] in s.rec && Unlinked(s.(ready := s.ready[1..]), s.ready[0])
    requires a.DispatchStep? && s.phase.pending != [] ==>
               var fd := s.phase.pending[|s.phase.pending| - 1].fd; fd in s.waiting && s.waiting[fd] in s.rec
    modifies sch.Footprint()
    ensures Step(s, a).Ok? && sch.Represents(Step(s, a).s) && Parts(sch.cos) <= old(Parts(sch.cos))
  {
    match a
    case ExpireStep(t) =>
      DoExpire(sch, t, s);
    case ReadyStep =>
      DoReady(sch, s);
    case DispatchStep =>
      DoDispatch(sch, s);
  }

  /** What the step needs to know of the running coroutine. */
  ghost predicate BodyReady(s: State, a: Action, c: Co) {
    && c in s.rec && c !in s.ready && EXITED !in s.rec[c].status
    && (a.PollReturn? ==> s.rec[c].pc.InPoll? && s.rec[c].pc.fd in s.waiting && s.waiting[s.rec[c].pc.fd] == c)
    && (a.Return? ==> Unlinked(s, c))
  }

  /** What the running coroutine does. */
  method StepBody(sch: Schedule, a: Action, ghost s: State)
    requires sch.Represents(s) && sch.curr != null && s.curr == Some(sch.curr.id) && OfBody(a)
    requires Enabled(s, a) && Step(s, a).Ok? && BodyReady(s, a, sch.curr.id)
    requires a.PollFd? ==> sch.curr.waitNode !in sch.waiting.Repr
    modifies sch.Footprint()
    ensures sch.Represents(Step(s, a).s) && Parts(sch.cos) <= old(Parts(sch.cos))
  {
    if a.PollFd? || a.PollReturn? || a.Return? {
      StepWait(sch, a, s);
    } else {
      StepSleep(sch, a, s);
    }
  }

  method StepSleep(sch: Schedule, a: Action, ghost s: State)
    requires sch.Represents(s) && sch.curr != null && s.curr == Some(sch.curr.id) && (a.SleepTimed? || a.Yield? || a.SleepZero? || a.Renice?)
    requires Enabled(s, a) && Step(s, a).Ok? && BodyReady(s, a, sch.curr.id)
    modifies sch.Footprint()
    ensures sch.Represents(Step(s, a).s) && Parts(sch.cos) <= old(Parts(sch.cos))
  {
    match a
    case SleepTimed(ms, t) =>
      DoSleepTimed(sch, ms, t, s);
    case Yield =>
      DoYield(sch, s);
    case SleepZero =>
      DoSleepZero(sch, s);
    case Renice =>
      DoRenice(sch, s);
  }

  method StepWait(sch: Schedule, a: Action, ghost s: State)
    requires sch.Represents(s) && sch.curr != null && s.curr == Some(sch.curr.id) && (a.PollFd? || a.PollReturn? || a.Return?)
    requires Enabled(s, a) && Step(s, a).Ok? && BodyReady(s, a, sch.curr.id)
    requires a.PollFd? ==> sch.curr.waitNode !in sch.waiting.Repr
    modifies sch.Footprint()
    ensures sch.Represents(Step(s, a).s) && Parts(sch.cos) <= old(Parts(sch.cos))
  {
    match a
    case PollFd(fd, dir) =>
      var r := DoPollFd(sch, fd, dir, s);
    case PollReturn =>
      DoPollReturn(sch, s);
    case Return =>
      DoReturn(sch, s);
  }

  lemma LoopFacts(s: State, a: Action)
    requires Inv(s) && Enabled(s, a) && !OfBody(a)
    ensures a.Create? ==> a.co !in s.ready
    ensures a.ReadyStep? && s.ready != [] ==> s.ready[0] in s.rec && Unlinked(s.(ready := s.ready[1..]), s.ready[0])
    ensures a.DispatchStep? && s.phase.pending != [] ==>
              var fd := s.phase.pending[|s.phase.pending| - 1].fd; fd in s.waiting && s.waiting[fd] in s.rec
  {
    if a.ReadyStep? && s.ready != [] { HeadFacts(s); }
    if a.DispatchStep? && s.phase.pending != [] { DispatchWaiter(s); }
  }

  lemma BodyFacts(sch: Schedule, a: Action, s: State)
    requires sch.Represents(s) && Inv(s) && Enabled(s, a) && Disciplined(s, a) && OfBody(a)
    ensures sch.curr != null && s.curr == Some(sch.curr.id) && BodyReady(s, a, sch.curr.id)
    ensures a.PollFd? ==> sch.curr.waitNode !in sch.waiting.Repr
  {
    CurrentIs(sch, s);
    ReadyBody(s, a, s.curr.value);
    if a.PollFd? { NotWaiting(sch, sch.curr, s); }
  }

  lemma CurrentIs(sch: Schedule, s: State)
    requires sch.Represents(s) && s.curr.Some?
    ensures sch.curr != null && sch.Live(sch.curr) && s.curr == Some(sch.curr.id)
  {
  }

  lemma ReadyBody(s: State, a: Action, c: Co)
    requires Inv(s) && Enabled(s, a) && Disciplined(s, a) && OfBody(a) && s.curr == Some(c)
    ensures BodyReady(s, a, c) && (a.PollFd? ==> c !in s.waiting.Values)
  {
    RunningFacts(s, c);
  }

  /** Any step of disciplined clients. */
  method StepOne(sch: Schedule, a: Action, ghost s: State) returns (ghost added: set<object>)
    requires sch.Represents(s) && Inv(s) && Enabled(s, a) && Disciplined(s, a) && Step(s, a).Ok?
    modifies sch.Footprint()
    ensures sch.Represents(Step(s, a).s)
    ensures fresh(added) && Parts(sch.cos) <= old(Parts(sch.cos)) + added
  {
    added := {};
    if OfBody(a) {
      BodyFacts(sch, a, s);
      StepBody(sch, a, s);
    } else {
      LoopFacts(s, a);
      if a.ExpireStep? || a.ReadyStep? || a.DispatchStep? {
        StepResume(sch, a, s);
      } else {
        added := StepLoop(sch, a, s);
      }
    }
  }

  ghost predicate Ahead(s: State, acts: seq<Action>, i: nat, s': State) { i <= |acts| && Inv(s) && Run(s, acts[i..], s') }

  lemma OneAhead(s: State, acts: seq<Action>, i: nat, s': State)
    requires Ahead(s, acts, i, s') && i < |acts|
    ensures Enabled(s, acts[i]) && Disciplined(s, acts[i]) && Step(s, acts[i]).Ok?
    ensures Ahead(Step(s, acts[i]).s, acts, i + 1, s')
  {
    assert acts[i..][0] == acts[i] && acts[i..][1..] == acts[i + 1..];
    StepInv(s, acts[i]);
  }

  lemma AtEnd(s: State, acts: seq<Action>, s': State)
    requires Ahead(s, acts, |acts|, s')
    ensures s == s'
  {
  }

  /** The structures follow every run of disciplined clients. */
  method Perform(sch: Schedule, acts: seq<Action>, i: nat, ghost s: State, ghost s': State)
    requires sch.Represents(s) && Ahead(s, acts, i, s')
    modifies sch.Footprint()
    ensures sch.Represents(s')
    decreases |acts| - i
  {
    if i == |acts| {
      AtEnd(s, acts, s');
    } else {
      OneAhead(s, acts, i, s');
      ghost var added := StepOne(sch, acts[i], s);
      Perform(sch, acts, i + 1, Step(s, acts[i]).s, s');
    }
  }

  /** A new scheduler driven through any run from the start ends up representing a reachable state,
      of which all of `SchedulerRuns` holds. */
  method RunAll(acts: seq<Action>, ghost s: State) returns (sch: Schedule)
    requires Run(INIT, acts, s)
    ensures sch.Represents(s) && Reachable(s)
  {
    sch := Start();
    InitInv();
    assert acts[0..] == acts;
    Perform(sch, acts, 0, INIT, s);
  }

  /** nty_schedule_create. */
  method Start() returns (sch: Schedule)
    ensures sch.Represents(INIT) && fresh(sch.Footprint())
  {
    sch := new Schedule();
  }
}
