/** The processes of sample/ntyco_httpd.c: each runs one `server` coroutine, which accepts under a
    lock in shared memory, and one `accept_request` coroutine for every connection it took.  Every
    atomic access to the shared memory is one step, and steps of all coroutines of all processes
    interleave freely; a coroutine that has yielded is one that takes no step for a while. */
module AcceptLock {
  import opened Common

  const TOTALFDS := 16
  const SIZE_MAX := 0x1_0000_0000_0000_0000

  datatype ServerPc =
    | Locking
    | Accepting
    | Accepted(fd: int)
    | Unlocked(fd: int)
    | Counted(fd: int)
    | Returned

  datatype Handler = Receiving(client: int) | Closing(client: int)

  datatype Process = Process(id: nat, pc: ServerPc, handlers: seq<Handler>)

  datatype State = State(cpus: nat, mtx: int, totalfds: seq<int>, procs: seq<Process>)

  /** What one process does next: its server coroutine takes a step, in which accept may return
      `fd`, or its `h`-th handler does, in which nty_recv may return `ret`. */
  datatype Action = Server(p: nat, fd: int) | Handle(p: nat, h: nat, ret: int)

  predicate WellFormed(s: State)
  {
    0 < s.cpus <= TOTALFDS && |s.totalfds| == TOTALFDS
  }

  /** What init_shmvalue and the forks leave behind. */
  predicate Init(s: State)
  {
    && WellFormed(s) && s.mtx == 0 && (forall j :: 0 <= j < TOTALFDS ==> s.totalfds[j] == 0)
    && forall i :: 0 <= i < |s.procs| ==> s.procs[i].pc == Locking && s.procs[i].handlers == []
  }

  function Slot(s: State, p: Process): (j: nat)
    requires WellFormed(s)
    ensures j < s.cpus
  {
    p.id % s.cpus
  }

  predicate Enabled(s: State, a: Action)
  {
    match a
    case Server(p, _) => p < |s.procs| && s.procs[p].pc != Returned
    case Handle(p, h, ret) => p < |s.procs| && h < |s.procs[p].handlers| && -SIZE_MAX < ret < SIZE_MAX
  }

  function With(s: State, p: nat, q: Process): State
    requires p < |s.procs|
  {
    s.(procs := s.procs[p := q])
  }

  function Count(s: State, j: nat, delta: int): State
    requires j < |s.totalfds|
  {
    s.(totalfds := s.totalfds[j := s.totalfds[j] + delta])
  }

  /** One step of `server`. */
  function ServerStep(s: State, p: nat, fd: int): State
    requires WellFormed(s) && Enabled(s, Server(p, fd))
  {
    var q := s.procs[p];
    match q.pc
    case Locking =>
      // cmpxchg returns the previous value; zero means success, anything else tries again
      if s.mtx == 0 then With(s.(mtx := 1), p, q.(pc := Accepting)) else s
    case Accepting => With(s, p, q.(pc := Accepted(fd)))
    case Accepted(c) => With(s.(mtx := 0), p, q.(pc := Unlocked(c)))
    case Unlocked(c) =>
      if c < 0 then With(s, p, q.(pc := Returned))
      else With(Count(s, Slot(s, q), 1), p, q.(pc := Counted(c)))
    case Counted(c) => With(s, p, q.(pc := Locking, handlers := q.handlers + [Receiving(c)]))
    case Returned => s
  }

  /** `numchars` is a size_t: a negative result of nty_recv turns into a large positive one. */
  function Unsigned(ret: int): (n: nat)
    requires -SIZE_MAX < ret < SIZE_MAX
    ensures n == 0 <==> ret == 0
  {
    if ret < 0 then ret + SIZE_MAX else ret
  }

  /** One step of `accept_request`; its third branch tests for minus one and is never reached. */
  function HandlerStep(s: State, p: nat, h: nat, ret: int): State
    requires WellFormed(s) && Enabled(s, Handle(p, h, ret))
  {
    var q := s.procs[p];
    match q.handlers[h]
    case Receiving(c) =>
      if Unsigned(ret) > 0 then s else With(s, p, q.(handlers := q.handlers[h := Closing(c)]))
    case Closing(_) =>
      With(Count(s, Slot(s, q), -1), p, q.(handlers := q.handlers[..h] + q.handlers[h + 1..]))
  }

  function Step(s: State, a: Action): State
    requires WellFormed(s) && Enabled(s, a)
  {
    match a
    case Server(p, fd) => ServerStep(s, p, fd)
    case Handle(p, h, ret) => HandlerStep(s, p, h, ret)
  }

  /** `s` is reached in `n` steps. */
  ghost predicate Reachable(s: State, n: nat)
    decreases n
  {
    if n == 0 then Init(s)
    else exists r, a :: Reachable(r, n - 1) && WellFormed(r) && Enabled(r, a) && s == Step(r, a)
  }

  /* ---------------------------------------------------------------------------------------- */

  /** The process holds the lock: between a successful `lock` and `unlock`. */
  predicate Inside(p: Process) { p.pc.Accepting? || p.pc.Accepted? }

  /** Connections the process has counted in and not yet out. */
  function Open(p: Process): nat { |p.handlers| + if p.pc.Counted? then 1 else 0 }

  function Sum(ps: seq<Process>, f: Process -> int): int
  {
    if ps == [] then 0 else f(ps[0]) + Sum(ps[1..], f)
  }

  function Holds(): Process -> int { (p: Process) => if Inside(p) then 1 else 0 }

  function OpenIn(cpus: nat, j: nat): Process -> int
    requires cpus > 0
  {
    (p: Process) => if p.id % cpus == j then Open(p) else 0
  }

  function OpenAnywhere(): Process -> int { (p: Process) => Open(p) }

  lemma {:induction false} SumUpdate(ps: seq<Process>, i: nat, q: Process, f: Process -> int)
    requires i < |ps|
    ensures Sum(ps[i := q], f) == Sum(ps, f) - f(ps[i]) + f(q)
  {
    var qs := ps[i := q];
    if i > 0 {
      assert qs[1..] == ps[1..][i - 1 := q];
      SumUpdate(ps[1..], i - 1, q, f);
    } else {
      assert qs[1..] == ps[1..];
    }
  }

  /** A sum of non-negative terms is at least any term, and at least any two of them. */
  lemma {:induction false} SumAtLeast(ps: seq<Process>, i: nat, f: Process -> int)
    requires i < |ps| && forall p :: f(p) >= 0
    ensures Sum(ps, f) >= f(ps[i])
  {
    SumUpdate(ps, i, ps[i], f);
    if i > 0 { SumAtLeast(ps[1..], i - 1, f); } else { SumNonNegative(ps[1..], f); }
  }

  lemma {:induction false} SumNonNegative(ps: seq<Process>, f: Process -> int)
    requires forall p :: f(p) >= 0
    ensures Sum(ps, f) >= 0
  {
    if ps != [] { SumNonNegative(ps[1..], f); }
  }

  lemma {:induction false} SumAtLeastTwo(ps: seq<Process>, i: nat, j: nat, f: Process -> int)
    requires i < j < |ps| && forall p :: f(p) >= 0
    ensures Sum(ps, f) >= f(ps[i]) + f(ps[j])
  {
    if i > 0 { SumAtLeastTwo(ps[1..], i - 1, j - 1, f); } else { SumAtLeast(ps[1..], j - 1, f); }
  }

  lemma {:induction false} SumZero(ps: seq<Process>, f: Process -> int)
    requires forall i :: 0 <= i < |ps| ==> f(ps[i]) == 0
    ensures Sum(ps, f) == 0
  {
    if ps != [] { SumZero(ps[1..], f); }
  }

  /** The lock word counts the processes inside, and every slot counts its open connections. */
  ghost predicate Inv(s: State)
  {
    && WellFormed(s) && (s.mtx == 0 || s.mtx == 1)
    && Sum(s.procs, Holds()) == s.mtx
    && forall j :: 0 <= j < TOTALFDS ==> s.totalfds[j] == Sum(s.procs, OpenIn(s.cpus, j))
  }

  lemma InitInv(s: State)
    requires Init(s)
    ensures Inv(s)
  {
    SumZero(s.procs, Holds());
    forall j | 0 <= j < TOTALFDS ensures s.totalfds[j] == Sum(s.procs, OpenIn(s.cpus, j)) {
      SumZero(s.procs, OpenIn(s.cpus, j));
    }
  }

  /** A step that replaces process `p`, with the counters following its connections. */
  lemma ReplaceInv(s: State, t: State, p: nat, q: Process)
    requires Inv(s) && p < |s.procs| && t.procs == s.procs[p := q] && t.cpus == s.cpus
    requires q.id == s.procs[p].id && WellFormed(t)
    requires t.mtx == s.mtx - Holds()(s.procs[p]) + Holds()(q) && (t.mtx == 0 || t.mtx == 1)
    requires t.totalfds ==
      s.totalfds[Slot(s, q) := s.totalfds[Slot(s, q)] + Open(q) - Open(s.procs[p])]
    ensures Inv(t)
  {
    SumUpdate(s.procs, p, q, Holds());
    forall j | 0 <= j < TOTALFDS ensures t.totalfds[j] == Sum(t.procs, OpenIn(t.cpus, j)) {
      SumUpdate(s.procs, p, q, OpenIn(s.cpus, j));
    }
  }

  lemma ServerStepInv(s: State, p: nat, fd: int)
    requires Inv(s) && Enabled(s, Server(p, fd))
    ensures Inv(ServerStep(s, p, fd))
  {
    var t := ServerStep(s, p, fd);
    var q := s.procs[p];
    SumAtLeast(s.procs, p, Holds());
    if q.pc != Locking || s.mtx == 0 {
      assert t.procs[p].id == q.id;
      ReplaceInv(s, t, p, t.procs[p]);
    }
  }

  lemma HandlerStepInv(s: State, p: nat, h: nat, ret: int)
    requires Inv(s) && Enabled(s, Handle(p, h, ret))
    ensures Inv(HandlerStep(s, p, h, ret))
  {
    var t := HandlerStep(s, p, h, ret);
    var q := s.procs[p];
    if q.handlers[h].Closing? || Unsigned(ret) == 0 {
      ReplaceInv(s, t, p, t.procs[p]);
    }
  }

  lemma {:induction false} ReachableInv(s: State, n: nat)
    requires Reachable(s, n)
    ensures Inv(s)
    decreases n
  {
    if n == 0 {
      InitInv(s);
    } else {
      var r, a :| Reachable(r, n - 1) && WellFormed(r) && Enabled(r, a) && s == Step(r, a);
      ReachableInv(r, n - 1);
      match a
      case Server(p, fd) => ServerStepInv(r, p, fd);
      case Handle(p, h, ret) => HandlerStepInv(r, p, h, ret);
    }
  }

  /* ---------------------------------------------------------------------------------------- */

  /** At most one process is between lock and unlock, and the lock word says whether one is. */
  lemma MutualExclusion(s: State, n: nat, i: nat, j: nat)
    requires Reachable(s, n) && i < |s.procs| && j < |s.procs|
    ensures Inside(s.procs[i]) && Inside(s.procs[j]) ==> i == j
    ensures s.mtx == 1 <==> exists k :: 0 <= k < |s.procs| && Inside(s.procs[k])
  {
    ReachableInv(s, n);
    if i < j { SumAtLeastTwo(s.procs, i, j, Holds()); }
    if j < i { SumAtLeastTwo(s.procs, j, i, Holds()); }
    if k: nat :| k < |s.procs| && Inside(s.procs[k]) {
      SumAtLeast(s.procs, k, Holds());
    } else {
      SumZero(s.procs, Holds());
    }
  }

  /** `lock` succeeds exactly when nobody is inside, and `unlock` frees only the caller's own lock:
      before it the caller is inside, after it nobody is. */
  lemma LockAndUnlock(s: State, n: nat, p: nat, fd: int, k: nat)
    requires Reachable(s, n) && p < |s.procs| && k < |s.procs|
    ensures WellFormed(s)
    ensures s.procs[p].pc == Locking ==>
      (Inside(ServerStep(s, p, fd).procs[p]) <==> forall i :: 0 <= i < |s.procs| ==> !Inside(s.procs[i]))
    ensures s.procs[p].pc.Accepted? ==> s.mtx == 1 && !Inside(ServerStep(s, p, fd).procs[k])
  {
    ReachableInv(s, n);
    MutualExclusion(s, n, p, k);
  }

  /** Sharing a slot is harmless: every slot holds the number of open connections of all processes
      mapped to it, so no counter is ever negative, and an unused slot stays at zero. */
  lemma SlotCounts(s: State, n: nat, j: nat)
    requires Reachable(s, n) && j < TOTALFDS
    ensures WellFormed(s)
    ensures s.totalfds[j] == Sum(s.procs, OpenIn(s.cpus, j)) >= 0
    ensures j >= s.cpus ==> s.totalfds[j] == 0
  {
    ReachableInv(s, n);
    SumNonNegative(s.procs, OpenIn(s.cpus, j));
    if j >= s.cpus {
      SumZero(s.procs, OpenIn(s.cpus, j));
    }
  }

  function Total(counts: seq<int>): int
  {
    if counts == [] then 0 else counts[0] + Total(counts[1..])
  }

  /** The counters by slot, as sums over the processes. */
  function BySlot(ps: seq<Process>, cpus: nat, k: nat): (c: seq<int>)
    requires cpus > 0
    ensures |c| == k && forall j :: 0 <= j < k ==> c[j] == Sum(ps, OpenIn(cpus, j))
  {
    seq(k, (j: nat) => Sum(ps, OpenIn(cpus, j)))
  }

  lemma {:induction false} TotalAdd(c: seq<int>, d: seq<int>, j: nat, delta: int)
    requires |c| == |d| && j < |c| && d == c[j := c[j] + delta]
    ensures Total(d) == Total(c) + delta
  {
    if j > 0 {
      assert d[1..] == c[1..][j - 1 := c[j] + delta];
      TotalAdd(c[1..], d[1..], j - 1, delta);
    } else {
      assert d[1..] == c[1..];
    }
  }

  lemma {:induction false} TotalZero(c: seq<int>)
    requires forall j :: 0 <= j < |c| ==> c[j] == 0
    ensures Total(c) == 0
  {
    if c != [] { TotalZero(c[1..]); }
  }

  /** Summing by slot and summing by process give the same number. */
  lemma {:induction false} SlotsPartition(ps: seq<Process>, cpus: nat, k: nat)
    requires 0 < cpus <= k
    ensures Total(BySlot(ps, cpus, k)) == Sum(ps, OpenAnywhere())
  {
    var c := BySlot(ps, cpus, k);
    if ps == [] {
      TotalZero(c);
    } else {
      var d := BySlot(ps[1..], cpus, k);
      SlotsPartition(ps[1..], cpus, k);
      var j := ps[0].id % cpus;
      assert c == d[j := d[j] + Open(ps[0])];
      TotalAdd(d, c, j, Open(ps[0]));
    }
  }

  /** The counters add up to the connections counted in and not yet out. */
  lemma CountersConserve(s: State, n: nat)
    requires Reachable(s, n)
    ensures Total(s.totalfds) == Sum(s.procs, OpenAnywhere())
  {
    ReachableInv(s, n);
    assert s.totalfds == BySlot(s.procs, s.cpus, TOTALFDS);
    SlotsPartition(s.procs, s.cpus, TOTALFDS);
  }

  /* ---------------------------------------------------------------------------------------- */

  /** The `server` coroutine ends exactly on a failed accept, which counts nothing; a connection is
      counted in its own process's slot and goes to a new handler, behind the others. */
  lemma ServerMoves(s: State, p: nat, fd: int)
    requires WellFormed(s) && Enabled(s, Server(p, fd))
    ensures var q, t := s.procs[p], ServerStep(s, p, fd);
            && |t.procs| == |s.procs| && (forall i :: 0 <= i < |s.procs| && i != p ==> t.procs[i] == s.procs[i])
            && (t.procs[p].pc.Returned? <==> q.pc.Unlocked? && q.pc.fd < 0)
            && (q.pc.Unlocked? && q.pc.fd >= 0 ==> t.procs[p].pc == Counted(q.pc.fd))
            && (forall j :: 0 <= j < TOTALFDS ==>
                  t.totalfds[j] - s.totalfds[j] == if q.pc.Unlocked? && q.pc.fd >= 0 && j == q.id % s.cpus then 1 else 0)
            && t.procs[p].handlers == q.handlers + (if q.pc.Counted? then [Receiving(q.pc.fd)] else [])
  {
  }

  /** A handler acts on itself only: it goes on after every result but zero, closes after zero, and
      leaves when its connection is counted out of its own process's slot. */
  lemma HandlerMoves(s: State, p: nat, h: nat, ret: int)
    requires WellFormed(s) && Enabled(s, Handle(p, h, ret))
    ensures var q, t := s.procs[p], HandlerStep(s, p, h, ret);
            var old_, new_ := q.handlers, t.procs[p].handlers;
            && |t.procs| == |s.procs| && (forall i :: 0 <= i < |s.procs| && i != p ==> t.procs[i] == s.procs[i])
            && (old_[h].Receiving? && ret != 0 ==> t == s)
            && (old_[h].Receiving? && ret == 0 ==> new_ == old_[h := Closing(old_[h].client)] && t.totalfds == s.totalfds)
            && (old_[h].Closing? ==>
                  && multiset(new_) == multiset(old_) - multiset{old_[h]} && |new_| == |old_| - 1
                  && (forall j :: 0 <= j < |new_| ==> new_[j] == if j < h then old_[j] else old_[j + 1])
                  && (forall j :: 0 <= j < TOTALFDS ==>
                        t.totalfds[j] - s.totalfds[j] == if j == q.id % s.cpus then -1 else 0))
  {
    var old_ := s.procs[p].handlers;
    if old_[h].Closing? { WithoutOne(old_, h); }
  }

  lemma WithoutOne(hs: seq<Handler>, h: nat)
    requires h < |hs|
    ensures multiset(hs[..h] + hs[h + 1..]) == multiset(hs) - multiset{hs[h]}
  {
    assert hs == hs[..h] + [hs[h]] + hs[h + 1..];
  }

  // ----- what a run has seen -----

  /** A run: all its states and the steps between them. */
  ghost predicate Run(ss: seq<State>, acts: seq<Action>)
  {
    && |ss| == |acts| + 1 && Init(ss[0])
    && forall i :: 0 <= i < |acts| ==> WellFormed(ss[i]) && Enabled(ss[i], acts[i]) && ss[i + 1] == Step(ss[i], acts[i])
  }

  lemma {:induction false} RunReaches(ss: seq<State>, acts: seq<Action>, n: nat)
    requires Run(ss, acts) && n <= |acts|
    ensures Reachable(ss[n], n) && |ss[n].procs| == |ss[0].procs|
  {
    if n > 0 {
      RunReaches(ss, acts, n - 1);
      match acts[n - 1]
      case Server(p, fd) => ServerMoves(ss[n - 1], p, fd);
      case Handle(p, h, ret) => HandlerMoves(ss[n - 1], p, h, ret);
    }
  }

  /** What a process can see: a descriptor from accept, a failed accept, a receive of zero from a
      client, a client being counted out. */
  datatype Sight = AcceptGood | AcceptBad | Zero | Out

  /** Whether a sighting of `fd` is asked for: `None` stands for any descriptor. */
  predicate Asked(c: Option<int>, fd: int) { c.None? || c.value == fd }

  function One(b: bool): nat { if b then 1 else 0 }

  /** How often process `p` sees `w` happen to the descriptor `c` in one step. */
  ghost function Sees(s: State, a: Action, p: nat, w: Sight, c: Option<int>): nat
    requires Enabled(s, a)
  {
    if a.p != p then 0
    else
      match a
      case Server(_, fd) => One(s.procs[p].pc.Accepting? && Asked(c, fd) && if fd >= 0 then w.AcceptGood? else w.AcceptBad?)
      case Handle(_, h, ret) =>
        var hd := s.procs[p].handlers[h];
        One(Asked(c, hd.client) && if hd.Receiving? then w.Zero? && ret == 0 else w.Out?)
  }

  /** And in the first `n` steps of a run. */
  ghost function Seen(ss: seq<State>, acts: seq<Action>, n: nat, p: nat, w: Sight, c: Option<int>): nat
    requires Run(ss, acts) && n <= |acts|
  {
    if n == 0 then 0 else Seen(ss, acts, n - 1, p, w, c) + Sees(ss[n - 1], acts[n - 1], p, w, c)
  }

  /** How many handlers serve `c`, and how many of them are closing it. */
  function Serving(hs: seq<Handler>, c: Option<int>): nat
  {
    if hs == [] then 0 else Serving(hs[..|hs| - 1], c) + One(Asked(c, hs[|hs| - 1].client))
  }

  function Shutting(hs: seq<Handler>, c: Option<int>): nat
  {
    if hs == [] then 0
    else Shutting(hs[..|hs| - 1], c) + One(hs[|hs| - 1].Closing? && Asked(c, hs[|hs| - 1].client))
  }

  lemma {:induction false} ServingConcat(a: seq<Handler>, b: seq<Handler>, c: Option<int>)
    ensures Serving(a + b, c) == Serving(a, c) + Serving(b, c) && Shutting(a + b, c) == Shutting(a, c) + Shutting(b, c)
  {
    if b == [] {
      assert a + b == a;
    } else {
      assert (a + b)[..|a + b| - 1] == a + b[..|b| - 1];
      ServingConcat(a, b[..|b| - 1], c);
    }
  }

  lemma ServingAround(a: seq<Handler>, x: Handler, b: seq<Handler>, c: Option<int>)
    ensures Serving(a + [x] + b, c) == Serving(a + b, c) + One(Asked(c, x.client))
    ensures Shutting(a + [x] + b, c) == Shutting(a + b, c) + One(x.Closing? && Asked(c, x.client))
  {
    ServingConcat(a + [x], b, c);
    ServingConcat(a, [x], c);
    ServingConcat(a, b, c);
    assert [x][..0] == [];
  }

  lemma {:induction false} ServingAny(hs: seq<Handler>)
    ensures Serving(hs, None) == |hs|
  {
    if hs != [] { ServingAny(hs[..|hs| - 1]); }
  }

  /** The server coroutine has a descriptor `c` from accept in hand. */
  function InHand(pc: ServerPc, c: Option<int>): nat
  {
    One((pc.Accepted? || pc.Unlocked? || pc.Counted?) && pc.fd >= 0 && Asked(c, pc.fd))
  }

  /** It is on its way out after a failed accept. */
  predicate Failed(pc: ServerPc) { pc.Returned? || ((pc.Accepted? || pc.Unlocked?) && pc.fd < 0) }

  /** The books of one process for the descriptor `c`. */
  ghost predicate Books(q: Process, c: Option<int>, good: nat, bad: nat, zero: nat, out: nat)
  {
    && good == out + Serving(q.handlers, c) + InHand(q.pc, c)
    && zero == out + Shutting(q.handlers, c)
    && (c.None? ==> bad == One(Failed(q.pc)))
    && (q.pc.Counted? ==> q.pc.fd >= 0)
  }

  lemma ServerBooks(s: State, p: nat, fd: int, c: Option<int>, good: nat, bad: nat, zero: nat, out: nat)
    requires WellFormed(s) && Enabled(s, Server(p, fd)) && Books(s.procs[p], c, good, bad, zero, out)
    ensures Books(ServerStep(s, p, fd).procs[p], c, good + Sees(s, Server(p, fd), p, AcceptGood, c),
                  bad + Sees(s, Server(p, fd), p, AcceptBad, c), zero, out)
  {
    var q, t := s.procs[p], ServerStep(s, p, fd).procs[p];
    ServerMoves(s, p, fd);
    if q.pc.Counted? {
      TakenOver(q.handlers, q.pc.fd, c);
    } else {
      assert t.handlers == q.handlers;
      PcBooks(q.pc, t.pc, fd, c);
    }
  }

  lemma TakenOver(hs: seq<Handler>, fd: int, c: Option<int>)
    ensures Serving(hs + [Receiving(fd)], c) == Serving(hs, c) + One(Asked(c, fd))
    ensures Shutting(hs + [Receiving(fd)], c) == Shutting(hs, c)
  {
    var all := hs + [Receiving(fd)];
    assert all[..|all| - 1] == hs;
  }

  /** The steps of the server coroutine between two handlers, in terms of what it has in hand. */
  lemma PcBooks(pc: ServerPc, pc': ServerPc, fd: int, c: Option<int>)
    requires pc' == match pc
                    case Locking => if pc'.Accepting? then Accepting else Locking
                    case Accepting => Accepted(fd)
                    case Accepted(d) => Unlocked(d)
                    case Unlocked(d) => if d < 0 then Returned else Counted(d)
                    case _ => pc
    ensures InHand(pc', c) == InHand(pc, c) + One(pc.Accepting? && Asked(c, fd) && fd >= 0)
    ensures One(Failed(pc')) == One(Failed(pc)) + One(pc.Accepting? && fd < 0)
  {
  }

  lemma HandlerBooks(s: State, p: nat, h: nat, ret: int, c: Option<int>, good: nat, bad: nat, zero: nat, out: nat)
    requires WellFormed(s) && Enabled(s, Handle(p, h, ret)) && Books(s.procs[p], c, good, bad, zero, out)
    ensures Books(HandlerStep(s, p, h, ret).procs[p], c, good, bad, zero + Sees(s, Handle(p, h, ret), p, Zero, c),
                  out + Sees(s, Handle(p, h, ret), p, Out, c))
  {
    var hs := s.procs[p].handlers;
    var a, x, b := hs[..h], hs[h], hs[h + 1..];
    assert hs == a + [x] + b;
    ServingAround(a, x, b, c);
    if x.Receiving? && ret == 0 {
      var y := Closing(x.client);
      assert hs[h := y] == a + [y] + b;
      ServingAround(a, y, b, c);
    }
  }

  /** The books balance at every point of every run, descriptor by descriptor and in all: what accept
      gave a process is what it has counted out, what its handlers serve and what it has in hand; a
      client was counted out, or is about to be, exactly as often as a receive from it returned zero;
      and accept failed once if the server coroutine has ended or is about to, and never otherwise. */
  lemma {:induction false} BooksBalance(ss: seq<State>, acts: seq<Action>, n: nat, p: nat, c: Option<int>)
    requires Run(ss, acts) && n <= |acts| && p < |ss[0].procs|
    ensures p < |ss[n].procs|
    ensures Books(ss[n].procs[p], c, Seen(ss, acts, n, p, AcceptGood, c), Seen(ss, acts, n, p, AcceptBad, c),
                  Seen(ss, acts, n, p, Zero, c), Seen(ss, acts, n, p, Out, c))
  {
    RunReaches(ss, acts, n);
    if n > 0 {
      BooksBalance(ss, acts, n - 1, p, c);
      StepBooks(ss[n - 1], acts[n - 1], p, c, Seen(ss, acts, n - 1, p, AcceptGood, c), Seen(ss, acts, n - 1, p, AcceptBad, c),
                Seen(ss, acts, n - 1, p, Zero, c), Seen(ss, acts, n - 1, p, Out, c));
    }
  }

  lemma StepBooks(s: State, a: Action, p: nat, c: Option<int>, good: nat, bad: nat, zero: nat, out: nat)
    requires WellFormed(s) && Enabled(s, a) && p < |s.procs| && Books(s.procs[p], c, good, bad, zero, out)
    ensures p < |Step(s, a).procs|
    ensures Books(Step(s, a).procs[p], c, good + Sees(s, a, p, AcceptGood, c), bad + Sees(s, a, p, AcceptBad, c),
                  zero + Sees(s, a, p, Zero, c), out + Sees(s, a, p, Out, c))
  {
    match a
    case Server(i, fd) =>
      ServerMoves(s, i, fd);
      if i == p { ServerBooks(s, p, fd, c, good, bad, zero, out); }
    case Handle(i, h, ret) =>
      HandlerMoves(s, i, h, ret);
      if i == p { HandlerBooks(s, p, h, ret, c, good, bad, zero, out); }
  }

  /** What a process has open, by what it has seen: good accepts less counts out, less the one that it
      has not counted in yet. */
  ghost function OpenBySight(ss: seq<State>, acts: seq<Action>, p: nat): int
    requires Run(ss, acts) && p < |ss[|acts|].procs|
  {
    var pc := ss[|acts|].procs[p].pc;
    Seen(ss, acts, |acts|, p, AcceptGood, None) - Seen(ss, acts, |acts|, p, Out, None)
      - One((pc.Accepted? || pc.Unlocked?) && pc.fd >= 0)
  }

  ghost function OpenBySights(ss: seq<State>, acts: seq<Action>, k: nat): int
    requires Run(ss, acts) && k <= |ss[|acts|].procs|
  {
    if k == 0 then 0 else OpenBySights(ss, acts, k - 1) + OpenBySight(ss, acts, k - 1)
  }

  lemma {:induction false} SumSnoc(ps: seq<Process>, k: nat, f: Process -> int)
    requires k < |ps|
    ensures Sum(ps[..k + 1], f) == Sum(ps[..k], f) + f(ps[k])
    decreases k
  {
    if k > 0 {
      assert ps[..k + 1][1..] == ps[1..][..k] && ps[..k][1..] == ps[1..][..k - 1];
      SumSnoc(ps[1..], k - 1, f);
    }
  }

  lemma OpenIsSeen(ss: seq<State>, acts: seq<Action>, p: nat)
    requires Run(ss, acts) && p < |ss[|acts|].procs|
    ensures Open(ss[|acts|].procs[p]) == OpenBySight(ss, acts, p)
  {
    RunReaches(ss, acts, |acts|);
    BooksBalance(ss, acts, |acts|, p, None);
    ServingAny(ss[|acts|].procs[p].handlers);
  }

  lemma {:induction false} OpensAreSeen(ss: seq<State>, acts: seq<Action>, k: nat)
    requires Run(ss, acts) && k <= |ss[|acts|].procs|
    ensures Sum(ss[|acts|].procs[..k], OpenAnywhere()) == OpenBySights(ss, acts, k)
  {
    if k > 0 {
      OpensAreSeen(ss, acts, k - 1);
      OpenIsSeen(ss, acts, k - 1);
      SumSnoc(ss[|acts|].procs, k - 1, OpenAnywhere());
    }
  }

  /** After any run the counters add up to the good accepts, less the counts out, less those accepted
      but not yet counted in. */
  lemma CountersBySight(ss: seq<State>, acts: seq<Action>)
    requires Run(ss, acts)
    ensures var s := ss[|acts|]; Total(s.totalfds) == OpenBySights(ss, acts, |s.procs|)
  {
    var s := ss[|acts|];
    RunReaches(ss, acts, |acts|);
    CountersConserve(s, |acts|);
    OpensAreSeen(ss, acts, |s.procs|);
    assert s.procs[..|s.procs|] == s.procs;
  }
}
