/** add_shmvalue and sub_shmvalue of sample/nty_server_mulcore.c, run by any number of processes on
    one shared total.  The load and the compare-and-swap of a round and the load of the result are
    separate steps. */
module ShmCounter {

  datatype Pc = Idle | Loading(add: int) | Swapping(add: int, value: int) | Reading

  /** `losses` counts a process's failed compare-and-swaps, `wins` the others; `since` is the number
      of calls of all processes that had taken effect when it last loaded or last won, `seen` the
      number at which it read its last result, `result`. */
  datatype Caller = Caller(pc: Pc, wins: nat, losses: nat, since: nat, result: int, seen: nat)

  /** `effects` lists what every call added, in the order in which they took effect. */
  datatype State = State(total: int, callers: seq<Caller>, effects: seq<int>)

  datatype Action = Call(i: nat, add: int) | Go(i: nat)

  predicate Init(s: State)
  {
    && s.total == 0 && s.effects == []
    && forall i :: 0 <= i < |s.callers| ==> s.callers[i] == Caller(Idle, 0, 0, 0, 0, 0)
  }

  predicate Enabled(s: State, a: Action)
  {
    && a.i < |s.callers|
    && match a
       case Call(i, add) => s.callers[i].pc == Idle && (add == 1 || add == -1)
       case Go(i) => s.callers[i].pc != Idle
  }

  function StepCaller(s: State, c: Caller, a: Action): Caller
    requires a.Go? ==> c.pc != Idle
  {
    match a
    case Call(_, add) => c.(pc := Loading(add))
    case Go(_) =>
      match c.pc
      case Loading(add) => c.(pc := Swapping(add, s.total), since := |s.effects|)
      case Swapping(add, value) =>
        if s.total == value then c.(pc := Reading, wins := c.wins + 1, since := |s.effects| + 1)
        else c.(pc := Loading(add), losses := c.losses + 1)
      case Reading => c.(pc := Idle, result := s.total, seen := |s.effects|)
  }

  /** The compare-and-swap of this step succeeds. */
  predicate Succeeds(s: State, a: Action)
  {
    a.Go? && a.i < |s.callers| && s.callers[a.i].pc.Swapping? && s.callers[a.i].pc.value == s.total
  }

  function Step(s: State, a: Action): State
    requires Enabled(s, a)
  {
    var c := s.callers[a.i];
    var callers := s.callers[a.i := StepCaller(s, c, a)];
    if Succeeds(s, a) then State(c.pc.value + c.pc.add, callers, s.effects + [c.pc.add])
    else State(s.total, callers, s.effects)
  }

  /** `acts` is a run from a start state to `s`. */
  ghost predicate Run(acts: seq<Action>, s: State)
    decreases |acts|
  {
    if acts == [] then Init(s)
    else
      var n := |acts| - 1;
      exists r :: Run(acts[..n], r) && Enabled(r, acts[n]) && s == Step(r, acts[n])
  }

  /* ---------------------------------------------------------------------------------------- */

  /** What the calls made so far are to add, finished or not. */
  function Called(acts: seq<Action>): int
    decreases |acts|
  {
    if acts == [] then 0
    else
      var n := |acts| - 1;
      Called(acts[..n]) + if acts[n].Call? then acts[n].add else 0
  }

  /** What a call under way has not added yet. */
  function Owed(c: Caller): int
  {
    match c.pc
    case Loading(add) => add
    case Swapping(add, _) => add
    case _ => 0
  }

  function Pending(callers: seq<Caller>): int
  {
    if callers == [] then 0 else Owed(callers[0]) + Pending(callers[1..])
  }

  lemma {:induction false} PendingUpdate(cs: seq<Caller>, i: nat, c: Caller)
    requires i < |cs|
    ensures Pending(cs[i := c]) == Pending(cs) - Owed(cs[i]) + Owed(c)
  {
    var ds := cs[i := c];
    if i > 0 {
      assert ds[1..] == cs[1..][i - 1 := c];
      PendingUpdate(cs[1..], i - 1, c);
    } else {
      assert ds[1..] == cs[1..];
    }
  }

  lemma {:induction false} NothingPending(cs: seq<Caller>)
    requires forall i :: 0 <= i < |cs| ==> Owed(cs[i]) == 0
    ensures Pending(cs) == 0
  {
    if cs != [] { NothingPending(cs[1..]); }
  }

  /** In every interleaving each call counts once: what has been called for is in the total, or still
      under way. */
  lemma {:induction false} CallsConserved(acts: seq<Action>, s: State)
    requires Run(acts, s)
    ensures s.total + Pending(s.callers) == Called(acts)
    decreases |acts|
  {
    if acts == [] {
      NothingPending(s.callers);
    } else {
      var n := |acts| - 1;
      var r :| Run(acts[..n], r) && Enabled(r, acts[n]) && s == Step(r, acts[n]);
      CallsConserved(acts[..n], r);
      StepConserved(r, acts[n]);
    }
  }

  lemma StepConserved(s: State, a: Action)
    requires Enabled(s, a)
    ensures var t := Step(s, a); t.total + Pending(t.callers) == s.total + Pending(s.callers) + if a.Call? then a.add else 0
  {
    PendingUpdate(s.callers, a.i, StepCaller(s, s.callers[a.i], a));
  }

  /** When no call is under way, the total is the additions called for less the subtractions. */
  lemma TotalConserved(acts: seq<Action>, s: State)
    requires Run(acts, s) && forall i :: 0 <= i < |s.callers| ==> s.callers[i].pc == Idle
    ensures s.total == Times(acts, 1) - Times(acts, -1)
  {
    CallsConserved(acts, s);
    NothingPending(s.callers);
    CalledTimes(acts, s);
  }

  /** How many calls add `x`. */
  function Times(acts: seq<Action>, x: int): nat
    decreases |acts|
  {
    if acts == [] then 0
    else
      var n := |acts| - 1;
      Times(acts[..n], x) + if acts[n].Call? && acts[n].add == x then 1 else 0
  }

  lemma {:induction false} CalledTimes(acts: seq<Action>, s: State)
    requires Run(acts, s)
    ensures Called(acts) == Times(acts, 1) - Times(acts, -1)
    decreases |acts|
  {
    if acts != [] {
      var n := |acts| - 1;
      var r :| Run(acts[..n], r) && Enabled(r, acts[n]) && s == Step(r, acts[n]);
      CalledTimes(acts[..n], r);
    }
  }

  /* ---------------------------------------------------------------------------------------- */

  /** The total after the first `k` effects. */
  function Net(effects: seq<int>, k: nat): int
    requires k <= |effects|
  {
    if k == 0 then 0 else Net(effects, k - 1) + effects[k - 1]
  }

  lemma {:induction false} NetPrefix(effects: seq<int>, x: int, k: nat)
    requires k <= |effects|
    ensures Net(effects + [x], k) == Net(effects, k)
  {
    if k > 0 { NetPrefix(effects, x, k - 1); }
  }

  /** What a caller loaded was the total at that moment; it loses at most once for every call that
      took effect, not counting its own; its last result was the total at some moment. */
  ghost predicate CallerInv(c: Caller, effects: seq<int>)
  {
    && c.since <= |effects| && c.seen <= |effects|
    && (c.pc.Swapping? ==> c.pc.value == Net(effects, c.since))
    && (c.wins > 0 && c.pc.Idle? ==> c.since <= c.seen)
    && c.result == Net(effects, c.seen)
    && c.wins + c.losses <= (if c.pc.Loading? then |effects| else c.since)
  }

  ghost predicate Inv(s: State)
  {
    && s.total == Net(s.effects, |s.effects|)
    && forall i :: 0 <= i < |s.callers| ==> CallerInv(s.callers[i], s.effects)
  }

  /** A failed compare-and-swap means that another call has taken effect since the load. */
  lemma LostToAnother(s: State, i: nat)
    requires Inv(s) && i < |s.callers| && s.callers[i].pc.Swapping? && s.callers[i].pc.value != s.total
    ensures s.callers[i].since < |s.effects|
  {
    assert CallerInv(s.callers[i], s.effects);
  }

  lemma MoreEffects(c: Caller, effects: seq<int>, x: int)
    requires CallerInv(c, effects)
    ensures CallerInv(c, effects + [x])
  {
    NetPrefix(effects, x, c.since);
    NetPrefix(effects, x, c.seen);
  }

  lemma StepInv(s: State, a: Action)
    requires Inv(s) && Enabled(s, a)
    ensures Inv(Step(s, a))
  {
    var t := Step(s, a);
    var c := s.callers[a.i];
    assert CallerInv(c, s.effects);
    if Succeeds(s, a) {
      NetPrefix(s.effects, c.pc.add, |s.effects|);
      MoreEffects(c, s.effects, c.pc.add);
    } else if a.Go? && c.pc.Swapping? {
      LostToAnother(s, a.i);
    }
    forall k | 0 <= k < |t.callers| ensures CallerInv(t.callers[k], t.effects) {
      if k != a.i {
        assert CallerInv(s.callers[k], s.effects);
        if Succeeds(s, a) { MoreEffects(s.callers[k], s.effects, c.pc.add); }
      }
    }
  }

  lemma {:induction false} RunInv(acts: seq<Action>, s: State)
    requires Run(acts, s)
    ensures Inv(s)
    decreases |acts|
  {
    if acts != [] {
      var n := |acts| - 1;
      var r :| Run(acts[..n], r) && Enabled(r, acts[n]) && s == Step(r, acts[n]);
      RunInv(acts[..n], r);
      StepInv(r, acts[n]);
    }
  }

  /** A finished call returns the total of some moment after its own effect, which need not be the
      total that it left behind. */
  lemma ReturnsALaterTotal(acts: seq<Action>, s: State, i: nat)
    requires Run(acts, s) && i < |s.callers| && s.callers[i].pc.Idle? && s.callers[i].wins > 0
    ensures var c := s.callers[i]; c.since <= c.seen <= |s.effects| && c.result == Net(s.effects, c.seen)
  {
    RunInv(acts, s);
    assert CallerInv(s.callers[i], s.effects);
  }

  /** The retry loop of a caller repeats at most once for every call of another process that takes
      effect: when nobody else succeeds, it ends. */
  lemma RetriesBounded(acts: seq<Action>, s: State, i: nat)
    requires Run(acts, s) && i < |s.callers|
    ensures s.callers[i].losses <= |s.effects| - s.callers[i].wins
  {
    RunInv(acts, s);
    assert CallerInv(s.callers[i], s.effects);
  }
}
