/** The data structures of core/nty_schedule.c and core/nty_coroutine.c: two red-black trees and a
    tail queue over coroutine objects, updated in place.

    `Represents(s)` ties them to a state of the step machine of `Scheduler`.  Each method here makes one
    change to the structures and says which change to the state that is; `ScheduleRun` puts them
    together to the functions of the source. */
module Schedule {
  import opened Common
  import opened RBShape
  import opened RBNode
  import opened RBTree
  import opened RBIndex
  import opened Scheduler
  import TailQueue

  /** The fields of nty_coroutine that scheduling reads or writes: the key of `sleepNode` is
      sleep_usecs, the key of `waitNode` is fd, and `pc` is where the saved context continues. */
  class Coroutine {
    const id: Co
    const sleepNode: Node
    const waitNode: Node
    const elem: TailQueue.Elem
    var status: set<nat>
    var ops: nat
    var pc: Pc

    constructor (c: Co)
      ensures Is(c) && Shows(Rec({NEW}, -1, 0, 0, Pc.Start)) && fresh(Own())
    {
      id := c;
      var sn := new Node(0, c, SleepEntry);
      var wn := new Node(-1, c, WaitEntry);
      var e := new TailQueue.Elem(c);
      sleepNode, waitNode, elem := sn, wn, e;
      status, ops, pc := {NEW}, 0, Pc.Start;
    }

    ghost function Own(): set<object> { {this, sleepNode, waitNode, elem} }

    /** The parts of the object carry its identity. */
    predicate Is(c: Co) {
      id == sleepNode.co == waitNode.co == elem.id == c && sleepNode.entry.SleepEntry? && waitNode.entry.WaitEntry?
    }

    ghost predicate Shows(r: Rec)
      reads this, sleepNode, waitNode
    {
      r.status == status && r.fd == waitNode.key && r.sleep == sleepNode.key && r.ops == ops && r.pc == pc
    }
  }

  // ----- a tree as a map -----

  ghost function Map(tree: RBTree): map<int, nat>
    requires tree.Valid()
    reads tree, tree.Repr
  {
    Index(Inorder(tree.shape))
  }

  method Lookup(tree: RBTree, key: int) returns (n: Node?)
    requires tree.Valid()
    ensures n == null <==> key !in Map(tree)
    ensures n != null ==> n in tree.Repr && n.key == key && n.co == Map(tree)[key]
  {
    ghost var steps;
    n, steps := tree.Find(key);
    ghost var s := Inorder(tree.shape);
    if n == null {
      assert key !in Keys(s);
    } else {
      MemberIndex(s, Item(n, key));
      RepItem(tree.shape, null, Item(n, key));
    }
  }

  lemma Member(tree: RBTree, n: Node)
    requires tree.Valid() && n in tree.Repr
    ensures Item(n, n.key) in Inorder(tree.shape) && n.key in Map(tree) && Map(tree)[n.key] == n.co
  {
    tree.MemberKey(n);
    MemberIndex(Inorder(tree.shape), Item(n, n.key));
  }

  method Delete(tree: RBTree, n: Node)
    requires tree.Valid() && n in tree.Repr
    modifies tree, tree.Repr
    ensures tree.Valid() && tree.Repr == old(tree.Repr) - {n} && Map(tree) == old(Map(tree)) - {n.key}
    ensures forall m :: m in old(tree.Repr) ==> m.key == old(m.key)
  {
    Member(tree, n);
    IndexMinus(Inorder(tree.shape), Item(n, n.key));
    var r := tree.Remove(n);
  }

  method Add(tree: RBTree, n: Node) returns (r: Node?)
    requires tree.Valid() && n !in tree.Repr
    modifies tree, tree.Repr, n
    ensures tree.Valid() && n.key == old(n.key) && forall m :: m in old(tree.Repr) ==> m.key == old(m.key)
    ensures r != null <==> n.key in old(Map(tree))
    ensures r != null ==> tree.Repr == old(tree.Repr) && Map(tree) == old(Map(tree))
    ensures r == null ==> tree.Repr == old(tree.Repr) + {n} && Map(tree) == old(Map(tree))[n.key := n.co]
  {
    ghost var s := Inorder(tree.shape);
    r := tree.Insert(n);
    if r == null {
      IndexInsert(s, Item(n, n.key));
      assert n.key !in Keys(s);
    } else {
      MemberIndex(s, Item(r, n.key));
    }
  }

  /** RB_MIN. */
  method Earliest(tree: RBTree, ghost m: map<nat, Co>) returns (n: Node?)
    requires tree.Valid() && Map(tree) == m
    ensures n == null <==> m == map[]
    ensures n != null ==> n in tree.Repr && n.key == Min(m.Keys) && n.co == m[n.key]
  {
    ghost var steps;
    n, steps := tree.MinMax(-1);
    ghost var items := Inorder(tree.shape);
    if n == null {
      assert Keys(items) == {};
      assert Map(tree) == map[];
    } else {
      RepItem(tree.shape, null, items[0]);
      MemberIndex(items, items[0]);
      FirstIsLeast(items);
      MinIs(m.Keys, n.key);
    }
  }

  /** RB_EMPTY. */
  method Empty(tree: RBTree, ghost m: map<nat, Co>) returns (b: bool)
    requires tree.Valid() && Map(tree) == m
    ensures b <==> m == map[]
  {
    b := tree.root == null;
    ghost var items := Inorder(tree.shape);
    if b {
      assert Map(tree) == map[];
    } else {
      MemberIndex(items, tree.shape.item);
    }
  }

  // ----- the scheduler -----

  /** Where nty_schedule_run stands, with the local state it has there: the last coroutine of a
      round, and the events not handled yet. */
  datatype Stage = AtSetup | AtCheck | AtExpire | AtReady(last: Option<Co>) | AtPoll | AtDispatch(pending: seq<Event>) | AtDone

  function StageOf(ph: Phase): Stage {
    match ph
    case Setup => AtSetup
    case Check => AtCheck
    case Expire => AtExpire
    case Ready(last, _, _) => AtReady(last)
    case Poll => AtPoll
    case Dispatch(pending, _) => AtDispatch(pending)
    case Done => AtDone
  }

  // ----- who owns what; objects only, no fields -----

  type Table = map<Co, Coroutine>

  /** The objects of the live coroutines are what their names say. */
  ghost predicate Named(cos: Table) { forall c :: c in cos ==> cos[c].Is(c) }

  /** The nodes of the two trees are those of live coroutines. */
  ghost predicate Owned(sleepers: set<Node>, waiters: set<Node>, cos: Table) {
    && sleepers !! waiters
    && (forall n :: n in sleepers ==> n.co in cos && n == cos[n.co].sleepNode)
    && (forall n :: n in waiters ==> n.co in cos && n == cos[n.co].waitNode)
  }

  /** The elements of the queue are those of the coroutines in `q`. */
  ghost predicate Queued(elems: seq<TailQueue.Elem>, q: seq<Co>, cos: Table) {
    |elems| == |q| && forall i :: 0 <= i < |q| ==> q[i] in cos && elems[i] == cos[q[i]].elem
  }

  ghost function Parts(cos: Table): set<object> {
    cos.Values + (set c | c in cos :: cos[c].sleepNode) + (set c | c in cos :: cos[c].waitNode) + set c | c in cos :: cos[c].elem
  }

  ghost function WithKey(s: State, c: Co, k: nat): State
    requires c in s.rec
  {
    s.(rec := s.rec[c := s.rec[c].(sleep := k)])
  }

  class Schedule {
    const sleeping: RBTree
    const waiting: RBTree
    const ready: TailQueue.Head
    var cos: Table
    var curr: Coroutine?
    var spawned: int
    var interest: set<Fd>
    var stage: Stage

    /** All objects of this scheduler. */
    ghost function Footprint(): set<object>
      reads this`cos
    {
      {this, sleeping, waiting, ready} + Parts(cos)
    }

    ghost predicate Fields(rec: map<Co, Rec>)
      reads this`cos, Parts(cos)
    {
      cos.Keys == rec.Keys && forall c :: c in cos ==> cos[c].Shows(rec[c])
    }

    ghost predicate Current(c: Option<Co>)
      reads this`cos, this`curr
    {
      if curr == null then c.None? else c.Some? && c.value in cos && cos[c.value] == curr
    }

    /** Both trees and the queue. */
    ghost predicate Links(sl: map<nat, Co>, wl: map<Fd, Co>, q: seq<Co>)
      reads this`cos, sleeping, sleeping.Repr, waiting, waiting.Repr, ready, ready.contents
    {
      && sleeping != waiting && sleeping.Valid() && waiting.Valid() && ready.Valid()
      && Map(sleeping) == sl && Map(waiting) == wl
      && Named(cos) && Owned(sleeping.Repr, waiting.Repr, cos) && Queued(ready.contents, q, cos)
    }

    /** The structures are those of the step machine in state `s`. */
    ghost predicate Represents(s: State)
      reads this, sleeping, sleeping.Repr, waiting, waiting.Repr, ready, ready.contents, Parts(cos)
    {
      && Links(s.sleeping, s.waiting, s.ready) && Fields(s.rec) && Current(s.curr)
      && spawned == s.spawned && interest == s.interest && stage == StageOf(s.phase)
    }

    constructor ()
      ensures Represents(INIT) && fresh(sleeping) && fresh(waiting) && fresh(ready)
      ensures Footprint() == {this, sleeping, waiting, ready}
    {
      var st, wt, q := Containers();
      sleeping, waiting, ready := st, wt, q;
      cos, curr, spawned, interest, stage := map[], null, 0, {}, AtSetup;
      new;
    }

    static method Containers() returns (st: RBTree, wt: RBTree, q: TailQueue.Head)
      ensures fresh(st) && fresh(wt) && fresh(q) && st != wt
      ensures st.Valid() && wt.Valid() && q.Valid() && st.Repr == wt.Repr == {} && q.contents == []
      ensures Map(st) == map[] && Map(wt) == map[]
    {
      st := new RBTree();
      wt := new RBTree();
      q := new TailQueue.Head();
      assert Map(st) == map[] && Map(wt) == map[];
    }

    /** The object with this identity. */
    ghost function Of(c: Co): Coroutine
      requires c in cos
      reads this`cos
    {
      cos[c]
    }

    /** The object is live. */
    ghost predicate Live(co: Coroutine)
      reads this`cos
    {
      co.id in cos && cos[co.id] == co
    }

    // ----- relinking the nodes of one tree changes nothing else -----

    method DeleteNode(tree: RBTree, n: Node, ghost other: RBTree, ghost rec: map<Co, Rec>)
      requires tree.Valid() && n in tree.Repr && Fields(rec)
      requires other != tree && other.Valid() && other.Repr !! tree.Repr && ready.Valid()
      modifies tree, tree.Repr
      ensures tree.Valid() && tree.Repr == old(tree.Repr) - {n} && Map(tree) == old(Map(tree)) - {old(n.key)}
      ensures Fields(rec) && cos == old(cos) && Still(other, old(other.Repr), old(Map(other)), old(ready.contents))
    {
      DeleteAlone(tree, n, rec);
    }

    method DeleteAlone(tree: RBTree, n: Node, ghost rec: map<Co, Rec>)
      requires tree.Valid() && n in tree.Repr && Fields(rec)
      modifies tree, tree.Repr
      ensures tree.Valid() && tree.Repr == old(tree.Repr) - {n} && Map(tree) == old(Map(tree)) - {old(n.key)} && Fields(rec) && cos == old(cos)
    {
      Delete(tree, n);
    }

    /** The other tree and the queue. */
    ghost predicate Still(other: RBTree, nodes: set<Node>, m: map<int, nat>, elems: seq<TailQueue.Elem>)
      reads other, other.Repr, ready, ready.contents
    {
      other.Valid() && other.Repr == nodes && Map(other) == m && ready.Valid() && ready.contents == elems
    }

    method AddNode(tree: RBTree, n: Node, ghost other: RBTree, ghost rec: map<Co, Rec>) returns (r: Node?)
      requires tree.Valid() && n !in tree.Repr && Fields(rec)
      requires other != tree && other.Valid() && other.Repr !! tree.Repr && n !in other.Repr && ready.Valid()
      modifies tree, tree.Repr, n
      ensures tree.Valid() && Fields(rec) && cos == old(cos) && Still(other, old(other.Repr), old(Map(other)), old(ready.contents))
      ensures r != null <==> old(n.key) in old(Map(tree))
      ensures r != null ==> tree.Repr == old(tree.Repr) && Map(tree) == old(Map(tree))
      ensures r == null ==> tree.Repr == old(tree.Repr) + {n} && Map(tree) == old(Map(tree))[old(n.key) := n.co]
    {
      r := AddAlone(tree, n, rec);
    }

    method AddAlone(tree: RBTree, n: Node, ghost rec: map<Co, Rec>) returns (r: Node?)
      requires tree.Valid() && n !in tree.Repr && Fields(rec)
      modifies tree, tree.Repr, n
      ensures tree.Valid() && Fields(rec) && cos == old(cos)
      ensures r != null <==> old(n.key) in old(Map(tree))
      ensures r != null ==> tree.Repr == old(tree.Repr) && Map(tree) == old(Map(tree))
      ensures r == null ==> tree.Repr == old(tree.Repr) + {n} && Map(tree) == old(Map(tree))[old(n.key) := n.co]
    {
      r := Add(tree, n);
    }

    /** The same nodes are linked. */
    twostate predicate Kept()
      reads sleeping, waiting
    {
      sleeping.Repr == old(sleeping.Repr) && waiting.Repr == old(waiting.Repr)
    }

    /** What a live object holds. */
    lemma Holds(co: Coroutine, s: State)
      requires Represents(s) && Live(co)
      ensures co.id in s.rec && co.Shows(s.rec[co.id])
    {
    }

    // ----- the scheduler's own fields -----

    method SetCurrent(co: Coroutine?, ghost s: State)
      requires Represents(s) && (co != null ==> Live(co))
      modifies this`curr
      ensures curr == co && cos == old(cos) && Represents(s.(curr := if co == null then None else Some(co.id)))
    {
      curr := co;
    }

    method SetStage(st: Stage, ghost ph: Phase, ghost s: State)
      requires Represents(s) && st == StageOf(ph)
      modifies this`stage
      ensures cos == old(cos) && curr == old(curr) && Represents(s.(phase := ph))
    {
      stage := st;
    }

    /** epoll_ctl. */
    method SetInterest(fds: set<Fd>, ghost s: State)
      requires Represents(s)
      modifies this`interest
      ensures cos == old(cos) && curr == old(curr) && Represents(s.(interest := fds))
    {
      interest := fds;
    }

    // ----- fields of one coroutine -----

    method SetStatus(co: Coroutine, status: set<nat>, ghost s: State)
      requires Represents(s) && Live(co)
      modifies co`status
      ensures co.status == status && cos == old(cos) && Kept()
      ensures Represents(s.(rec := s.rec[co.id := s.rec[co.id].(status := status)]))
    {
      assert allocated(sleeping.Repr) && allocated(waiting.Repr) && allocated(ready.contents);
      WriteStatus(co, status, s.rec);
    }

    method SetOps(co: Coroutine, ops: nat, ghost s: State)
      requires Represents(s) && Live(co)
      modifies co`ops
      ensures co.ops == ops && cos == old(cos) && Kept()
      ensures Represents(s.(rec := s.rec[co.id := s.rec[co.id].(ops := ops)]))
    {
      assert allocated(sleeping.Repr) && allocated(waiting.Repr) && allocated(ready.contents);
      WriteOps(co, ops, s.rec);
    }

    method SetPc(co: Coroutine, pc: Pc, ghost s: State)
      requires Represents(s) && Live(co)
      modifies co`pc
      ensures co.pc == pc && cos == old(cos) && Kept()
      ensures Represents(s.(rec := s.rec[co.id := s.rec[co.id].(pc := pc)]))
    {
      LabelPc(co, pc, s.sleeping, s.waiting, s.ready, s.rec);
    }

    method SetSleep(co: Coroutine, usecs: nat, ghost s: State)
      requires Represents(s) && Live(co) && co.sleepNode !in sleeping.Repr
      modifies co.sleepNode`key
      ensures cos == old(cos) && Kept()
      ensures Represents(WithKey(s, co.id, usecs))
    {
      LabelSleeper(co, usecs, s.sleeping, s.waiting, s.ready, s.rec);
    }

    method SetFd(co: Coroutine, fd: Fd, ghost s: State)
      requires Represents(s) && Live(co) && co.waitNode !in waiting.Repr
      modifies co.waitNode`key
      ensures cos == old(cos) && Kept()
      ensures Represents(s.(rec := s.rec[co.id := s.rec[co.id].(fd := fd)]))
    {
      LabelWaiter(co, fd, s.sleeping, s.waiting, s.ready, s.rec);
    }

    method WriteStatus(co: Coroutine, status: set<nat>, ghost rec: map<Co, Rec>)
      requires Named(cos) && Fields(rec) && Live(co)
      modifies co`status
      ensures Fields(rec[co.id := rec[co.id].(status := status)])
      ensures curr == old(curr) && spawned == old(spawned) && interest == old(interest) && stage == old(stage)
    {
      co.status := status;
    }

    method WriteOps(co: Coroutine, ops: nat, ghost rec: map<Co, Rec>)
      requires Named(cos) && Fields(rec) && Live(co)
      modifies co`ops
      ensures Fields(rec[co.id := rec[co.id].(ops := ops)])
      ensures curr == old(curr) && spawned == old(spawned) && interest == old(interest) && stage == old(stage)
    {
      co.ops := ops;
    }

    method LabelPc(co: Coroutine, pc: Pc, ghost sl: map<nat, Co>, ghost wl: map<Fd, Co>, ghost q: seq<Co>, ghost rec: map<Co, Rec>)
      requires Links(sl, wl, q) && Fields(rec) && Live(co)
      modifies co`pc
      ensures Links(sl, wl, q) && Fields(rec[co.id := rec[co.id].(pc := pc)]) && co.pc == pc
      ensures cos == old(cos) && Kept() && curr == old(curr) && spawned == old(spawned) && interest == old(interest) && stage == old(stage)
    {
      WritePc(co, pc, sl, wl, sleeping.Repr, waiting.Repr, ready.contents, rec);
    }

    method WritePc(co: Coroutine, pc: Pc, ghost sl: map<nat, Co>, ghost wl: map<Fd, Co>, ghost sleepers: set<Node>,
                   ghost waiters: set<Node>, ghost elems: seq<TailQueue.Elem>, ghost rec: map<Co, Rec>)
      requires Trees(sl, wl, sleepers, waiters) && ready.Valid() && ready.contents == elems
      requires Named(cos) && Fields(rec) && Live(co)
      modifies co`pc
      ensures Trees(sl, wl, sleepers, waiters) && ready.Valid() && ready.contents == elems
      ensures Fields(rec[co.id := rec[co.id].(pc := pc)]) && co.pc == pc
      ensures cos == old(cos) && curr == old(curr) && spawned == old(spawned) && interest == old(interest) && stage == old(stage)
    {
      PutPc(co, pc, rec);
    }

    method PutPc(co: Coroutine, pc: Pc, ghost rec: map<Co, Rec>)
      requires Named(cos) && Fields(rec) && Live(co)
      modifies co`pc
      ensures Fields(rec[co.id := rec[co.id].(pc := pc)]) && co.pc == pc
      ensures cos == old(cos) && curr == old(curr) && spawned == old(spawned) && interest == old(interest) && stage == old(stage)
    {
      co.pc := pc;
    }

    method LabelSleeper(co: Coroutine, usecs: nat, ghost sl: map<nat, Co>, ghost wl: map<Fd, Co>, ghost q: seq<Co>, ghost rec: map<Co, Rec>)
      requires Links(sl, wl, q) && Fields(rec) && Live(co) && co.sleepNode !in sleeping.Repr
      modifies co.sleepNode`key
      ensures Links(sl, wl, q) && Fields(rec[co.id := rec[co.id].(sleep := usecs)])
      ensures cos == old(cos) && Kept() && curr == old(curr) && spawned == old(spawned) && interest == old(interest) && stage == old(stage)
    {
      OwnsOne(co, {co.sleepNode}, {co.waitNode});
      WriteSleep(co, usecs, sl, wl, sleeping.Repr, waiting.Repr, ready.contents, rec);
    }

    method WriteSleep(co: Coroutine, usecs: nat, ghost sl: map<nat, Co>, ghost wl: map<Fd, Co>, ghost sleepers: set<Node>,
                    ghost waiters: set<Node>, ghost elems: seq<TailQueue.Elem>, ghost rec: map<Co, Rec>)
      requires Trees(sl, wl, sleepers, waiters) && ready.Valid() && ready.contents == elems
      requires co.sleepNode !in sleepers && co.sleepNode !in waiters && Named(cos) && Fields(rec) && Live(co)
      modifies co.sleepNode`key
      ensures Trees(sl, wl, sleepers, waiters) && ready.Valid() && ready.contents == elems
      ensures Fields(rec[co.id := rec[co.id].(sleep := usecs)])
      ensures cos == old(cos) && curr == old(curr) && spawned == old(spawned) && interest == old(interest) && stage == old(stage)
    {
      co.sleepNode.key := usecs;
    }

    method LabelWaiter(co: Coroutine, fd: Fd, ghost sl: map<nat, Co>, ghost wl: map<Fd, Co>, ghost q: seq<Co>, ghost rec: map<Co, Rec>)
      requires Links(sl, wl, q) && Fields(rec) && Live(co) && co.waitNode !in waiting.Repr
      modifies co.waitNode`key
      ensures Links(sl, wl, q) && Fields(rec[co.id := rec[co.id].(fd := fd)])
      ensures cos == old(cos) && Kept() && curr == old(curr) && spawned == old(spawned) && interest == old(interest) && stage == old(stage)
    {
      OwnsOne(co, {co.sleepNode}, {co.waitNode});
      WriteFd(co, fd, sl, wl, sleeping.Repr, waiting.Repr, ready.contents, rec);
    }

    method WriteFd(co: Coroutine, fd: Fd, ghost sl: map<nat, Co>, ghost wl: map<Fd, Co>, ghost sleepers: set<Node>,
                    ghost waiters: set<Node>, ghost elems: seq<TailQueue.Elem>, ghost rec: map<Co, Rec>)
      requires Trees(sl, wl, sleepers, waiters) && ready.Valid() && ready.contents == elems
      requires co.waitNode !in sleepers && co.waitNode !in waiters && Named(cos) && Fields(rec) && Live(co)
      modifies co.waitNode`key
      ensures Trees(sl, wl, sleepers, waiters) && ready.Valid() && ready.contents == elems
      ensures Fields(rec[co.id := rec[co.id].(fd := fd)])
      ensures cos == old(cos) && curr == old(curr) && spawned == old(spawned) && interest == old(interest) && stage == old(stage)
    {
      co.waitNode.key := fd;
    }

    lemma OwnsOne(co: Coroutine, x: set<Node>, y: set<Node>)
      requires Named(cos) && Owned(sleeping.Repr, waiting.Repr, cos) && Live(co) && x == {co.sleepNode} && y == {co.waitNode}
      ensures co.sleepNode !in waiting.Repr && Owned(sleeping.Repr + x, waiting.Repr, cos) && sleeping.Repr + {} == sleeping.Repr
      ensures co.waitNode !in sleeping.Repr && Owned(sleeping.Repr, waiting.Repr + y, cos) && waiting.Repr + {} == waiting.Repr
      ensures co.sleepNode.co == co.id == co.waitNode.co
    {
    }

    // ----- the sleep tree -----

    method FindSleeper(usecs: nat, ghost s: State) returns (n: Node?)
      requires Represents(s)
      ensures n == null <==> usecs !in s.sleeping
      ensures n != null ==> n in sleeping.Repr && n.key == usecs && n.co == s.sleeping[usecs]
    {
      n := Lookup(sleeping, usecs);
    }

    method RemoveSleeper(n: Node, ghost k: nat, ghost s: State)
      requires Represents(s) && n in sleeping.Repr && n.key == k
      modifies sleeping, sleeping.Repr
      ensures cos == old(cos) && waiting.Repr == old(waiting.Repr)
      ensures sleeping.Repr == old(sleeping.Repr) - {n}
      ensures Represents(s.(sleeping := s.sleeping - {k}))
    {
      DropSleeper(n, k, s.sleeping, s.waiting, s.ready, s.rec);
    }

    method DropSleeper(n: Node, ghost k: nat, ghost sl: map<nat, Co>, ghost wl: map<Fd, Co>, ghost q: seq<Co>, ghost rec: map<Co, Rec>)
      requires Links(sl, wl, q) && Fields(rec) && n in sleeping.Repr && n.key == k
      modifies sleeping, sleeping.Repr
      ensures cos == old(cos) && waiting.Repr == old(waiting.Repr)
      ensures Fields(rec) && Links(sl - {k}, wl, q) && sleeping.Repr == old(sleeping.Repr) - {n}
      {
      assert allocated(sleeping.Repr) && allocated(waiting.Repr) && allocated(ready.contents);
      Member(sleeping, n);
      DeleteNode(sleeping, n, waiting, rec);
    }

    method InsertSleeper(co: Coroutine, ghost s: State) returns (r: Node?)
      requires Represents(s) && Live(co) && co.sleepNode !in sleeping.Repr
      modifies sleeping, sleeping.Repr, co.sleepNode
      ensures cos == old(cos) && waiting.Repr == old(waiting.Repr)
      ensures r != null <==> s.rec[co.id].sleep in s.sleeping
      ensures r == null ==> Represents(s.(sleeping := s.sleeping[s.rec[co.id].sleep := co.id]))
      ensures r != null ==> sleeping.Repr == old(sleeping.Repr) && Represents(s)
    {
      r := LinkSleeper(co, s.rec[co.id].sleep, s.sleeping, s.waiting, s.ready, s.rec);
    }

    method LinkSleeper(co: Coroutine, ghost k: nat, ghost sl: map<nat, Co>, ghost wl: map<Fd, Co>, ghost q: seq<Co>, ghost rec: map<Co, Rec>)
      returns (r: Node?)
      requires Links(sl, wl, q) && Fields(rec) && Live(co) && co.sleepNode !in sleeping.Repr && k == co.sleepNode.key
      modifies sleeping, sleeping.Repr, co.sleepNode
      ensures cos == old(cos) && waiting.Repr == old(waiting.Repr)
      ensures r != null <==> k in sl
      ensures Fields(rec)
      ensures r == null ==> Links(sl[k := co.id], wl, q)
      ensures r != null ==> sleeping.Repr == old(sleeping.Repr) && Links(sl, wl, q)
    {
      OwnsOne(co, {co.sleepNode}, {co.waitNode});
      r := AddNode(sleeping, co.sleepNode, waiting, rec);
    }

    // ----- the wait tree -----

    method FindWaiter(fd: Fd, ghost s: State) returns (n: Node?)
      requires Represents(s)
      ensures n == null <==> fd !in s.waiting
      ensures n != null ==> n in waiting.Repr && n.key == fd && n.co == s.waiting[fd] && n.co in cos
    {
      n := Lookup(waiting, fd);
    }

    method RemoveWaiter(n: Node, ghost k: Fd, ghost s: State)
      requires Represents(s) && n in waiting.Repr && n.key == k
      modifies waiting, waiting.Repr
      ensures cos == old(cos) && sleeping.Repr == old(sleeping.Repr)
      ensures waiting.Repr == old(waiting.Repr) - {n}
      ensures Represents(s.(waiting := s.waiting - {k}))
    {
      DropWaiter(n, k, s.sleeping, s.waiting, s.ready, s.rec);
    }

    method DropWaiter(n: Node, ghost k: Fd, ghost sl: map<nat, Co>, ghost wl: map<Fd, Co>, ghost q: seq<Co>, ghost rec: map<Co, Rec>)
      requires Links(sl, wl, q) && Fields(rec) && n in waiting.Repr && n.key == k
      modifies waiting, waiting.Repr
      ensures cos == old(cos) && sleeping.Repr == old(sleeping.Repr)
      ensures Fields(rec) && Links(sl, wl - {k}, q) && waiting.Repr == old(waiting.Repr) - {n}
      {
      assert allocated(sleeping.Repr) && allocated(waiting.Repr) && allocated(ready.contents);
      Member(waiting, n);
      DeleteNode(waiting, n, sleeping, rec);
    }

    method InsertWaiter(co: Coroutine, ghost s: State) returns (r: Node?)
      requires Represents(s) && Live(co) && co.waitNode !in waiting.Repr && s.rec[co.id].fd >= 0
      modifies waiting, waiting.Repr, co.waitNode
      ensures cos == old(cos) && sleeping.Repr == old(sleeping.Repr)
      ensures r != null <==> s.rec[co.id].fd in s.waiting
      ensures r == null ==> Represents(s.(waiting := s.waiting[s.rec[co.id].fd := co.id]))
      ensures r != null ==> waiting.Repr == old(waiting.Repr) && Represents(s)
    {
      r := LinkWaiter(co, s.rec[co.id].fd, s.sleeping, s.waiting, s.ready, s.rec);
    }

    method LinkWaiter(co: Coroutine, ghost fd: Fd, ghost sl: map<nat, Co>, ghost wl: map<Fd, Co>, ghost q: seq<Co>, ghost rec: map<Co, Rec>)
      returns (r: Node?)
      requires Links(sl, wl, q) && Fields(rec) && Live(co) && co.waitNode !in waiting.Repr && fd == co.waitNode.key
      modifies waiting, waiting.Repr, co.waitNode
      ensures cos == old(cos) && sleeping.Repr == old(sleeping.Repr)
      ensures r != null <==> fd in wl
      ensures Fields(rec)
      ensures r == null ==> Links(sl, wl[fd := co.id], q)
      ensures r != null ==> waiting.Repr == old(waiting.Repr) && Links(sl, wl, q)
    {
      OwnsOne(co, {co.sleepNode}, {co.waitNode});
      r := AddNode(waiting, co.waitNode, sleeping, rec);
    }

    // ----- the ready queue -----

    /** Both trees, with their nodes. */
    ghost predicate Trees(sl: map<nat, Co>, wl: map<Fd, Co>, sleepers: set<Node>, waiters: set<Node>)
      reads sleeping, sleeping.Repr, waiting, waiting.Repr
    {
      && sleeping != waiting && sleeping.Valid() && waiting.Valid()
      && Map(sleeping) == sl && Map(waiting) == wl && sleeping.Repr == sleepers && waiting.Repr == waiters
    }

    method Enqueue(co: Coroutine, ghost s: State)
      requires Represents(s) && Live(co) && co.id !in s.ready
      modifies ready, ready.contents, co.elem
      ensures Represents(s.(ready := s.ready + [co.id])) && cos == old(cos) && curr == old(curr)
    {
      QueuedMore(ready.contents, s.ready, co.id, cos);
      Push(co.elem, s.sleeping, s.waiting, sleeping.Repr, waiting.Repr, s.rec);
    }

    lemma QueuedMore(elems: seq<TailQueue.Elem>, q: seq<Co>, c: Co, cos: Table)
      requires Queued(elems, q, cos) && Named(cos) && c in cos && c !in q
      ensures cos[c].elem !in elems && Queued(elems + [cos[c].elem], q + [c], cos)
    {
    }

    method Push(elem: TailQueue.Elem, ghost sl: map<nat, Co>, ghost wl: map<Fd, Co>, ghost sleepers: set<Node>,
                ghost waiters: set<Node>, ghost rec: map<Co, Rec>)
      requires Trees(sl, wl, sleepers, waiters) && Fields(rec) && ready.Valid() && elem !in ready.contents
      modifies ready, ready.contents, elem
      ensures Trees(sl, wl, sleepers, waiters) && Fields(rec) && cos == old(cos) && curr == old(curr)
      ensures ready.Valid() && ready.contents == old(ready.contents) + [elem]
    {
      ready.InsertTail(elem);
    }

    /** TAILQ_FIRST and TAILQ_REMOVE. */
    method Dequeue(ghost s: State) returns (co: Coroutine)
      requires Represents(s) && s.ready != []
      modifies ready, ready.contents
      ensures co == cos[s.ready[0]] && co.id == s.ready[0] && Live(co) && Represents(s.(ready := s.ready[1..]))
      ensures cos == old(cos)
    {
      QueuedLess(ready.contents, s.ready, cos);
      var e := ready.first;
      co := cos[e.id];
      Pop(e, s.sleeping, s.waiting, sleeping.Repr, waiting.Repr, s.rec);
    }

    lemma QueuedLess(elems: seq<TailQueue.Elem>, q: seq<Co>, cos: Table)
      requires Queued(elems, q, cos) && Named(cos) && q != []
      ensures elems != [] && elems[0] == cos[q[0]].elem && elems[0].id == q[0] && Queued(elems[1..], q[1..], cos)
    {
    }

    method Pop(elem: TailQueue.Elem, ghost sl: map<nat, Co>, ghost wl: map<Fd, Co>, ghost sleepers: set<Node>,
               ghost waiters: set<Node>, ghost rec: map<Co, Rec>)
      requires Trees(sl, wl, sleepers, waiters) && Fields(rec) && ready.Valid() && ready.contents != [] && elem == ready.contents[0]
      modifies ready, ready.contents
      ensures Trees(sl, wl, sleepers, waiters) && Fields(rec) && cos == old(cos) && curr == old(curr)
      ensures ready.Valid() && ready.contents == old(ready.contents)[1..]
    {
      PopAlone(elem);
    }

    method PopAlone(elem: TailQueue.Elem)
      requires ready.Valid() && ready.contents != [] && elem == ready.contents[0]
      modifies ready, ready.contents
      ensures ready.Valid() && ready.contents == old(ready.contents)[1..]
    {
      ghost var q := ready.contents;
      assert q[..0] + q[1..] == q[1..];
      ready.Remove(elem, 0);
    }

    method LastReady(ghost s: State) returns (last: Option<Co>)
      requires Represents(s)
      ensures last == Last(s.ready)
    {
      var e := ready.Last();
      last := if e == null then None else Some(e.id);
    }

    // ----- coming and going -----

    /** calloc, and the counter. */
    method Allocate(c: Co, ghost s: State) returns (co: Coroutine)
      requires Represents(s) && c !in s.rec
      modifies this`cos, this`spawned
      ensures Live(co) && co.id == c && fresh(co.Own())
      ensures cos == old(cos)[c := co] && ready.contents == old(ready.contents)
      ensures Represents(s.(rec := s.rec[c := Rec({NEW}, -1, 0, 0, Pc.Start)], spawned := s.spawned + 1))
    {
      co := Adopt(c, s.sleeping, s.waiting, s.ready, s.rec);
    }

    method Adopt(c: Co, ghost sl: map<nat, Co>, ghost wl: map<Fd, Co>, ghost q: seq<Co>, ghost rec: map<Co, Rec>)
      returns (co: Coroutine)
      requires Links(sl, wl, q) && Fields(rec) && c !in rec
      modifies this`cos, this`spawned
      ensures Links(sl, wl, q) && Fields(rec[c := Rec({NEW}, -1, 0, 0, Pc.Start)])
      ensures cos == old(cos)[c := co] && spawned == old(spawned) + 1 && ready.contents == old(ready.contents)
      ensures co.Is(c) && fresh(co.Own())
    {
      ghost var was := cos;
      co := Enter(c, sl, wl, sleeping.Repr, waiting.Repr, ready.contents, rec);
      OwnersMore(was, co, sleeping.Repr, waiting.Repr, ready.contents, q);
    }

    lemma OwnersMore(cos: Table, co: Coroutine, sleepers: set<Node>, waiters: set<Node>, elems: seq<TailQueue.Elem>, q: seq<Co>)
      requires Named(cos) && Owned(sleepers, waiters, cos) && Queued(elems, q, cos) && co.id !in cos && co.Is(co.id)
      ensures var more := cos[co.id := co]; Named(more) && Owned(sleepers, waiters, more) && Queued(elems, q, more)
    {
    }

    method Enter(c: Co, ghost sl: map<nat, Co>, ghost wl: map<Fd, Co>, ghost sleepers: set<Node>, ghost waiters: set<Node>,
                 ghost elems: seq<TailQueue.Elem>, ghost rec: map<Co, Rec>) returns (co: Coroutine)
      requires Trees(sl, wl, sleepers, waiters) && ready.Valid() && ready.contents == elems && Fields(rec) && c !in rec
      modifies this`cos, this`spawned
      ensures Trees(sl, wl, sleepers, waiters) && ready.Valid() && ready.contents == elems && spawned == old(spawned) + 1
      ensures Fields(rec[c := Rec({NEW}, -1, 0, 0, Pc.Start)]) && cos == old(cos)[c := co]
      ensures co.Is(c) && fresh(co.Own())
    {
      co := NewOne(c, rec);
    }

    method NewOne(c: Co, ghost rec: map<Co, Rec>) returns (co: Coroutine)
      requires Fields(rec) && c !in rec
      modifies this`cos, this`spawned
      ensures Fields(rec[c := Rec({NEW}, -1, 0, 0, Pc.Start)]) && cos == old(cos)[c := co] && spawned == old(spawned) + 1
      ensures co.Is(c) && fresh(co.Own())
    {
      co := new Coroutine(c);
      spawned := spawned + 1;
      cos := cos[c := co];
    }

    /** nty_coroutine_free of a coroutine that is linked nowhere. */
    method Release(co: Coroutine, ghost s: State)
      requires Represents(s) && Live(co) && s.curr != Some(co.id)
      requires co.id !in s.ready && co.id !in s.sleeping.Values && co.id !in s.waiting.Values
      modifies this`cos, this`spawned
      ensures cos == old(cos) - {co.id} && Represents(Free(s, co.id))
    {
      OthersStay(cos, co.id);
      Forget(co, s.sleeping, s.waiting, s.ready, s.rec);
    }

    static lemma OthersStay(cos: Table, c: Co)
      ensures forall d :: d in cos && d != c ==> d in cos - {c} && (cos - {c})[d] == cos[d]
    {
    }

    method Forget(co: Coroutine, ghost sl: map<nat, Co>, ghost wl: map<Fd, Co>, ghost q: seq<Co>, ghost rec: map<Co, Rec>)
      requires Links(sl, wl, q) && Fields(rec) && co.id !in q && co.id !in sl.Values && co.id !in wl.Values
      modifies this`cos, this`spawned
      ensures Links(sl, wl, q) && Fields(rec - {co.id})
      ensures cos == old(cos) - {co.id} && spawned == old(spawned) - 1
      ensures interest == old(interest) && stage == old(stage) && curr == old(curr)
    {
      NotLinked(sleeping, co.id, sl);
      NotLinked(waiting, co.id, wl);
      OwnersLess(cos, co.id, sleeping.Repr, waiting.Repr, ready.contents, q);
      Leave(co, sl, wl, sleeping.Repr, waiting.Repr, ready.contents, rec);
    }

    method Leave(co: Coroutine, ghost sl: map<nat, Co>, ghost wl: map<Fd, Co>, ghost sleepers: set<Node>, ghost waiters: set<Node>,
                  ghost elems: seq<TailQueue.Elem>, ghost rec: map<Co, Rec>)
      requires Trees(sl, wl, sleepers, waiters) && ready.Valid() && ready.contents == elems && Fields(rec)
      modifies this`cos, this`spawned
      ensures Trees(sl, wl, sleepers, waiters) && ready.Valid() && ready.contents == elems && spawned == old(spawned) - 1
      ensures Fields(rec - {co.id}) && cos == old(cos) - {co.id}
    {
      spawned := spawned - 1;
      cos := cos - {co.id};
    }

    static lemma NotLinked(tree: RBTree, c: Co, m: map<nat, Co>)
      requires tree.Valid() && Map(tree) == m && c !in m.Values
      ensures forall n :: n in tree.Repr ==> n.co != c
    {
      forall n | n in tree.Repr ensures n.co != c { Member(tree, n); }
    }

    lemma OwnersLess(cos: Table, c: Co, sleepers: set<Node>, waiters: set<Node>, elems: seq<TailQueue.Elem>, q: seq<Co>)
      requires Named(cos) && Owned(sleepers, waiters, cos) && Queued(elems, q, cos) && c !in q
      requires (forall n :: n in sleepers ==> n.co != c) && forall n :: n in waiters ==> n.co != c
      ensures var less := cos - {c}; Named(less) && Owned(sleepers, waiters, less) && Queued(elems, q, less)
    {
    }
  }
}
