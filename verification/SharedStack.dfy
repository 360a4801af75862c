/** One run stack for all coroutines (core/nty_coroutine.c:54-70, 214-255): its used part is
    copied out at every yield and back in at every resume.

    Addresses are offsets into the run stack, which grows downwards from `|mem|`. */
module SharedStack {
  import opened Common

  /** A coroutine's save buffer: `|buf|` is what realloc last returned, `size` is stack_size, `sp`
      the stack pointer in the saved context.  A coroutine that never ran has nothing saved. */
  datatype Saved = Saved(buf: seq<byte>, size: nat, sp: nat, started: bool)

  const UNUSED := Saved([], 0, 0, false)

  /** realloc keeps what fits; the rest of a grown block is arbitrary. */
  ghost predicate Reallocated(buf: seq<byte>, n: nat, new_: seq<byte>) {
    |new_| == n && forall i :: 0 <= i < n && i < |buf| ==> new_[i] == buf[i]
  }

  /** _save_stack with `dummy` as the address of its local variable; `block` is what realloc
      returns if it is called. */
  function Save(mem: seq<byte>, v: Saved, dummy: nat, sp: nat, block: seq<byte>): Saved
    requires dummy <= |mem| && |mem| - dummy <= (if v.size < |mem| - dummy then |block| else |v.buf|)
  {
    var need := |mem| - dummy;
    var buf := if v.size < need then block else v.buf;
    Saved(mem[dummy..] + buf[need..], need, sp, true)
  }

  /** _load_stack. */
  function Load(mem: seq<byte>, v: Saved): seq<byte>
    requires v.size <= |mem| && v.size <= |v.buf|
  {
    mem[..|mem| - v.size] + v.buf[..v.size]
  }

  // ----- all coroutines on the one stack -----

  type Id = nat

  datatype Shared = Shared(mem: seq<byte>, cos: map<Id, Saved>, curr: Option<Id>, sp: nat)

  datatype Action =
    | Spawn(c: Id)
    | Resume(c: Id)
    | Run(mem: seq<byte>, sp: nat)
    | Yield(dummy: nat, block: seq<byte>)
    | Exit

  /** The running coroutine may write anywhere on the run stack and move its stack pointer; the
      local variable of _save_stack lies below the frame that calls the switch. */
  ghost predicate Enabled(s: Shared, a: Action) {
    match a
    case Spawn(c) => c !in s.cos
    case Resume(c) => s.curr.None? && c in s.cos
    case Run(mem, sp) => s.curr.Some? && |mem| == |s.mem| && sp <= |mem|
    case Yield(dummy, block) =>
      && s.curr.Some? && s.curr.value in s.cos && dummy <= s.sp <= |s.mem|
      && Reallocated(s.cos[s.curr.value].buf, |s.mem| - dummy, block)
    case Exit => s.curr.Some? && s.curr.value in s.cos
  }

  /** The buffer of every coroutine holds at least stack_size bytes, and these fit on the stack. */
  predicate Fits(v: Saved, n: nat) { v.size <= |v.buf| && v.size <= n }

  ghost predicate Room(s: Shared) { forall c :: c in s.cos ==> Fits(s.cos[c], |s.mem|) }

  ghost function Step(s: Shared, a: Action): Shared
    requires Enabled(s, a) && Room(s)
  {
    match a
    case Spawn(c) => s.(cos := s.cos[c := UNUSED])
    case Resume(c) =>
      if !s.cos[c].started then s.(curr := Some(c), sp := |s.mem|)
      else s.(curr := Some(c), sp := s.cos[c].sp, mem := Load(s.mem, s.cos[c]))
    case Run(mem, sp) => s.(mem := mem, sp := sp)
    case Yield(dummy, block) =>
      var c := s.curr.value;
      s.(curr := None, cos := s.cos[c := Save(s.mem, s.cos[c], dummy, s.sp, block)])
    case Exit => s.(curr := None, cos := s.cos - {s.curr.value})
  }

  // ----- the ideal: every coroutine keeps its own stack -----

  /** What each coroutine has between its stack pointer and the top of the stack. */
  datatype Private = Private(stacks: map<Id, seq<byte>>, curr: Option<Id>)

  ghost function PStep(p: Private, a: Action): Private {
    match a
    case Spawn(c) => p.(stacks := p.stacks[c := []])
    case Resume(c) => p.(curr := Some(c))
    case Run(mem, sp) =>
      if p.curr.Some? && sp <= |mem| then p.(stacks := p.stacks[p.curr.value := mem[sp..]]) else p
    case Yield(dummy, block) => p.(curr := None)
    case Exit => if p.curr.Some? then p.(curr := None, stacks := p.stacks - {p.curr.value}) else p
  }

  /** The saved bytes from the stack pointer to the top are the coroutine's own stack. */
  ghost predicate Keeps(v: Saved, own: seq<byte>, n: nat) {
    if v.started then
      && v.size <= |v.buf| && v.sp <= n && n - v.sp <= v.size <= n && |own| == n - v.sp
      && v.buf[v.size - |own|..v.size] == own
    else own == [] && v == UNUSED
  }

  ghost predicate Simulates(s: Shared, p: Private) {
    && Room(s) && s.curr == p.curr && s.cos.Keys == p.stacks.Keys
    && (forall c :: c in s.cos && s.curr != Some(c) ==> Keeps(s.cos[c], p.stacks[c], |s.mem|))
    && (s.curr.Some? ==> s.curr.value in s.cos && s.sp <= |s.mem| && s.mem[s.sp..] == p.stacks[s.curr.value])
  }

  /** Saving into a buffer that was big enough, or into one just grown, saves all that is needed. */
  lemma SaveFits(mem: seq<byte>, v: Saved, dummy: nat, block: seq<byte>)
    requires Fits(v, |mem|) && dummy <= |mem| && Reallocated(v.buf, |mem| - dummy, block)
    ensures |mem| - dummy <= (if v.size < |mem| - dummy then |block| else |v.buf|)
    ensures forall sp :: Fits(Save(mem, v, dummy, sp, block), |mem|)
  {
  }

  /** The buffer is replaced only when stack_size was too small for what is in use, and then by one of
      just the size needed. */
  lemma SaveGrows(mem: seq<byte>, v: Saved, dummy: nat, sp: nat, block: seq<byte>)
    requires Fits(v, |mem|) && dummy <= |mem| && Reallocated(v.buf, |mem| - dummy, block)
    ensures var w := Save(mem, v, dummy, sp, block);
            && w.size == |mem| - dummy && w.buf[..w.size] == mem[dummy..]
            && |w.buf| == if v.size < w.size then w.size else |v.buf|
  {
  }

  lemma SaveKeeps(mem: seq<byte>, v: Saved, dummy: nat, sp: nat, block: seq<byte>)
    requires Fits(v, |mem|) && dummy <= sp <= |mem| && Reallocated(v.buf, |mem| - dummy, block)
    ensures Keeps(Save(mem, v, dummy, sp, block), mem[sp..], |mem|)
  {
    var w := Save(mem, v, dummy, sp, block);
    var n := |mem| - sp;
    assert w.buf[..w.size] == mem[dummy..];
    assert w.buf[w.size - n..w.size] == w.buf[..w.size][w.size - n..] == mem[sp..];
  }

  lemma LoadRestores(mem: seq<byte>, v: Saved, own: seq<byte>)
    requires Fits(v, |mem|) && Keeps(v, own, |mem|) && v.started
    ensures |Load(mem, v)| == |mem| && Load(mem, v)[v.sp..] == own
  {
    var m := Load(mem, v);
    assert m[|mem| - v.size..] == v.buf[..v.size];
    assert m[v.sp..] == m[|mem| - v.size..][v.size - |own|..] == v.buf[v.size - |own|..v.size];
  }

  /** Every step of the shared machine is the same step of the private one. */
  lemma StepSimulates(s: Shared, p: Private, a: Action)
    requires Simulates(s, p) && Enabled(s, a)
    ensures Simulates(Step(s, a), PStep(p, a)) && |Step(s, a).mem| == |s.mem|
  {
    match a
    case Resume(c) => if s.cos[c].started { LoadRestores(s.mem, s.cos[c], p.stacks[c]); }
    case Yield(dummy, block) =>
      SaveFits(s.mem, s.cos[s.curr.value], dummy, block);
      SaveKeeps(s.mem, s.cos[s.curr.value], dummy, s.sp, block);
    case _ =>
  }

  // ----- whole runs -----

  ghost predicate Runs(s: Shared, acts: seq<Action>, s': Shared)
    decreases |acts|
  {
    if acts == [] then s' == s
    else Room(s) && Enabled(s, acts[0]) && Runs(Step(s, acts[0]), acts[1..], s')
  }

  ghost function PRun(p: Private, acts: seq<Action>): Private
    decreases |acts|
  {
    if acts == [] then p else PRun(PStep(p, acts[0]), acts[1..])
  }

  lemma {:induction false} RunSimulates(s: Shared, p: Private, acts: seq<Action>, s': Shared)
    requires Simulates(s, p) && Runs(s, acts, s')
    ensures Simulates(s', PRun(p, acts)) && |s'.mem| == |s.mem|
    decreases |acts|
  {
    if acts != [] {
      StepSimulates(s, p, acts[0]);
      RunSimulates(Step(s, acts[0]), PStep(p, acts[0]), acts[1..], s');
    }
  }

  /** After any run from an empty scheduler: save buffers cover stack_size, and a coroutine that is
      resumed finds, at the addresses from its saved stack pointer to the top, exactly the bytes it
      would have on a stack of its own. */
  lemma SharedStackRefinesPrivate(mem: seq<byte>, acts: seq<Action>, s: Shared, c: Id)
    requires Runs(Shared(mem, map[], None, 0), acts, s) && s.curr.None? && c in s.cos
    ensures Room(s)
    ensures var s' := Step(s, Resume(c));
            var own := PRun(Private(map[], None), acts).stacks;
            c in own && s'.sp <= |s'.mem| == |mem| && s'.mem[s'.sp..] == own[c]
  {
    var p := PRun(Private(map[], None), acts);
    RunSimulates(Shared(mem, map[], None, 0), Private(map[], None), acts, s);
    StepSimulates(s, p, Resume(c));
  }

  /** On its own stack a coroutine finds what it left: others' steps do not touch it. */
  lemma {:induction false} OwnStackUntouched(p: Private, acts: seq<Action>, c: Id)
    requires c in p.stacks && p.curr != Some(c)
    requires forall i :: 0 <= i < |acts| ==> acts[i] != Resume(c) && acts[i] != Spawn(c)
    ensures var p' := PRun(p, acts); c in p'.stacks && p'.curr != Some(c) && p'.stacks[c] == p.stacks[c]
    decreases |acts|
  {
    if acts != [] {
      assert acts[0] != Resume(c) && acts[0] != Spawn(c);
      assert forall i :: 0 <= i < |acts[1..]| ==> acts[1..][i] == acts[i + 1];
      OwnStackUntouched(PStep(p, acts[0]), acts[1..], c);
    }
  }

  /** A coroutine that yields and is resumed later, whatever ran in between, continues with the same
      stack pointer and the same bytes at the same addresses above it. */
  lemma ResumeSeesLastYield(mem: seq<byte>, before: seq<Action>, s: Shared, c: Id, dummy: nat, block: seq<byte>,
                            between: seq<Action>, s2: Shared)
    requires Runs(Shared(mem, map[], None, 0), before, s) && Room(s)
    requires s.curr == Some(c) && Enabled(s, Yield(dummy, block))
    requires Runs(Step(s, Yield(dummy, block)), between, s2) && s2.curr.None?
    requires forall i :: 0 <= i < |between| ==> between[i] != Resume(c) && between[i] != Spawn(c)
    ensures Room(s2) && c in s2.cos
    ensures var s3 := Step(s2, Resume(c)); s3.sp == s.sp <= |s.mem| == |s3.mem| && s3.mem[s3.sp..] == s.mem[s.sp..]
  {
    var p := PRun(Private(map[], None), before);
    RunSimulates(Shared(mem, map[], None, 0), Private(map[], None), before, s);
    StepSimulates(s, p, Yield(dummy, block));
    var p1 := PStep(p, Yield(dummy, block));
    RunSimulates(Step(s, Yield(dummy, block)), p1, between, s2);
    OwnStackUntouched(p1, between, c);
    StepSimulates(s2, PRun(p1, between), Resume(c));
  }

  // ----- the two functions on arrays -----

  const MAX_STACKSIZE := 128 * 1024

  class CoStack {
    var stack: array<byte>
    var size: nat

    ghost predicate Valid()
      reads this
    {
      size <= stack.Length
    }

    ghost function View(sp: nat): Saved
      reads this, stack
    {
      Saved(stack[..], size, sp, true)
    }
  }

  lemma CopyOne(d: seq<byte>, to: nat, s: seq<byte>, from: nat, i: nat)
    requires to + i < |d| && from + i < |s|
    ensures (d[..to] + s[from..from + i] + d[to + i..])[to + i := s[from + i]]
         == d[..to] + s[from..from + i + 1] + d[to + i + 1..]
  {
  }

  method Memcpy(dst: array<byte>, to: nat, src: array<byte>, from: nat, n: nat)
    requires dst != src && to + n <= dst.Length && from + n <= src.Length
    modifies dst
    ensures dst[..] == old(dst[..])[..to] + src[from..from + n] + old(dst[..])[to + n..]
  {
    var i := 0;
    while i < n
      invariant 0 <= i <= n
      invariant dst[..] == old(dst[..])[..to] + src[from..from + i] + old(dst[..])[to + i..]
    {
      CopyOne(old(dst[..]), to, src[..], from, i);
      dst[to + i] := src[from + i];
      i := i + 1;
    }
  }

  ghost function Grown(buf: seq<byte>, n: nat): (b: seq<byte>)
    ensures Reallocated(buf, n, b)
  {
    if n <= |buf| then buf[..n] else buf + seq(n - |buf|, _ => 0)
  }

  method Realloc(a: array<byte>, n: nat) returns (b: array<byte>)
    ensures fresh(b) && Reallocated(a[..], n, b[..])
  {
    b := new byte[n];
    var m := if n < a.Length then n else a.Length;
    Memcpy(b, 0, a, 0, m);
  }

  /** _save_stack on the run stack `stack`, called from a frame whose local variable is at `dummy`. */
  method SaveStack(stack: array<byte>, co: CoStack, dummy: nat, ghost sp: nat) returns (ghost block: seq<byte>)
    requires co.Valid() && co.stack != stack && dummy <= stack.Length <= MAX_STACKSIZE
    modifies co, co.stack
    ensures co.Valid() && (co.stack == old(co.stack) || fresh(co.stack)) && co.stack != stack
    ensures Reallocated(old(co.stack[..]), stack.Length - dummy, block)
    ensures old(co.size) < stack.Length - dummy || |old(co.stack[..])| >= stack.Length - dummy
    ensures co.stack == old(co.stack) <==> old(co.size) >= stack.Length - dummy
    ensures co.stack.Length >= co.size == stack.Length - dummy
    ensures co.View(sp) == Save(stack[..], old(co.View(sp)), dummy, sp, block)
  {
    var need := stack.Length - dummy;
    assert need <= MAX_STACKSIZE;
    block := Grown(co.stack[..], need);
    if co.size < need {
      co.stack := Realloc(co.stack, need);
      block := co.stack[..];
    }
    co.size := need;
    Memcpy(co.stack, 0, stack, dummy, need);
  }

  /** _load_stack. */
  method LoadStack(stack: array<byte>, co: CoStack, ghost sp: nat)
    requires co.Valid() && co.stack != stack && co.size <= stack.Length
    modifies stack
    ensures stack[..] == Load(old(stack[..]), co.View(sp))
  {
    Memcpy(stack, stack.Length - co.size, co.stack, 0, co.size);
  }
}
