/** The tail queues of core/nty_queue.h.

    The back link of an element and the `last` field of a head are addresses of pointer fields: of
    the `first` field of a head or of the `next` field of an element.  A head and an element entry
    have the same layout, a pointer followed by such an address, and TAILQ_LAST and TAILQ_PREV read
    the second word of whichever of the two an address points into. */
module TailQueue {
  import opened Common

  datatype Loc = Nowhere | AtHead(h: Head) | AtElem(e: Elem)

  class Elem {
    var next: Elem?
    var prev: Loc
    const id: nat

    constructor (i: nat)
      ensures id == i
    {
      next, prev, id := null, Nowhere, i;
    }
  }

  /** `*loc` */
  function Load(loc: Loc): Elem?
    reads if loc.AtHead? then {loc.h} else {}, if loc.AtElem? then {loc.e} else {}
  {
    match loc
    case Nowhere => null
    case AtHead(h) => h.first
    case AtElem(e) => e.next
  }

  /** The word after the pointer at `loc`, read through either struct type. */
  function Second(loc: Loc): Loc
    reads if loc.AtHead? then {loc.h} else {}, if loc.AtElem? then {loc.e} else {}
  {
    match loc
    case Nowhere => Nowhere
    case AtHead(h) => h.last
    case AtElem(e) => e.prev
  }

  ghost function At(q: seq<Elem>, i: int): (x: Elem?)
    ensures x != null ==> x in q
  {
    if 0 <= i < |q| then q[i] else null
  }

  /** What a pointer to the start of `q`, followed by `n`, holds. */
  ghost function Start(q: seq<Elem>, n: Elem?): Elem? { if q == [] then n else q[0] }

  /** The address of the pointer field behind `q`, when `p` is the one in front of it. */
  ghost function Behind(q: seq<Elem>, p: Loc): (loc: Loc)
    ensures q != [] ==> loc.AtElem? && loc.e in q
  {
    if q == [] then p else AtElem(q[|q| - 1])
  }

  /** `q` is a stretch of a queue: its links run both ways, `p` is the address of the pointer to its
      first element, and its last element points to `n`. */
  ghost predicate Linked(q: seq<Elem>, p: Loc, n: Elem?)
    reads q
  {
    q != [] ==> q[0].prev == p && q[0].next == Start(q[1..], n) && Linked(q[1..], AtElem(q[0]), n)
  }

  /** Two stretches in a row are one stretch. */
  lemma {:induction false} LinkedConcat(a: seq<Elem>, b: seq<Elem>, p: Loc, n: Elem?)
    ensures Linked(a + b, p, n) <==> Linked(a, p, Start(b, n)) && Linked(b, Behind(a, p), n)
  {
    if a == [] {
      assert a + b == b;
    } else {
      assert (a + b)[1..] == a[1..] + b;
      LinkedConcat(a[1..], b, AtElem(a[0]), n);
    }
  }

  lemma NoDupConcat<A>(a: seq<A>, b: seq<A>)
    ensures NoDup(a + b) <==> NoDup(a) && NoDup(b) && forall x :: x in a ==> x !in b
  {
    if NoDup(a + b) {
      forall i, j | 0 <= i < j < |a| ensures a[i] != a[j] { assert (a + b)[i] != (a + b)[j]; }
      forall i, j | 0 <= i < j < |b| ensures b[i] != b[j] { assert (a + b)[|a| + i] != (a + b)[|a| + j]; }
      forall x | x in a ensures x !in b {
        var i :| 0 <= i < |a| && a[i] == x;
        forall j | 0 <= j < |b| ensures b[j] != x { assert (a + b)[i] != (a + b)[|a| + j]; }
      }
    }
    if NoDup(a) && NoDup(b) && forall x :: x in a ==> x !in b {
      forall i, j | 0 <= i < j < |a + b| ensures (a + b)[i] != (a + b)[j] {
        if i < |a| <= j { assert a[i] in a && b[j - |a|] in b; }
      }
    }
  }

  /** An element of a sequence without repetitions, and what is around it. */
  lemma Around<A>(q: seq<A>, i: nat, a: seq<A>, b: seq<A>)
    requires NoDup(q) && i < |q| && a == q[..i] && b == q[i + 1..]
    ensures q == a + ([q[i]] + b)
    ensures NoDup(b) && q[i] !in a && q[i] !in b
    ensures forall x :: x in a ==> x in q && x !in b
    ensures forall x :: x in b ==> x in q
  {
    assert q == a + ([q[i]] + b);
    NoDupConcat(a, [q[i]] + b);
    NoDupConcat([q[i]], b);
    forall x | x in a ensures x !in b { assert x !in [q[i]] + b; }
    assert q[i] in [q[i]] + b;
  }

  /** Links in terms of positions. */
  lemma {:induction false} LinkedAt(q: seq<Elem>, p: Loc, n: Elem?, i: nat)
    requires Linked(q, p, n) && i < |q|
    ensures q[i].prev == (if i == 0 then p else AtElem(q[i - 1]))
    ensures q[i].next == (if i + 1 < |q| then q[i + 1] else n)
  {
    if i > 0 {
      LinkedAt(q[1..], AtElem(q[0]), n, i - 1);
    }
  }

  /** A stretch is linked when its part before the last element is, and the last element. */
  lemma LastLink(a: seq<Elem>, b: seq<Elem>, z: Elem, p: Loc, n: Elem?)
    requires a != [] && b == a[..|a| - 1] && z == a[|a| - 1] && NoDup(a)
    ensures Linked(a, p, n) <==> Linked(b, p, z) && z.prev == Behind(b, p) && z.next == n
    ensures z !in b
  {
    assert a == b + [z];
    LinkedConcat(b, [z], p, n);
  }

  /** Changes the back link of the first element of `b`, if there is one. */
  method SetBack(x: Elem?, p: Loc, ghost b: seq<Elem>, ghost was: Loc, ghost n: Elem?)
    requires Linked(b, was, n) && NoDup(b) && x == At(b, 0)
    modifies (if x == null then {} else {x})`prev
    ensures Linked(b, p, n)
  {
    assert b != [] ==> b[0] !in b[1..];
    if x != null {
      x.prev := p;
    }
  }

  class Head {
    var first: Elem?
    var last: Loc
    ghost var contents: seq<Elem>

    ghost predicate Valid()
      reads this, contents
    {
      && NoDup(contents) && Linked(contents, AtHead(this), null)
      && first == Start(contents, null) && last == Behind(contents, AtHead(this))
    }

    constructor ()
      ensures Valid() && contents == []
    {
      first, contents := null, [];
      last := Nowhere;
      new;
      last := AtHead(this);
    }

    /** TAILQ_INIT. */
    method Init()
      modifies this
      ensures Valid() && contents == []
    {
      first := null;
      last := AtHead(this);
      contents := [];
    }

    method Empty() returns (b: bool)
      requires Valid()
      ensures b <==> contents == []
    {
      b := first == null;
    }

    /** TAILQ_LAST: the cast reads the head's or the last element's second word. */
    method Last() returns (x: Elem?)
      requires Valid()
      ensures x == At(contents, |contents| - 1)
    {
      ghost var n := |contents|;
      if n > 0 { LinkedAt(contents, AtHead(this), null, n - 1); }
      if n > 1 { LinkedAt(contents, AtHead(this), null, n - 2); }
      x := Load(Second(last));
    }

    /** TAILQ_PREV. */
    method Prev(elm: Elem, ghost i: nat) returns (x: Elem?)
      requires Valid() && i < |contents| && contents[i] == elm
      ensures x == At(contents, i - 1)
    {
      LinkedAt(contents, AtHead(this), null, i);
      if i > 0 { LinkedAt(contents, AtHead(this), null, i - 1); }
      if i > 1 { LinkedAt(contents, AtHead(this), null, i - 2); }
      LinkedAt(contents, AtHead(this), null, |contents| - 1);
      x := Load(Second(elm.prev));
    }

    /** `*loc = x` for the address behind the stretch `a` at the front of this queue. */
    method Hook(loc: Loc, x: Elem?, ghost a: seq<Elem>, ghost was: Elem?)
      requires Linked(a, AtHead(this), was) && NoDup(a) && loc == Behind(a, AtHead(this))
      modifies this`first, (if loc.AtElem? then {loc.e} else {})`next
      ensures Linked(a, AtHead(this), x) && first == (if a == [] then x else old(first))
    {
      match loc
      case AtHead(h) =>
        h.first := x;
      case AtElem(e) =>
        ghost var b := a[..|a| - 1];
        LastLink(a, b, e, AtHead(this), was);
        e.next := x;
        LastLink(a, b, e, AtHead(this), x);
    }

    /** The parts of a queue, and nothing else about it. */
    ghost predicate Parts(a: seq<Elem>, b: seq<Elem>)
      reads this, a, b
    {
      && Linked(a, AtHead(this), Start(b, null)) && Linked(b, Behind(a, AtHead(this)), null)
      && NoDup(a) && NoDup(b) && (forall x :: x in a ==> x !in b)
      && first == Start(a, Start(b, null)) && last == Behind(b, Behind(a, AtHead(this)))
    }

    lemma Divide(a: seq<Elem>, b: seq<Elem>)
      requires Valid() && contents == a + b
      ensures Parts(a, b)
    {
      LinkedConcat(a, b, AtHead(this), null);
      NoDupConcat(a, b);
      if a == [] { assert a + b == b; }
      if b == [] { assert a + b == a; }
    }

    /** The two parts of the queue around position `i`. */
    lemma Cut(i: nat) returns (a: seq<Elem>, b: seq<Elem>)
      requires Valid() && i <= |contents|
      ensures a == contents[..i] && b == contents[i..] && Parts(a, b)
      ensures i > 0 ==> a != [] && a[|a| - 1] == contents[i - 1]
      ensures i < |contents| ==> b != [] && b[0] == contents[i]
      ensures forall x :: x in a || x in b ==> x in contents
    {
      a, b := contents[..i], contents[i..];
      assert contents == a + b;
      Divide(a, b);
    }

    /** Two parts that fit together are the whole queue. */
    ghost method Join(a: seq<Elem>, b: seq<Elem>)
      requires Linked(a, AtHead(this), Start(b, null)) && Linked(b, Behind(a, AtHead(this)), null)
      requires NoDup(a) && NoDup(b) && forall x :: x in a ==> x !in b
      requires first == Start(a, Start(b, null)) && last == Behind(b, Behind(a, AtHead(this)))
      modifies this`contents
      ensures Valid() && contents == a + b
    {
      LinkedConcat(a, b, AtHead(this), null);
      NoDupConcat(a, b);
      contents := a + b;
    }

    /** `elm` between the parts `a` and `b`, its own links already set. */
    ghost method JoinAround(a: seq<Elem>, elm: Elem, b: seq<Elem>)
      requires elm.prev == Behind(a, AtHead(this)) && elm.next == Start(b, null)
      requires Linked(a, AtHead(this), elm) && Linked(b, AtElem(elm), null)
      requires NoDup(a) && NoDup(b) && (forall x :: x in a ==> x !in b) && elm !in a && elm !in b
      requires first == Start(a, elm) && last == Behind(b, AtElem(elm))
      modifies this`contents
      ensures Valid() && contents == a + [elm] + b
    {
      assert Linked([elm] + b, Behind(a, AtHead(this)), null);
      NoDupConcat([elm], b);
      assert a + ([elm] + b) == a + [elm] + b;
      Join(a, [elm] + b);
    }

    method InsertTail(elm: Elem)
      requires Valid() && elm !in contents
      modifies this, contents, elm
      ensures Valid() && contents == old(contents) + [elm]
    {
      ghost var a := contents;
      elm.next := null;
      elm.prev := last;
      Hook(last, elm, a, null);
      last := AtElem(elm);
      JoinAround(a, elm, []);
      assert a + [elm] + [] == a + [elm];
    }

    method InsertHead(elm: Elem)
      requires Valid() && elm !in contents
      modifies this, contents, elm
      ensures Valid() && contents == [elm] + old(contents)
    {
      ghost var b := contents;
      elm.next := first;
      if elm.next != null {
        SetBack(first, AtElem(elm), b, AtHead(this), null);
      } else {
        last := AtElem(elm);
      }
      first := elm;
      elm.prev := AtHead(this);
      JoinAround([], elm, b);
      assert [] + [elm] + b == [elm] + b;
    }

    method InsertAfter(listelm: Elem, elm: Elem, ghost i: nat)
      requires Valid() && elm !in contents && i < |contents| && contents[i] == listelm
      modifies this, contents, elm
      ensures Valid() && contents == old(contents)[..i + 1] + [elm] + old(contents)[i + 1..]
    {
      ghost var a, b := Cut(i + 1);
      LinkedAt(contents, AtHead(this), null, i);
      LinkAfter(listelm, elm, a, b);
      JoinAround(a, elm, b);
    }

    method LinkAfter(listelm: Elem, elm: Elem, ghost a: seq<Elem>, ghost b: seq<Elem>)
      requires Parts(a, b) && elm !in a && elm !in b && a != [] && listelm == a[|a| - 1] && listelm.next == Start(b, null)
      modifies this, a, b, elm
      ensures elm.prev == Behind(a, AtHead(this)) && elm.next == Start(b, null)
      ensures Linked(a, AtHead(this), elm) && Linked(b, AtElem(elm), null)
      ensures first == Start(a, elm) && last == Behind(b, AtElem(elm))
    {
      elm.next := listelm.next;
      if elm.next != null {
        SetBack(elm.next, AtElem(elm), b, AtElem(listelm), null);
      } else {
        last := AtElem(elm);
      }
      assert Linked(a, AtHead(this), Start(b, null));
      Hook(AtElem(listelm), elm, a, Start(b, null));
      elm.prev := AtElem(listelm);
    }

    method InsertBefore(listelm: Elem, elm: Elem, ghost i: nat)
      requires Valid() && elm !in contents && i < |contents| && contents[i] == listelm
      modifies this, contents, elm
      ensures Valid() && contents == old(contents)[..i] + [elm] + old(contents)[i..]
    {
      ghost var a, b := Cut(i);
      LinkBefore(listelm, elm, a, b);
      JoinAround(a, elm, b);
    }

    method LinkBefore(listelm: Elem, elm: Elem, ghost a: seq<Elem>, ghost b: seq<Elem>)
      requires Parts(a, b) && elm !in a && elm !in b && b != [] && listelm == b[0]
      modifies this, a, b, elm
      ensures elm.prev == Behind(a, AtHead(this)) && elm.next == Start(b, null)
      ensures Linked(a, AtHead(this), elm) && Linked(b, AtElem(elm), null)
      ensures first == Start(a, elm) && last == Behind(b, AtElem(elm))
    {
      elm.prev := listelm.prev;
      elm.next := listelm;
      Hook(listelm.prev, elm, a, listelm);
      assert Linked(b, Behind(a, AtHead(this)), null);
      SetBack(listelm, AtElem(elm), b, Behind(a, AtHead(this)), null);
    }

    /** The parts of the queue around its element `elm`. */
    lemma CutOut(elm: Elem, i: nat) returns (a: seq<Elem>, b: seq<Elem>)
      requires Valid() && i < |contents| && contents[i] == elm
      ensures a == contents[..i] && b == contents[i + 1..]
      ensures Parts(a, [elm] + b) && NoDup(b) && elm !in a && elm !in b
      ensures forall x :: x in a ==> x in contents && x !in b
      ensures forall x :: x in b ==> x in contents
    {
      a, b := contents[..i], contents[i + 1..];
      Around(contents, i, a, b);
      Divide(a, [elm] + b);
    }

    method Remove(elm: Elem, ghost i: nat)
      requires Valid() && i < |contents| && contents[i] == elm
      modifies this, contents
      ensures Valid() && contents == old(contents)[..i] + old(contents)[i + 1..]
    {
      ghost var a, b := CutOut(elm, i);
      Unlink(elm, a, b);
      Join(a, b);
    }

    method Unlink(elm: Elem, ghost a: seq<Elem>, ghost b: seq<Elem>)
      requires Parts(a, [elm] + b) && elm !in a && elm !in b && NoDup(b)
      modifies this, a, b
      ensures Linked(a, AtHead(this), Start(b, null)) && Linked(b, Behind(a, AtHead(this)), null)
      ensures first == Start(a, Start(b, null)) && last == Behind(b, Behind(a, AtHead(this)))
    {
      ghost var c := [elm] + b;
      assert c[0] == elm && c[1..] == b;
      assert forall x :: x in a ==> x !in b;
      assert elm.next == Start(b, null) && elm.prev == Behind(a, AtHead(this));
      if elm.next != null {
        SetBack(elm.next, elm.prev, b, AtElem(elm), null);
      } else {
        last := elm.prev;
      }
      assert Linked(a, AtHead(this), elm);
      Hook(elm.prev, elm.next, a, elm);
    }

    /** TAILQ_CONCAT: `other` ends up empty. */
    method Concat(other: Head)
      requires Valid() && other.Valid() && other != this
      requires forall x :: x in contents ==> x !in other.contents
      modifies this, contents, other, other.contents
      ensures Valid() && other.Valid()
      ensures contents == old(contents) + old(other.contents) && other.contents == []
    {
      if other.first != null {
        ghost var a, b := contents, other.contents;
        assert allocated(a) && allocated(b);
        Hook(last, other.first, a, null);
        SetBack(other.first, last, b, AtHead(other), null);
        last := other.last;
        other.Init();
        Join(a, b);
      }
    }

    /** Turns the links of the elements just taken over to this head. */
    method Adopt(ghost b: seq<Elem>, ghost was: Loc)
      requires Linked(b, was, null) && NoDup(b) && first == Start(b, null) && last == Behind(b, was)
      modifies this`last, this`contents, (if first == null then {} else {first})`prev
      ensures Valid() && contents == b
    {
      if first != null {
        SetBack(first, AtHead(this), b, was, null);
      } else {
        last := AtHead(this);
      }
      contents := b;
    }

    /** TAILQ_SWAP. */
    method Swap(other: Head)
      requires Valid() && other.Valid() && other != this
      requires forall x :: x in contents ==> x !in other.contents
      modifies this, contents, other, other.contents
      ensures Valid() && other.Valid()
      ensures contents == old(other.contents) && other.contents == old(contents)
    {
      ghost var a, b := contents, other.contents;
      assert allocated(a) && allocated(b);
      assert b != [] ==> b[0] in b && b[0] !in a;
      assert a != [] ==> a[0] in a && a[0] !in b;
      var swapFirst, swapLast := first, last;
      first, last := other.first, other.last;
      other.first, other.last := swapFirst, swapLast;
      Adopt(b, AtHead(other));
      assert Linked(a, AtHead(this), null);
      other.Adopt(a, AtHead(this));
    }
  }
}
