/** Taking a node out of a red-black tree: a node with at most one child is replaced by that
    child, any other node by its successor, which is first taken out of its own place. */
module RBUnlink {
  import opened RBShape
  import opened RBSearch

  /** The sequence `s` without its item `it`. */
  function Minus<N(==)>(s: seq<Item<N>>, it: Item<N>): seq<Item<N>> {
    if s == [] then [] else if s[0] == it then s[1..] else [s[0]] + Minus(s[1..], it)
  }

  lemma {:induction false} MinusAt<N>(a: seq<Item<N>>, it: Item<N>, b: seq<Item<N>>)
    requires it !in a
    ensures Minus(a + [it] + b, it) == a + b
  {
    var s := a + [it] + b;
    if a == [] {
      assert s[1..] == b;
    } else {
      assert s[1..] == a[1..] + [it] + b;
      MinusAt(a[1..], it, b);
      assert s[0] == a[0];
      assert [a[0]] + (a[1..] + b) == a + b;
    }
  }

  lemma {:induction false} MinusMembers<N>(s: seq<Item<N>>, it: Item<N>)
    ensures forall x :: x in Minus(s, it) ==> x in s
  {
    if s != [] && s[0] != it { MinusMembers(s[1..], it); }
  }

  lemma MinusSorted<N>(a: seq<Item<N>>, it: Item<N>, b: seq<Item<N>>)
    requires Sorted(a + [it] + b)
    ensures Minus(a + [it] + b, it) == a + b && Sorted(a + b)
  {
    var s := a + [it] + b;
    Split(a, it, b, s);
    MinusAt(a, it, b);
    forall i, j | 0 <= i < j < |a + b| ensures (a + b)[i].key < (a + b)[j].key {
      assert (a + b)[i] == s[if i < |a| then i else i + 1];
      assert (a + b)[j] == s[if j < |a| then j else j + 1];
    }
  }

  /** The colour and height rules of a red-black tree, seen from a focus. */
  predicate Rules<N>(t: Tree<N>, p: Path<N>) {
    && Bal(t) && PBal(p, BH(t)) && NoRR(t) && PNoRR(p) && !(IsRed(t) && ParRed(p))
    && (if p.Top? then !IsRed(t) else TopBlack(p))
  }

  lemma PlugRules<N>(t: Tree<N>, p: Path<N>)
    ensures Rules(t, p) <==> Bal(Plug(t, p)) && NoRR(Plug(t, p)) && !IsRed(Plug(t, p))
  {
    PlugBal(t, p); PlugNoRR(t, p); PlugRoot(t, p);
  }

  predicate OnlyChild<N(==)>(t: Tree<N>, c: Tree<N>) {
    t.T? && ((t.left.Leaf? && c == t.right) || (t.right.Leaf? && c == t.left))
  }

  /** Replacing a red node by its only child keeps the rules; replacing a black one leaves a
      deficit of one black node at the child. */
  lemma TakeOutRules<N>(t: Tree<N>, c: Tree<N>, p: Path<N>)
    requires Rules(t, p) && OnlyChild(t, c)
    ensures t.color == Red ==> Rules(c, p)
    ensures t.color == Black ==> RemInv(c, p)
  {
    assert NoRR(c) && NoRR(Blacken(c));
  }

  lemma Concat3<A>(x: seq<A>, y: seq<A>, z: seq<A>)
    ensures (x + []) + (y + z) == x + y + z
    ensures (x + y) + ([] + z) == x + y + z
  {
  }

  lemma TakeOutItems<N>(t: Tree<N>, c: Tree<N>, p: Path<N>)
    requires OnlyChild(t, c) && Sorted(Items(t, p))
    ensures Items(c, p) == Minus(Items(t, p), t.item) && Sorted(Items(c, p))
  {
    Regroup(Before(p), Inorder(t.left), t.item, Inorder(t.right), After(p));
    var a, b := Before(p) + Inorder(t.left), Inorder(t.right) + After(p);
    MinusSorted(a, t.item, b);
    Concat3(Before(p), Inorder(c), After(p));
  }

  // ----- the successor -----

  /** First along `u`, then along `p`. */
  function Join<N>(u: Path<N>, p: Path<N>): Path<N> {
    if u.Top? then p else u.(up := Join(u.up, p))
  }

  predicate AllLeft<N>(u: Path<N>) { u.In? ==> u.side == L && AllLeft(u.up) }

  /** The rules do not look at items, so exchanging one on the way up changes nothing. */
  lemma {:induction false} ReItem<N>(u: Path<N>, p: Path<N>, it: Item<N>, h: nat)
    requires p.In?
    ensures var q, q' := Join(u, p), Join(u, p.(item := it));
            && PBal(q, h) == PBal(q', h) && PNoRR(q) == PNoRR(q') && TopBlack(q) == TopBlack(q')
            && ParRed(q) == ParRed(q') && q.In? && q'.In?
  {
    if u.In? {
      ReItem(u.up, p, it, h + One(u.color));
    }
  }

  lemma {:induction false} JoinItems<N>(u: Path<N>, p: Path<N>, it: Item<N>)
    requires AllLeft(u) && p.In? && p.side == R
    ensures Before(Join(u, p)) == Before(p)
    ensures After(Join(u, p)) == After(Join(u, p.(item := it)))
  {
    if u.In? {
      JoinItems(u.up, p, it);
    }
  }

  lemma Successor5<A>(a: seq<A>, x: A, y: A, c: seq<A>, z: seq<A>)
    ensures (a + [x]) + ([y] + c) + z == a + [x] + ([y] + (c + z))
    ensures (a + [y]) + c + z == a + ([y] + (c + z))
  {
  }

  /** Moving the successor `s` of the item of `p` into its place, and the child `c` of `s` into
      the place of `s`, removes exactly the item of `p`. */
  lemma SuccessorItems<N>(s: Tree<N>, c: Tree<N>, u: Path<N>, p: Path<N>)
    requires s.T? && s.left.Leaf? && c == s.right && AllLeft(u) && p.In? && p.side == R
    requires Sorted(Items(s, Join(u, p)))
    ensures var q := Join(u, p.(item := s.item));
            Items(c, q) == Minus(Items(s, Join(u, p)), p.item) && Sorted(Items(c, q))
  {
    var q := Join(u, p.(item := s.item));
    JoinItems(u, p, s.item);
    JoinItems(u, p.(item := s.item), s.item);
    var a, rest := Before(p.up) + Inorder(p.sib), Inorder(c) + After(q);
    assert Inorder(s) == [s.item] + Inorder(c);
    Successor5(a, p.item, s.item, Inorder(c), After(q));
    MinusSorted(a, p.item, [s.item] + rest);
  }

  lemma SuccessorRules<N>(s: Tree<N>, c: Tree<N>, u: Path<N>, p: Path<N>)
    requires s.T? && s.left.Leaf? && c == s.right && p.In? && Rules(s, Join(u, p))
    ensures var q := Join(u, p.(item := s.item));
            (s.color == Red ==> Rules(c, q)) && (s.color == Black ==> RemInv(c, q))
  {
    TakeOutRules(s, c, Join(u, p));
    ReItem(u, p, s.item, BH(c));
    ReItem(u, p, s.item, BH(c) + 1);
  }

  lemma SuccessorOut<N>(s: Tree<N>, u: Path<N>, p: Path<N>)
    requires s.T? && s.left.Leaf? && AllLeft(u) && p.In? && p.side == R
    requires Rules(s, Join(u, p)) && Sorted(Items(s, Join(u, p)))
    ensures var q := Join(u, p.(item := s.item));
            && (if s.color == Black then RemInv(s.right, q) else Rules(s.right, q))
            && Items(s.right, q) == Minus(Items(s, Join(u, p)), p.item) && Sorted(Items(s.right, q))
  {
    SuccessorRules(s, s.right, u, p);
    SuccessorItems(s, s.right, u, p);
  }

  lemma {:induction false} PlugJoin<N>(t: Tree<N>, u: Path<N>, p: Path<N>)
    ensures Plug(t, Join(u, p)) == Plug(Plug(t, u), p)
    decreases u
  {
    if u.In? {
      PlugJoin(Mk(u.side, t, u.item, u.color, u.sib), u.up, p);
    }
  }
}
