/** Red-black trees as values: the shapes that the pointer code of `RBTree` represents.

    A `Tree` records, for every node object, its key and colour.  A `Path` is the way from
    a focus back to the root, so that `Plug(t, p)` is the whole tree whose focus is `t`.
    Both fix-up loops are described by what each of their steps does to a focus and a path. */
module RBShape {

  datatype Color = Red | Black

  /** The side of its parent on which a focus hangs. */
  datatype Side = L | R

  /** A node object together with the key that the comparison function reads from it. */
  datatype Item<+N> = Item(node: N, key: int)

  datatype Tree<+N> = Leaf | T(left: Tree<N>, item: Item<N>, color: Color, right: Tree<N>)

  datatype Path<+N> = Top | In(side: Side, item: Item<N>, color: Color, sib: Tree<N>, up: Path<N>)

  /** The tree whose child on side `s` is `near` and whose other child is `far`. */
  function Mk<N>(s: Side, near: Tree<N>, it: Item<N>, c: Color, far: Tree<N>): (t: Tree<N>)
    ensures t.T? && t.item == it && t.color == c
    ensures Bal(t) <==> Bal(near) && Bal(far) && BH(near) == BH(far)
    ensures Bal(t) ==> BH(t) == BH(near) + One(c)
    ensures NoRR(t) <==> NoRR(near) && NoRR(far) && (c == Red ==> !IsRed(near) && !IsRed(far))
  {
    if s == L then T(near, it, c, far) else T(far, it, c, near)
  }

  function Other(s: Side): Side { if s == L then R else L }

  function Child<N>(t: Tree<N>, s: Side): Tree<N>
    requires t.T?
  {
    if s == L then t.left else t.right
  }

  /** A node taken apart by side, and seen from the other side. */
  lemma Halves<N>(t: Tree<N>, s: Side)
    requires t.T?
    ensures t == Mk(s, Child(t, s), t.item, t.color, Child(t, Other(s)))
    ensures t == Mk(Other(s), Child(t, Other(s)), t.item, t.color, Child(t, s))
  {
  }

  function Plug<N>(t: Tree<N>, p: Path<N>): Tree<N>
    decreases p
  {
    if p.Top? then t else Plug(Mk(p.side, t, p.item, p.color, p.sib), p.up)
  }

  function Depth<N>(p: Path<N>): nat {
    if p.Top? then 0 else 1 + Depth(p.up)
  }

  // ----- the sequence of items from left to right -----

  function Inorder<N>(t: Tree<N>): seq<Item<N>> {
    if t.Leaf? then [] else Inorder(t.left) + [t.item] + Inorder(t.right)
  }

  function Before<N>(p: Path<N>): seq<Item<N>> {
    if p.Top? then [] else if p.side == L then Before(p.up)
    else Before(p.up) + Inorder(p.sib) + [p.item]
  }

  function After<N>(p: Path<N>): seq<Item<N>> {
    if p.Top? then [] else if p.side == R then After(p.up)
    else [p.item] + Inorder(p.sib) + After(p.up)
  }

  lemma {:induction false} PlugInorder<N>(t: Tree<N>, p: Path<N>)
    ensures Inorder(Plug(t, p)) == Items(t, p)
    decreases p
  {
    if p.In? {
      PlugInorder(Mk(p.side, t, p.item, p.color, p.sib), p.up);
    }
  }

  ghost predicate Sorted<N>(s: seq<Item<N>>) {
    forall i, j :: 0 <= i < j < |s| ==> s[i].key < s[j].key
  }

  // ----- colours and heights -----

  predicate IsRed<N>(t: Tree<N>) { t.T? && t.color == Red }

  predicate IsBlackNode<N>(t: Tree<N>) { t.T? && t.color == Black }

  function Blacken<N>(t: Tree<N>): Tree<N> { if t.T? then t.(color := Black) else t }

  function One(c: Color): nat { if c == Black then 1 else 0 }

  /** Black nodes on the leftmost way down. */
  function BH<N>(t: Tree<N>): nat {
    if t.Leaf? then 0 else BH(t.left) + One(t.color)
  }

  predicate Bal<N>(t: Tree<N>) {
    t.T? ==> BH(t.left) == BH(t.right) && Bal(t.left) && Bal(t.right)
  }

  predicate NoRR<N>(t: Tree<N>) {
    t.T? ==>
      && (t.color == Red ==> !IsRed(t.left) && !IsRed(t.right))
      && NoRR(t.left) && NoRR(t.right)
  }

  /** What the rest of the code relies on: ordered keys, a black root, no red node with a red
      child, and equally many black nodes on every way down. */
  ghost predicate RB<N>(t: Tree<N>) {
    !IsRed(t) && Bal(t) && NoRR(t) && Sorted(Inorder(t))
  }

  // ----- the same conditions seen from a focus -----

  predicate ParRed<N>(p: Path<N>) { p.In? && p.color == Red }

  predicate PBal<N>(p: Path<N>, h: nat) {
    p.In? ==> Bal(p.sib) && BH(p.sib) == h && PBal(p.up, h + One(p.color))
  }

  predicate PNoRR<N>(p: Path<N>) {
    p.In? ==>
      && (p.color == Red ==> !IsRed(p.sib) && !ParRed(p.up))
      && NoRR(p.sib) && PNoRR(p.up)
  }

  predicate TopBlack<N>(p: Path<N>) {
    p.In? ==> if p.up.Top? then p.color == Black else TopBlack(p.up)
  }

  lemma {:induction false} PlugBal<N>(t: Tree<N>, p: Path<N>)
    ensures Bal(Plug(t, p)) <==> Bal(t) && PBal(p, BH(t))
    decreases p
  {
    if p.In? {
      PlugBal(Mk(p.side, t, p.item, p.color, p.sib), p.up);
    }
  }

  lemma {:induction false} PlugNoRR<N>(t: Tree<N>, p: Path<N>)
    ensures NoRR(Plug(t, p)) <==> NoRR(t) && PNoRR(p) && !(IsRed(t) && ParRed(p))
    decreases p
  {
    if p.In? {
      PlugNoRR(Mk(p.side, t, p.item, p.color, p.sib), p.up);
    }
  }

  lemma {:induction false} PlugRoot<N>(t: Tree<N>, p: Path<N>)
    ensures !IsRed(Plug(t, p)) <==> if p.Top? then !IsRed(t) else TopBlack(p)
    decreases p
  {
    if p.In? {
      PlugRoot(Mk(p.side, t, p.item, p.color, p.sib), p.up);
    }
  }

  /** A whole tree is a red-black tree exactly when focus and path agree on colours and heights. */
  lemma PlugRB<N>(t: Tree<N>, p: Path<N>)
    ensures RB(Plug(t, p)) <==>
      && Bal(t) && PBal(p, BH(t)) && NoRR(t) && PNoRR(p) && !(IsRed(t) && ParRed(p))
      && (if p.Top? then !IsRed(t) else TopBlack(p))
      && Sorted(Items(t, p))
  {
    PlugBal(t, p); PlugNoRR(t, p); PlugRoot(t, p); PlugInorder(t, p);
  }

  /** The items of the whole tree, seen from a focus. */
  function Items<N>(t: Tree<N>, p: Path<N>): seq<Item<N>> {
    Before(p) + Inorder(t) + After(p)
  }

  function MkItems<N>(s: Side, near: seq<Item<N>>, it: Item<N>, far: seq<Item<N>>): seq<Item<N>> {
    if s == L then near + [it] + far else far + [it] + near
  }

  lemma MkInorder<N>(s: Side, near: Tree<N>, it: Item<N>, c: Color, far: Tree<N>)
    ensures Inorder(Mk(s, near, it, c, far)) == MkItems(s, Inorder(near), it, Inorder(far))
  {
  }

  lemma Assoc5<A>(a: seq<A>, b: seq<A>, c: seq<A>, d: seq<A>, e: seq<A>)
    ensures a + b + (c + d + e) == a + (b + c + d) + e
    ensures (a + b + c) + d + e == a + (b + c + d) + e
  {
  }

  /** Moving the focus to the parent, and recolouring it, changes no item. */
  lemma ZipUp<N>(t: Tree<N>, p: Path<N>, c: Color, sib: Tree<N>)
    requires p.In? && Inorder(sib) == Inorder(p.sib)
    ensures Items(t, p) == Items(Mk(p.side, t, p.item, c, sib), p.up)
  {
    MkInorder(p.side, t, p.item, c, sib);
    Assoc5(Before(p.up), Inorder(t), [p.item], Inorder(sib), After(p.up));
    Assoc5(Before(p.up), Inorder(sib), [p.item], Inorder(t), After(p.up));
  }

  /** A rotation lists the same items, whatever the colours. */
  lemma RotationItems<N>(s: Side, a: Tree<N>, i: Item<N>, b: Tree<N>, j: Item<N>, c: Tree<N>,
                         c1: Color, c2: Color, c3: Color, c4: Color)
    ensures Inorder(Mk(s, Mk(s, a, i, c1, b), j, c2, c)) == Inorder(Mk(s, a, i, c3, Mk(s, b, j, c4, c)))
  {
    MkInorder(s, a, i, c1, b);
    MkInorder(s, Mk(s, a, i, c1, b), j, c2, c);
    MkInorder(s, b, j, c4, c);
    MkInorder(s, a, i, c3, Mk(s, b, j, c4, c));
    var x, y, z := Inorder(a), Inorder(b), Inorder(c);
    if s == L {
      assert (x + [i] + y) + [j] + z == x + [i] + (y + [j] + z);
    } else {
      assert z + [j] + (y + [i] + x) == (z + [j] + y) + [i] + x;
    }
  }

  /** Two focus trees with the same items are interchangeable. */
  lemma Refocus<N>(t: Tree<N>, t': Tree<N>, p: Path<N>)
    requires Inorder(t) == Inorder(t')
    ensures Items(t, p) == Items(t', p)
  {
  }

  // ----- insertion: at most one red-red edge, between the focus and its parent -----

  predicate InsInv<N>(t: Tree<N>, p: Path<N>) {
    IsRed(t) && Bal(t) && NoRR(t) && PBal(p, BH(t)) && PNoRR(p) && TopBlack(p)
  }

  /** A red leaf put into a gap of a red-black tree. */
  lemma NewLeaf<N>(p: Path<N>, it: Item<N>)
    requires RB(Plug(Leaf, p))
    ensures InsInv(T(Leaf, it, Red, Leaf), p)
  {
    PlugRB(Leaf, p);
  }

  /** A red parent is not the root, and the grandparent is black. */
  lemma Grandparent<N>(t: Tree<N>, p: Path<N>)
    requires InsInv(t, p) && ParRed(p)
    ensures p.up.In? && p.up.color == Black
  {
  }

  /** The conditions on a path, one frame at a time. */
  lemma Unfold<N>(p: Path<N>, h: nat)
    requires p.In? && PBal(p, h) && PNoRR(p) && TopBlack(p)
    ensures Bal(p.sib) && BH(p.sib) == h && PBal(p.up, h + One(p.color))
    ensures NoRR(p.sib) && PNoRR(p.up) && TopBlack(p.up)
    ensures p.color == Red ==> !IsRed(p.sib) && p.up.In? && p.up.color == Black
    ensures Bal(Blacken(p.sib)) && NoRR(Blacken(p.sib)) && (IsRed(p.sib) ==> BH(Blacken(p.sib)) == h + 1)
  {
  }

  lemma InsertUncleRed<N>(t: Tree<N>, p: Path<N>)
    requires InsInv(t, p) && ParRed(p) && IsRed(p.up.sib)
    ensures var t' := Mk(p.up.side, Mk(p.side, t, p.item, Black, p.sib), p.up.item, Red, Blacken(p.up.sib));
            InsInv(t', p.up.up) && Items(t, p) == Items(t', p.up.up)
  {
    Unfold(p, BH(t));
    Unfold(p.up, BH(t));
    ZipUp(t, p, Black, p.sib);
    ZipUp(Mk(p.side, t, p.item, Black, p.sib), p.up, Red, Blacken(p.up.sib));
  }

  /** The focus is the inner grandchild: one rotation at the parent makes it the outer one. */
  lemma InsertInner<N>(t: Tree<N>, p: Path<N>, near: Tree<N>, far: Tree<N>)
    requires InsInv(t, p) && ParRed(p) && p.side != p.up.side
    requires t == Mk(p.side, near, t.item, Red, far)
    ensures var t' := Mk(p.up.side, p.sib, p.item, Red, far);
            var p' := In(p.up.side, t.item, Red, near, p.up);
            InsInv(t', p') && Items(t, p) == Items(t', p')
  {
    Unfold(p, BH(t));
    var t', p' := Mk(p.up.side, p.sib, p.item, Red, far), In(p.up.side, t.item, Red, near, p.up);
    ZipUp(t, p, Red, p.sib);
    ZipUp(t', p', Red, near);
    RotationItems(p.side, near, t.item, far, p.item, p.sib, Red, Red, Red, Red);
    Refocus(Mk(p.side, t, p.item, Red, p.sib), Mk(p.up.side, t', t.item, Red, near), p.up);
  }

  /** The focus is the outer grandchild: one rotation at the grandparent ends the loop. */
  lemma InsertOuter<N>(t: Tree<N>, p: Path<N>)
    requires InsInv(t, p) && ParRed(p) && p.side == p.up.side && !IsRed(p.up.sib)
    ensures var p' := In(p.side, p.item, Black, Mk(p.side, p.sib, p.up.item, Red, p.up.sib), p.up.up);
            InsInv(t, p') && Items(t, p) == Items(t, p')
  {
    Unfold(p, BH(t));
    Unfold(p.up, BH(t));
    var sib' := Mk(p.side, p.sib, p.up.item, Red, p.up.sib);
    assert Bal(sib') && NoRR(sib') && BH(sib') == BH(t);
    var p' := In(p.side, p.item, Black, sib', p.up.up);
    var parent := Mk(p.side, t, p.item, Red, p.sib);
    ZipUp(t, p, Red, p.sib);
    ZipUp(parent, p.up, Black, p.up.sib);
    ZipUp(t, p', Black, sib');
    RotationItems(p.side, t, p.item, p.sib, p.up.item, p.up.sib, Red, Black, Black, Red);
    Refocus(Mk(p.side, parent, p.up.item, Black, p.up.sib), Mk(p.side, t, p.item, Black, sib'), p.up.up);
  }

  lemma InsertDone<N>(t: Tree<N>, p: Path<N>)
    requires InsInv(t, p) && !ParRed(p) && Sorted(Items(t, p))
    ensures RB(Blacken(Plug(t, p))) && (p.In? ==> Blacken(Plug(t, p)) == Plug(t, p))
    ensures Inorder(Blacken(Plug(t, p))) == Items(t, p)
  {
    PlugRB(t, p); PlugInorder(t, p); PlugRoot(t, p);
  }

  // ----- removal: the focus has one black node too few -----

  predicate RemInv<N>(t: Tree<N>, p: Path<N>) {
    Bal(t) && NoRR(Blacken(t)) && PBal(p, BH(t) + 1) && PNoRR(p) && TopBlack(p)
  }

  /** The sibling read by the fix-up loop is never null; a red one has black children that are
      not null either. */
  lemma Sibling<N>(t: Tree<N>, p: Path<N>)
    requires RemInv(t, p) && p.In?
    ensures p.sib.T?
    ensures IsRed(p.sib) ==> p.color == Black
    ensures IsRed(p.sib) ==> p.sib.left.T? && !IsRed(p.sib.left) && p.sib.right.T? && !IsRed(p.sib.right)
  {
  }

  lemma RemoveSiblingRed<N>(t: Tree<N>, p: Path<N>, near: Tree<N>, far: Tree<N>)
    requires RemInv(t, p) && p.In? && IsRed(p.sib) && p.sib == Mk(p.side, near, p.sib.item, Red, far)
    ensures var p' := In(p.side, p.item, Red, near, In(p.side, p.sib.item, Black, far, p.up));
            RemInv(t, p') && Items(t, p) == Items(t, p')
  {
    Unfold(p, BH(t) + 1);
    assert PBal(In(p.side, p.sib.item, Black, far, p.up), BH(t) + 1);
    var p2 := In(p.side, p.sib.item, Black, far, p.up);
    var p1 := In(p.side, p.item, Red, near, p2);
    ZipUp(t, p, Black, p.sib);
    ZipUp(t, p1, Red, near);
    ZipUp(Mk(p.side, t, p.item, Red, near), p2, Black, far);
    RotationItems(p.side, t, p.item, near, p.sib.item, far, Red, Black, Black, Red);
    Refocus(Mk(p.side, t, p.item, Black, p.sib), Mk(p.side, Mk(p.side, t, p.item, Red, near), p.sib.item, Black, far), p.up);
  }

  lemma RemoveRecolor<N>(t: Tree<N>, p: Path<N>)
    requires RemInv(t, p) && p.In? && !IsRed(t) && !IsRed(p.sib)
    requires p.sib.T? ==> !IsRed(p.sib.left) && !IsRed(p.sib.right)
    ensures p.sib.T?
    ensures var t' := Mk(p.side, t, p.item, p.color, p.sib.(color := Red));
            RemInv(t', p.up) && Items(t, p) == Items(t', p.up)
  {
    Unfold(p, BH(t) + 1);
    ZipUp(t, p, p.color, p.sib.(color := Red));
  }

  /** Only the nephew nearer to the focus is red: one rotation at the sibling moves it to the far side. */
  lemma RemoveNear<N>(t: Tree<N>, p: Path<N>, n1: Tree<N>, n2: Tree<N>, near: Tree<N>, far: Tree<N>)
    requires RemInv(t, p) && p.In? && IsBlackNode(p.sib) && p.sib == Mk(p.side, near, p.sib.item, Black, far)
    requires IsRed(near) && !IsRed(far) && near == Mk(p.side, n1, near.item, Red, n2)
    ensures var p' := p.(sib := Mk(p.side, n1, near.item, Black, Mk(p.side, n2, p.sib.item, Red, far)));
            RemInv(t, p') && Items(t, p) == Items(t, p')
  {
    Unfold(p, BH(t) + 1);
    var s' := Mk(p.side, n1, near.item, Black, Mk(p.side, n2, p.sib.item, Red, far));
    assert Bal(s') && NoRR(s') && BH(s') == BH(p.sib);
    RotationItems(p.side, n1, near.item, n2, p.sib.item, far, Red, Black, Black, Red);
  }

  lemma RemoveFar<N>(t: Tree<N>, p: Path<N>, near: Tree<N>, far: Tree<N>)
    requires RemInv(t, p) && p.In? && IsBlackNode(p.sib) && !IsRed(t)
    requires p.sib == Mk(p.side, near, p.sib.item, Black, far) && IsRed(far)
    requires Sorted(Items(t, p))
    ensures var t' := Mk(p.side, Mk(p.side, t, p.item, Black, near), p.sib.item, p.color, Blacken(far));
            RB(Plug(t', p.up)) && Inorder(Plug(t', p.up)) == Items(t, p)
  {
    Unfold(p, BH(t) + 1);
    var inner := Mk(p.side, t, p.item, Black, near);
    assert Bal(inner) && NoRR(inner) && BH(inner) == BH(t) + 1;
    var t' := Mk(p.side, inner, p.sib.item, p.color, Blacken(far));
    assert Bal(t') && NoRR(t') && BH(t') == BH(t) + 1 + One(p.color);
    ZipUp(t, p, p.color, p.sib);
    RotationItems(p.side, t, p.item, near, p.sib.item, far, Black, p.color, p.color, Black);
    Refocus(Mk(p.side, t, p.item, p.color, p.sib), Mk(p.side, inner, p.sib.item, p.color, far), p.up);
    Refocus(Mk(p.side, inner, p.sib.item, p.color, far), t', p.up);
    PlugRB(t', p.up);
    PlugInorder(t', p.up);
  }

  lemma RemoveDone<N>(t: Tree<N>, p: Path<N>)
    requires RemInv(t, p) && (IsRed(t) || p.Top?) && Sorted(Items(t, p))
    ensures RB(Plug(Blacken(t), p))
    ensures Inorder(Plug(Blacken(t), p)) == Items(t, p)
  {
    PlugRB(Blacken(t), p); PlugInorder(Blacken(t), p);
  }
}
