/** The top-down splay tree of core/nty_tree.h, relinking node objects in place.

    The local variable `__node` of the source is a node without a key whose two fields hold the tops of
    the assembled trees; here these are the variables `topL` and `topR`, and a null tail stands for
    its address.  As in `RBTree`, mirrored branches are one step with a side. */
module SplayTree {
  import opened RBShape
  import opened RBSearch
  import opened SplayShape

  class SNode {
    var left: SNode?
    var right: SNode?
    const key: int

    constructor (k: int)
      ensures key == k
    {
      key := k;
      left, right := null, null;
    }
  }

  function SKid(n: SNode, s: Side): SNode?
    reads n
  {
    if s == L then n.left else n.right
  }

  ghost function SNodes(t: STree<SNode>): set<SNode> {
    if t.Nil? then {} else SNodes(t.left) + {t.item.node} + SNodes(t.right)
  }

  ghost function CNodes(c: Chain<SNode>): set<SNode> {
    if c.End? then {} else CNodes(c.prev) + {c.item.node} + SNodes(c.sub)
  }

  ghost function SRoot(t: STree<SNode>): (n: SNode?)
    ensures n == null <==> t.Nil?
    ensures n != null ==> n in SNodes(t)
  {
    if t.Nil? then null else t.item.node
  }

  ghost function Tail(c: Chain<SNode>): (n: SNode?)
    ensures n == null <==> c.End?
    ensures n != null ==> n in CNodes(c)
  {
    if c.End? then null else c.item.node
  }

  ghost function First(c: Chain<SNode>): (n: SNode?)
    ensures n == null <==> c.End?
  {
    if c.End? then null else if c.prev.End? then c.item.node else First(c.prev)
  }

  ghost predicate SRep(t: STree<SNode>)
    reads SNodes(t)
  {
    t.B? ==>
      var n := t.item.node;
      && n !in SNodes(t.left) && n !in SNodes(t.right) && SNodes(t.left) !! SNodes(t.right)
      && n.left == SRoot(t.left) && n.right == SRoot(t.right) && n.key == t.item.key
      && SRep(t.left) && SRep(t.right)
  }

  /** The nodes of `c` are linked from one to the next on side `s`; the last one's field on that side
      may hold anything. */
  ghost predicate CRep(s: Side, c: Chain<SNode>)
    reads CNodes(c)
  {
    c.Link? ==>
      var n := c.item.node;
      && n !in SNodes(c.sub) && n !in CNodes(c.prev) && SNodes(c.sub) !! CNodes(c.prev)
      && (c.prev.Link? ==> SKid(c.prev.item.node, s) == n)
      && SKid(n, Other(s)) == SRoot(c.sub) && n.key == c.item.key
      && SRep(c.sub) && CRep(s, c.prev)
  }

  lemma SMkRep(s: Side, near: STree<SNode>, it: Item<SNode>, far: STree<SNode>)
    ensures SNodes(SMk(s, near, it, far)) == SNodes(near) + {it.node} + SNodes(far)
    ensures SRep(SMk(s, near, it, far)) <==>
      var n := it.node;
      && n !in SNodes(near) && n !in SNodes(far) && SNodes(near) !! SNodes(far)
      && SKid(n, s) == SRoot(near) && SKid(n, Other(s)) == SRoot(far) && n.key == it.key
      && SRep(near) && SRep(far)
  {
  }

  /** A chain whose last link points to `t` is a tree with `t` in its hole. */
  lemma {:induction false} FillRep(s: Side, c: Chain<SNode>, t: STree<SNode>)
    requires CRep(s, c) && SRep(t) && SNodes(t) !! CNodes(c) && (c.Link? ==> SKid(c.item.node, s) == SRoot(t))
    ensures SRep(Fill(s, c, t)) && SNodes(Fill(s, c, t)) == SNodes(t) + CNodes(c)
    ensures SRoot(Fill(s, c, t)) == if c.End? then SRoot(t) else First(c)
    decreases c
  {
    if c.Link? {
      SMkRep(s, t, c.item, c.sub);
      FillRep(s, c.prev, SMk(s, t, c.item, c.sub));
    }
  }

  /** The subtrees and nodes of a rotation share no node. */
  ghost predicate SApart(a: STree<SNode>, x: SNode, b: STree<SNode>, y: SNode, c: STree<SNode>)
    reads SNodes(a), SNodes(b), SNodes(c)
  {
    && x != y && SNodes(a) !! SNodes(b) && SNodes(a) !! SNodes(c) && SNodes(b) !! SNodes(c)
    && x !in SNodes(a) && x !in SNodes(b) && x !in SNodes(c)
    && y !in SNodes(a) && y !in SNodes(b) && y !in SNodes(c)
    && SRep(a) && SRep(b) && SRep(c)
  }

  lemma STakeApart(s: Side, a: STree<SNode>, i: Item<SNode>, b: STree<SNode>, j: Item<SNode>, c: STree<SNode>)
    requires SRep(SMk(s, SMk(s, a, i, b), j, c))
    ensures SApart(a, i.node, b, j.node, c)
    ensures SKid(i.node, s) == SRoot(a) && SKid(i.node, Other(s)) == SRoot(b) && i.node.key == i.key
    ensures SKid(j.node, s) == i.node && SKid(j.node, Other(s)) == SRoot(c) && j.node.key == j.key
    ensures SNodes(SMk(s, SMk(s, a, i, b), j, c)) == SNodes(a) + {i.node} + SNodes(b) + {j.node} + SNodes(c)
  {
    SMkRep(s, SMk(s, a, i, b), j, c);
    SMkRep(s, a, i, b);
  }

  lemma SPutTogether(s: Side, a: STree<SNode>, i: Item<SNode>, b: STree<SNode>, j: Item<SNode>, c: STree<SNode>)
    requires SApart(a, i.node, b, j.node, c)
    requires SKid(i.node, s) == SRoot(a) && SKid(i.node, Other(s)) == j.node && i.node.key == i.key
    requires SKid(j.node, s) == SRoot(b) && SKid(j.node, Other(s)) == SRoot(c) && j.node.key == j.key
    ensures SRep(SMk(s, a, i, SMk(s, b, j, c)))
    ensures SNodes(SMk(s, a, i, SMk(s, b, j, c))) == SNodes(a) + {i.node} + SNodes(b) + {j.node} + SNodes(c)
  {
    SMkRep(s, b, j, c);
    SMkRep(s, a, i, SMk(s, b, j, c));
  }

  lemma {:induction false} NodeListed(t: STree<SNode>, n: SNode)
    requires SRep(t) && n in SNodes(t)
    ensures HasKey(List(t), n.key)
  {
    var l := |List(t.left)|;
    if n == t.item.node {
      assert List(t)[l] == t.item;
    } else if n in SNodes(t.left) {
      NodeListed(t.left, n);
      var i :| 0 <= i < l && List(t.left)[i].key == n.key;
      assert List(t)[i] == List(t.left)[i];
    } else {
      NodeListed(t.right, n);
      var i :| 0 <= i < |List(t.right)| && List(t.right)[i].key == n.key;
      assert List(t)[l + 1 + i] == List(t.right)[i];
    }
  }

  method SetSKid(n: SNode, s: Side, x: SNode?)
    modifies n`left, n`right
    ensures SKid(n, s) == x && SKid(n, Other(s)) == old(SKid(n, Other(s)))
  {
    if s == L {
      n.left := x;
    } else {
      n.right := x;
    }
  }

  class SplayTree {
    var root: SNode?
    ghost var shape: STree<SNode>
    ghost var Repr: set<SNode>

    ghost predicate Valid()
      reads this, Repr
    {
      Repr == SNodes(shape) && root == SRoot(shape) && SRep(shape) && Sorted(List(shape))
    }

    constructor ()
      ensures Valid() && List(shape) == [] && Repr == {}
    {
      root, shape, Repr := null, Nil, {};
    }

    /** SPLAY_ROTATE_RIGHT on side L, SPLAY_ROTATE_LEFT on side R: the child `tmp` on side `s`
        becomes the root. */
    method Spin(s: Side, x: SNode, tmp: SNode, ghost a: STree<SNode>, ghost i: Item<SNode>, ghost b: STree<SNode>,
                ghost j: Item<SNode>, ghost c: STree<SNode>)
      requires SRep(SMk(s, SMk(s, a, i, b), j, c)) && i.node == tmp && j.node == x
      modifies x`left, x`right, tmp`left, tmp`right
      ensures SRep(SMk(s, a, i, SMk(s, b, j, c)))
      ensures SNodes(SMk(s, a, i, SMk(s, b, j, c))) == SNodes(SMk(s, SMk(s, a, i, b), j, c))
    {
      STakeApart(s, a, i, b, j, c);
      assert allocated(SNodes(a)) && allocated(SNodes(b)) && allocated(SNodes(c));
      SetSKid(x, s, SKid(tmp, Other(s)));
      SetSKid(tmp, Other(s), x);
      SPutTogether(s, a, i, b, j, c);
    }

    /** SPLAY_LINKLEFT on side L, SPLAY_LINKRIGHT on side R: the root `x` becomes the new tail. */
    static method Append(s: Side, x: SNode, top: SNode?, tail: SNode?, ghost c: Chain<SNode>, ghost t: STree<SNode>)
      returns (top': SNode)
      requires CRep(s, c) && SRep(t) && t.B? && t.item.node == x && SNodes(t) !! CNodes(c)
      requires top == First(c) && tail == Tail(c)
      modifies (if tail == null then {} else {tail})`left, (if tail == null then {} else {tail})`right
      ensures var c' := Link(c, t.item, SChild(t, Other(s)));
              && CRep(s, c') && SRep(SChild(t, s)) && CNodes(c') !! SNodes(SChild(t, s))
              && top' == First(c') && CNodes(c') + SNodes(SChild(t, s)) == CNodes(c) + SNodes(t)
    {
      assert allocated(CNodes(c)) && allocated(SNodes(t));
      if tail == null {
        top' := x;
      } else {
        top' := top;
        SetSKid(tail, s, x);
      }
    }

    /** First half of SPLAY_ASSEMBLE, for one side: `x` goes into the hole of the chain. */
    static method Plant(s: Side, x: SNode?, top: SNode?, tail: SNode?, ghost c: Chain<SNode>, ghost t: STree<SNode>)
      returns (top': SNode?)
      requires CRep(s, c) && SRep(t) && SRoot(t) == x && SNodes(t) !! CNodes(c)
      requires top == First(c) && tail == Tail(c)
      modifies (if tail == null then {} else {tail})`left, (if tail == null then {} else {tail})`right
      ensures SRep(Fill(s, c, t)) && SNodes(Fill(s, c, t)) == SNodes(t) + CNodes(c) && top' == SRoot(Fill(s, c, t))
    {
      assert allocated(CNodes(c)) && allocated(SNodes(t));
      if tail == null {
        top' := x;
      } else {
        top' := top;
        SetSKid(tail, s, x);
      }
      FillRep(s, c, t);
    }

    /** The pointers during a splay: the tree still to be searched and the two assemblies. */
    ghost predicate Mid(lc: Chain<SNode>, t: STree<SNode>, rc: Chain<SNode>)
      reads this`root, CNodes(lc), SNodes(t), CNodes(rc)
    {
      && SRep(t) && t.B? && root == t.item.node && CRep(R, lc) && CRep(L, rc)
      && SNodes(t) !! CNodes(lc) && SNodes(t) !! CNodes(rc) && CNodes(lc) !! CNodes(rc)
    }

    ghost function Everything(lc: Chain<SNode>, t: STree<SNode>, rc: Chain<SNode>): set<SNode> {
      CNodes(lc) + SNodes(t) + CNodes(rc)
    }

    /** SPLAY_ASSEMBLE. */
    method Assemble(topL: SNode?, tailL: SNode?, topR: SNode?, tailR: SNode?,
                    ghost lc: Chain<SNode>, ghost t: STree<SNode>, ghost rc: Chain<SNode>)
      requires Mid(lc, t, rc) && topR == First(lc) && tailR == Tail(lc) && topL == First(rc) && tailL == Tail(rc)
      requires Sorted(Whole(lc, t, rc))
      modifies this, Everything(lc, t, rc)
      ensures Valid() && shape == Assembled(lc, t, rc) && Repr == Everything(lc, t, rc)
    {
      AssembledList(lc, t, rc);
      Raise(topL, tailL, topR, tailR, lc, t, rc);
      SetShape(root, Assembled(lc, t, rc));
    }

    method Raise(topL: SNode?, tailL: SNode?, topR: SNode?, tailR: SNode?,
                 ghost lc: Chain<SNode>, ghost t: STree<SNode>, ghost rc: Chain<SNode>)
      requires Splaying(lc, t, rc, topL, tailL, topR, tailR)
      modifies Everything(lc, t, rc)
      ensures SRep(Assembled(lc, t, rc)) && SNodes(Assembled(lc, t, rc)) == Everything(lc, t, rc)
    {
      var a, b := PlantBoth(root, topL, tailL, topR, tailR, lc, t, rc);
      Crown(root, a, b, Fill(R, lc, t.left), t.item, Fill(L, rc, t.right));
    }

    method PlantBoth(x: SNode, topL: SNode?, tailL: SNode?, topR: SNode?, tailR: SNode?,
                     ghost lc: Chain<SNode>, ghost t: STree<SNode>, ghost rc: Chain<SNode>)
      returns (a: SNode?, b: SNode?)
      requires Mid(lc, t, rc) && root == x
      requires topR == First(lc) && tailR == Tail(lc) && topL == First(rc) && tailL == Tail(rc)
      modifies CNodes(lc), CNodes(rc)
      ensures var l, r := Fill(R, lc, t.left), Fill(L, rc, t.right);
              && SRep(l) && SRep(r) && a == SRoot(l) && b == SRoot(r)
              && SNodes(l) == SNodes(t.left) + CNodes(lc) && SNodes(r) == SNodes(t.right) + CNodes(rc)
              && x !in SNodes(l) && x !in SNodes(r) && SNodes(l) !! SNodes(r)
    {
      assert allocated(CNodes(lc)) && allocated(CNodes(rc)) && allocated(SNodes(t.left)) && allocated(SNodes(t.right));
      var y := x.right;
      a := Plant(R, x.left, topR, tailR, lc, t.left);
      assert SRep(t.right) && CRep(L, rc);
      b := Plant(L, y, topL, tailL, rc, t.right);
    }

    static method Crown(x: SNode, a: SNode?, b: SNode?, ghost l: STree<SNode>, ghost it: Item<SNode>, ghost r: STree<SNode>)
      requires it == Item(x, x.key) && SRep(l) && SRep(r) && a == SRoot(l) && b == SRoot(r)
      requires x !in SNodes(l) && x !in SNodes(r) && SNodes(l) !! SNodes(r)
      modifies x`left, x`right
      ensures SRep(B(l, it, r)) && SNodes(B(l, it, r)) == SNodes(l) + {x} + SNodes(r)
    {
      assert allocated(SNodes(l)) && allocated(SNodes(r));
      x.left := a;
      x.right := b;
    }

    ghost predicate Splaying(lc: Chain<SNode>, t: STree<SNode>, rc: Chain<SNode>,
                             topL: SNode?, tailL: SNode?, topR: SNode?, tailR: SNode?)
      reads this`root, CNodes(lc), SNodes(t), CNodes(rc)
    {
      Mid(lc, t, rc) && topR == First(lc) && tailR == Tail(lc) && topL == First(rc) && tailL == Tail(rc)
    }

    /** name_SPLAY: brings the node with the key, or one next to its place, to the root. */
    method Splay(key: int)
      requires Valid() && root != null
      modifies this, Repr
      ensures Valid() && Repr == old(Repr) && List(shape) == old(List(shape)) && shape.B?
      ensures Closest(List(shape), |List(shape.left)|, key)
    {
      ghost var lc: Chain<SNode>, t, rc: Chain<SNode> := End, shape, End;
      var topL: SNode?, tailL: SNode?, topR: SNode?, tailR: SNode? := null, null, null, null;
      while root.key != key
        invariant Splaying(lc, t, rc, topL, tailL, topR, tailR)
        invariant Everything(lc, t, rc) == old(Repr) && Whole(lc, t, rc) == old(List(shape)) && Around(lc, rc, key)
        decreases t
      {
        var s := if key < root.key then L else R;
        if SKid(root, s) == null {
          break;
        }
        t := ZigZig(s, key, lc, t, rc);
        if SKid(root, s) == null {
          break;
        }
        topL, tailL, topR, tailR, lc, t, rc := LinkRoot(s, key, topL, tailL, topR, tailR, lc, t, rc);
      }
      Finish(key, topL, tailL, topR, tailR, lc, t, rc);
    }

    method Finish(ghost key: int, topL: SNode?, tailL: SNode?, topR: SNode?, tailR: SNode?,
                  ghost lc: Chain<SNode>, ghost t: STree<SNode>, ghost rc: Chain<SNode>)
      requires Splaying(lc, t, rc, topL, tailL, topR, tailR) && Sorted(Whole(lc, t, rc)) && Around(lc, rc, key)
      requires t.item.key == key || (key < t.item.key && t.left.Nil?) || (t.item.key < key && t.right.Nil?)
      modifies this, Everything(lc, t, rc)
      ensures Valid() && shape.B? && Repr == Everything(lc, t, rc) && List(shape) == Whole(lc, t, rc)
      ensures Closest(List(shape), |List(shape.left)|, key)
    {
      StopClosest(lc, t, rc, key);
      AssembledList(lc, t, rc);
      Assemble(topL, tailL, topR, tailR, lc, t, rc);
    }

    /** Links the root into the assembly on the far side of the key and goes on with its child. */
    method LinkRoot(s: Side, ghost key: int, topL: SNode?, tailL: SNode?, topR: SNode?, tailR: SNode?,
                    ghost lc: Chain<SNode>, ghost t: STree<SNode>, ghost rc: Chain<SNode>)
      returns (topL': SNode?, tailL': SNode?, topR': SNode?, tailR': SNode?,
               ghost lc': Chain<SNode>, ghost t': STree<SNode>, ghost rc': Chain<SNode>)
      requires Splaying(lc, t, rc, topL, tailL, topR, tailR) && SChild(t, s).B?
      requires Sorted(Whole(lc, t, rc)) && Around(lc, rc, key) && if s == L then key < t.item.key else t.item.key < key
      modifies this`root, CNodes(lc), CNodes(rc)
      ensures Splaying(lc', t', rc', topL', tailL', topR', tailR') && t' == SChild(t, s)
      ensures Everything(lc', t', rc') == Everything(lc, t, rc)
      ensures Whole(lc', t', rc') == Whole(lc, t, rc) && Around(lc', rc', key)
      ensures if s == L then lc' == lc else rc' == rc
    {
      LinkWhole(s, t, lc, rc, key);
      topL', tailL', topR', tailR', lc', rc' := topL, tailL, topR, tailR, lc, rc;
      if s == L {
        topL', tailL' := LinkLeft(topL, tailL, topR, tailR, lc, t, rc);
        rc', t' := Link(rc, t.item, t.right), t.left;
      } else {
        topR', tailR' := LinkRight(topL, tailL, topR, tailR, lc, t, rc);
        lc', t' := Link(lc, t.item, t.left), t.right;
      }
    }

    method LinkLeft(topL: SNode?, tailL: SNode?, topR: SNode?, tailR: SNode?,
                    ghost lc: Chain<SNode>, ghost t: STree<SNode>, ghost rc: Chain<SNode>)
      returns (topL': SNode, tailL': SNode)
      requires Splaying(lc, t, rc, topL, tailL, topR, tailR) && t.left.B?
      modifies this`root, CNodes(rc)
      ensures var rc' := Link(rc, t.item, t.right);
              && Splaying(lc, t.left, rc', topL', tailL', topR, tailR)
              && Everything(lc, t.left, rc') == Everything(lc, t, rc)
    {
      assert allocated(CNodes(lc)) && allocated(CNodes(rc)) && allocated(SNodes(t));
      topL' := Append(L, root, topL, tailL, rc, t);
      tailL' := root;
      root := root.left;
    }

    method LinkRight(topL: SNode?, tailL: SNode?, topR: SNode?, tailR: SNode?,
                     ghost lc: Chain<SNode>, ghost t: STree<SNode>, ghost rc: Chain<SNode>)
      returns (topR': SNode, tailR': SNode)
      requires Splaying(lc, t, rc, topL, tailL, topR, tailR) && t.right.B?
      modifies this`root, CNodes(lc)
      ensures var lc' := Link(lc, t.item, t.left);
              && Splaying(lc', t.right, rc, topL, tailL, topR', tailR')
              && Everything(lc', t.right, rc) == Everything(lc, t, rc)
    {
      assert allocated(CNodes(lc)) && allocated(CNodes(rc)) && allocated(SNodes(t));
      topR' := Append(R, root, topR, tailR, lc, t);
      tailR' := root;
      root := root.right;
    }

    /** The rotation when the key lies beyond the child as well. */
    method ZigZig(s: Side, key: int, ghost lc: Chain<SNode>, ghost t: STree<SNode>, ghost rc: Chain<SNode>)
      returns (ghost t': STree<SNode>)
      requires Mid(lc, t, rc) && SChild(t, s).B? && (if s == L then key < t.item.key else t.item.key < key)
      modifies this`root, SNodes(t)
      ensures Mid(lc, t', rc) && SNodes(t') == SNodes(t) && List(t') == List(t)
      ensures if s == L then key < t'.item.key else t'.item.key < key
      ensures t' == t || SChild(t', s) == SChild(SChild(t, s), s)
    {
      assert SRep(SChild(t, s));
      var tmp := SKid(root, s);
      t' := t;
      if (if s == L then key < tmp.key else tmp.key < key) {
        t' := SpinUp(s, lc, t, rc);
      }
    }

    /** name_SPLAY_FIND. */
    method Find(key: int) returns (r: SNode?)
      requires Valid()
      modifies this, Repr
      ensures Valid() && Repr == old(Repr) && List(shape) == old(List(shape))
      ensures r == null ==> !HasKey(List(shape), key)
      ensures r != null ==> r == root && Item(r, key) in List(shape)
    {
      if root == null {
        return null;
      }
      Splay(key);
      ghost var i := RootIndex(key);
      if root.key == key {
        return root;
      }
      return null;
    }

    /** The root after a splay, as an item of the sorted sequence. */
    lemma RootIndex(key: int) returns (i: nat)
      requires Valid() && shape.B? && Closest(List(shape), |List(shape.left)|, key)
      ensures i == |List(shape.left)| < |List(shape)| && List(shape)[i] == shape.item == Item(root, root.key)
      ensures List(shape)[..i] == List(shape.left) && List(shape)[i + 1..] == List(shape.right)
      ensures root.key == key ==> Rank(List(shape), key) == i && HasKey(List(shape), key)
      ensures key < root.key ==> Rank(List(shape), key) == i && !HasKey(List(shape), key)
      ensures root.key < key ==> Rank(List(shape), key) == i + 1 && !HasKey(List(shape), key)
    {
      i := |List(shape.left)|;
      assert List(shape)[i] == shape.item;
      ClosestRank(List(shape), i, key);
    }

    /** name_SPLAY_INSERT: an equal key leaves the contents as they are; the node that has it may be
        `elm` itself. */
    method Insert(elm: SNode) returns (r: SNode?)
      requires Valid()
      modifies this, Repr, elm
      ensures Valid()
      ensures r != null ==> List(shape) == old(List(shape)) && Repr == old(Repr) && Item(r, elm.key) in List(shape)
      ensures r == null ==>
                && !HasKey(old(List(shape)), elm.key) && elm !in old(Repr) && Repr == old(Repr) + {elm}
                && List(shape) == InsertSorted(old(List(shape)), Item(elm, elm.key))
    {
      ghost var it := Item(elm, elm.key);
      if root == null {
        Crown(elm, null, null, Nil, it, Nil);
        SetShape(elm, B(Nil, it, Nil));
        return null;
      }
      Splay(elm.key);
      ghost var i := RootIndex(elm.key);
      if elm in Repr { NodeListed(shape, elm); }
      if elm.key < root.key {
        SplitBefore(elm);
        return null;
      } else if elm.key > root.key {
        SplitAfter(elm);
        return null;
      }
      return root;
    }

    method SplitBefore(elm: SNode)
      requires Valid() && shape.B? && elm !in Repr
      requires !HasKey(List(shape), elm.key) && Rank(List(shape), elm.key) == |List(shape.left)|
      modifies this, elm, root`left
      ensures Valid() && Repr == old(Repr) + {elm} && List(shape) == InsertSorted(old(List(shape)), Item(elm, elm.key))
    {
      ghost var t, it := shape, Item(elm, elm.key);
      InsertBeforeRoot(t, it);
      assert allocated(SNodes(t.left)) && allocated(SNodes(t.right));
      var l := root.left;
      root.left := null;
      ghost var rest := B(Nil, t.item, t.right);
      assert SRep(rest);
      Crown(elm, l, root, t.left, it, rest);
      SetShape(elm, B(t.left, it, rest));
    }

    method SplitAfter(elm: SNode)
      requires Valid() && shape.B? && elm !in Repr
      requires !HasKey(List(shape), elm.key) && Rank(List(shape), elm.key) == |List(shape.left)| + 1
      modifies this, elm, root`right
      ensures Valid() && Repr == old(Repr) + {elm} && List(shape) == InsertSorted(old(List(shape)), Item(elm, elm.key))
    {
      ghost var t, it := shape, Item(elm, elm.key);
      InsertAfterRoot(t, it);
      assert allocated(SNodes(t.left)) && allocated(SNodes(t.right));
      var r := root.right;
      root.right := null;
      ghost var rest := B(t.left, t.item, Nil);
      assert SRep(rest);
      Crown(elm, root, r, rest, it, t.right);
      SetShape(elm, B(rest, it, t.right));
    }

    method SetShape(x: SNode?, ghost t: STree<SNode>)
      requires SRep(t) && Sorted(List(t)) && x == SRoot(t)
      modifies this
      ensures Valid() && shape == t && Repr == SNodes(t)
    {
      root := x;
      shape, Repr := t, SNodes(t);
    }

    /** name_SPLAY_REMOVE: takes out the node with the key of the argument, if there is one. */
    method Remove(key: int) returns (found: bool)
      requires Valid()
      modifies this, Repr
      ensures Valid() && (found <==> HasKey(old(List(shape)), key))
      ensures !found ==> List(shape) == old(List(shape)) && Repr == old(Repr)
      ensures found ==>
                var s, r := old(List(shape)), Rank(old(List(shape)), key);
                && r < |s| && s[r].key == key && List(shape) == s[..r] + s[r + 1..]
                && Repr == old(Repr) - {s[r].node}
    {
      if root == null {
        return false;
      }
      Splay(key);
      ghost var i := RootIndex(key);
      ghost var t := shape;
      if root.key != key {
        return false;
      }
      RemovePieces(List(t), i);
      DropRoot(key);
      return true;
    }

    method DropRoot(key: int)
      requires Valid() && shape.B?
      requires Sorted(List(shape.left) + List(shape.right)) && Sorted(List(shape.right)) && Below(List(shape.left), key)
      modifies this, Repr
      ensures Valid() && Repr == old(Repr) - {old(shape.item.node)}
      ensures List(shape) == old(List(shape.left)) + old(List(shape.right))
    {
      ghost var t := shape;
      assert SRep(t.left) && SRep(t.right);
      assert SNodes(t) - {t.item.node} == SNodes(t.left) + SNodes(t.right);
      if root.left == null {
        SetShape(root.right, t.right);
      } else {
        Merge(root.left, root.right, t.left, t.right, key);
      }
    }

    /** Splaying the left part for the removed key brings its greatest node up, so that the right
        part fits below it. */
    method Merge(l: SNode, tmp: SNode?, ghost tl: STree<SNode>, ghost tr: STree<SNode>, key: int)
      requires SRep(tl) && SRep(tr) && l == SRoot(tl) && tmp == SRoot(tr) && SNodes(tl) !! SNodes(tr)
      requires Sorted(List(tl) + List(tr)) && Below(List(tl), key)
      modifies this, SNodes(tl)
      ensures Valid() && List(shape) == List(tl) + List(tr) && Repr == SNodes(tl) + SNodes(tr)
    {
      assert allocated(SNodes(tr));
      assert List(tl) == (List(tl) + List(tr))[..|List(tl)|];
      SetShape(l, tl);
      Splay(key);
      GreatestAtRoot(shape, key, tr);
      Graft(tmp, tr);
    }

    /** Hangs a tree of greater keys to the right of a root that has no right child. */
    method Graft(tmp: SNode?, ghost tr: STree<SNode>)
      requires Valid() && shape.B? && shape.right.Nil? && SRep(tr) && tmp == SRoot(tr) && SNodes(tr) !! Repr
      requires Sorted(List(B(shape.left, shape.item, tr)))
      modifies this, root`right
      ensures Valid() && shape == B(old(shape).left, old(shape).item, tr) && Repr == old(Repr) + SNodes(tr)
    {
      ghost var t := shape;
      assert allocated(SNodes(t.left)) && allocated(SNodes(tr));
      root.right := tmp;
      assert SRep(t.left);
      SetShape(root, B(t.left, t.item, tr));
    }

    /** name_SPLAY_MINMAX with SPLAY_NEGINF (side L) or SPLAY_INF (side R): brings the least or the
        greatest node to the root.  The ghost key lies beyond all others on that side. */
    method MinMax(s: Side)
      requires Valid() && root != null
      modifies this, Repr
      ensures Valid() && Repr == old(Repr) && List(shape) == old(List(shape)) && shape.B?
      ensures SChild(shape, s).Nil?
    {
      ghost var lc: Chain<SNode>, t, rc: Chain<SNode> := End, shape, End;
      ghost var key := Beyond(List(shape), s);
      var topL: SNode?, tailL: SNode?, topR: SNode?, tailR: SNode? := null, null, null, null;
      while true
        invariant Splaying(lc, t, rc, topL, tailL, topR, tailR)
        invariant Everything(lc, t, rc) == old(Repr) && Whole(lc, t, rc) == old(List(shape)) && Around(lc, rc, key)
        invariant Outer(s, lc, rc)
        decreases t
      {
        if SKid(root, s) == null {
          break;
        }
        BeyondRoot(s, lc, t, rc, key);
        t := SpinUp(s, lc, t, rc);
        if SKid(root, s) == null {
          break;
        }
        BeyondRoot(s, lc, t, rc, key);
        topL, tailL, topR, tailR, lc, t, rc := LinkRoot(s, key, topL, tailL, topR, tailR, lc, t, rc);
      }
      AssembledList(lc, t, rc);
      Assemble(topL, tailL, topR, tailR, lc, t, rc);
    }

    /** Nothing has been linked on the side that the search moves towards. */
    ghost predicate Outer(s: Side, lc: Chain<SNode>, rc: Chain<SNode>) { if s == L then lc.End? else rc.End? }

    method SpinUp(s: Side, ghost lc: Chain<SNode>, ghost t: STree<SNode>, ghost rc: Chain<SNode>)
      returns (ghost t': STree<SNode>)
      requires Mid(lc, t, rc) && SChild(t, s).B?
      modifies this`root, SNodes(t)
      ensures Mid(lc, t', rc) && SNodes(t') == SNodes(t) && List(t') == List(t)
      ensures SChild(t', s) == SChild(SChild(t, s), s) && t'.item == SChild(t, s).item
    {
      var tmp := SKid(root, s);
      Grandfather(s, t, CNodes(lc) + CNodes(rc));
      var x := root;
      root := tmp;
      t' := SpinAside(s, x, tmp, lc, t, rc);
    }

    static lemma Grandfather(s: Side, t: STree<SNode>, others: set<SNode>)
      requires SRep(t) && t.B? && SChild(t, s).B? && SNodes(t) !! others
      ensures var x, tmp := t.item.node, SChild(t, s).item.node;
              SKid(x, s) == tmp && x !in others && tmp !in others && x in SNodes(t) && tmp in SNodes(t)
    {
    }

    /** The rotation leaves both assemblies alone. */
    method SpinAside(s: Side, x: SNode, tmp: SNode, ghost lc: Chain<SNode>, ghost t: STree<SNode>, ghost rc: Chain<SNode>)
      returns (ghost t': STree<SNode>)
      requires SRep(t) && t.B? && SChild(t, s).B? && x == t.item.node && tmp == SChild(t, s).item.node
      requires CRep(R, lc) && CRep(L, rc) && x !in CNodes(lc) + CNodes(rc) && tmp !in CNodes(lc) + CNodes(rc)
      modifies x`left, x`right, tmp`left, tmp`right
      ensures SRep(t') && SNodes(t') == SNodes(t) && List(t') == List(t) && CRep(R, lc) && CRep(L, rc)
      ensures t'.B? && SChild(t', s) == SChild(SChild(t, s), s) && t'.item == SChild(t, s).item
    {
      assert allocated(CNodes(lc)) && allocated(CNodes(rc));
      t' := SpinTree(s, x, tmp, t);
    }

    method SpinTree(s: Side, x: SNode, tmp: SNode, ghost t: STree<SNode>) returns (ghost t': STree<SNode>)
      requires SRep(t) && t.B? && SChild(t, s).B? && x == t.item.node && tmp == SChild(t, s).item.node
      modifies x`left, x`right, tmp`left, tmp`right
      ensures SRep(t') && SNodes(t') == SNodes(t) && List(t') == List(t)
      ensures t'.B? && SChild(t', s) == SChild(SChild(t, s), s) && t'.item == SChild(t, s).item
    {
      ghost var c, o := SChild(t, s), Other(s);
      SpinList(s, SChild(c, s), c.item, SChild(c, o), t.item, SChild(t, o));
      Spin(s, x, tmp, SChild(c, s), c.item, SChild(c, o), t.item, SChild(t, o));
      t' := SMk(s, SChild(c, s), c.item, SMk(s, SChild(c, o), t.item, SChild(t, o)));
    }

    /** name_SPLAY_NEXT: the node after `elm`, which is the i-th one, or null. */
    method Next(elm: SNode, ghost i: nat) returns (r: SNode?)
      requires Valid() && i < |List(shape)| && List(shape)[i] == Item(elm, elm.key)
      modifies this, Repr
      ensures Valid() && Repr == old(Repr) && List(shape) == old(List(shape))
      ensures r == if i + 1 < |List(shape)| then List(shape)[i + 1].node else null
    {
      Splay(elm.key);
      ghost var j := RootIndex(elm.key);
      assert i == j by { RankUnique(List(shape), elm.key, i); }
      if root.right == null {
        return null;
      }
      r := root.right;
      assert SRep(shape.right);
      ghost var t := shape.right;
      while r.left != null
        invariant SRep(t) && t.B? && r == t.item.node && List(t) != [] && List(t)[0] == List(shape)[i + 1]
        decreases t
      {
        r := r.left;
        assert List(t)[0] == List(t.left)[0];
        t := t.left;
      }
    }
  }
}
