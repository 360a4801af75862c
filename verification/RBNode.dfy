/** Node objects of core/nty_tree.h, and what it means that their left, right, parent and
    colour fields represent a tree value with a focus. */
module RBNode {
  import opened RBShape
  import opened RBUnlink

  /** Which of the two nodes of a coroutine a node is. */
  datatype Entry = SleepEntry | WaitEntry

  class Node {
    var left: Node?
    var right: Node?
    var parent: Node?
    var color: Color
    var key: int
    const co: nat  // the coroutine in which this node is embedded
    const entry: Entry

    constructor (k: int, c: nat, e: Entry)
      ensures key == k && co == c && entry == e
    {
      key, co, entry := k, c, e;
      left, right, parent, color := null, null, null, Red;
    }
  }

  /** The comparison functions of core/nty_schedule.c: the sign of `a - b`. */
  function Compare(a: int, b: int): int { if a < b then -1 else if a == b then 0 else 1 }

  /** The child of `n` on side `s`. */
  function Kid(n: Node, s: Side): Node?
    reads n
  {
    if s == L then n.left else n.right
  }

  function NodeAt(s: seq<Item<Node>>, i: int): Node? { if 0 <= i < |s| then s[i].node else null }

  ghost function Opt(x: Node?): set<Node> { if x == null then {} else {x} }

  ghost function Nodes(t: Tree<Node>): set<Node> {
    if t.Leaf? then {} else Nodes(t.left) + {t.item.node} + Nodes(t.right)
  }

  ghost function PNodes(p: Path<Node>): set<Node> {
    if p.Top? then {} else {p.item.node} + Nodes(p.sib) + PNodes(p.up)
  }

  ghost function All(t: Tree<Node>, p: Path<Node>): set<Node> { Nodes(t) + PNodes(p) }

  ghost function RootOf(t: Tree<Node>): (n: Node?)
    ensures n == null <==> t.Leaf?
    ensures n != null ==> n in Nodes(t)
  {
    if t.Leaf? then null else t.item.node
  }

  ghost function ParentOf(p: Path<Node>): (n: Node?)
    ensures n == null <==> p.Top?
    ensures n != null ==> n in PNodes(p)
  {
    if p.Top? then null else p.item.node
  }

  /** The root of the tree in which `x` is the focus and `p` the way up. */
  ghost function TopNode(x: Node?, p: Path<Node>): Node?
    decreases p
  {
    if p.Top? then x else TopNode(p.item.node, p.up)
  }

  /** The objects reachable from `RootOf(t)` form exactly the tree `t`, hanging below `par`. */
  ghost predicate Rep(t: Tree<Node>, par: Node?)
    reads Nodes(t)
  {
    t.T? ==>
      var n := t.item.node;
      && n !in Nodes(t.left) && n !in Nodes(t.right) && Nodes(t.left) !! Nodes(t.right)
      && n.left == RootOf(t.left) && n.right == RootOf(t.right) && n.parent == par
      && n.color == t.color && n.key == t.item.key
      && Rep(t.left, n) && Rep(t.right, n)
  }

  /** The objects on the way up from a focus `x` form exactly the path `p`. */
  ghost predicate PRep(p: Path<Node>, x: Node?)
    reads PNodes(p)
  {
    p.In? ==>
      var n := p.item.node;
      && n !in Nodes(p.sib) && n !in PNodes(p.up) && Nodes(p.sib) !! PNodes(p.up)
      && Kid(n, p.side) == x && Kid(n, Other(p.side)) == RootOf(p.sib)
      && n.parent == ParentOf(p.up) && n.color == p.color && n.key == p.item.key
      && Rep(p.sib, n) && PRep(p.up, n)
  }

  /** The whole heap shape, seen from a focus. */
  ghost predicate ZRep(t: Tree<Node>, p: Path<Node>)
    reads Nodes(t), PNodes(p)
  {
    Rep(t, ParentOf(p)) && PRep(p, RootOf(t)) && Nodes(t) !! PNodes(p)
  }

  /** Both decompositions describe the same tree of the same objects. */
  ghost predicate SameTree(t: Tree<Node>, p: Path<Node>, t': Tree<Node>, p': Path<Node>) {
    All(t', p') == All(t, p) && TopNode(RootOf(t'), p') == TopNode(RootOf(t), p)
  }

  // ----- reading fields -----

  lemma MkRep(s: Side, near: Tree<Node>, it: Item<Node>, c: Color, far: Tree<Node>, par: Node?)
    ensures Nodes(Mk(s, near, it, c, far)) == Nodes(near) + {it.node} + Nodes(far)
    ensures Rep(Mk(s, near, it, c, far), par) <==>
      var n := it.node;
      && n !in Nodes(near) && n !in Nodes(far) && Nodes(near) !! Nodes(far)
      && Kid(n, s) == RootOf(near) && Kid(n, Other(s)) == RootOf(far) && n.parent == par
      && n.color == c && n.key == it.key && Rep(near, n) && Rep(far, n)
  {
  }

  lemma BuildRep(s: Side, near: Tree<Node>, it: Item<Node>, c: Color, far: Tree<Node>, par: Node?)
    requires var n := it.node;
             && n !in Nodes(near) && n !in Nodes(far) && Nodes(near) !! Nodes(far)
             && Kid(n, s) == RootOf(near) && Kid(n, Other(s)) == RootOf(far) && n.parent == par
             && n.color == c && n.key == it.key && Rep(near, n) && Rep(far, n)
    ensures Rep(Mk(s, near, it, c, far), par)
    ensures Nodes(Mk(s, near, it, c, far)) == Nodes(near) + {it.node} + Nodes(far)
  {
  }

  /** What the fields of a parent say about the side of its child `x` and about the sibling. */
  lemma Kin(p: Path<Node>, x: Node?)
    requires PRep(p, x) && p.In? && (x == null ==> p.sib.T?) && (x != null ==> x !in PNodes(p))
    ensures var n := p.item.node;
            && n.color == p.color && n.parent == ParentOf(p.up) && PRep(p.up, n)
            && n !in PNodes(p.up) && PNodes(p.up) <= PNodes(p) && Nodes(p.sib) <= PNodes(p)
            && (p.side == L <==> n.left == x) && (p.side == R <==> n.right == x)
            && TopNode(x, p) == TopNode(n, p.up)
    ensures p.sib.T? ==>
              && Kid(p.item.node, Other(p.side)) == p.sib.item.node && p.sib.item.node.color == p.sib.color
  {
    assert Rep(p.sib, p.item.node);
  }

  /** What the fields of a node say about the colours of its children. */
  lemma Colours(t: Tree<Node>, par: Node?, s: Side)
    requires Rep(t, par) && t.T?
    ensures var n, x := t.item.node, Child(t, s);
            Kid(n, s) == RootOf(x) && (x.T? ==> x.item.node.color == x.color)
  {
    assert Rep(t.left, t.item.node) && Rep(t.right, t.item.node);
  }

  lemma {:induction false} RepItem(t: Tree<Node>, par: Node?, it: Item<Node>)
    requires Rep(t, par) && it in Inorder(t)
    ensures it.node.key == it.key && it.node in Nodes(t)
  {
    if it in Inorder(t.left) {
      RepItem(t.left, t.item.node, it);
    } else if it in Inorder(t.right) {
      RepItem(t.right, t.item.node, it);
    }
  }

  lemma {:induction false} TopIn(x: Node?, p: Path<Node>)
    requires p.In?
    ensures TopNode(x, p) != null && TopNode(x, p) in PNodes(p)
    decreases p
  {
    if p.up.In? {
      TopIn(p.item.node, p.up);
    }
  }

  // ----- moving the focus -----

  lemma Up(t: Tree<Node>, p: Path<Node>)
    requires ZRep(t, p) && p.In?
    ensures var m := Mk(p.side, t, p.item, p.color, p.sib);
            ZRep(m, p.up) && SameTree(t, p, m, p.up)
  {
    MkRep(p.side, t, p.item, p.color, p.sib, ParentOf(p.up));
  }

  lemma Down(s: Side, near: Tree<Node>, it: Item<Node>, c: Color, far: Tree<Node>, p: Path<Node>)
    requires ZRep(Mk(s, near, it, c, far), p)
    ensures var q := In(s, it, c, far, p);
            ZRep(near, q) && SameTree(Mk(s, near, it, c, far), p, near, q)
  {
    MkRep(s, near, it, c, far, ParentOf(p));
  }

  /** From the focus to its sibling. */
  lemma Across(t: Tree<Node>, p: Path<Node>)
    requires ZRep(t, p) && p.In?
    ensures var q := In(Other(p.side), p.item, p.color, t, p.up);
            ZRep(p.sib, q) && SameTree(t, p, p.sib, q)
  {
    assert Rep(p.sib, p.item.node);
  }

  // ----- rotations -----

  /** The nodes of the three subtrees, the two nodes and the nodes of the path of a rotation are
      all different. */
  ghost predicate Apart(a: set<Node>, x: Node, b: set<Node>, y: Node, c: set<Node>, p: set<Node>) {
    && x != y && a !! b && a !! c && b !! c && a !! p && b !! p && c !! p
    && x !in a && x !in b && x !in c && x !in p && y !in a && y !in b && y !in c && y !in p
  }

  /** Before a rotation: `j` is the child of `i` opposite to side `s`. */
  ghost predicate Tall(s: Side, a: Tree<Node>, i: Item<Node>, ci: Color, b: Tree<Node>, j: Item<Node>, cj: Color,
                       c: Tree<Node>, p: Path<Node>)
    reads Nodes(a), i.node, Nodes(b), j.node, Nodes(c), PNodes(p)
  {
    var x, y := i.node, j.node;
    && Apart(Nodes(a), x, Nodes(b), y, Nodes(c), PNodes(p))
    && Kid(x, s) == RootOf(a) && Kid(x, Other(s)) == y && x.parent == ParentOf(p) && x.color == ci && x.key == i.key
    && Kid(y, s) == RootOf(b) && Kid(y, Other(s)) == RootOf(c) && y.color == cj && y.key == j.key
    && Rep(a, x) && Rep(b, y) && Rep(c, y) && PRep(p, x)
  }

  /** After it: `i` is the child of `j` on side `s`. */
  ghost predicate Turned(s: Side, a: Tree<Node>, i: Item<Node>, ci: Color, b: Tree<Node>, j: Item<Node>, cj: Color,
                         c: Tree<Node>, p: Path<Node>)
    reads Nodes(a), i.node, Nodes(b), j.node, Nodes(c), PNodes(p)
  {
    var x, y := i.node, j.node;
    && Apart(Nodes(a), x, Nodes(b), y, Nodes(c), PNodes(p))
    && Kid(x, s) == RootOf(a) && Kid(x, Other(s)) == RootOf(b) && x.parent == y && x.color == ci && x.key == i.key
    && Kid(y, s) == x && Kid(y, Other(s)) == RootOf(c) && y.parent == ParentOf(p) && y.color == cj && y.key == j.key
    && Rep(a, x) && Rep(b, x) && Rep(c, y) && PRep(p, y)
  }

  /** The nodes a rotation is about. */
  ghost function Involved(a: set<Node>, x: Node, b: set<Node>, y: Node, c: set<Node>, p: set<Node>): set<Node> {
    a + {x} + b + {y} + c + p
  }

  lemma ApartInner(a: set<Node>, x: Node, m: set<Node>, b: set<Node>, y: Node, c: set<Node>, p: set<Node>)
    requires m == b + {y} + c && y !in b && y !in c && b !! c
    requires x !in a && x !in m && x !in p && a !! m && a !! p && m !! p
    ensures Apart(a, x, b, y, c, p) && a + {x} + m + p == Involved(a, x, b, y, c, p)
  {
    assert y in m;
  }

  lemma ApartOuter(a: set<Node>, x: Node, b: set<Node>, y: Node, c: set<Node>, p: set<Node>)
    requires Apart(a, x, b, y, c, p)
    ensures var m := a + {x} + b; y !in m && m !! c && m !! p && c !! p && y !in p
    ensures a + {x} + b + {y} + c + p == Involved(a, x, b, y, c, p)
  {
  }

  /** The node at the focus and what hangs below it. */
  lemma TakeOff(s: Side, near: Tree<Node>, it: Item<Node>, c: Color, far: Tree<Node>, p: Path<Node>)
    requires ZRep(Mk(s, near, it, c, far), p)
    ensures var n := it.node;
            && n !in Nodes(near) && n !in Nodes(far) && n !in PNodes(p)
            && Nodes(near) !! Nodes(far) && Nodes(near) !! PNodes(p) && Nodes(far) !! PNodes(p)
            && Kid(n, s) == RootOf(near) && Kid(n, Other(s)) == RootOf(far) && n.parent == ParentOf(p)
            && n.color == c && n.key == it.key && Rep(near, n) && Rep(far, n) && PRep(p, n)
    ensures All(Mk(s, near, it, c, far), p) == Nodes(near) + {it.node} + Nodes(far) + PNodes(p)
  {
    MkRep(s, near, it, c, far, ParentOf(p));
  }

  lemma TakeApart(s: Side, a: Tree<Node>, i: Item<Node>, ci: Color, b: Tree<Node>, j: Item<Node>, cj: Color,
                  c: Tree<Node>, p: Path<Node>)
    requires ZRep(Mk(s, a, i, ci, Mk(s, b, j, cj, c)), p)
    ensures Tall(s, a, i, ci, b, j, cj, c, p)
    ensures All(Mk(s, a, i, ci, Mk(s, b, j, cj, c)), p) == Involved(Nodes(a), i.node, Nodes(b), j.node, Nodes(c), PNodes(p))
  {
    var m := Mk(s, b, j, cj, c);
    TakeOff(s, a, i, ci, m, p);
    MkRep(s, b, j, cj, c, i.node);
    ApartInner(Nodes(a), i.node, Nodes(m), Nodes(b), j.node, Nodes(c), PNodes(p));
  }

  lemma PutTogether(s: Side, a: Tree<Node>, i: Item<Node>, ci: Color, b: Tree<Node>, j: Item<Node>, cj: Color,
                    c: Tree<Node>, p: Path<Node>)
    requires Turned(s, a, i, ci, b, j, cj, c, p)
    ensures var t := Mk(s, Mk(s, a, i, ci, b), j, cj, c);
            && ZRep(t, p) && RootOf(t) == j.node
            && All(t, p) == Involved(Nodes(a), i.node, Nodes(b), j.node, Nodes(c), PNodes(p))
  {
    var m := Mk(s, a, i, ci, b);
    BuildRep(s, a, i, ci, b, j.node);
    ApartOuter(Nodes(a), i.node, Nodes(b), j.node, Nodes(c), PNodes(p));
    PutOn(s, m, j, cj, c, p);
  }

  lemma PutOn(s: Side, near: Tree<Node>, it: Item<Node>, c: Color, far: Tree<Node>, p: Path<Node>)
    requires var n := it.node;
             && n !in Nodes(near) && n !in Nodes(far) && n !in PNodes(p)
             && Nodes(near) !! Nodes(far) && Nodes(near) !! PNodes(p) && Nodes(far) !! PNodes(p)
             && Kid(n, s) == RootOf(near) && Kid(n, Other(s)) == RootOf(far) && n.parent == ParentOf(p)
             && n.color == c && n.key == it.key && Rep(near, n) && Rep(far, n) && PRep(p, n)
    ensures var t := Mk(s, near, it, c, far);
            ZRep(t, p) && RootOf(t) == it.node && All(t, p) == Nodes(near) + {it.node} + Nodes(far) + PNodes(p)
  {
    BuildRep(s, near, it, c, far, ParentOf(p));
  }

  lemma {:induction false} ZipAll(t: Tree<Node>, p: Path<Node>)
    requires ZRep(t, p)
    ensures ZRep(Plug(t, p), Top) && SameTree(t, p, Plug(t, p), Top)
    decreases p
  {
    if p.In? {
      Up(t, p);
      ZipAll(Mk(p.side, t, p.item, p.color, p.sib), p.up);
    }
  }

  lemma {:induction false} UnzipAll(t: Tree<Node>, p: Path<Node>)
    requires ZRep(Plug(t, p), Top)
    ensures ZRep(t, p) && SameTree(t, p, Plug(t, p), Top)
    decreases p
  {
    if p.In? {
      UnzipAll(Mk(p.side, t, p.item, p.color, p.sib), p.up);
      Down(p.side, t, p.item, p.color, p.sib, p.up);
    }
  }

  /** The focus at the node object `x`. */
  lemma {:induction false} Locate(t: Tree<Node>, p: Path<Node>, x: Node) returns (s: Tree<Node>, q: Path<Node>)
    requires ZRep(t, p) && x in Nodes(t)
    ensures s.T? && s.item.node == x && ZRep(s, q) && Plug(s, q) == Plug(t, p) && SameTree(t, p, s, q)
    decreases t
  {
    if x in Nodes(t.left) {
      Down(L, t.left, t.item, t.color, t.right, p);
      s, q := Locate(t.left, In(L, t.item, t.color, t.right, p), x);
    } else if x in Nodes(t.right) {
      Down(R, t.right, t.item, t.color, t.left, p);
      s, q := Locate(t.right, In(R, t.item, t.color, t.left, p), x);
    } else {
      s, q := t, p;
    }
  }

  /** Moving the focus up along `u`, and back down again. */
  lemma {:induction false} ZipJoin(t: Tree<Node>, u: Path<Node>, p: Path<Node>)
    requires ZRep(t, Join(u, p))
    ensures ZRep(Plug(t, u), p) && SameTree(t, Join(u, p), Plug(t, u), p)
    decreases u
  {
    if u.In? {
      Up(t, Join(u, p));
      ZipJoin(Mk(u.side, t, u.item, u.color, u.sib), u.up, p);
    }
  }

  lemma {:induction false} UnzipJoin(t: Tree<Node>, u: Path<Node>, p: Path<Node>)
    requires ZRep(Plug(t, u), p)
    ensures ZRep(t, Join(u, p)) && SameTree(t, Join(u, p), Plug(t, u), p)
    decreases u
  {
    if u.In? {
      UnzipJoin(Mk(u.side, t, u.item, u.color, u.sib), u.up, p);
      Down(u.side, t, u.item, u.color, u.sib, Join(u.up, p));
    }
  }

  /** Between the place of a successor, below `u`, and the node it succeeds. */
  lemma Climb(t: Tree<Node>, u: Path<Node>, it: Item<Node>, c: Color, l: Tree<Node>, p: Path<Node>)
    requires ZRep(t, Join(u, In(R, it, c, l, p)))
    ensures var m := T(l, it, c, Plug(t, u)); ZRep(m, p) && SameTree(t, Join(u, In(R, it, c, l, p)), m, p)
  {
    ZipJoin(t, u, In(R, it, c, l, p));
    Up(Plug(t, u), In(R, it, c, l, p));
  }

  lemma Return(t: Tree<Node>, u: Path<Node>, it: Item<Node>, c: Color, l: Tree<Node>, p: Path<Node>)
    requires ZRep(T(l, it, c, Plug(t, u)), p)
    ensures var m, q := T(l, it, c, Plug(t, u)), Join(u, In(R, it, c, l, p)); ZRep(t, q) && SameTree(t, q, m, p)
  {
    Down(R, Plug(t, u), it, c, l, p);
    UnzipJoin(t, u, In(R, it, c, l, p));
  }

  /** Another object in the place of the one at the focus. */
  lemma ReItemNodes(m: Tree<Node>, it: Item<Node>, p: Path<Node>, all: set<Node>)
    requires ZRep(m, p) && m.T? && it.node !in All(m, p) && all == All(m, p) + {it.node}
    ensures var was := m.item.node;
            All(m.(item := it), p) == all - {was} && Nodes(m) - {was} <= all && PNodes(p) <= all && was.key == m.item.key
  {
    assert m.item.node !in Nodes(m.left) && m.item.node !in Nodes(m.right) && m.item.node !in PNodes(p);
  }
}
