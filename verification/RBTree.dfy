/** The red-black tree of core/nty_tree.h, updating node objects in place.

    The methods that work inside the tree take the current focus and path as ghost arguments.
    Where the source has a branch for each side, a step takes the side as an argument. */
module RBTree {
  import opened RBShape
  import opened RBSearch
  import opened RBUnlink
  import opened RBNode

  class RBTree {
    var root: Node?
    ghost var shape: Tree<Node>
    ghost var Repr: set<Node>

    ghost predicate Valid()
      reads this, Repr
    {
      Repr == Nodes(shape) && root == RootOf(shape) && Rep(shape, null) && RB(shape)
    }

    constructor ()
      ensures Valid() && Inorder(shape) == [] && Repr == {}
    {
      root, shape, Repr := null, Leaf, {};
    }

    /** The pointers form the tree `Plug(t, p)`. */
    ghost predicate At(t: Tree<Node>, p: Path<Node>)
      reads this`root, Nodes(t), PNodes(p)
    {
      ZRep(t, p) && root == TopNode(RootOf(t), p)
    }

    /** Forgets the focus. */
    ghost method Settle(t: Tree<Node>, p: Path<Node>)
      requires At(t, p) && Rules(t, p) && Sorted(Items(t, p))
      modifies this`shape, this`Repr
      ensures Valid() && Repr == All(t, p) && Inorder(shape) == Items(t, p)
    {
      ZipAll(t, p);
      PlugRB(t, p);
      PlugInorder(t, p);
      shape := Plug(t, p);
      Repr := Nodes(shape);
    }

    // ----- single writes -----

    method Paint(x: Node, c: Color, ghost t: Tree<Node>, ghost p: Path<Node>)
      requires t.T? && t.item.node == x && At(t, p)
      modifies x`color
      ensures At(t.(color := c), p) && All(t.(color := c), p) == All(t, p)
    {
      x.color := c;
    }

    static method SetParent(x: Node?, q: Node?, ghost t: Tree<Node>, ghost was: Node?)
      requires x == RootOf(t) && Rep(t, was)
      modifies Opt(x)`parent
      ensures Rep(t, q)
    {
      if x != null {
        x.parent := q;
      }
    }

    static method SetEntry(elm: Node, parent: Node?)
      modifies elm`parent, elm`left, elm`right, elm`color
      ensures elm.parent == parent && elm.left == null && elm.right == null && elm.color == Red
    {
      elm.parent := parent;
      elm.left, elm.right := null, null;
      elm.color := Red;
    }

    static method CopyEntry(elm: Node, from: Node)
      modifies elm`left, elm`right, elm`parent, elm`color
      ensures elm.left == old(from.left) && elm.right == old(from.right)
      ensures elm.parent == old(from.parent) && elm.color == old(from.color)
    {
      elm.left, elm.right := from.left, from.right;
      elm.parent, elm.color := from.parent, from.color;
    }

    /** Makes `y` the child of `par` in place of `x`, or the root. */
    method Relink(par: Node?, x: Node, y: Node?, ghost p: Path<Node>)
      requires PRep(p, x) && par == ParentOf(p) && root == TopNode(x, p)
      requires p.In? ==> x !in Nodes(p.sib)
      modifies this`root, Opt(par)`left, Opt(par)`right
      ensures PRep(p, y) && root == TopNode(y, p)
    {
      if par != null {
        if par.left == x {
          par.left := y;
        } else {
          par.right := y;
        }
      } else {
        root := y;
      }
    }

    // ----- rotations -----

    method SetKid(n: Node, s: Side, x: Node?)
      modifies n`left, n`right
      ensures Kid(n, s) == x && Kid(n, Other(s)) == old(Kid(n, Other(s)))
    {
      if s == L {
        n.left := x;
      } else {
        n.right := x;
      }
    }

    /** First half of a rotation: the subtree `b` between `elm` and `tmp` changes sides. */
    method Move(s: Side, elm: Node, tmp: Node, ghost b: Tree<Node>)
      requires Kid(tmp, s) == RootOf(b) && elm != tmp && Rep(b, tmp) && elm !in Nodes(b) && tmp !in Nodes(b)
      modifies elm`left, elm`right, Opt(RootOf(b))`parent
      ensures Kid(elm, Other(s)) == RootOf(b) && Rep(b, elm) && Kid(elm, s) == old(Kid(elm, s))
    {
      assert allocated(Nodes(b));
      SetKid(elm, Other(s), Kid(tmp, s));
      SetParent(Kid(tmp, s), elm, b, tmp);
    }

    /** Second half of a rotation: `tmp` takes the place of `elm`, which becomes its child. */
    method Lift(s: Side, elm: Node, tmp: Node, ghost p: Path<Node>)
      requires PRep(p, elm) && elm !in PNodes(p) && tmp !in PNodes(p) && elm != tmp
      requires elm.parent == ParentOf(p) && root == TopNode(elm, p)
      modifies this`root, elm`parent, tmp`left, tmp`right, tmp`parent
      modifies Opt(elm.parent)`left, Opt(elm.parent)`right
      ensures Kid(tmp, s) == elm && Kid(tmp, Other(s)) == old(Kid(tmp, Other(s))) && elm.parent == tmp
      ensures tmp.parent == ParentOf(p) && PRep(p, tmp) && root == TopNode(tmp, p)
    {
      assert allocated(PNodes(p));
      tmp.parent := elm.parent;
      Relink(elm.parent, elm, tmp, p);
      SetKid(tmp, s, elm);
      elm.parent := tmp;
    }

    /** Nothing that a rotation writes is in `nodes`. */
    ghost predicate Spared(nodes: set<Node>, elm: Node, tmp: Node, b: Node?, par: Node?) {
      elm !in nodes && tmp !in nodes && (b != null ==> b !in nodes) && (par != null ==> par !in nodes)
    }

    /** The pointer writes of a rotation. */
    method Swing(s: Side, elm: Node, tmp: Node, ghost b: Tree<Node>, ghost p: Path<Node>)
      requires Kid(tmp, s) == RootOf(b) && elm != tmp && Rep(b, tmp) && PRep(p, elm)
      requires Spared(Nodes(b), elm, tmp, null, ParentOf(p)) && Spared(PNodes(p), elm, tmp, RootOf(b), null)
      requires elm.parent == ParentOf(p) && root == TopNode(elm, p)
      modifies this`root, elm`left, elm`right, elm`parent, tmp`left, tmp`right, tmp`parent
      modifies Opt(RootOf(b))`parent, Opt(ParentOf(p))`left, Opt(ParentOf(p))`right
      ensures Kid(elm, Other(s)) == RootOf(b) && elm.parent == tmp && Kid(elm, s) == old(Kid(elm, s))
      ensures Kid(tmp, s) == elm && Kid(tmp, Other(s)) == old(Kid(tmp, Other(s)))
      ensures Rep(b, elm) && PRep(p, tmp)
      ensures tmp.parent == ParentOf(p) && root == TopNode(tmp, p)
    {
      assert allocated(Nodes(b)) && allocated(PNodes(p));
      Move(s, elm, tmp, b);
      assert PRep(p, elm);
      Lift(s, elm, tmp, p);
    }

    lemma ApartSpares(a: Tree<Node>, x: Node, b: Tree<Node>, y: Node, c: Tree<Node>, p: Path<Node>)
      requires Apart(Nodes(a), x, Nodes(b), y, Nodes(c), PNodes(p))
      ensures Spared(Nodes(a), x, y, RootOf(b), ParentOf(p)) && Spared(Nodes(c), x, y, RootOf(b), ParentOf(p))
      ensures Spared(Nodes(b), x, y, null, ParentOf(p)) && Spared(PNodes(p), x, y, RootOf(b), null)
      ensures x != y
      ensures {x, y} + Opt(RootOf(b)) + Opt(ParentOf(p)) <= Involved(Nodes(a), x, Nodes(b), y, Nodes(c), PNodes(p))
    {
    }

    method Turn(s: Side, elm: Node, tmp: Node, ghost a: Tree<Node>, ghost b: Tree<Node>, ghost c: Tree<Node>,
                ghost i: Item<Node>, ghost ci: Color, ghost j: Item<Node>, ghost cj: Color, ghost p: Path<Node>)
      requires Tall(s, a, i, ci, b, j, cj, c, p) && root == TopNode(elm, p) && elm == i.node && tmp == j.node
      modifies this`root, elm`left, elm`right, elm`parent, tmp`left, tmp`right, tmp`parent
      modifies Opt(RootOf(b))`parent, Opt(ParentOf(p))`left, Opt(ParentOf(p))`right
      ensures Turned(s, a, i, ci, b, j, cj, c, p) && root == TopNode(tmp, p)
    {
      ApartSpares(a, elm, b, tmp, c, p);
      assert allocated(Nodes(a)) && allocated(Nodes(c));
      Swing(s, elm, tmp, b, p);
      assert Rep(a, elm) && Rep(c, tmp);
    }

    /** RB_ROTATE_LEFT on side L and RB_ROTATE_RIGHT on side R: `elm` goes down on side `s`, and
        the child `tmp` on the other side takes its place. */
    method Rotate(s: Side, elm: Node, ghost a: Tree<Node>, ghost b: Tree<Node>, ghost c: Tree<Node>,
                  ghost i: Item<Node>, ghost ci: Color, ghost j: Item<Node>, ghost cj: Color, ghost p: Path<Node>)
      requires At(Mk(s, a, i, ci, Mk(s, b, j, cj, c)), p) && i.node == elm
      modifies this`root, All(Mk(s, a, i, ci, Mk(s, b, j, cj, c)), p)
      ensures At(Mk(s, Mk(s, a, i, ci, b), j, cj, c), p)
      ensures All(Mk(s, Mk(s, a, i, ci, b), j, cj, c), p) == All(Mk(s, a, i, ci, Mk(s, b, j, cj, c)), p)
    {
      TakeApart(s, a, i, ci, b, j, cj, c, p);
      ApartSpares(a, i.node, b, j.node, c, p);
      var tmp := Kid(elm, Other(s));
      Turn(s, elm, tmp, a, b, c, i, ci, j, cj, p);
      PutTogether(s, a, i, ci, b, j, cj, c, p);
    }

    /** The opposite rotation, told from the same side. */
    method RotateBack(s: Side, elm: Node, ghost a: Tree<Node>, ghost b: Tree<Node>, ghost c: Tree<Node>,
                      ghost i: Item<Node>, ghost ci: Color, ghost j: Item<Node>, ghost cj: Color, ghost p: Path<Node>)
      requires At(Mk(s, Mk(s, a, i, ci, b), j, cj, c), p) && j.node == elm
      modifies this`root, All(Mk(s, Mk(s, a, i, ci, b), j, cj, c), p)
      ensures At(Mk(s, a, i, ci, Mk(s, b, j, cj, c)), p)
      ensures All(Mk(s, a, i, ci, Mk(s, b, j, cj, c)), p) == All(Mk(s, Mk(s, a, i, ci, b), j, cj, c), p)
    {
      Rotate(Other(s), elm, c, b, a, j, cj, i, ci, p);
    }

    // ----- insertion -----

    ghost predicate InsertLoop(elm: Node, t: Tree<Node>, p: Path<Node>)
      reads this, Nodes(t), PNodes(p)
    {
      t.T? && t.item.node == elm && At(t, p) && InsInv(t, p)
    }

    /** Restores the colour rules after `elm0` was linked in as a red leaf. */
    method InsertColor(elm0: Node, ghost t0: Tree<Node>, ghost p0: Path<Node>)
      requires InsertLoop(elm0, t0, p0) && Sorted(Items(t0, p0))
      modifies this, All(t0, p0)
      ensures Valid() && Inorder(shape) == Items(t0, p0) && Repr == All(t0, p0)
    {
      var elm := elm0;
      ghost var t, p := t0, p0;
      while elm.parent != null && elm.parent.color == Red
        invariant InsertLoop(elm, t, p) && Items(t, p) == Items(t0, p0) && All(t, p) == All(t0, p0)
        decreases Depth(p)
      {
        var parent := elm.parent;
        Kin(p, elm);
        Grandparent(t, p);
        Kin(p.up, parent);
        var gparent := parent.parent;
        if parent == gparent.left {
          elm, t, p := InsertStep(L, elm, parent, gparent, t, p);
        } else {
          elm, t, p := InsertStep(R, elm, parent, gparent, t, p);
        }
      }
      InsertDone(t, p);
      BlackRoot(t, p);
    }

    /** One pass of the loop, the parent being the child of the grandparent on side `s`. */
    method InsertStep(s: Side, elm: Node, parent: Node, gparent: Node, ghost t: Tree<Node>, ghost p: Path<Node>)
      returns (elm': Node, ghost t': Tree<Node>, ghost p': Path<Node>)
      requires InsertLoop(elm, t, p) && ParRed(p) && p.item.node == parent
      requires p.up.In? && p.up.item.node == gparent && p.up.side == s
      modifies this`root, All(t, p)
      ensures InsertLoop(elm', t', p') && Items(t', p') == Items(t, p) && All(t', p') == All(t, p)
      ensures Depth(p') < Depth(p)
    {
      Kin(p, elm);
      Kin(p.up, parent);
      var tmp := Kid(gparent, Other(s));
      if tmp != null && tmp.color == Red {
        t' := InsertRecolor(elm, parent, gparent, tmp, t, p);
        return gparent, t', p.up.up;
      }
      elm', t', p' := elm, t, p;
      var par := parent;
      if Kid(par, Other(s)) == elm {
        t', p' := InsertRotateInner(s, elm, parent, t, p);
        par, elm' := elm, parent;
      }
      p' := InsertRotateOuter(s, elm', par, gparent, t', p');
    }

    /** Red parent and red uncle turn black, the grandparent red. */
    method InsertRecolor(elm: Node, parent: Node, gparent: Node, uncle: Node, ghost t: Tree<Node>, ghost p: Path<Node>)
      returns (ghost t': Tree<Node>)
      requires InsertLoop(elm, t, p) && ParRed(p) && p.item.node == parent && p.up.In? && p.up.item.node == gparent
      requires IsRed(p.up.sib) && p.up.sib.item.node == uncle
      modifies parent`color, gparent`color, uncle`color
      ensures InsertLoop(gparent, t', p.up.up) && Items(t', p.up.up) == Items(t, p) && All(t', p.up.up) == All(t, p)
    {
      InsertUncleRed(t, p);
      ghost var g, m := p.up, Mk(p.side, t, p.item, p.color, p.sib);
      ghost var m', u' := m.(color := Black), Blacken(g.sib);
      Up(t, p);
      Across(m, g);
      Paint(uncle, Black, g.sib, In(Other(g.side), g.item, g.color, m, g.up));
      Across(u', In(Other(g.side), g.item, g.color, m, g.up));
      Paint(parent, Black, m, In(g.side, g.item, g.color, u', g.up));
      Up(m', In(g.side, g.item, g.color, u', g.up));
      Paint(gparent, Red, Mk(g.side, m', g.item, g.color, u'), g.up);
      t' := Mk(g.side, m', g.item, Red, u');
    }

    /** An inner grandchild becomes an outer one. */
    method InsertRotateInner(s: Side, elm: Node, parent: Node, ghost t: Tree<Node>, ghost p: Path<Node>)
      returns (ghost t': Tree<Node>, ghost p': Path<Node>)
      requires InsertLoop(elm, t, p) && ParRed(p) && p.item.node == parent && p.side == Other(s)
      requires p.up.In? && p.up.side == s
      modifies this`root, All(t, p)
      ensures InsertLoop(parent, t', p') && Items(t', p') == Items(t, p) && All(t', p') == All(t, p)
      ensures p' == In(s, t.item, Red, Child(t, Other(s)), p.up)
    {
      ghost var near, far := Child(t, Other(s)), Child(t, s);
      Halves(t, s);
      InsertInner(t, p, near, far);
      Up(t, p);
      Halves(Mk(p.side, t, p.item, Red, p.sib), s);
      Rotate(s, parent, p.sib, far, near, p.item, Red, t.item, Red, p.up);
      t', p' := Mk(s, p.sib, p.item, Red, far), In(s, t.item, Red, near, p.up);
      Down(s, t', t.item, Red, near, p.up);
    }

    /** The last rotation of an insertion, at the grandparent. */
    method InsertRotateOuter(s: Side, elm: Node, parent: Node, gparent: Node, ghost t: Tree<Node>, ghost p: Path<Node>)
      returns (ghost p': Path<Node>)
      requires InsertLoop(elm, t, p) && ParRed(p) && p.item.node == parent && p.side == s
      requires p.up.In? && p.up.item.node == gparent && p.up.side == s && !IsRed(p.up.sib)
      modifies this`root, All(t, p)
      ensures InsertLoop(elm, t, p') && Items(t, p') == Items(t, p) && All(t, p') == All(t, p)
      ensures Depth(p') < Depth(p)
    {
      InsertOuter(t, p);
      ghost var g, m := p.up, Mk(s, t, p.item, Red, p.sib);
      Up(t, p);
      Paint(parent, Black, m, g);
      ghost var m' := Mk(s, t, p.item, Black, p.sib);
      Up(m', g);
      Paint(gparent, Red, Mk(s, m', g.item, g.color, g.sib), g.up);
      RotateBack(s, gparent, t, p.sib, g.sib, p.item, Black, g.item, Red, g.up);
      p' := In(s, p.item, Black, Mk(s, p.sib, g.item, Red, g.sib), g.up);
      Down(s, t, p.item, Black, Mk(s, p.sib, g.item, Red, g.sib), g.up);
    }

    /** The unconditional write of black to the root. */
    method BlackRoot(ghost t: Tree<Node>, ghost p: Path<Node>)
      requires t.T? && At(t, p) && RB(Blacken(Plug(t, p)))
      modifies this, All(t, p)
      ensures Valid() && shape == Blacken(Plug(t, p)) && Repr == All(t, p)
    {
      ZipAll(t, p);
      if p.In? { TopIn(RootOf(t), p); }
      Paint(root, Black, Plug(t, p), Top);
      shape := Blacken(Plug(t, p));
      Repr := Nodes(shape);
    }

    /** Every member is listed under its own key. */
    lemma MemberKey(elm: Node)
      requires Valid()
      ensures elm in Repr ==> HasKey(Inorder(shape), elm.key) && Item(elm, elm.key) in Inorder(shape)
    {
      if elm in Repr {
        var t, p := Locate(shape, Top, elm);
        FocusItem(t, p);
        PlugInorder(t, p);
      }
    }

    /** Inserts `elm`, or returns the node that already has its key, which may be `elm` itself. */
    method Insert(elm: Node) returns (r: Node?)
      requires Valid()
      modifies this, Repr, elm
      ensures Valid() && elm.key == old(elm.key) && forall n :: n in old(Repr) ==> n.key == old(n.key)
      ensures r != null ==> Item(r, elm.key) in old(Inorder(shape)) && unchanged(this, elm, old(Repr))
      ensures r == null ==>
                && !HasKey(old(Inorder(shape)), elm.key) && elm !in old(Repr) && Repr == old(Repr) + {elm}
                && Inorder(shape) == InsertSorted(old(Inorder(shape)), Item(elm, elm.key))
    {
      var parent, comp;
      ghost var p, steps;
      r, parent, comp, p, steps := Search(elm.key);
      if r == null {
        GapAt(p);
        Miss(p, elm.key);
        MemberKey(elm);
        KeysListed();
        InsertAt(elm, parent, comp, p);
        KeysKept();
      }
    }

    /** The keys in the nodes are those in the sequence. */
    lemma KeysListed()
      requires Valid()
      ensures forall n, k :: n in Repr && Item(n, k) in Inorder(shape) ==> n.key == k
    {
      forall n, k | n in Repr && Item(n, k) in Inorder(shape) ensures n.key == k {
        RepItem(shape, null, Item(n, k));
      }
    }

    /** An operation that adds at most one item, under the key of its node, changes no key. */
    twostate lemma KeysKept()
      requires Valid() && forall n, k :: n in old(Repr) && Item(n, k) in old(Inorder(shape)) ==> old(n.key) == k
      requires forall n, k :: n in old(Repr) && Item(n, k) in Inorder(shape) ==> Item(n, k) in old(Inorder(shape))
      ensures forall n :: n in Repr && n in old(Repr) ==> n.key == old(n.key)
    {
      forall n | n in Repr && n in old(Repr) ensures n.key == old(n.key) {
        MemberKey(n);
        assert Item(n, n.key) in old(Inorder(shape));
      }
    }

    /** The second half of an insertion: links `elm` into the gap at `p` and restores the colours. */
    method InsertAt(elm: Node, parent: Node?, comp: int, ghost p: Path<Node>)
      requires RB(Plug(Leaf, p)) && Sorted(Items(Leaf, p)) && Bracket(p, elm.key) && elm !in PNodes(p)
      requires PRep(p, null) && parent == ParentOf(p) && root == TopNode(null, p)
      requires p.In? ==> if p.side == L then comp < 0 else comp > 0
      modifies this, PNodes(p), elm
      ensures Valid() && elm.key == old(elm.key) && Repr == PNodes(p) + {elm}
      ensures Inorder(shape) == InsertSorted(Items(Leaf, p), Item(elm, elm.key))
    {
      ghost var it := Item(elm, elm.key);
      Gap(p, it, Red);
      NewLeaf(p, it);
      Link(elm, parent, comp, p);
      InsertColor(elm, T(Leaf, it, Red, Leaf), p);
      FocusItem(T(Leaf, it, Red, Leaf), p);
      RepItem(shape, null, it);
    }

    /** A gap of the tree, seen from its path. */
    lemma GapAt(p: Path<Node>)
      requires Valid() && Plug(Leaf, p) == shape
      ensures PRep(p, null) && root == TopNode(null, p) && PNodes(p) == Repr
    {
      UnzipAll(Leaf, p);
    }

    /** The descent of an insertion: ends at a node with the key, or at the gap where it belongs. */
    method Search(key: int) returns (tmp: Node?, parent: Node?, comp: int, ghost p: Path<Node>, ghost steps: nat)
      requires Valid()
      ensures tmp != null ==> Item(tmp, key) in Inorder(shape)
      ensures tmp == null ==>
                && Descending(shape, key, Leaf, p, steps)
                && parent == ParentOf(p) && (p.In? ==> if p.side == L then comp < 0 else comp > 0)
      ensures Logarithmic(steps, |Inorder(shape)|)
    {
      tmp, parent, comp := root, null, 0;
      ghost var t := shape;
      p, steps := Top, 0;
      while tmp != null
        invariant tmp == RootOf(t) && parent == ParentOf(p)
        invariant Rep(t, ParentOf(p)) && Descending(shape, key, t, p, steps)
        invariant p.In? ==> if p.side == L then comp < 0 else comp > 0
        decreases t
      {
        parent := tmp;
        comp := Compare(key, parent.key);
        if comp < 0 {
          tmp := tmp.left;
          Descend(shape, L, key, t, p, steps);
          t, p := t.left, In(L, t.item, t.color, t.right, p);
        } else if comp > 0 {
          tmp := tmp.right;
          Descend(shape, R, key, t, p, steps);
          t, p := t.right, In(R, t.item, t.color, t.left, p);
        } else {
          FocusItem(t, p);
          HeightBound(shape);
          return tmp, parent, comp, p, steps + 1;
        }
        steps := steps + 1;
      }
      HeightBound(shape);
    }

    /** Hangs `elm` below `parent` as a red leaf. */
    method Link(elm: Node, parent: Node?, comp: int, ghost p: Path<Node>)
      requires elm !in PNodes(p)
      requires PRep(p, null) && parent == ParentOf(p) && root == TopNode(null, p)
      requires p.In? ==> if p.side == L then comp < 0 else comp > 0
      modifies this`root, elm`parent, elm`left, elm`right, elm`color, Opt(parent)`left, Opt(parent)`right
      ensures ZRep(T(Leaf, Item(elm, elm.key), Red, Leaf), p) && root == TopNode(elm, p)
    {
      assert allocated(PNodes(p));
      SetEntry(elm, parent);
      if parent != null {
        if comp < 0 {
          parent.left := elm;
        } else {
          parent.right := elm;
        }
      } else {
        root := elm;
      }
    }

    // ----- removal -----

    /** The sibling of the focus is red: one rotation gives the focus a black one. */
    method RemoveRotateRed(s: Side, parent: Node, tmp: Node, ghost t: Tree<Node>, ghost p: Path<Node>)
      returns (ghost p': Path<Node>)
      requires At(t, p) && p.In? && p.side == s && p.item.node == parent && IsRed(p.sib) && p.sib.item.node == tmp
      modifies this`root, All(t, p)
      ensures var near, far := Child(p.sib, s), Child(p.sib, Other(s));
              p' == In(s, p.item, Red, near, In(s, p.sib.item, Black, far, p.up))
      ensures At(t, p') && All(t, p') == All(t, p)
    {
      ghost var near, far := Child(p.sib, s), Child(p.sib, Other(s));
      ghost var sib, q := p.sib.(color := Black), In(Other(s), p.item, p.color, t, p.up);
      Across(t, p);
      Paint(tmp, Black, p.sib, q);
      Up(sib, q);
      ghost var m := Mk(s, t, p.item, p.color, sib);
      Halves(m, s);
      Paint(parent, Red, m, p.up);
      Halves(sib, s);
      Rotate(s, parent, t, near, far, p.item, Red, sib.item, Black, p.up);
      p' := In(s, p.item, Red, near, In(s, sib.item, Black, far, p.up));
      Down(s, Mk(s, t, p.item, Red, near), sib.item, Black, far, p.up);
      Down(s, t, p.item, Red, near, p'.up);
    }

    /** Of the sibling's children only the inner one is red: one rotation moves the red outwards. */
    method RemoveRotateNear(s: Side, tmp: Node, ghost t: Tree<Node>, ghost p: Path<Node>)
      returns (ghost p': Path<Node>)
      requires At(t, p) && p.In? && p.side == s
      requires IsBlackNode(p.sib) && p.sib.item.node == tmp && IsRed(Child(p.sib, s))
      modifies this`root, All(t, p)
      ensures var near, far := Child(p.sib, s), Child(p.sib, Other(s));
              p' == p.(sib := Mk(s, Child(near, s), near.item, Black, Mk(s, Child(near, Other(s)), p.sib.item, Red, far)))
      ensures At(t, p') && All(t, p') == All(t, p)
    {
      ghost var sib, q := p.sib, In(Other(s), p.item, p.color, t, p.up);
      ghost var near, far := Child(sib, s), Child(sib, Other(s));
      Halves(sib, s);
      Halves(near, s);
      Across(t, p);
      Colours(sib, ParentOf(q), s);
      Down(s, near, sib.item, Black, far, q);
      var onear := Kid(tmp, s);
      if onear != null {
        Paint(onear, Black, near, In(s, sib.item, Black, far, q));
      }
      near := near.(color := Black);
      Up(near, In(s, sib.item, Black, far, q));
      Paint(tmp, Red, Mk(s, near, sib.item, Black, far), q);
      ghost var n1, n2 := Child(near, s), Child(near, Other(s));
      RotateBack(s, tmp, n1, n2, far, near.item, Black, sib.item, Red, q);
      Across(Mk(s, n1, near.item, Black, Mk(s, n2, sib.item, Red, far)), q);
      p' := p.(sib := Mk(s, n1, near.item, Black, Mk(s, n2, sib.item, Red, far)));
    }

    /** The sibling's outer child is red: one rotation at the parent restores the black heights. */
    method RemoveRotateFar(s: Side, parent: Node, tmp: Node, ghost t: Tree<Node>, ghost p: Path<Node>)
      returns (ghost t': Tree<Node>)
      requires At(t, p) && p.In? && p.side == s && p.item.node == parent
      requires IsBlackNode(p.sib) && p.sib.item.node == tmp && IsRed(Child(p.sib, Other(s)))
      modifies this`root, All(t, p)
      ensures var near, far := Child(p.sib, s), Child(p.sib, Other(s));
              t' == Mk(s, Mk(s, t, p.item, Black, near), p.sib.item, p.color, Blacken(far))
      ensures At(t', p.up) && All(t', p.up) == All(t, p)
    {
      ghost var q := In(Other(s), p.item, p.color, t, p.up);
      ghost var it, near, far := p.sib.item, Child(p.sib, s), Child(p.sib, Other(s));
      Halves(p.sib, s);
      Across(t, p);
      Paint(tmp, parent.color, p.sib, q);
      ghost var sib := Mk(s, near, it, p.color, far);
      Up(sib, q);
      ghost var m := Mk(s, t, p.item, p.color, sib);
      Halves(m, s);
      Paint(parent, Black, m, p.up);
      t' := RemovePaintFar(s, tmp, t, near, far, p.item, it, p.color, p.up);
      Rotate(s, parent, t, near, t', p.item, Black, it, p.color, p.up);
      t' := Mk(s, Mk(s, t, p.item, Black, near), it, p.color, t');
    }

    method RemovePaintFar(s: Side, tmp: Node, ghost t: Tree<Node>, ghost near: Tree<Node>, ghost far: Tree<Node>,
                          ghost i: Item<Node>, ghost j: Item<Node>, ghost c: Color, ghost p: Path<Node>)
      returns (ghost far': Tree<Node>)
      requires At(Mk(s, t, i, Black, Mk(s, near, j, c, far)), p) && j.node == tmp && far.T?
      modifies Nodes(far)
      ensures far' == Blacken(far) && At(Mk(s, t, i, Black, Mk(s, near, j, c, far')), p)
      ensures All(Mk(s, t, i, Black, Mk(s, near, j, c, far')), p) == All(Mk(s, t, i, Black, Mk(s, near, j, c, far)), p)
    {
      ghost var sib, o := Mk(s, near, j, c, far), Other(s);
      far' := Blacken(far);
      ghost var q := In(o, i, Black, t, p);
      Halves(Mk(s, t, i, Black, sib), s);
      Halves(sib, s);
      Down(o, sib, i, Black, t, p);
      Colours(sib, ParentOf(q), o);
      Down(o, far, j, c, near, q);
      if Kid(tmp, Other(s)) != null {
        Paint(Kid(tmp, Other(s)), Black, far, In(o, j, c, near, q));
      }
      Up(far', In(o, j, c, near, q));
      Halves(Mk(s, near, j, c, far'), s);
      Up(Mk(s, near, j, c, far'), q);
      Halves(Mk(s, t, i, Black, Mk(s, near, j, c, far')), s);
    }

    /** First part of a pass: afterwards the sibling is black. */
    method RemoveSibling(s: Side, parent: Node, ghost t: Tree<Node>, ghost p: Path<Node>)
      returns (tmp: Node, ghost p': Path<Node>)
      requires At(t, p) && RemInv(t, p) && p.In? && p.side == s && p.item.node == parent
      modifies this`root, All(t, p)
      ensures At(t, p') && RemInv(t, p') && All(t, p') == All(t, p) && Items(t, p') == Items(t, p)
      ensures p'.In? && p'.side == s && p'.item == p.item && IsBlackNode(p'.sib) && p'.sib.item.node == tmp
      ensures p' == p || (p'.color == Red && Depth(p'.up) == Depth(p))
    {
      Sibling(t, p);
      Kin(p, RootOf(t));
      tmp := Kid(parent, Other(s));
      p' := p;
      if tmp.color == Red {
        Halves(p.sib, s);
        RemoveSiblingRed(t, p, Child(p.sib, s), Child(p.sib, Other(s)));
        p' := RemoveRotateRed(s, parent, tmp, t, p);
        Sibling(t, p');
        Kin(p', RootOf(t));
        tmp := Kid(parent, Other(s));
      }
    }

    /** Both nephews black: the sibling turns red and the deficit moves to the parent. */
    method RemoveRecolorSibling(tmp: Node, ghost t: Tree<Node>, ghost p: Path<Node>)
      returns (ghost t': Tree<Node>)
      requires At(t, p) && RemInv(t, p) && !IsRed(t) && p.In?
      requires IsBlackNode(p.sib) && p.sib.item.node == tmp && !IsRed(p.sib.left) && !IsRed(p.sib.right)
      modifies tmp`color
      ensures At(t', p.up) && RemInv(t', p.up) && All(t', p.up) == All(t, p) && Items(t', p.up) == Items(t, p)
      ensures t'.T? && t'.item == p.item && t'.color == p.color
    {
      RemoveRecolor(t, p);
      Across(t, p);
      ghost var q := In(Other(p.side), p.item, p.color, t, p.up);
      Paint(tmp, Red, p.sib, q);
      Up(p.sib.(color := Red), q);
      t' := Mk(p.side, t, p.item, p.color, p.sib.(color := Red));
      Halves(t', p.side);
    }

    /** A red nephew: one or two rotations end the loop. */
    method RemoveTurn(s: Side, parent: Node, tmp0: Node, ghost t: Tree<Node>, ghost p: Path<Node>)
      returns (ghost t': Tree<Node>)
      requires At(t, p) && RemInv(t, p) && Sorted(Items(t, p)) && !IsRed(t)
      requires p.In? && p.side == s && p.item.node == parent
      requires IsBlackNode(p.sib) && p.sib.item.node == tmp0 && (IsRed(p.sib.left) || IsRed(p.sib.right))
      modifies this`root, All(t, p)
      ensures At(t', Top) && RB(t') && Inorder(t') == Items(t, p) && Nodes(t') == All(t, p)
    {
      ghost var p', near, far := p, Child(p.sib, s), Child(p.sib, Other(s));
      Across(t, p);
      Colours(p.sib, parent, Other(s));
      var tmp := tmp0;
      if Kid(tmp, Other(s)) == null || Kid(tmp, Other(s)).color == Black {
        Halves(p.sib, s);
        Halves(near, s);
        RemoveNear(t, p, Child(near, s), Child(near, Other(s)), near, far);
        p' := RemoveRotateNear(s, tmp, t, p);
        Kin(p', RootOf(t));
        tmp := Kid(parent, Other(s));
      }
      t' := RemoveLast(s, parent, tmp, t, p');
    }

    method RemoveLast(s: Side, parent: Node, tmp: Node, ghost t: Tree<Node>, ghost p: Path<Node>)
      returns (ghost t': Tree<Node>)
      requires At(t, p) && RemInv(t, p) && Sorted(Items(t, p)) && !IsRed(t)
      requires p.In? && p.side == s && p.item.node == parent
      requires IsBlackNode(p.sib) && p.sib.item.node == tmp && IsRed(Child(p.sib, Other(s)))
      modifies this`root, All(t, p)
      ensures At(t', Top) && RB(t') && Inorder(t') == Items(t, p) && Nodes(t') == All(t, p)
    {
      Halves(p.sib, s);
      RemoveFar(t, p, Child(p.sib, s), Child(p.sib, Other(s)));
      t' := RemoveRotateFar(s, parent, tmp, t, p);
      ZipAll(t', p.up);
      t' := Plug(t', p.up);
    }

    /** One pass of the loop, `elm` being the child of `parent` on side `s`. */
    method RemoveStep(s: Side, elm: Node?, parent: Node, ghost t: Tree<Node>, ghost p: Path<Node>)
      returns (done: bool, elm': Node?, parent': Node?, ghost t': Tree<Node>, ghost p': Path<Node>)
      requires At(t, p) && RemInv(t, p) && Sorted(Items(t, p)) && elm == RootOf(t) && !IsRed(t)
      requires p.In? && p.side == s && p.item.node == parent
      modifies this`root, All(t, p)
      ensures At(t', p') && All(t', p') == All(t, p) && elm' == RootOf(t') && parent' == ParentOf(p')
      ensures !done ==> RemInv(t', p') && Items(t', p') == Items(t, p)
      ensures !done ==> Depth(p') < Depth(p) || (Depth(p') == Depth(p) && IsRed(t'))
      ensures done ==> p' == Top && RB(t') && Inorder(t') == Items(t, p)
    {
      var tmp;
      tmp, p' := RemoveSibling(s, parent, t, p);
      Across(t, p');
      Colours(p'.sib, parent, L);
      Colours(p'.sib, parent, R);
      if (tmp.left == null || tmp.left.color == Black) && (tmp.right == null || tmp.right.color == Black) {
        t' := RemoveRecolorSibling(tmp, t, p');
        p' := p'.up;
        done, elm', parent' := false, parent, parent.parent;
      } else {
        t' := RemoveTurn(s, parent, tmp, t, p');
        p' := Top;
        done, elm', parent' := true, root, null;
      }
    }

    /** Restores the colour rules after a black node was taken out above `elm0`. */
    method RemoveColor(parent0: Node?, elm0: Node?, ghost t0: Tree<Node>, ghost p0: Path<Node>)
      requires At(t0, p0) && elm0 == RootOf(t0) && parent0 == ParentOf(p0)
      requires RemInv(t0, p0) && Sorted(Items(t0, p0))
      modifies this, All(t0, p0)
      ensures Valid() && Inorder(shape) == Items(t0, p0) && Repr == All(t0, p0)
    {
      var elm, parent := elm0, parent0;
      var done := false;
      ghost var t, p := t0, p0;
      while !done && (elm == null || elm.color == Black) && elm != root
        invariant At(t, p) && All(t, p) == All(t0, p0) && elm == RootOf(t) && parent == ParentOf(p)
        invariant !done ==> RemInv(t, p) && Items(t, p) == Items(t0, p0)
        invariant done ==> p == Top && RB(t) && Inorder(t) == Items(t0, p0)
        decreases !done, Depth(p), !IsRed(t)
      {
        Sibling(t, p);
        Kin(p, elm);
        if parent.left == elm {
          done, elm, parent, t, p := RemoveStep(L, elm, parent, t, p);
        } else {
          done, elm, parent, t, p := RemoveStep(R, elm, parent, t, p);
        }
      }
      if p.In? {
        TopIn(RootOf(t), p);
      }
      if !done {
        RemoveDone(t, p);
      }
      RemoveEnd(elm, t, p);
    }

    /** The final write of black to `elm`. */
    method RemoveEnd(elm: Node?, ghost t: Tree<Node>, ghost p: Path<Node>)
      requires At(t, p) && elm == RootOf(t) && RB(Plug(Blacken(t), p))
      modifies this, Nodes(t)
      ensures Valid() && shape == Plug(Blacken(t), p) && Repr == All(t, p)
    {
      if elm != null {
        Paint(elm, Black, t, p);
      }
      ZipAll(Blacken(t), p);
      shape := Plug(Blacken(t), p);
      Repr := Nodes(shape);
    }

    /** Takes `elm`, which has at most the child `child`, out of the tree. */
    method Splice(elm: Node, child: Node?, ghost t: Tree<Node>, ghost c: Tree<Node>, ghost p: Path<Node>)
      requires At(t, p) && t.T? && t.item.node == elm && child == RootOf(c)
      requires (t.left.Leaf? && c == t.right) || (t.right.Leaf? && c == t.left)
      modifies this`root, Opt(child)`parent, Opt(elm.parent)`left, Opt(elm.parent)`right
      ensures At(c, p) && elm !in All(c, p) && All(t, p) == All(c, p) + {elm}
    {
      assert allocated(Nodes(t)) && allocated(PNodes(p));
      var parent := elm.parent;
      SetParent(child, parent, c, elm);
      Relink(parent, elm, child, p);
    }

    /** Puts `elm`, which is not in the tree, in the place of `old_`. */
    method Transplant(old_: Node, elm: Node, ghost t: Tree<Node>, ghost p: Path<Node>)
      requires At(t, p) && t.T? && t.item.node == old_ && elm !in All(t, p)
      modifies this`root, elm`left, elm`right, elm`parent, elm`color, PNodes(p), Nodes(t) - {old_}
      ensures At(t.(item := Item(elm, elm.key)), p)
      ensures elm.key == old(elm.key) && old_.left == old(old_.left)
    {
      assert allocated(Nodes(t)) && allocated(PNodes(p));
      CopyEntry(elm, old_);
      Relink(old_.parent, old_, elm, p);
      SetParents(old_.left, old_.right, elm, t, old_);
    }

    static method SetParents(x: Node?, y: Node?, q: Node, ghost t: Tree<Node>, ghost was: Node)
      requires t.T? && x == RootOf(t.left) && y == RootOf(t.right) && Nodes(t.left) !! Nodes(t.right)
      requires Rep(t.left, was) && Rep(t.right, was)
      modifies Opt(x)`parent, Opt(y)`parent
      ensures Rep(t.left, q) && Rep(t.right, q)
    {
      assert allocated(Nodes(t.left)) && allocated(Nodes(t.right));
      SetParent(x, q, t.left, was);
      SetParent(y, q, t.right, was);
    }

    /** Takes the member `old_` out of the tree. */
    method Remove(old_: Node) returns (r: Node)
      requires Valid() && old_ in Repr
      modifies this, Repr
      ensures Valid() && r == old_ && Repr == old(Repr) - {old_} && forall n :: n in old(Repr) ==> n.key == old(n.key)
      ensures Item(old_, old(old_.key)) in old(Inorder(shape))
      ensures Inorder(shape) == Minus(old(Inorder(shape)), Item(old_, old(old_.key)))
    {
      KeysListed();
      DropOut(old_);
      MinusMembers(old(Inorder(shape)), Item(old_, old_.key));
      KeysKept();
      r := old_;
    }

    method DropOut(old_: Node)
      requires Valid() && old_ in Repr
      modifies this, Repr
      ensures Valid() && Repr == old(Repr) - {old_} && old_.key == old(old_.key)
      ensures Item(old_, old(old_.key)) in old(Inorder(shape))
      ensures Inorder(shape) == Minus(old(Inorder(shape)), Item(old_, old(old_.key)))
    {
      ghost var t, p := Locate(shape, Top, old_);
      PlugRB(t, p);
      PlugInorder(t, p);
      FocusItem(t, p);
      if old_.left == null {
        RemoveSimple(old_, old_.right, t, t.right, p);
      } else if old_.right == null {
        RemoveSimple(old_, old_.left, t, t.left, p);
      } else {
        RemoveBySuccessor(old_, t, p);
      }
    }

    method RemoveSimple(elm: Node, child: Node?, ghost t: Tree<Node>, ghost c: Tree<Node>, ghost p: Path<Node>)
      requires At(t, p) && OnlyChild(t, c) && t.item.node == elm && child == RootOf(c)
      requires Rules(t, p) && Sorted(Items(t, p))
      modifies this, All(t, p)
      ensures Valid() && Repr == All(t, p) - {elm} && Inorder(shape) == Minus(Items(t, p), t.item)
      ensures elm.key == old(elm.key)
    {
      TakeOutRules(t, c, p);
      TakeOutItems(t, c, p);
      var parent := elm.parent;
      var color := elm.color;
      Splice(elm, child, t, c, p);
      Recolor(color, parent, child, c, p);
    }

    /** The end of a removal, after a node of colour `color` was taken out above `child`. */
    method Recolor(color: Color, parent: Node?, child: Node?, ghost c: Tree<Node>, ghost p: Path<Node>)
      requires At(c, p) && child == RootOf(c) && parent == ParentOf(p) && Sorted(Items(c, p))
      requires if color == Black then RemInv(c, p) else Rules(c, p)
      modifies this, All(c, p)
      ensures Valid() && Repr == All(c, p) && Inorder(shape) == Items(c, p)
    {
      if color == Black {
        RemoveColor(parent, child, c, p);
      } else {
        Settle(c, p);
      }
    }

    method RemoveBySuccessor(old_: Node, ghost t: Tree<Node>, ghost p: Path<Node>)
      requires At(t, p) && t.T? && t.item.node == old_ && t.left.T? && t.right.T?
      requires Rules(t, p) && Sorted(Items(t, p))
      modifies this, All(t, p)
      ensures Valid() && Repr == All(t, p) - {old_} && Inorder(shape) == Minus(Items(t, p), t.item)
      ensures old_.key == old(old_.key)
    {
      ghost var s, u;
      var elm;
      elm, s, u := Leftmost(old_, t, p);
      ghost var base := In(R, t.item, t.color, t.left, p);
      SuccessorOut(s, u, base);
      var child, parent, color := PullUp(old_, elm, t, s, u, p);
      Recolor(color, parent, child, s.right, Join(u, base.(item := s.item)));
    }

    /** Moves the successor to the place of `old_`, and says where a black one is now missing. */
    method PullUp(old_: Node, elm: Node, ghost t: Tree<Node>, ghost s: Tree<Node>, ghost u: Path<Node>, ghost p: Path<Node>)
      returns (child: Node?, parent: Node?, color: Color)
      requires t.T? && t.item.node == old_ && s.T? && s.left.Leaf? && s.item.node == elm
      requires var q := Join(u, In(R, t.item, t.color, t.left, p)); At(s, q) && All(s, q) == All(t, p)
      modifies this`root, All(t, p)
      ensures var q := Join(u, In(R, s.item, t.color, t.left, p));
              && At(s.right, q) && All(s.right, q) == All(t, p) - {old_}
              && child == RootOf(s.right) && parent == ParentOf(q) && color == s.color
      ensures old_.key == t.item.key
    {
      child, parent, color := elm.right, elm.parent, elm.color;
      Exchange(old_, elm, t, s, u, p);
      if parent == old_ {
        parent := elm;
      }
    }

    /** The successor of `old_`, which has two children. */
    method Leftmost(old_: Node, ghost t: Tree<Node>, ghost p: Path<Node>)
      returns (elm: Node, ghost s: Tree<Node>, ghost u: Path<Node>)
      requires At(t, p) && t.T? && t.item.node == old_ && t.right.T? && Rules(t, p)
      ensures var q := Join(u, In(R, t.item, t.color, t.left, p));
              && s.T? && s.left.Leaf? && s.item.node == elm && AllLeft(u)
              && At(s, q) && All(s, q) == All(t, p) && Rules(s, q) && Items(s, q) == Items(t, p)
    {
      ghost var base := In(R, t.item, t.color, t.left, p);
      Down(R, t.right, t.item, t.color, t.left, p);
      elm, s, u := old_.right, t.right, Top;
      PlugRules(t, p);
      while elm.left != null
        invariant s.T? && s.item.node == elm && AllLeft(u)
        invariant At(s, Join(u, base)) && All(s, Join(u, base)) == All(t, p)
        invariant Plug(s, Join(u, base)) == Plug(t, p)
        decreases s
      {
        Down(L, s.left, s.item, s.color, s.right, Join(u, base));
        elm := elm.left;
        s, u := s.left, In(L, s.item, s.color, s.right, u);
      }
      PlugRules(s, Join(u, base));
      PlugInorder(t, p);
      PlugInorder(s, Join(u, base));
    }

    /** Takes the successor out of its place and puts it in the place of `old_`. */
    method Exchange(old_: Node, elm: Node, ghost t: Tree<Node>, ghost s: Tree<Node>, ghost u: Path<Node>, ghost p: Path<Node>)
      requires t.T? && t.item.node == old_ && s.T? && s.left.Leaf? && s.item.node == elm
      requires var q := Join(u, In(R, t.item, t.color, t.left, p)); At(s, q) && All(s, q) == All(t, p)
      modifies this`root, All(t, p)
      ensures var q := Join(u, In(R, s.item, t.color, t.left, p)); At(s.right, q) && All(s.right, q) == All(t, p) - {old_}
      ensures old_.key == t.item.key
    {
      ghost var m := T(t.left, t.item, t.color, Plug(s.right, u));
      Pluck(elm, s, u, t.item, t.color, t.left, p);
      ReItemNodes(m, s.item, p, All(t, p));
      Transplant(old_, elm, m, p);
      Return(s.right, u, s.item, t.color, t.left, p);
    }

    method Pluck(elm: Node, ghost s: Tree<Node>, ghost u: Path<Node>, ghost it: Item<Node>, ghost c: Color,
                 ghost l: Tree<Node>, ghost p: Path<Node>)
      requires s.T? && s.left.Leaf? && s.item.node == elm && At(s, Join(u, In(R, it, c, l, p)))
      modifies this`root, All(s, Join(u, In(R, it, c, l, p))) - {elm}
      ensures var m := T(l, it, c, Plug(s.right, u));
              At(m, p) && elm !in All(m, p) && All(m, p) + {elm} == All(s, Join(u, In(R, it, c, l, p)))
      ensures elm.key == old(elm.key)
    {
      Splice(elm, elm.right, s, s.right, Join(u, In(R, it, c, l, p)));
      Climb(s.right, u, it, c, l, p);
    }

    // ----- reading -----

    method Find(key: int) returns (r: Node?, ghost steps: nat)
      requires Valid()
      ensures r == null ==> !HasKey(Inorder(shape), key)
      ensures r != null ==> Item(r, key) in Inorder(shape)
      ensures Logarithmic(steps, |Inorder(shape)|)
    {
      var tmp := root;
      steps := 0;
      ghost var t, p := shape, Top;
      while tmp != null
        invariant tmp == RootOf(t) && Rep(t, ParentOf(p)) && Descending(shape, key, t, p, steps)
        decreases t
      {
        var comp := Compare(key, tmp.key);
        ghost var s := if comp < 0 then L else R;
        if comp < 0 {
          tmp := tmp.left;
        } else if comp > 0 {
          tmp := tmp.right;
        } else {
          FocusItem(t, p);
          HeightBound(shape);
          return tmp, steps + 1;
        }
        Descend(shape, s, key, t, p, steps);
        t, p, steps := Child(t, s), In(s, t.item, t.color, Child(t, Other(s)), p), steps + 1;
      }
      Miss(p, key);
      HeightBound(shape);
      r := null;
    }

    /** The node with the least key that is not below `key`. */
    method NFind(key: int) returns (res: Node?, ghost steps: nat)
      requires Valid()
      ensures res == NodeAt(Inorder(shape), Rank(Inorder(shape), key))
      ensures Logarithmic(steps, |Inorder(shape)|)
    {
      var tmp := root;
      res, steps := null, 0;
      ghost var t, p := shape, Top;
      while tmp != null
        invariant tmp == RootOf(t) && Rep(t, ParentOf(p)) && Descending(shape, key, t, p, steps)
        invariant res == NodeAt(After(p), 0)
        decreases t
      {
        var comp := Compare(key, tmp.key);
        ghost var s := if comp < 0 then L else R;
        if comp < 0 {
          res := tmp;
          tmp := tmp.left;
          AfterHead(t, p);
        } else if comp > 0 {
          tmp := tmp.right;
        } else {
          RankOfFocus(t, p);
          HeightBound(shape);
          return tmp, steps + 1;
        }
        Descend(shape, s, key, t, p, steps);
        t, p, steps := Child(t, s), In(s, t.item, t.color, Child(t, Other(s)), p), steps + 1;
      }
      Miss(p, key);
      AtGap(p);
      HeightBound(shape);
    }

    /** The leftmost node for a negative argument, the rightmost one otherwise. */
    method MinMax(val: int) returns (parent: Node?, ghost steps: nat)
      requires Valid()
      ensures parent == NodeAt(Inorder(shape), if val < 0 then 0 else |Inorder(shape)| - 1)
      ensures Logarithmic(steps, |Inorder(shape)|)
    {
      var tmp := root;
      parent, steps := null, 0;
      ghost var t, p := shape, Top;
      while tmp != null
        invariant tmp == RootOf(t) && Rep(t, ParentOf(p)) && Items(t, p) == Inorder(shape)
        invariant val < 0 ==> Before(p) == [] && parent == NodeAt(After(p), 0)
        invariant val >= 0 ==> After(p) == [] && parent == NodeAt(Before(p), |Before(p)| - 1)
        invariant steps + Height(t) <= Height(shape)
        decreases t
      {
        parent, steps := tmp, steps + 1;
        Regroup(Before(p), Inorder(t.left), t.item, Inorder(t.right), After(p));
        if val < 0 {
          tmp := tmp.left;
          t, p := t.left, In(L, t.item, t.color, t.right, p);
        } else {
          tmp := tmp.right;
          t, p := t.right, In(R, t.item, t.color, t.left, p);
        }
      }
      HeightBound(shape);
    }

    /** The node after `elm`, which is the i-th one, or null. */
    method Next(elm: Node, ghost i: nat) returns (r: Node?)
      requires Valid() && i < |Inorder(shape)| && Inorder(shape)[i].node == elm
      ensures r == NodeAt(Inorder(shape), i + 1)
    {
      ghost var t, p := FocusAt(elm, i);
      if elm.right != null {
        r := NextDown(elm, i, t, p);
      } else {
        r := NextUp(elm, i, t, p);
      }
    }

    method NextDown(elm: Node, ghost i: nat, ghost t: Tree<Node>, ghost p: Path<Node>) returns (x: Node)
      requires FocusedAt(elm, i, t, p) && elm.right != null
      ensures x == NodeAt(Inorder(shape), i + 1)
    {
      Regroup(Before(p), Inorder(t.left), t.item, Inorder(t.right), After(p));
      Down(R, t.right, t.item, t.color, t.left, p);
      x := elm.right;
      ghost var w, q := t.right, In(R, t.item, t.color, t.left, p);
      while x.left != null
        invariant w.T? && x == w.item.node && ZRep(w, q)
        invariant Items(w, q) == Inorder(shape) && |Before(q)| == i + 1
        decreases w
      {
        x := x.left;
        Down(L, w.left, w.item, w.color, w.right, q);
        Regroup(Before(q), Inorder(w.left), w.item, Inorder(w.right), After(q));
        w, q := w.left, In(L, w.item, w.color, w.right, q);
      }
      FocusIndex(w, q);
    }

    method NextUp(elm: Node, ghost i: nat, ghost t: Tree<Node>, ghost p: Path<Node>) returns (r: Node?)
      requires FocusedAt(elm, i, t, p) && elm.right == null
      ensures r == NodeAt(Inorder(shape), i + 1)
    {
      Regroup(Before(p), Inorder(t.left), t.item, Inorder(t.right), After(p));
      if p.In? { Kin(p, elm); }
      if elm.parent != null && elm == elm.parent.left {
        return elm.parent;
      }
      var x := elm;
      ghost var w, q := t, p;
      while x.parent != null && x == x.parent.right
        invariant w.T? && x == w.item.node && ZRep(w, q)
        invariant After(q) == Inorder(shape)[i + 1..]
        invariant q.In? ==> (q.side == R <==> x == x.parent.right)
        decreases q
      {
        Kin(q, x);
        Up(w, q);
        x := x.parent;
        w, q := Mk(q.side, w, q.item, q.color, q.sib), q.up;
        if q.In? { Kin(q, x); }
      }
      return x.parent;
    }

    /** The node before `elm`, which is the i-th one, or null. */
    method Prev(elm: Node, ghost i: nat) returns (r: Node?)
      requires Valid() && i < |Inorder(shape)| && Inorder(shape)[i].node == elm
      ensures r == NodeAt(Inorder(shape), i - 1)
    {
      ghost var t, p := FocusAt(elm, i);
      if elm.left != null {
        r := PrevDown(elm, i, t, p);
      } else {
        r := PrevUp(elm, i, t, p);
      }
    }

    method PrevDown(elm: Node, ghost i: nat, ghost t: Tree<Node>, ghost p: Path<Node>) returns (x: Node)
      requires FocusedAt(elm, i, t, p) && elm.left != null
      ensures x == NodeAt(Inorder(shape), i - 1)
    {
      Regroup(Before(p), Inorder(t.left), t.item, Inorder(t.right), After(p));
      Down(L, t.left, t.item, t.color, t.right, p);
      x := elm.left;
      ghost var w, q := t.left, In(L, t.item, t.color, t.right, p);
      while x.right != null
        invariant w.T? && x == w.item.node && ZRep(w, q)
        invariant Items(w, q) == Inorder(shape) && |Before(q)| + |Inorder(w)| == i
        decreases w
      {
        x := x.right;
        Down(R, w.right, w.item, w.color, w.left, q);
        Regroup(Before(q), Inorder(w.left), w.item, Inorder(w.right), After(q));
        w, q := w.right, In(R, w.item, w.color, w.left, q);
      }
      FocusIndex(w, q);
    }

    method PrevUp(elm: Node, ghost i: nat, ghost t: Tree<Node>, ghost p: Path<Node>) returns (r: Node?)
      requires FocusedAt(elm, i, t, p) && elm.left == null
      ensures r == NodeAt(Inorder(shape), i - 1)
    {
      Regroup(Before(p), Inorder(t.left), t.item, Inorder(t.right), After(p));
      if p.In? { Kin(p, elm); }
      if elm.parent != null && elm == elm.parent.right {
        return elm.parent;
      }
      var x := elm;
      ghost var w, q := t, p;
      while x.parent != null && x == x.parent.left
        invariant w.T? && x == w.item.node && ZRep(w, q)
        invariant Before(q) == Inorder(shape)[..i]
        invariant q.In? ==> (q.side == L <==> x == x.parent.left)
        decreases q
      {
        Kin(q, x);
        Up(w, q);
        x := x.parent;
        w, q := Mk(q.side, w, q.item, q.color, q.sib), q.up;
        if q.In? { Kin(q, x); }
      }
      return x.parent;
    }

    ghost predicate FocusedAt(elm: Node, i: nat, t: Tree<Node>, p: Path<Node>)
      reads this, All(t, p)
    {
      && t.T? && t.item.node == elm && At(t, p) && Items(t, p) == Inorder(shape)
      && |Before(p)| + |Inorder(t.left)| == i
    }

    /** A node object occurs once, so its index fixes its focus. */
    lemma FocusAt(elm: Node, i: nat) returns (t: Tree<Node>, p: Path<Node>)
      requires Valid() && i < |Inorder(shape)| && Inorder(shape)[i].node == elm
      ensures FocusedAt(elm, i, t, p)
    {
      var s := Inorder(shape);
      RepItem(shape, null, s[i]);
      t, p := Locate(shape, Top, elm);
      PlugInorder(t, p);
      Regroup(Before(p), Inorder(t.left), t.item, Inorder(t.right), After(p));
      var m := |Before(p)| + |Inorder(t.left)|;
      assert s[m] == t.item;
      RepItem(shape, null, s[m]);
    }

    /** RB_FOREACH visits every node once, in ascending order. */
    method Foreach() returns (out: seq<Node>)
      requires Valid()
      ensures |out| == |Inorder(shape)| && forall i :: 0 <= i < |out| ==> out[i] == Inorder(shape)[i].node
    {
      out := [];
      var x;
      ghost var steps;
      x, steps := MinMax(-1);
      while x != null
        invariant |out| <= |Inorder(shape)| && x == NodeAt(Inorder(shape), |out|)
        invariant forall i :: 0 <= i < |out| ==> out[i] == Inorder(shape)[i].node
        decreases |Inorder(shape)| - |out|
      {
        out := out + [x];
        x := Next(x, |out| - 1);
      }
    }
  }
}
