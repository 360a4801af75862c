/** Binary search trees as values, and the two trees that top-down splaying takes apart and puts
    together again. */
module SplayShape {
  import opened RBShape
  import opened RBSearch
  import opened RBUnlink

  datatype STree<+N> = Nil | B(left: STree<N>, item: Item<N>, right: STree<N>)

  function SMk<N>(s: Side, near: STree<N>, it: Item<N>, far: STree<N>): STree<N> {
    if s == L then B(near, it, far) else B(far, it, near)
  }

  function SChild<N>(t: STree<N>, s: Side): STree<N>
    requires t.B?
  {
    if s == L then t.left else t.right
  }

  function List<N>(t: STree<N>): seq<Item<N>> {
    if t.Nil? then [] else List(t.left) + [t.item] + List(t.right)
  }

  lemma SMkList<N>(s: Side, near: STree<N>, it: Item<N>, far: STree<N>)
    ensures List(SMk(s, near, it, far)) == MkItems(s, List(near), it, List(far))
  {
  }

  /** A tree under assembly, from its top down to its hole on side `s`: every link keeps a node and
      the subtree on its other side. */
  datatype Chain<+N> = End | Link(prev: Chain<N>, item: Item<N>, sub: STree<N>)

  function Fill<N>(s: Side, c: Chain<N>, t: STree<N>): STree<N>
    decreases c
  {
    if c.End? then t else Fill(s, c.prev, SMk(s, t, c.item, c.sub))
  }

  /** The items outside the hole: all to its right for a hole on side L, all to its left for R. */
  function Outside<N>(s: Side, c: Chain<N>): seq<Item<N>> {
    if c.End? then []
    else if s == L then [c.item] + List(c.sub) + Outside(s, c.prev)
    else Outside(s, c.prev) + List(c.sub) + [c.item]
  }

  function Both<N>(s: Side, hole: seq<Item<N>>, outside: seq<Item<N>>): seq<Item<N>> {
    if s == L then hole + outside else outside + hole
  }

  lemma LinkAssoc<A>(t: seq<A>, i: A, sub: seq<A>, out: seq<A>)
    ensures (t + [i] + sub) + out == t + ([i] + sub + out)
    ensures out + (sub + [i] + t) == (out + sub + [i]) + t
  {
  }

  lemma {:induction false} FillList<N>(s: Side, c: Chain<N>, t: STree<N>)
    ensures List(Fill(s, c, t)) == Both(s, List(t), Outside(s, c))
    decreases c
  {
    if c.Link? {
      FillList(s, c.prev, SMk(s, t, c.item, c.sub));
      SMkList(s, t, c.item, c.sub);
      LinkAssoc(List(t), c.item, List(c.sub), Outside(s, c.prev));
    }
  }

  /** All items during a splay: left assembly (hole on side R), rest, right assembly. */
  function Whole<N>(lc: Chain<N>, t: STree<N>, rc: Chain<N>): seq<Item<N>> {
    Outside(R, lc) + List(t) + Outside(L, rc)
  }

  ghost predicate Around<N>(lc: Chain<N>, rc: Chain<N>, k: int) {
    Below(Outside(R, lc), k) && Above(Outside(L, rc), k)
  }

  /** SPLAY_ASSEMBLE. */
  function Assembled<N>(lc: Chain<N>, t: STree<N>, rc: Chain<N>): STree<N>
    requires t.B?
  {
    B(Fill(R, lc, t.left), t.item, Fill(L, rc, t.right))
  }

  lemma Assoc<A>(a: seq<A>, b: seq<A>, c: seq<A>, d: seq<A>, e: seq<A>)
    ensures (a + b) + c + (d + e) == a + (b + c + d) + e
  {
  }

  lemma AssembledList<N>(lc: Chain<N>, t: STree<N>, rc: Chain<N>)
    requires t.B?
    ensures List(Assembled(lc, t, rc)) == Whole(lc, t, rc)
    ensures |List(Assembled(lc, t, rc).left)| == |Outside(R, lc)| + |List(t.left)|
  {
    FillList(R, lc, t.left);
    FillList(L, rc, t.right);
    Assoc(Outside(R, lc), List(t.left), [t.item], List(t.right), Outside(L, rc));
  }

  /** Linking the root into the assembly with its hole on side `s` and going on with its child. */
  lemma LinkWhole<N>(s: Side, t: STree<N>, lc: Chain<N>, rc: Chain<N>, k: int)
    requires t.B? && Sorted(Whole(lc, t, rc)) && Around(lc, rc, k)
    requires if s == L then k < t.item.key else t.item.key < k
    ensures var lc' := if s == R then Link(lc, t.item, t.left) else lc;
            var rc' := if s == L then Link(rc, t.item, t.right) else rc;
            Whole(lc', SChild(t, s), rc') == Whole(lc, t, rc) && Around(lc', rc', k)
  {
    var a, l, r, z := Outside(R, lc), List(t.left), List(t.right), Outside(L, rc);
    Regroup(a, l, t.item, r, z);
    Split(a + l, t.item, r + z, Whole(lc, t, rc));
    Extend(a + l, t.item, r + z, k);
  }

  /** The rotation of the zig-zig case lists the same items. */
  lemma SpinList<N>(s: Side, a: STree<N>, i: Item<N>, b: STree<N>, j: Item<N>, c: STree<N>)
    ensures List(SMk(s, SMk(s, a, i, b), j, c)) == List(SMk(s, a, i, SMk(s, b, j, c)))
  {
    SMkList(s, a, i, b); SMkList(s, b, j, c);
    SMkList(s, SMk(s, a, i, b), j, c);
    SMkList(s, a, i, SMk(s, b, j, c));
    var x, y, z := List(a), List(b), List(c);
    if s == L {
      assert (x + [i] + y) + [j] + z == x + [i] + (y + [j] + z);
    } else {
      assert z + [j] + (y + [i] + x) == (z + [j] + y) + [i] + x;
    }
  }

  /** The item at `i` has key `k`; or `k` is absent and the item is its successor or predecessor. */
  ghost predicate Closest<N>(s: seq<Item<N>>, i: nat, k: int) {
    && i < |s|
    && (s[i].key == k || (k < s[i].key && Below(s[..i], k)) || (s[i].key < k && Above(s[i + 1..], k)))
  }

  /** When the loop stops, the root is the closest item. */
  lemma StopClosest<N>(lc: Chain<N>, t: STree<N>, rc: Chain<N>, k: int)
    requires t.B? && Around(lc, rc, k)
    requires t.item.key == k || (k < t.item.key && t.left.Nil?) || (t.item.key < k && t.right.Nil?)
    ensures Closest(Whole(lc, t, rc), |Outside(R, lc)| + |List(t.left)|, k)
  {
    var a, l, r, z := Outside(R, lc), List(t.left), List(t.right), Outside(L, rc);
    Regroup(a, l, t.item, r, z);
    var s := Whole(lc, t, rc);
    assert s[..|a| + |l|] == a + l && s[|a| + |l| + 1..] == r + z;
  }

  /** Splitting at the closest item: everything left of a successor is below the key, everything
      from a predecessor on to its right above. */
  lemma ClosestRank<N>(s: seq<Item<N>>, i: nat, k: int)
    requires Sorted(s) && Closest(s, i, k)
    ensures s[i].key == k ==> Rank(s, k) == i
    ensures k < s[i].key ==> Rank(s, k) == i && !HasKey(s, k)
    ensures s[i].key < k ==> Rank(s, k) == i + 1 && !HasKey(s, k)
  {
    if s[i].key < k {
      assert s == s[..i + 1] + s[i + 1..];
      RankIs(s[..i + 1], s[i + 1..], k);
    } else if k < s[i].key {
      assert s == s[..i] + s[i..];
      RankIs(s[..i], s[i..], k);
    } else {
      RankUnique(s, k, i);
    }
  }

  lemma TwoHalves<N>(t: STree<N>, r: nat)
    requires t.B? && r == |List(t.left)|
    ensures r < |List(t)| && List(t)[..r] == List(t.left) && List(t)[r..] == [t.item] + List(t.right)
    ensures List(t)[..r + 1] == List(t.left) + [t.item] && List(t)[r + 1..] == List(t.right)
  {
    Slices(List(t.left), t.item, List(t.right));
  }

  lemma Slices<A>(l: seq<A>, i: A, r: seq<A>)
    ensures (l + [i] + r)[..|l|] == l && (l + [i] + r)[|l|..] == [i] + r
    ensures (l + [i] + r)[..|l| + 1] == l + [i] && (l + [i] + r)[|l| + 1..] == r
  {
  }

  /** The tree split at its root, with a new root in between. */
  lemma InsertBeforeRoot<N>(t: STree<N>, it: Item<N>)
    requires t.B? && Sorted(List(t)) && !HasKey(List(t), it.key) && Rank(List(t), it.key) == |List(t.left)|
    ensures var t' := B(t.left, it, B(Nil, t.item, t.right)); List(t') == InsertSorted(List(t), it) && Sorted(List(t'))
  {
    TwoHalves(t, |List(t.left)|);
    InsertKeepsSorted(List(t), it);
    assert List(B(Nil, t.item, t.right)) == [t.item] + List(t.right);
  }

  lemma InsertAfterRoot<N>(t: STree<N>, it: Item<N>)
    requires t.B? && Sorted(List(t)) && !HasKey(List(t), it.key) && Rank(List(t), it.key) == |List(t.left)| + 1
    ensures var t' := B(B(t.left, t.item, Nil), it, t.right); List(t') == InsertSorted(List(t), it) && Sorted(List(t'))
  {
    TwoHalves(t, |List(t.left)|);
    InsertKeepsSorted(List(t), it);
    assert List(B(t.left, t.item, Nil)) == List(t.left) + [t.item];
  }

  /** Splayed for a key above all of its own, a tree has its greatest item at the root. */
  lemma GreatestAtRoot<N>(t: STree<N>, key: int, tr: STree<N>)
    requires t.B? && Below(List(t), key) && Closest(List(t), |List(t.left)|, key)
    ensures t.right.Nil? && List(B(t.left, t.item, tr)) == List(t) + List(tr)
  {
    var r := |List(t.left)|;
    TwoHalves(t, r);
    assert List(t)[r].key < key;
    if t.right.B? {
      NotAboveItself(List(t), r + 1, key);
    }
  }

  lemma NotAboveItself<N>(s: seq<Item<N>>, i: nat, k: int)
    requires i < |s| && Below(s, k)
    ensures !Above(s[i..], k)
  {
    assert s[i..][0] == s[i];
  }

  lemma RemovePieces<N>(s: seq<Item<N>>, i: nat)
    requires Sorted(s) && i < |s|
    ensures Sorted(s[..i] + s[i + 1..]) && Below(s[..i], s[i].key)
    ensures Sorted(s[i + 1..])
  {
    assert s == s[..i] + [s[i]] + s[i + 1..];
    MinusSorted(s[..i], s[i], s[i + 1..]);
  }

  /** A key beyond all items on side `s`. */
  function Beyond<N>(q: seq<Item<N>>, s: Side): (k: int)
    requires Sorted(q) && q != []
    ensures if s == L then Above(q, k) else Below(q, k)
  {
    if s == L then q[0].key - 1 else q[|q| - 1].key + 1
  }

  lemma BeyondRoot<N>(s: Side, lc: Chain<N>, t: STree<N>, rc: Chain<N>, k: int)
    requires t.B? && (if s == L then Above(Whole(lc, t, rc), k) else Below(Whole(lc, t, rc), k))
    ensures if s == L then k < t.item.key else t.item.key < k
  {
    Regroup(Outside(R, lc), List(t.left), t.item, List(t.right), Outside(L, rc));
    assert Whole(lc, t, rc)[|Outside(R, lc)| + |List(t.left)|] == t.item;
  }
}
