/** Searching a red-black tree: where a key belongs in the sorted sequence of items, and how
    far a descent can go. */
module RBSearch {
  import opened RBShape

  /** How many items have a key below `k`. */
  function Rank<N>(s: seq<Item<N>>, k: int): (r: nat)
    ensures r <= |s|
    ensures Sorted(s) ==> forall i :: 0 <= i < |s| ==> (i < r <==> s[i].key < k)
  {
    if s == [] then 0
    else if s[0].key < k then
      1 + Rank(s[1..], k)
    else 0
  }

  /** The sorted sequence `s` with `it` put where its key belongs. */
  function InsertSorted<N>(s: seq<Item<N>>, it: Item<N>): seq<Item<N>> {
    s[..Rank(s, it.key)] + [it] + s[Rank(s, it.key)..]
  }

  ghost predicate HasKey<N>(s: seq<Item<N>>, k: int) {
    exists i :: 0 <= i < |s| && s[i].key == k
  }

  ghost predicate Below<N>(s: seq<Item<N>>, k: int) { forall i :: 0 <= i < |s| ==> s[i].key < k }

  ghost predicate Above<N>(s: seq<Item<N>>, k: int) { forall i :: 0 <= i < |s| ==> k < s[i].key }

  /** Everything to the left of the focus is below `k`, everything to its right above. */
  ghost predicate Bracket<N>(p: Path<N>, k: int) { Below(Before(p), k) && Above(After(p), k) }

  lemma Split<N>(x: seq<Item<N>>, it: Item<N>, y: seq<Item<N>>, s: seq<Item<N>>)
    requires Sorted(s) && s == x + [it] + y
    ensures Below(x, it.key) && Above(y, it.key) && it in s
  {
    assert s[|x|] == it;
    forall i | 0 <= i < |x| ensures x[i].key < it.key { assert s[i] == x[i]; }
    forall i | 0 <= i < |y| ensures it.key < y[i].key { assert s[|x| + 1 + i] == y[i]; }
  }

  lemma Extend<N>(x: seq<Item<N>>, it: Item<N>, y: seq<Item<N>>, k: int)
    requires Below(x, it.key) && Above(y, it.key)
    ensures it.key < k ==> Below(x + [it], k)
    ensures k < it.key ==> Above([it] + y, k)
  {
  }

  lemma Regroup<A>(b: seq<A>, l: seq<A>, i: A, r: seq<A>, a: seq<A>)
    ensures b + (l + [i] + r) + a == (b + l) + [i] + (r + a)
    ensures b + l + ([i] + r + a) == (b + l) + [i] + (r + a)
    ensures (b + l + [i]) + r + a == (b + l) + [i] + (r + a)
    ensures [i] + r + a == [i] + (r + a)
  {
  }

  /** One step of a descent: the key decides the side, and the other side is ruled out. */
  lemma DescendLeft<N>(t: Tree<N>, p: Path<N>, k: int)
    requires t.T? && Sorted(Items(t, p)) && Bracket(p, k) && k < t.item.key
    ensures var q := In(L, t.item, t.color, t.right, p);
            Bracket(q, k) && Items(t.left, q) == Items(t, p) && Plug(t.left, q) == Plug(t, p)
  {
    var q := In(L, t.item, t.color, t.right, p);
    var r := Inorder(t.right) + After(p);
    Regroup(Before(p), Inorder(t.left), t.item, Inorder(t.right), After(p));
    Split(Before(p) + Inorder(t.left), t.item, r, Items(t, p));
    assert After(q) == [t.item] + r;
    Extend(Before(p) + Inorder(t.left), t.item, r, k);
  }

  lemma DescendRight<N>(t: Tree<N>, p: Path<N>, k: int)
    requires t.T? && Sorted(Items(t, p)) && Bracket(p, k) && t.item.key < k
    ensures var q := In(R, t.item, t.color, t.left, p);
            Bracket(q, k) && Items(t.right, q) == Items(t, p) && Plug(t.right, q) == Plug(t, p)
  {
    var q := In(R, t.item, t.color, t.left, p);
    var l := Before(p) + Inorder(t.left);
    Regroup(Before(p), Inorder(t.left), t.item, Inorder(t.right), After(p));
    Split(l, t.item, Inorder(t.right) + After(p), Items(t, p));
    assert Before(q) == l + [t.item];
    Extend(l, t.item, Inorder(t.right) + After(p), k);
  }

  lemma FocusIndex<N>(t: Tree<N>, p: Path<N>)
    requires t.T?
    ensures var m := |Before(p)| + |Inorder(t.left)|; m < |Items(t, p)| && Items(t, p)[m] == t.item
    ensures t.right.Leaf? ==> |Inorder(t)| == |Inorder(t.left)| + 1
  {
    Regroup(Before(p), Inorder(t.left), t.item, Inorder(t.right), After(p));
  }

  lemma FocusItem<N>(t: Tree<N>, p: Path<N>)
    requires t.T?
    ensures t.item in Items(t, p)
  {
    FocusIndex(t, p);
  }

  lemma RankOfFocus<N>(t: Tree<N>, p: Path<N>)
    requires t.T? && Sorted(Items(t, p))
    ensures var r := Rank(Items(t, p), t.item.key); r < |Items(t, p)| && Items(t, p)[r] == t.item
  {
    var a, b := Before(p) + Inorder(t.left), Inorder(t.right) + After(p);
    Regroup(Before(p), Inorder(t.left), t.item, Inorder(t.right), After(p));
    Split(a, t.item, b, Items(t, p));
    assert Items(t, p)[..|a|] == a;
    RankUnique(Items(t, p), t.item.key, |a|);
  }

  lemma {:induction false} RankUnique<N>(s: seq<Item<N>>, k: int, n: nat)
    requires n <= |s| && Below(s[..n], k) && (n < |s| ==> k <= s[n].key)
    ensures Rank(s, k) == n
  {
    if n > 0 {
      assert s[..n][0] == s[0];
      assert s[1..][..n - 1] == s[..n][1..];
      RankUnique(s[1..], k, n - 1);
    }
  }

  lemma RankIs<N>(x: seq<Item<N>>, y: seq<Item<N>>, k: int)
    requires Below(x, k) && Above(y, k)
    ensures Rank(x + y, k) == |x| && !HasKey(x + y, k)
  {
    var s := x + y;
    assert s[..|x|] == x;
    assert y != [] ==> s[|x|] == y[0];
    RankUnique(s, k, |x|);
    forall i | 0 <= i < |s| ensures s[i].key != k {
      if i < |x| { assert s[i] == x[i]; } else { assert s[i] == y[i - |x|]; }
    }
  }

  lemma AfterHead<N>(t: Tree<N>, p: Path<N>)
    requires t.T?
    ensures var a := After(In(L, t.item, t.color, t.right, p)); a != [] && a[0] == t.item
  {
  }

  lemma AtGap<N>(p: Path<N>)
    ensures |Items(Leaf, p)| == |Before(p)| + |After(p)|
    ensures After(p) != [] ==> Items(Leaf, p)[|Before(p)|] == After(p)[0]
  {
  }

  lemma Miss<N>(p: Path<N>, k: int)
    requires Sorted(Items(Leaf, p)) && Bracket(p, k)
    ensures Rank(Items(Leaf, p), k) == |Before(p)| && !HasKey(Items(Leaf, p), k)
  {
    assert Items(Leaf, p) == Before(p) + After(p);
    RankIs(Before(p), After(p), k);
  }

  lemma Single<A>(x: seq<A>, i: A, y: seq<A>)
    ensures x + ([] + [i] + []) + y == x + [i] + y
    ensures x + [] + y == x + y && (x + y)[..|x|] == x && (x + y)[|x|..] == y
  {
  }

  /** An empty focus that brackets `k` is where `k` belongs, and `k` is not in the tree. */
  lemma Gap<N>(p: Path<N>, it: Item<N>, c: Color)
    requires Sorted(Items(Leaf, p)) && Bracket(p, it.key)
    ensures !HasKey(Items(Leaf, p), it.key)
    ensures Items(T(Leaf, it, c, Leaf), p) == InsertSorted(Items(Leaf, p), it)
    ensures Sorted(Items(T(Leaf, it, c, Leaf), p))
  {
    Single(Before(p), it, After(p));
    Miss(p, it.key);
    InsertKeepsSorted(Items(Leaf, p), it);
  }

  lemma InsertKeepsSorted<N>(s: seq<Item<N>>, it: Item<N>)
    requires Sorted(s) && !HasKey(s, it.key)
    ensures Sorted(InsertSorted(s, it))
  {
  }

  // ----- depth -----

  function Max(a: nat, b: nat): nat { if a < b then b else a }

  function Height<N>(t: Tree<N>): nat { if t.Leaf? then 0 else 1 + Max(Height(t.left), Height(t.right)) }

  function Pow2(n: nat): nat { if n == 0 then 1 else 2 * Pow2(n - 1) }

  /** A tree of black height h has at least 2^h - 1 nodes and is at most 2h (2h + 1 under a red
      root) high. */
  lemma {:induction false} BlackHeightBounds<N>(t: Tree<N>)
    requires Bal(t) && NoRR(t)
    ensures Pow2(BH(t)) <= |Inorder(t)| + 1
    ensures Height(t) <= 2 * BH(t) + (if IsRed(t) then 1 else 0)
  {
    if t.T? {
      BlackHeightBounds(t.left);
      BlackHeightBounds(t.right);
    }
  }

  /** `steps` is at most 2 * log2(n + 1): twice some h for which n + 1 is at least 2^h. */
  ghost predicate Logarithmic(steps: nat, n: nat) { exists h: nat :: steps <= 2 * h && Pow2(h) <= n + 1 }

  /** No way down is longer than 2 * log2(n + 1). */
  lemma HeightBound<N>(t: Tree<N>)
    requires RB(t)
    ensures forall steps: nat :: steps <= Height(t) ==> Logarithmic(steps, |Inorder(t)|)
  {
    BlackHeightBounds(t);
    assert Pow2(BH(t)) <= |Inorder(t)| + 1;
  }

  /** On the way down from the root of `whole` to `k`, after `steps` comparisons. */
  ghost predicate Descending<N>(whole: Tree<N>, k: int, t: Tree<N>, p: Path<N>, steps: nat) {
    && Plug(t, p) == whole && Items(t, p) == Inorder(whole)
    && Bracket(p, k) && steps + Height(t) <= Height(whole)
  }

  lemma Descend<N>(whole: Tree<N>, s: Side, k: int, t: Tree<N>, p: Path<N>, steps: nat)
    requires Descending(whole, k, t, p, steps) && Sorted(Inorder(whole)) && t.T?
    requires if s == L then k < t.item.key else t.item.key < k
    ensures Descending(whole, k, Child(t, s), In(s, t.item, t.color, Child(t, Other(s)), p), steps + 1)
  {
    if s == L { DescendLeft(t, p, k); } else { DescendRight(t, p, k); }
  }
}
