/** A red-black tree of embedded nodes seen as a finite map from keys to coroutines. */
module RBIndex {
  import opened RBShape
  import opened RBSearch
  import opened RBUnlink
  import opened RBNode

  type Items = seq<Item<Node>>

  ghost function Keys(s: Items): set<int> { set i | 0 <= i < |s| :: s[i].key }

  ghost function Index(s: Items): map<int, nat>
    requires Sorted(s)
  {
    map k | k in Keys(s) :: NodeWith(s, k).co
  }

  ghost function NodeWith(s: Items, k: int): Node
    requires Sorted(s) && k in Keys(s)
  {
    RankOf(s, k);
    s[Rank(s, k)].node
  }

  lemma RankOf(s: Items, k: int)
    requires Sorted(s) && k in Keys(s)
    ensures Rank(s, k) < |s| && s[Rank(s, k)].key == k
  {
    var i :| 0 <= i < |s| && s[i].key == k;
    var r := Rank(s, k);
    assert !(i < r);
  }

  lemma MemberIndex(s: Items, it: Item<Node>)
    requires Sorted(s) && it in s
    ensures it.key in Keys(s) && NodeWith(s, it.key) == it.node && Index(s)[it.key] == it.node.co
  {
    var i :| 0 <= i < |s| && s[i] == it;
    assert s[i].key == it.key;
    RankOf(s, it.key);
  }

  lemma FirstIsLeast(s: Items)
    requires Sorted(s) && s != []
    ensures s[0].key in Keys(s) && forall k :: k in Keys(s) ==> s[0].key <= k
  {
  }

  lemma IndexIs(s: Items, m: map<int, nat>)
    requires Sorted(s) && m.Keys == Keys(s)
    requires forall i :: 0 <= i < |s| ==> m[s[i].key] == s[i].node.co
    ensures Index(s) == m
  {
    forall k | k in Keys(s) ensures Index(s)[k] == m[k] {
      RankOf(s, k);
    }
  }

  lemma AllMembers(s: Items)
    requires Sorted(s)
    ensures forall i :: 0 <= i < |s| ==> s[i].key in Index(s) && Index(s)[s[i].key] == s[i].node.co
  {
    forall i | 0 <= i < |s| ensures s[i].key in Index(s) && Index(s)[s[i].key] == s[i].node.co {
      MemberIndex(s, s[i]);
    }
  }

  lemma KeysAround(a: Items, it: Item<Node>, b: Items)
    ensures Keys(a + [it] + b) == Keys(a + b) + {it.key}
  {
    var s, s' := a + [it] + b, a + b;
    assert s[|a|] == it;
    forall i | 0 <= i < |s'| ensures s'[i].key in Keys(s) {
      assert s'[i] == s[if i < |a| then i else i + 1];
    }
    forall i | 0 <= i < |s| && i != |a| ensures s[i].key in Keys(s') {
      assert s[i] == s'[if i < |a| then i else i - 1];
    }
  }

  lemma Around<A>(a: seq<A>, x: A, b: seq<A>, i: int)
    requires 0 <= i < |a + [x] + b|
    ensures (a + [x] + b)[i] == if i < |a| then (a + b)[i] else if i == |a| then x else (a + b)[i - 1]
  {
  }

  lemma Fresh(a: Items, it: Item<Node>, b: Items)
    requires Sorted(a + [it] + b)
    ensures Sorted(a + b) && it.key !in Keys(a + b)
  {
    MinusSorted(a, it, b);
    Split(a, it, b, a + [it] + b);
    forall i | 0 <= i < |a + b| ensures (a + b)[i].key != it.key {
      assert (a + b)[i] == if i < |a| then a[i] else b[i - |a|];
    }
  }

  /** One item more or less is one key more or less. */
  lemma IndexAround(a: Items, it: Item<Node>, b: Items)
    requires Sorted(a + [it] + b)
    ensures Sorted(a + b) && it.key !in Index(a + b) && Index(a + [it] + b) == Index(a + b)[it.key := it.node.co]
  {
    var s, s' := a + [it] + b, a + b;
    Fresh(a, it, b);
    KeysAround(a, it, b);
    AllMembers(s');
    var m := Index(s')[it.key := it.node.co];
    forall i | 0 <= i < |s| ensures m[s[i].key] == s[i].node.co {
      Around(a, it, b, i);
    }
    IndexIs(s, m);
  }

  lemma IndexInsert(s: Items, it: Item<Node>)
    requires Sorted(s) && !HasKey(s, it.key)
    ensures Sorted(InsertSorted(s, it)) && Index(InsertSorted(s, it)) == Index(s)[it.key := it.node.co]
  {
    InsertKeepsSorted(s, it);
    var r := Rank(s, it.key);
    assert s == s[..r] + s[r..];
    IndexAround(s[..r], it, s[r..]);
  }

  lemma IndexMinus(s: Items, it: Item<Node>)
    requires Sorted(s) && it in s
    ensures Sorted(Minus(s, it)) && it.key in Index(s) && Index(Minus(s, it)) == Index(s) - {it.key}
  {
    var r :| 0 <= r < |s| && s[r] == it;
    var a, b := s[..r], s[r + 1..];
    assert s == a + [it] + b;
    MinusSorted(a, it, b);
    IndexAround(a, it, b);
    Forget(Index(a + b), it.key, it.node.co);
  }

  lemma Forget(m: map<int, nat>, k: int, v: nat)
    requires k !in m
    ensures m[k := v] - {k} == m
  {
  }
}
