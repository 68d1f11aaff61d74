/** The d-ary max-heap that the setwise ranker's heap sort keeps over its array of
    documents, stated on sequences. Position j >= 1 has parent (j - 1) / d, so the
    children of i are d*i+1 .. d*i+d. Documents are compared by a rank function on
    their passage text; these predicates only describe what a perfect judge builds. */
module SetwiseHeap {
  import opened Prelude
  import opened UniversalRanker
  import opened SetwiseLabels

  /** x / d for d >= 1, counted out by repeated subtraction. */
  function Quot(x: nat, d: nat): nat
    requires 1 <= d
    decreases x
  {
    if x < d then 0 else Quot(x - d, d) + 1
  }

  function Parent(j: nat, d: nat): (p: nat)
    requires 1 <= j && 1 <= d
    ensures p < j
  {
    QuotNoLarger(j - 1, d);
    Quot(j - 1, d)
  }

  /** d * i, counted out by repeated addition (MulIsProduct). */
  function Mul(d: nat, i: nat): nat {
    if i == 0 then 0 else Mul(d, i - 1) + d
  }

  lemma {:induction false} MulIsProduct(d: nat, i: nat)
    ensures Mul(d, i) == d * i
  {
    if i > 0 {
      MulIsProduct(d, i - 1);
      assert d * i == d * (i - 1) + d;
    }
  }

  lemma MulStep(d: nat, m: nat)
    ensures Mul(d, m + 1) == Mul(d, m) + d
  {
  }

  lemma {:induction false} MulMonotone(d: nat, a: nat, b: nat)
    requires a <= b
    ensures Mul(d, a) <= Mul(d, b)
    decreases b - a
  {
    if a < b {
      MulStep(d, a);
      MulMonotone(d, a + 1, b);
    }
  }

  /** Children come after their parent. */
  lemma {:induction false} ChildAfterParent(d: nat, i: nat)
    requires 1 <= d
    ensures i < Mul(d, i) + 1
  {
    if i > 0 {
      ChildAfterParent(d, i - 1);
    }
  }

  lemma {:induction false} QuotNoLarger(x: nat, d: nat)
    requires 1 <= d
    ensures Quot(x, d) <= x
    decreases x
  {
    if x >= d {
      QuotNoLarger(x - d, d);
    }
  }

  /** x = d*q + r with 0 <= r < d pins down the quotient. */
  lemma {:induction false} QuotientUnique(x: nat, d: nat, q: nat, r: nat)
    requires 1 <= d && r < d && x == Mul(d, q) + r
    ensures Quot(x, d) == q
    decreases q
  {
    if q > 0 {
      QuotientUnique(x - d, d, q - 1, r);
    }
  }

  /** Every x splits as d * Quot(x, d) plus a remainder below d. */
  lemma {:induction false} QuotientSplits(x: nat, d: nat) returns (r: nat)
    requires 1 <= d
    ensures r < d && x == Mul(d, Quot(x, d)) + r
    decreases x
  {
    if x < d {
      r := x;
    } else {
      r := QuotientSplits(x - d, d);
      MulStep(d, Quot(x - d, d));
    }
  }

  /** Quot is Dafny's division. */
  lemma QuotIsDiv(x: nat, d: nat)
    requires 1 <= d
    ensures Quot(x, d) == x / d
  {
    var r := QuotientSplits(x, d);
    var q := Quot(x, d);
    MulIsProduct(d, q);
    var q', r' := x / d, x % d;
    MulIsProduct(d, q');
    assert x == Mul(d, q') + r' && r' < d;
    QuotientUnique(x, d, q', r');
  }

  lemma {:induction false} QuotMonotone(x: nat, y: nat, d: nat)
    requires 1 <= d && x <= y
    ensures Quot(x, d) <= Quot(y, d)
    decreases x
  {
    if x >= d {
      QuotMonotone(x - d, y - d, d);
    }
  }

  /** The children of i are exactly the positions d*i+1 .. d*i+d. */
  lemma ParentOfChild(i: nat, j: nat, d: nat)
    requires 1 <= j && 1 <= d
    ensures Parent(j, d) == i <==> Mul(d, i) + 1 <= j <= Mul(d, i) + d
  {
    if Mul(d, i) + 1 <= j <= Mul(d, i) + d {
      QuotientUnique(j - 1, d, i, j - 1 - Mul(d, i));
    }
    var r := QuotientSplits(j - 1, d);
  }

  /** The document at j ranks no higher than its parent. */
  ghost predicate ParentDominates(a: seq<SearchResult>, key: Relevance, d: nat, j: nat)
    requires 1 <= d && 1 <= j < |a|
  {
    key(a[j].text) <= key(a[Parent(j, d)].text)
  }

  /** The heap order holds below position lo in the window a[..n], except for the
      links from the position skip to its children (the hole a sift-down is filling). */
  ghost predicate HeapBelow(a: seq<SearchResult>, key: Relevance, d: nat, n: nat, lo: nat, skip: nat)
    requires 1 <= d && n <= |a|
  {
    forall j :: 1 <= j < n && lo <= Parent(j, d) && Parent(j, d) != skip ==> ParentDominates(a, key, d, j)
  }

  /** a[..n] is a d-ary max-heap. */
  ghost predicate IsHeap(a: seq<SearchResult>, key: Relevance, d: nat, n: nat)
    requires 1 <= d && n <= |a|
  {
    HeapBelow(a, key, d, n, 0, n)
  }

  /** The grandparent link around the hole at i: the parent of i (when it is inside the
      region) already ranks at least as high as every child of i. */
  ghost predicate Bridged(a: seq<SearchResult>, key: Relevance, d: nat, n: nat, i: nat, lo: nat)
    requires 1 <= d && n <= |a|
  {
    1 <= i && lo <= Parent(i, d) ==>
      forall c :: 1 <= c < n && Parent(c, d) == i ==> key(a[c].text) <= key(a[Parent(i, d)].text)
  }

  /** What a sift-down from position i needs: the region below lo is a heap except at
      the hole i, and the hole's parent already dominates the hole's children. */
  ghost predicate SiftReady(a: seq<SearchResult>, key: Relevance, d: nat, n: nat, i: nat, lo: nat)
    requires 1 <= d && n <= |a|
  {
    lo <= i && HeapBelow(a, key, d, n, lo, i) && Bridged(a, key, d, n, i, lo)
  }

  /** Every document from position m on ranks at least as high as every document
      before it: the tail a[m..] is the sorted top of the list. */
  ghost predicate SortedFrom(a: seq<SearchResult>, key: Relevance, m: nat) {
    forall p, q :: 0 <= p < q < |a| && m <= q ==> key(a[p].text) <= key(a[q].text)
  }

  /** a with positions i and j exchanged. */
  function Swap<T>(a: seq<T>, i: nat, j: nat): (b: seq<T>)
    requires i < |a| && j < |a|
    ensures |b| == |a| && b[i] == a[j] && b[j] == a[i]
    ensures forall t :: 0 <= t < |a| && t != i && t != j ==> b[t] == a[t]
  {
    a[i := a[j]][j := a[i]]
  }

  /** Exchanging two positions inside the window a[..n] keeps the window's contents
      and everything after it. */
  lemma SwapInWindow<T>(a: seq<T>, n: nat, i: nat, j: nat)
    requires i < n && j < n && n <= |a|
    ensures multiset(Swap(a, i, j)[..n]) == multiset(a[..n])
    ensures Swap(a, i, j)[n..] == a[n..]
  {
    var b := Swap(a, i, j);
    if i != j {
      assert b[..n] == a[..n][i := a[j]][j := a[i]];
    } else {
      assert b[..n] == a[..n];
    }
  }

  /** A change that keeps the contents of the window a[..n] and everything after it
      keeps the contents of the whole list. */
  lemma WindowKeepsContents<T>(a: seq<T>, b: seq<T>, n: nat)
    requires n <= |a| && |b| == |a|
    requires multiset(b[..n]) == multiset(a[..n]) && b[n..] == a[n..]
    ensures multiset(b) == multiset(a)
  {
    assert a == a[..n] + a[n..];
    assert b == b[..n] + b[n..];
  }

  /** Nothing lies below the last parent, so before the build phase the region from
      n / d + 1 on is trivially a heap. */
  lemma HeapBelowLastParent(a: seq<SearchResult>, key: Relevance, d: nat, n: nat)
    requires 1 <= d && n <= |a|
    ensures HeapBelow(a, key, d, n, Quot(n, d) + 1, n)
  {
    forall j | 1 <= j < n
      ensures Parent(j, d) <= Quot(n, d)
    {
      QuotMonotone(j - 1, n, d);
    }
  }

  /** The root of a heap ranks at least as high as every document in the window. */
  lemma {:induction false} RootIsMax(a: seq<SearchResult>, key: Relevance, d: nat, n: nat, p: nat)
    requires 1 <= d && n <= |a| && IsHeap(a, key, d, n) && p < n
    ensures key(a[p].text) <= key(a[0].text)
    decreases p
  {
    if p > 0 {
      assert ParentDominates(a, key, d, p);
      RootIsMax(a, key, d, n, Parent(p, d));
    }
  }

  /** A hole whose document already ranks at least as high as each of its children can
      be closed: the whole region is then a heap. */
  lemma SiftSettles(a: seq<SearchResult>, key: Relevance, d: nat, n: nat, i: nat, lo: nat)
    requires 1 <= d && n <= |a| && SiftReady(a, key, d, n, i, lo)
    requires forall c :: 1 <= c < n && Parent(c, d) == i ==> key(a[c].text) <= key(a[i].text)
    ensures HeapBelow(a, key, d, n, lo, n)
  {
    forall j | 1 <= j < n && lo <= Parent(j, d)
      ensures ParentDominates(a, key, d, j)
    {
      if Parent(j, d) != i {
        assert Parent(j, d) != i;
      }
    }
  }

  /** One level of the sift-down: i's best child `largest` ranks at least as high as i
      and as all its siblings; after the exchange the hole has moved down to largest. */
  lemma SiftMovesDown(a: seq<SearchResult>, key: Relevance, d: nat, n: nat, i: nat, lo: nat,
                      largest: nat)
    requires 1 <= d && n <= |a| && SiftReady(a, key, d, n, i, lo)
    requires 1 <= largest < n && Parent(largest, d) == i
    requires key(a[i].text) <= key(a[largest].text)
    requires forall c :: 1 <= c < n && Parent(c, d) == i ==> key(a[c].text) <= key(a[largest].text)
    ensures SiftReady(Swap(a, i, largest), key, d, n, largest, lo)
  {
    var b := Swap(a, i, largest);
    forall j | 1 <= j < n && lo <= Parent(j, d) && Parent(j, d) != largest
      ensures ParentDominates(b, key, d, j)
    {
      var pj := Parent(j, d);
      if pj == i {
        // a sibling of largest, or largest itself (now holding a[i])
      } else if j == i {
        // the bridge: i's parent dominated every child of i, largest among them
        assert key(a[largest].text) <= key(a[pj].text);
      } else {
        assert ParentDominates(a, key, d, j);
        assert j != largest;
        assert pj != largest;
      }
    }
    assert Bridged(b, key, d, n, largest, lo) by {
      forall c | 1 <= c < n && Parent(c, d) == largest
        ensures key(b[c].text) <= key(b[Parent(largest, d)].text)
      {
        assert Parent(c, d) != i;
        assert ParentDominates(a, key, d, c);
      }
    }
  }

  /** A hole without children inside the window closes by itself. */
  lemma LeafSettles(a: seq<SearchResult>, key: Relevance, d: nat, n: nat, i: nat, lo: nat)
    requires 1 <= d && n <= |a| && SiftReady(a, key, d, n, i, lo) && Mul(d, i) + 1 >= n
    ensures HeapBelow(a, key, d, n, lo, n)
  {
    forall c | 1 <= c < n && Parent(c, d) == i ensures false {
      ParentOfChild(i, c, d);
    }
    SiftSettles(a, key, d, n, i, lo);
  }

  /** The group a sift-down step shows the judge: the document at i, then its children
      inside the window, d*i+1 up to (excluding) min(d*(i+1)+1, n). */
  function Group(a: seq<SearchResult>, d: nat, n: nat, i: nat): (g: seq<SearchResult>)
    requires 1 <= d && n <= |a| && Mul(d, i) + 1 < n
    ensures 2 <= |g| <= d + 1 && Mul(d, i) + |g| <= n
    ensures i < n && g[0] == a[i] && forall t :: 1 <= t < |g| ==> g[t] == a[Mul(d, i) + t]
  {
    var first, stop := Mul(d, i) + 1, Min(Mul(d, i + 1) + 1, n);
    MulStep(d, i);
    ChildAfterParent(d, i);
    assert first < stop <= first + d;
    [a[i]] + a[first .. stop]
  }

  /** The group holds i and its min(d, n - d*i - 1) children inside the window. */
  lemma GroupSize(a: seq<SearchResult>, d: nat, n: nat, i: nat)
    requires 1 <= d && n <= |a| && Mul(d, i) + 1 < n
    ensures |Group(a, d, n, i)| == 1 + Min(d, n - Mul(d, i) - 1)
  {
    MulStep(d, i);
  }

  /** The position a group label stands for: label 0 is i itself, label t >= 1 the
      t-th child; a label beyond the group keeps i. */
  function GroupIndex(d: nat, n: nat, i: nat, b: nat): nat {
    if b == 0 then i else Mul(d, i) + b
  }

  /** The position heapify settles on for label position b: the position the label
      stands for inside the group, and i itself for a label past the group's end (the
      IndexError heapify catches). Either i or one of its children in the window. */
  function PickPosition(d: nat, n: nat, i: nat, b: nat): (p: nat)
    requires 1 <= d && Mul(d, i) + 1 < n
    ensures p < n && (p != i ==> i < p && Parent(p, d) == i)
    ensures b > Min(d, n - Mul(d, i) - 1) ==> p == i
    ensures b <= Min(d, n - Mul(d, i) - 1) ==> p == GroupIndex(d, n, i, b)
  {
    ChildAfterParent(d, i);
    if b == 0 || b > Min(d, n - Mul(d, i) - 1) then i
    else ParentOfChild(i, Mul(d, i) + b, d); Mul(d, i) + b
  }

  /** When a most relevant document of the group is named, the position it stands for
      ranks at least as high as i and each of i's children in the window; if it is not
      i, it is one of those children. */
  lemma BestOfGroup(a: seq<SearchResult>, key: Relevance, d: nat, n: nat, i: nat, b: nat)
    requires 1 <= d && n <= |a| && Mul(d, i) + 1 < n
    requires IsBestDoc(Group(a, d, n, i), key, b)
    ensures var largest := GroupIndex(d, n, i, b);
            largest < n && (largest != i ==> 1 <= largest && Parent(largest, d) == i)
            && key(a[i].text) <= key(a[largest].text)
            && forall c :: 1 <= c < n && Parent(c, d) == i ==> key(a[c].text) <= key(a[largest].text)
  {
    var g := Group(a, d, n, i);
    var largest := GroupIndex(d, n, i, b);
    GroupIndexInWindow(a, d, n, i, b);
    assert key(g[0].text) <= key(g[b].text);
    forall c | 1 <= c < n && Parent(c, d) == i
      ensures key(a[c].text) <= key(a[largest].text)
    {
      var t := ChildInGroup(a, d, n, i, c);
    }
  }

  /** Each label of the group stands for a position inside the window holding the
      document shown under it: i itself, or one of its children. */
  lemma GroupIndexInWindow(a: seq<SearchResult>, d: nat, n: nat, i: nat, b: nat)
    requires 1 <= d && n <= |a| && Mul(d, i) + 1 < n && b < |Group(a, d, n, i)|
    ensures var p := GroupIndex(d, n, i, b);
            p < n && Group(a, d, n, i)[b] == a[p] && (p != i ==> 1 <= p && Parent(p, d) == i)
  {
    var g := Group(a, d, n, i);
    ChildAfterParent(d, i);
    if b != 0 {
      var p := Mul(d, i) + b;
      assert 1 <= b <= d && p < n && g[b] == a[p];
      ParentOfChild(i, p, d);
    }
  }

  /** A child of i inside the window is shown in i's group, at position c - d*i. */
  lemma ChildInGroup(a: seq<SearchResult>, d: nat, n: nat, i: nat, c: nat) returns (t: nat)
    requires 1 <= d && n <= |a| && Mul(d, i) + 1 < n
    requires 1 <= c < n && Parent(c, d) == i
    ensures 1 <= t < |Group(a, d, n, i)| && Group(a, d, n, i)[t] == a[c]
  {
    ParentOfChild(i, c, d);
    GroupSize(a, d, n, i);
    t := c - Mul(d, i);
  }

  /** The first sift-down of the build phase starts from a heap below i + 1. */
  lemma BuildStepReady(a: seq<SearchResult>, key: Relevance, d: nat, n: nat, i: nat)
    requires 1 <= d && n <= |a| && HeapBelow(a, key, d, n, i + 1, n)
    ensures SiftReady(a, key, d, n, i, i)
  {
  }

  /** Moving the root behind the window: the new last slot holds a maximum of the
      window, the sorted tail grows by one, and what is left is a heap with a hole at
      the root. */
  lemma ExtractStep(a: seq<SearchResult>, key: Relevance, d: nat, i: nat)
    requires 1 <= d && 1 <= i < |a| && IsHeap(a, key, d, i + 1) && SortedFrom(a, key, i + 1)
    ensures SortedFrom(Swap(a, i, 0), key, i)
    ensures SiftReady(Swap(a, i, 0), key, d, i, 0, 0)
  {
    var b := Swap(a, i, 0);
    forall p | 0 <= p <= i ensures key(a[p].text) <= key(a[0].text) {
      RootIsMax(a, key, d, i + 1, p);
    }
    forall p, q | 0 <= p < q < |b| && i <= q
      ensures key(b[p].text) <= key(b[q].text)
    {
      if q == i {
        assert b[i] == a[0];
      } else if p == 0 {
        assert b[0] == a[i];
      } else if p == i {
        assert b[i] == a[0];
      }
    }
    forall j | 1 <= j < i && 0 <= Parent(j, d) && Parent(j, d) != 0
      ensures ParentDominates(b, key, d, j)
    {
      assert ParentDominates(a, key, d, j);
    }
  }

  /** Reordering the documents before m keeps the sorted tail sorted. */
  lemma SortedFromPrefixShuffle(a: seq<SearchResult>, b: seq<SearchResult>, key: Relevance, m: nat)
    requires m <= |a| && |b| == |a| && b[m..] == a[m..]
    requires multiset(b[..m]) == multiset(a[..m])
    requires SortedFrom(a, key, m)
    ensures SortedFrom(b, key, m)
  {
    forall p, q | 0 <= p < q < |b| && m <= q
      ensures key(b[p].text) <= key(b[q].text)
    {
      assert b[q] == b[m..][q - m] == a[m..][q - m] == a[q];
      if p < m {
        assert b[p] in multiset(b[..m]);
        assert b[p] in multiset(a[..m]);
        var p' :| 0 <= p' < m && a[..m][p'] == b[p];
      } else {
        assert b[p] == b[m..][p - m] == a[p];
      }
    }
  }

  /** How many root-to-end exchanges the extraction loop makes for a window of n:
      it stops after k when 1 <= k < n, and otherwise exhausts the window. */
  function ExtractionCount(n: nat, k: int): (m: nat)
    ensures m <= n
    ensures n <= 1 ==> m == 0
    ensures 1 <= k < n ==> m == k
    ensures 2 <= n && (k <= 0 || n <= k) ==> m == n - 1
  {
    if n <= 1 then 0 else if 1 <= k < n then k else n - 1
  }
}
