/** The hash chains and the recency list of the page cache, as the source links
    them through its static pool. Links are pool indexes, `NIL` for a null pointer;
    each field of the page descriptor is one array over the pool. */
module PageIndex {
  import opened MachineInts
  import opened PageCacheModel
  import PageCacheProtocol

  const NIL: int := -1

  /** The 32-bit mixing hash of (device, block), reduced to a bucket. */
  function JenkinsBucket(dev: bv32, block: bv32): (b: bv32)
    ensures b < 64
  {
    var h0 := dev ^ block;
    var h1 := h0 ^ (h0 >> 16);
    var h2 := h1 * 0x45d9f3b;
    (h2 ^ (h2 >> 16)) & 63
  }

  const BUCKETS: nat := 64

  lemma SmallBucket(b: bv32)
    requires b < 64
    ensures b as nat < BUCKETS
  {
  }

  /** The bucket of a key, as the index uses it. */
  function BucketOf(k: Key): (b: nat)
    ensures b < BUCKETS
  {
    SmallBucket(JenkinsBucket(k.dev as bv32, k.block as bv32));
    JenkinsBucket(k.dev as bv32, k.block as bv32) as nat
  }

  function Head(s: seq<nat>): int {
    if s == [] then NIL else s[0]
  }

  function NextIn(s: seq<nat>, i: nat): int
    requires i < |s|
  {
    if i + 1 < |s| then s[i + 1] else NIL
  }

  function PrevIn(s: seq<nat>, i: nat): int
    requires i < |s|
  {
    if i > 0 then s[i - 1] else NIL
  }

  function Last(s: seq<nat>): int {
    if s == [] then NIL else s[|s| - 1]
  }

  ghost predicate Within(s: seq<nat>, n: nat) {
    forall i | 0 <= i < |s| :: s[i] < n
  }

  /** The links `next` lead through `s` in order and end after its last element. */
  ghost predicate Forward(next: seq<int>, s: seq<nat>) {
    && Within(s, |next|)
    && forall i {:trigger NextIn(s, i)} | 0 <= i < |s| :: next[s[i]] == NextIn(s, i)
  }

  ghost predicate Backward(prev: seq<int>, s: seq<nat>) {
    && Within(s, |prev|)
    && forall i {:trigger PrevIn(s, i)} | 0 <= i < |s| :: prev[s[i]] == PrevIn(s, i)
  }

  function Cut(s: seq<nat>, k: nat): seq<nat>
    requires k < |s|
  {
    s[..k] + s[k + 1..]
  }

  /** Bypassing element `k` on the way forward. */
  lemma ForwardCut(next: seq<int>, s: seq<nat>, k: nat, next': seq<int>)
    requires Distinct(s) && k < |s| && Forward(next, s) && |next'| == |next|
    requires forall p | 0 <= p < |next| && p != s[k] && (k > 0 ==> p != s[k - 1]) :: next'[p] == next[p]
    requires k > 0 ==> next'[s[k - 1]] == next[s[k]]
    ensures Forward(next', Cut(s, k))
  {
    var c := Cut(s, k);
    forall i | 0 <= i < |c| ensures c[i] < |next'| && next'[c[i]] == NextIn(c, i) {
      var j := if i < k then i else i + 1;
      assert c[i] == s[j] && s[j] != s[k];
      assert next[s[j]] == NextIn(s, j) && next[s[k]] == NextIn(s, k);
      if j + 1 == k {
        assert NextIn(c, i) == NextIn(s, k);
      } else {
        assert k > 0 ==> s[j] != s[k - 1];
      }
    }
  }

  /** Bypassing element `k` on the way back. */
  lemma BackwardCut(prev: seq<int>, s: seq<nat>, k: nat, prev': seq<int>)
    requires Distinct(s) && k < |s| && Backward(prev, s) && |prev'| == |prev|
    requires forall p | 0 <= p < |prev| && p != s[k] && (k + 1 < |s| ==> p != s[k + 1]) :: prev'[p] == prev[p]
    requires k + 1 < |s| ==> prev'[s[k + 1]] == prev[s[k]]
    ensures Backward(prev', Cut(s, k))
  {
    var c := Cut(s, k);
    forall i | 0 <= i < |c| ensures c[i] < |prev'| && prev'[c[i]] == PrevIn(c, i) {
      if i < k {
        assert c[i] == s[i] && PrevIn(c, i) == PrevIn(s, i);
      } else if i == k {
        assert c[i] == s[k + 1] && PrevIn(c, i) == PrevIn(s, k);
      } else {
        assert c[i] == s[i + 1] && PrevIn(c, i) == PrevIn(s, i + 1);
      }
    }
  }

  lemma CutDistinct(s: seq<nat>, k: nat)
    requires Distinct(s) && k < |s|
    ensures Distinct(Cut(s, k)) && s[k] !in Cut(s, k) && forall q :: q in s <==> q in Cut(s, k) || q == s[k]
  {
    WithoutSplit(s, k);
    WithoutMembers(s, s[k]);
  }

  lemma CutEnds(s: seq<nat>, k: nat)
    requires k < |s|
    ensures Head(Cut(s, k)) == if k == 0 then NextIn(s, 0) else Head(s)
    ensures Last(Cut(s, k)) == if k == |s| - 1 then PrevIn(s, k) else Last(s)
  {
  }

  /** `s` is the doubly linked list from `head` to `tail`, and no page off the list
      keeps a link. */
  ghost predicate Linked(prev: seq<int>, next: seq<int>, head: int, tail: int, s: seq<nat>) {
    && Distinct(s) && |prev| == |next| && head == Head(s) && tail == Last(s)
    && Forward(next, s) && Backward(prev, s)
    && (forall p | 0 <= p < |next| && p !in s :: prev[p] == NIL && next[p] == NIL)
  }

  lemma UnlinkKeeps(prev: seq<int>, next: seq<int>, head: int, tail: int, s: seq<nat>, k: nat)
    requires Linked(prev, next, head, tail, s) && k < |s|
    ensures var p, n := PrevIn(s, k), NextIn(s, k);
            p < |next| && n < |prev| && s[k] < |prev| && next[s[k]] == n && prev[s[k]] == p
            && Linked((if n == NIL then prev else prev[n := p])[s[k] := NIL],
                      (if p == NIL then next else next[p := n])[s[k] := NIL],
                      if p == NIL then n else head, if n == NIL then p else tail, Cut(s, k))
  {
    var p, n := PrevIn(s, k), NextIn(s, k);
    assert next[s[k]] == n && prev[s[k]] == p;
    CutDistinct(s, k);
    CutEnds(s, k);
    ForwardCut(next, s, k, (if p == NIL then next else next[p := n])[s[k] := NIL]);
    BackwardCut(prev, s, k, (if n == NIL then prev else prev[n := p])[s[k] := NIL]);
  }

  lemma UnlinkIsSafe(prev: seq<int>, next: seq<int>, head: int, tail: int, s: seq<nat>, x: nat)
    requires Linked(prev, next, head, tail, s) && x in s
    ensures x < |prev| && x < |next| && NIL <= prev[x] < |next| && NIL <= next[x] < |prev|
  {
    var k :| 0 <= k < |s| && s[k] == x;
    UnlinkKeeps(prev, next, head, tail, s, k);
  }

  /** The pointers after a removal, however they were computed. */
  lemma Unlinked(prev: seq<int>, next: seq<int>, head: int, tail: int, s: seq<nat>, x: nat,
                 prev': seq<int>, next': seq<int>, head': int, tail': int)
    requires Linked(prev, next, head, tail, s) && x in s
    requires x < |prev| && x < |next| && NIL <= prev[x] < |next| && NIL <= next[x] < |prev|
    requires prev' == (if next[x] == NIL then prev else prev[next[x] := prev[x]])[x := NIL]
    requires next' == (if prev[x] == NIL then next else next[prev[x] := next[x]])[x := NIL]
    requires head' == (if prev[x] == NIL then next[x] else head) && tail' == if next[x] == NIL then prev[x] else tail
    ensures Linked(prev', next', head', tail', Without(s, x))
  {
    var k :| 0 <= k < |s| && s[k] == x;
    UnlinkKeeps(prev, next, head, tail, s, k);
    WithoutSplit(s, k);
  }

  lemma ForwardPush(next: seq<int>, s: seq<nat>, x: nat)
    requires Forward(next, s) && x !in s && x < |next|
    ensures Forward(next[x := Head(s)], [x] + s)
  {
    var t := [x] + s;
    forall i {:trigger NextIn(t, i)} | 0 <= i < |t| ensures next[x := Head(s)][t[i]] == NextIn(t, i) {
      if i > 0 {
        assert t[i] == s[i - 1] && next[s[i - 1]] == NextIn(s, i - 1);
      }
    }
  }

  lemma BackwardPush(prev: seq<int>, s: seq<nat>, x: nat)
    requires Backward(prev, s) && Distinct(s) && x !in s && x < |prev|
    ensures Head(s) < |prev|
    ensures Backward(if s == [] then prev[x := NIL] else prev[x := NIL][s[0] := x], [x] + s)
  {
    var t := [x] + s;
    var prev' := if s == [] then prev[x := NIL] else prev[x := NIL][s[0] := x];
    forall i {:trigger PrevIn(t, i)} | 0 <= i < |t| ensures prev'[t[i]] == PrevIn(t, i) {
      if i > 1 {
        assert t[i] == s[i - 1] && prev[s[i - 1]] == PrevIn(s, i - 1);
      }
    }
  }

  lemma PushKeeps(prev: seq<int>, next: seq<int>, head: int, tail: int, s: seq<nat>, x: nat)
    requires Linked(prev, next, head, tail, s) && x !in s && x < |next|
    ensures head < |prev|
    ensures Linked(if head == NIL then prev[x := NIL] else prev[x := NIL][head := x], next[x := head],
                   x, if tail == NIL then x else tail, [x] + s)
  {
    ForwardPush(next, s, x);
    BackwardPush(prev, s, x);
  }

  /** `chains[b]` is the singly linked list that starts in bucket `b`; no page is
      on two chains. */
  ghost predicate Chained(next: seq<int>, table: seq<int>, chains: seq<seq<nat>>) {
    && |chains| == |table|
    && (forall b | 0 <= b < |chains| :: Distinct(chains[b]))
    && (forall b | 0 <= b < |chains| :: table[b] == Head(chains[b]))
    && (forall b | 0 <= b < |chains| :: Forward(next, chains[b]))
    && (forall b, c, p {:trigger p in chains[b], p in chains[c]} |
          0 <= b < |chains| && 0 <= c < |chains| && b != c && p in chains[b] :: p !in chains[c])
  }

  /** The chains hold exactly the indexed pages, each in the bucket of its key. */
  ghost predicate IndexedBy(pages: seq<Page>, chains: seq<seq<nat>>, index: map<Key, nat>, hash: Key -> nat) {
    && (forall k | k in index ::
          index[k] < |pages| && pages[index[k]].key == k && hash(k) < |chains| && index[k] in chains[hash(k)])
    && (forall b, p {:trigger p in chains[b]} | 0 <= b < |chains| && p in chains[b] ::
          p < |pages| && hash(pages[p].key) == b && pages[p].key in index && index[pages[p].key] == p)
  }

  lemma ForwardElsewhere(next: seq<int>, s: seq<nat>, x: nat, n: int)
    requires Forward(next, s) && x !in s && x < |next|
    ensures Forward(next[x := n], s)
  {
    forall i {:trigger NextIn(s, i)} | 0 <= i < |s| ensures next[x := n][s[i]] == NextIn(s, i) {
      assert s[i] != x;
    }
  }

  function Bypass(next: seq<int>, s: seq<nat>, i: nat): seq<int>
    requires i < |s| && s[i] < |next| && PrevIn(s, i) < |next|
  {
    (if PrevIn(s, i) == NIL then next else next[PrevIn(s, i) := next[s[i]]])[s[i] := NIL]
  }

  /** Bypassing element `i` of a chain leaves it linked without that element. */
  lemma ChainBypassed(next: seq<int>, s: seq<nat>, i: nat)
    requires Distinct(s) && Forward(next, s) && i < |s|
    ensures s[i] < |next| && PrevIn(s, i) < |next|
    ensures Distinct(Cut(s, i)) && Forward(Bypass(next, s, i), Cut(s, i))
    ensures Head(Cut(s, i)) == if i == 0 then next[s[0]] else Head(s)
    ensures forall q :: q in Cut(s, i) ==> q in s
  {
    assert next[s[i]] == NextIn(s, i);
    CutDistinct(s, i);
    CutEnds(s, i);
    ForwardCut(next, s, i, Bypass(next, s, i));
  }

  /** ... and leaves every chain it does not share an element with alone. */
  lemma OtherChainsKept(next: seq<int>, table: seq<int>, chains: seq<seq<nat>>, b: nat, i: nat)
    requires Chained(next, table, chains) && b < |chains| && i < |chains[b]|
    requires chains[b][i] < |next| && PrevIn(chains[b], i) < |next|
    ensures forall c | 0 <= c < |chains| && c != b :: Forward(Bypass(next, chains[b], i), chains[c])
  {
    var s := chains[b];
    forall c | 0 <= c < |chains| && c != b ensures Forward(Bypass(next, s, i), chains[c]) {
      assert Forward(next, chains[c]);
      assert s[i] in s && (i > 0 ==> s[i - 1] in s);
      ForwardAway(next, Bypass(next, s, i), chains[c], s, i);
    }
  }

  lemma ForwardAway(next: seq<int>, next': seq<int>, t: seq<nat>, s: seq<nat>, i: nat)
    requires Forward(next, t) && i < |s| && s[i] !in t && (i > 0 ==> s[i - 1] !in t) && PrevIn(s, i) < |next| && s[i] < |next|
    requires next' == (if PrevIn(s, i) == NIL then next else next[PrevIn(s, i) := next[s[i]]])[s[i] := NIL]
    ensures Forward(next', t)
  {
    if i == 0 {
      ForwardElsewhere(next, t, s[i], NIL);
    } else {
      ForwardElsewhere(next, t, s[i - 1], next[s[i]]);
      ForwardElsewhere(next[s[i - 1] := next[s[i]]], t, s[i], NIL);
    }
  }

  /** A page without links that is not the head of the list is not on it. */
  lemma OffList(prev: seq<int>, next: seq<int>, head: int, tail: int, s: seq<nat>, p: nat)
    requires Linked(prev, next, head, tail, s) && p < |prev| && prev[p] == NIL && head != p
    ensures p !in s
  {
    forall i | 0 <= i < |s| ensures s[i] != p {
      assert prev[s[i]] == PrevIn(s, i);
    }
  }

  lemma InsertKeeps(next: seq<int>, table: seq<int>, chains: seq<seq<nat>>, b: nat, p: nat)
    requires Chained(next, table, chains) && b < |chains| && p < |next|
    requires forall c | 0 <= c < |chains| :: p !in chains[c]
    ensures Chained(next[p := table[b]], table[b := p], chains[b := [p] + chains[b]])
  {
    var chains' := chains[b := [p] + chains[b]];
    forall c | 0 <= c < |chains| ensures Forward(next[p := table[b]], chains'[c]) {
      assert Forward(next, chains[c]);
      if c == b {
        ForwardPush(next, chains[b], p);
      } else {
        ForwardElsewhere(next, chains[c], p, table[b]);
      }
    }
  }

  lemma RemoveKeeps(next: seq<int>, table: seq<int>, chains: seq<seq<nat>>, b: nat, i: nat)
    requires Chained(next, table, chains) && b < |chains| && i < |chains[b]|
    ensures var s := chains[b];
            && PrevIn(s, i) < |next| && s[i] < |next|
            && Chained(Bypass(next, s, i), if i == 0 then table[b := next[s[i]]] else table, chains[b := Without(s, s[i])])
  {
    assert Forward(next, chains[b]);
    WithoutSplit(chains[b], i);
    ChainBypassed(next, chains[b], i);
    OtherChainsKept(next, table, chains, b, i);
  }

  lemma SameKeysIndexed(pages: seq<Page>, chains: seq<seq<nat>>, index: map<Key, nat>, hash: Key -> nat, p: nat, g: Page)
    requires IndexedBy(pages, chains, index, hash) && p < |pages| && g.key == pages[p].key
    ensures IndexedBy(pages[p := g], chains, index, hash)
  {
    var pages' := pages[p := g];
    assert forall q | 0 <= q < |pages| :: pages'[q].key == pages[q].key;
  }

  /** Removing one key and its page keeps the rest of the chains indexed. */
  lemma DetachedIndexed(pages: seq<Page>, chains: seq<seq<nat>>, index: map<Key, nat>, hash: Key -> nat, p: nat)
    requires IndexedBy(pages, chains, index, hash) && p < |pages|
    requires pages[p].key in index && index[pages[p].key] == p
    requires forall b | 0 <= b < |chains| :: Distinct(chains[b])
    ensures var k := pages[p].key; var b := hash(k);
            IndexedBy(pages, chains[b := Without(chains[b], p)], index - {k}, hash)
  {
    var k := pages[p].key;
    var c := hash(k);
    WithoutMembers(chains[c], p);
    var chains', index' := chains[c := Without(chains[c], p)], index - {k};
    forall b, q | 0 <= b < |chains'| && q in chains'[b]
      ensures q < |pages| && hash(pages[q].key) == b && pages[q].key in index' && index'[pages[q].key] == q
    {
      assert q in chains[b];
    }
    forall l | l in index'
      ensures index'[l] < |pages| && pages[index'[l]].key == l && hash(l) < |chains'| && index'[l] in chains'[hash(l)]
    {
      assert l in index && index[l] != p;
    }
  }

  lemma HiddenIndexed(pages: seq<Page>, chains: seq<seq<nat>>, index: map<Key, nat>, hash: Key -> nat, p: nat, g: Page)
    requires IndexedBy(pages, chains, index, hash) && p < |pages|
    requires forall b | 0 <= b < |chains| :: p !in chains[b]
    ensures IndexedBy(pages[p := g], chains, index, hash)
  {
    assert forall k | k in index :: index[k] != p;
  }

  lemma PublishedIndexed(pages: seq<Page>, chains: seq<seq<nat>>, index: map<Key, nat>, hash: Key -> nat, p: nat)
    requires IndexedBy(pages, chains, index, hash) && p < |pages| && pages[p].key !in index
    requires hash(pages[p].key) < |chains| && forall b | 0 <= b < |chains| :: p !in chains[b]
    ensures var k := pages[p].key; var b := hash(k);
            IndexedBy(pages, chains[b := [p] + chains[b]], index[k := p], hash)
  {
    var k := pages[p].key;
    var c := hash(k);
    var chains', index' := chains[c := [p] + chains[c]], index[k := p];
    forall b, q | 0 <= b < |chains'| && q in chains'[b]
      ensures q < |pages| && hash(pages[q].key) == b && pages[q].key in index' && index'[pages[q].key] == q
    {
      assert q == p || q in chains[b];
    }
    assert p in chains'[c];
  }

  /** The file-scope state of pagecache.c: the pool, one field per link of its page
      descriptor, the bucket heads and the two ends of the recency list. */
  class PageIndex {
    const hash: Key -> nat
    var pages: seq<Page>
    var hashNext: seq<int>
    var lruPrev: seq<int>
    var lruNext: seq<int>
    var hashTable: seq<int>
    var lruHead: int
    var lruTail: int

    ghost var lru: seq<nat>
    ghost var chains: seq<seq<nat>>
    ghost var index: map<Key, nat>

    ghost predicate Shape()
      reads this
    {
      && |hashNext| == |lruPrev| == |lruNext| == |pages|
      && |hashTable| > 0 && forall k: Key :: hash(k) < |hashTable|
    }

    ghost function Abs(): Cache
      reads this
    {
      Cache(pages, lru, index)
    }

    ghost predicate Valid()
      reads this
    {
      && Shape() && Linked(lruPrev, lruNext, lruHead, lruTail, lru)
      && Chained(hashNext, hashTable, chains) && IndexedBy(pages, chains, index, hash)
      && WellFormed(Abs())
    }

    constructor (n: nat)
      ensures Valid() && Abs() == Cache(seq(n, i => FreePage), [], map[]) && |hashTable| == BUCKETS
    {
      hash := BucketOf;
      pages := seq(n, i => FreePage);
      hashNext, lruPrev, lruNext := seq(n, i => NIL), seq(n, i => NIL), seq(n, i => NIL);
      hashTable := seq(BUCKETS, i => NIL);
      lruHead, lruTail := NIL, NIL;
      lru, chains, index := [], seq(BUCKETS, i => []), map[];
    }

    method LruRemove(p: nat)
      requires Shape() && Linked(lruPrev, lruNext, lruHead, lruTail, lru) && p in lru
      modifies this`lruHead, this`lruTail, this`lru, this`lruPrev, this`lruNext
      ensures Shape() && Linked(lruPrev, lruNext, lruHead, lruTail, lru) && lru == Without(old(lru), p)
    {
      UnlinkIsSafe(lruPrev, lruNext, lruHead, lruTail, lru, p);
      var prev, next := lruPrev[p], lruNext[p];
      if prev != NIL { lruNext := lruNext[prev := next]; } else { lruHead := next; }
      if next != NIL { lruPrev := lruPrev[next := prev]; } else { lruTail := prev; }
      lruPrev, lruNext := lruPrev[p := NIL], lruNext[p := NIL];
      lru := Without(lru, p);
      Unlinked(old(lruPrev), old(lruNext), old(lruHead), old(lruTail), old(lru), p, lruPrev, lruNext, lruHead, lruTail);
    }

    method LruPush(p: nat)
      requires Shape() && Linked(lruPrev, lruNext, lruHead, lruTail, lru) && p < |pages| && p !in lru
      modifies this`lruHead, this`lruTail, this`lru, this`lruPrev, this`lruNext
      ensures Shape() && Linked(lruPrev, lruNext, lruHead, lruTail, lru) && lru == [p] + old(lru)
    {
      PushKeeps(lruPrev, lruNext, lruHead, lruTail, lru, p);
      lruPrev, lruNext, lruHead, lruTail, lru :=
        if lruHead == NIL then lruPrev[p := NIL] else lruPrev[p := NIL][lruHead := p],
        lruNext[p := lruHead], p, if lruTail == NIL then p else lruTail, [p] + lru;
    }

    method LruTouch(p: nat)
      requires Shape() && Linked(lruPrev, lruNext, lruHead, lruTail, lru) && p < |pages|
      modifies this`lruHead, this`lruTail, this`lru, this`lruPrev, this`lruNext
      ensures Shape() && Linked(lruPrev, lruNext, lruHead, lruTail, lru) && lru == Touch(old(lru), p)
    {
      if lruHead == p {
        return;
      }
      if lruPrev[p] != NIL || lruNext[p] != NIL || lruTail == p {
        WithoutMembers(lru, p);
        LruRemove(p);
      } else {
        OffList(lruPrev, lruNext, lruHead, lruTail, lru, p);
        WithoutAbsent(lru, p);
      }
      LruPush(p);
    }

    method HashInsert(p: nat)
      requires Shape() && Chained(hashNext, hashTable, chains) && p < |pages|
      requires forall b | 0 <= b < |chains| :: p !in chains[b]
      modifies this`chains, this`hashNext, this`hashTable
      ensures Shape() && Chained(hashNext, hashTable, chains)
      ensures var b := hash(pages[p].key); chains == old(chains)[b := [p] + old(chains)[b]]
    {
      var bucket := hash(pages[p].key);
      InsertKeeps(hashNext, hashTable, chains, bucket, p);
      hashNext := hashNext[p := hashTable[bucket]];
      hashTable := hashTable[bucket := p];
      chains := chains[bucket := [p] + chains[bucket]];
    }

    method HashRemove(p: nat)
      requires Shape() && Chained(hashNext, hashTable, chains) && p < |pages|
      modifies this`chains, this`hashNext, this`hashTable
      ensures Shape() && Chained(hashNext, hashTable, chains)
      ensures var b := hash(pages[p].key); chains == old(chains)[b := Without(old(chains)[b], p)]
    {
      var bucket := hash(pages[p].key);
      ghost var c := chains[bucket];
      var prev, cur := NIL, hashTable[bucket];
      ghost var i := 0;
      while cur != NIL && cur != p
        invariant 0 <= i <= |c|
        invariant cur == (if i < |c| then c[i] else NIL) && prev == (if i > 0 then c[i - 1] else NIL)
        invariant forall j | 0 <= j < i :: c[j] != p
        decreases |c| - i
      {
        assert Forward(hashNext, c) && hashNext[c[i]] == NextIn(c, i);
        prev, cur := cur, hashNext[cur];
        i := i + 1;
      }
      if cur == NIL {
        WithoutAbsent(c, p);
        assert chains == chains[bucket := c];
      } else {
        RemoveKeeps(hashNext, hashTable, chains, bucket, i);
        if prev != NIL { hashNext := hashNext[prev := hashNext[p]]; } else { hashTable := hashTable[bucket := hashNext[p]]; }
        hashNext := hashNext[p := NIL];
        chains := chains[bucket := Without(c, p)];
      }
    }

    /** Lookup refines the index map. */
    method HashFind(k: Key) returns (r: int)
      requires Shape() && Chained(hashNext, hashTable, chains) && IndexedBy(pages, chains, index, hash)
      ensures r == if k in index then index[k] else NIL
    {
      var bucket := hash(k);
      ghost var c := chains[bucket];
      r := hashTable[bucket];
      ghost var i := 0;
      while r != NIL
        invariant 0 <= i <= |c| && r == (if i < |c| then c[i] else NIL)
        invariant forall j | 0 <= j < i :: c[j] < |pages| && pages[c[j]].key != k
        decreases |c| - i
      {
        assert c[i] in chains[bucket];
        if pages[r].key == k {
          return;
        }
        assert Forward(hashNext, c) && hashNext[c[i]] == NextIn(c, i);
        r := hashNext[r];
        i := i + 1;
      }
    }

    // ---- Critical sections -------------------------------------------------------

    /** Overwrite the flags, pins or contents of a descriptor. */
    method SetPage(p: nat, g: Page)
      requires Shape() && IndexedBy(pages, chains, index, hash) && p < |pages| && g.key == pages[p].key
      modifies this`pages
      ensures Shape() && IndexedBy(pages, chains, index, hash) && pages == old(pages)[p := g]
    {
      SameKeysIndexed(pages, chains, index, hash, p, g);
      pages := pages[p := g];
    }

    method PinPage(p: nat)
      requires Shape() && Linked(lruPrev, lruNext, lruHead, lruTail, lru) && p < |pages|
      requires IndexedBy(pages, chains, index, hash)
      modifies this`pages, this`lruHead, this`lruTail, this`lru, this`lruPrev, this`lruNext
      ensures Shape() && Linked(lruPrev, lruNext, lruHead, lruTail, lru) && IndexedBy(pages, chains, index, hash)
      ensures Abs() == PinAndTouch(old(Abs()), p)
    {
      SetPage(p, pages[p].(pins := pages[p].pins + 1));
      LruTouch(p);
    }

    /** First section of `pc_get_page`: pin a cached block. */
    method PinHit(k: Key) returns (r: int)
      requires Valid()
      modifies this
      ensures Valid()
      ensures r == if k in old(index) then old(index)[k] else NIL
      ensures r == NIL ==> Abs() == old(Abs())
      ensures r != NIL ==> Abs() == PinAndTouch(old(Abs()), r)
    {
      r := HashFind(k);
      if r != NIL {
        PinAndTouchKeeps(Abs(), r);
        PinPage(r);
      }
    }

    /** Take a published page off the chains and the recency list and free its slot. */
    method Detach(p: nat)
      requires Valid() && p < |pages| && pages[p].valid
      modifies this
      ensures Valid() && Abs() == Unpublish(old(Abs()), p)
    {
      UnpublishKeeps(Abs(), p);
      DetachedIndexed(pages, chains, index, hash, p);
      var g := pages[p];
      LruRemove(p);
      HashRemove(p);
      index := index - {g.key};
      SetPage(p, g.(used := false, valid := false, dirty := false, pins := 0));
    }

    /** The walk from the tail to the least recently used unpinned page. */
    method FindVictim() returns (r: int)
      requires Valid()
      ensures r == match Victim(pages, lru) case Some(v) => v case None => NIL
    {
      r := lruTail;
      ghost var i := |lru|;
      assert lru[..i] == lru;
      while r != NIL
        invariant 0 <= i <= |lru| && r == Last(lru[..i])
        invariant Victim(pages, lru) == Victim(pages, lru[..i])
        decreases i
      {
        assert lru[..i][..i - 1] == lru[..i - 1];
        assert lru[i - 1] in lru && lruPrev[lru[i - 1]] == PrevIn(lru, i - 1);
        if pages[r].pins == 0 {
          return;
        }
        r := lruPrev[r];
        i := i - 1;
      }
    }

    /** The least recently used unpinned page is freed; `writeback` says whether it
        had to be written back first. */
    method EvictOne() returns (r: int, writeback: bool)
      requires Valid()
      modifies this
      ensures Valid()
      ensures match Victim(old(pages), old(lru))
              case None => r == NIL && !writeback && Abs() == old(Abs())
              case Some(v) => r == v < |old(pages)| && writeback == old(pages)[v].dirty && Abs() == Unpublish(old(Abs()), v)
    {
      VictimIsUnpinned(pages, lru);
      r := FindVictim();
      writeback := false;
      if r != NIL {
        writeback := pages[r].dirty;
        Detach(r);
      }
    }

    /** `_alloc_page`: the first free slot, else an evicted one. */
    method AllocPage() returns (r: int, writeback: bool)
      requires Valid()
      modifies this
      ensures Valid() && Abs() == AllocRest(old(Abs()))
      ensures r == match AllocSlot(old(Abs())) case Some(p) => p case None => NIL
      ensures writeback <==> FirstFree(old(pages), 0).None? && r != NIL && 0 <= r < |old(pages)| && old(pages)[r].dirty
    {
      var i := 0;
      while i < |pages|
        invariant 0 <= i <= |pages| && FirstFree(pages, 0) == FirstFree(pages, i)
      {
        if !pages[i].used {
          return i, false;
        }
        i := i + 1;
      }
      r, writeback := EvictOne();
    }

    /** Second section of `pc_get_page`: claim a slot for a block that is not cached. */
    method ClaimSlot(k: Key, spb: nat) returns (r: int, writeback: bool)
      requires Valid()
      modifies this
      ensures Valid()
      ensures match AllocSlot(old(Abs()))
              case None => r == NIL && Abs() == AllocRest(old(Abs()))
              case Some(p) => r == p < |AllocRest(old(Abs())).pages| && Abs() == Claim(AllocRest(old(Abs())), p, k, spb)
      ensures writeback <==> FirstFree(old(pages), 0).None? && r != NIL && 0 <= r < |old(pages)| && old(pages)[r].dirty
    {
      AllocSlotIsFree(Abs());
      r, writeback := AllocPage();
      if r != NIL {
        ClaimPage(r, k, spb);
      }
    }

    method ClaimPage(p: nat, k: Key, spb: nat)
      requires Valid() && p < |pages| && !pages[p].used
      modifies this`pages
      ensures Valid() && Abs() == Claim(old(Abs()), p, k, spb)
    {
      FreeSlotKeeps(p, Claim(Abs(), p, k, spb).pages[p]);
      pages := pages[p := pages[p].(used := true, valid := false, dirty := false, key := k, spb := spb, pins := 1)];
    }

    /** An unpublished slot is on no chain, so its descriptor may change freely. */
    lemma FreeSlotKeeps(p: nat, g: Page)
      requires Valid() && p < |pages| && !pages[p].valid && !g.valid && !g.dirty
      ensures forall b | 0 <= b < |chains| :: p !in chains[b]
      ensures IndexedBy(pages[p := g], chains, index, hash) && WellFormed(Cache(pages[p := g], lru, index))
    {
      assert forall b | 0 <= b < |chains| :: p !in chains[b];
      HiddenIndexed(pages, chains, index, hash, p, g);
    }

    /** Last section of `pc_get_page`: publish the filled slot, or pin the page that
        another thread published for the block meanwhile. */
    method PublishOrShare(p: nat) returns (r: int)
      requires Valid() && p < |pages| && pages[p].used && !pages[p].valid
      modifies this
      ensures Valid() && 0 <= r < |old(pages)|
      ensures var k := old(pages)[p].key;
              if k in old(index) then r == old(index)[k] && Abs() == PinAndTouch(old(Abs()), r)
              else r == p && Abs() == Publish(old(Abs()), p)
    {
      r := HashFind(pages[p].key);
      if r != NIL {
        PinAndTouchKeeps(Abs(), r);
        PinPage(r);
      } else {
        PublishKeeps(Abs(), p);
        FreeSlotKeeps(p, pages[p]);
        PublishPage(p);
        r := p;
      }
    }

    method PublishPage(p: nat)
      requires Shape() && Linked(lruPrev, lruNext, lruHead, lruTail, lru) && p < |pages|
      requires Chained(hashNext, hashTable, chains) && IndexedBy(pages, chains, index, hash)
      requires pages[p].key !in index && forall b | 0 <= b < |chains| :: p !in chains[b]
      modifies this
      ensures Shape() && Linked(lruPrev, lruNext, lruHead, lruTail, lru)
      ensures Chained(hashNext, hashTable, chains) && IndexedBy(pages, chains, index, hash)
      ensures Abs() == Publish(old(Abs()), p)
    {
      PublishedIndexed(pages, chains, index, hash, p);
      HashInsert(p);
      index := index[pages[p].key := p];
      SetPage(p, pages[p].(valid := true));
      LruTouch(p);
    }

    /** Changes only the dirty flag and the pins of a page. */
    method Adjust(p: nat, dirty: bool, pins: int)
      requires Valid() && p < |pages| && (dirty ==> pages[p].valid)
      modifies this`pages
      ensures Valid() && pages == old(pages)[p := old(pages)[p].(dirty := dirty, pins := pins)]
    {
      SetPage(p, pages[p].(dirty := dirty, pins := pins));
    }

    /** The locked part of `pc_mark_dirty`: flag and pin the page. */
    method MarkAndPin(k: Key) returns (r: int)
      requires Valid()
      modifies this
      ensures Valid()
      ensures if k in old(index) then r == old(index)[k] && Abs() == PageCacheProtocol.MarkAndPin(old(Abs()), r)
              else r == NIL && Abs() == old(Abs())
    {
      r := HashFind(k);
      if r != NIL {
        Adjust(r, true, pages[r].pins + 1);
      }
    }

    /** `pc_put_page`: drop one pin, unless there is none. */
    method PutPage(k: Key)
      requires Valid()
      modifies this
      ensures Valid()
      ensures Abs() == if k in old(index) && old(pages)[old(index)[k]].pins != 0
                       then AddPins(old(Abs()), old(index)[k], -1) else old(Abs())
    {
      var p := HashFind(k);
      if p != NIL && pages[p].pins != 0 {
        Adjust(p, pages[p].dirty, pages[p].pins - 1);
      }
    }

    method PinForWriteback(p: nat)
      requires Valid() && p < |pages|
      modifies this
      ensures Valid() && Abs() == AddPins(old(Abs()), p, 1)
    {
      Adjust(p, pages[p].dirty, pages[p].pins + 1);
    }

    /** Takes a clean, unpinned page out of the index and its buffer from it. */
    method DropPage(p: nat)
      requires Valid() && p < |pages| && pages[p].valid && pages[p].pins <= 0 && !pages[p].dirty
      modifies this
      ensures Valid() && Abs() == Drop(old(Abs()), p)
    {
      DropKeeps(Abs(), p);
      Detach(p);
      SetPage(p, pages[p].(buf := None, data := []));
    }

    /** The first section of `pc_invalidate_block`: a pinned page stays, a dirty one is
        pinned for the write-back of page `writeback`, any other is dropped. */
    method InvalidateBlock(k: Key) returns (writeback: int)
      requires Valid()
      modifies this
      ensures Valid()
      ensures if k !in old(index) || old(pages)[old(index)[k]].pins > 0 then writeback == NIL && Abs() == old(Abs())
              else if old(pages)[old(index)[k]].dirty then writeback == old(index)[k] && Abs() == AddPins(old(Abs()), writeback, 1)
              else writeback == NIL && Abs() == Drop(old(Abs()), old(index)[k])
    {
      writeback := NIL;
      var p := HashFind(k);
      if p != NIL && pages[p].pins <= 0 {
        if pages[p].dirty {
          PinForWriteback(p);
          writeback := p;
        } else {
          DropPage(p);
        }
      }
    }
  }
}
