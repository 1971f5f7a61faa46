/** The page cache of drivers/block/pagecache as a value: the page pool, the
    recency list, the lookup index, and what each critical section does to them. */
module PageCacheModel {
  import opened MachineInts

  const PC_MAX_BLOCK_SIZE: nat := 4096
  const SECTOR_SIZE: nat := 512

  /** The bytes of one sector; the cache moves sectors and never looks inside. */
  datatype Sector = Sector(bytes: seq<Byte>)

  function ZeroSector(): Sector {
    Sector(seq(SECTOR_SIZE, i => 0))
  }

  datatype Key = Key(dev: U32, block: U32)

  /** One descriptor of the static pool. `data` holds the block buffer as its
      `block_size / 512` sectors; `buf` names the allocation behind it. */
  datatype Page = Page(used: bool, valid: bool, dirty: bool, key: Key, spb: nat,
                       pins: int, buf: Option<nat>, data: seq<Sector>)

  /** `lru` lists the published pages, most recently used first; `index` is the
      map that the hash chains implement. */
  datatype Cache = Cache(pages: seq<Page>, lru: seq<nat>, index: map<Key, nat>)

  const FreePage: Page := Page(false, false, false, Key(0, 0), 0, 0, None, [])

  /** A page is VALID exactly when the index maps its key to it, exactly when it
      is on the recency list; no key and no list entry occurs twice. */
  ghost predicate WellFormed(c: Cache) {
    && IndexSound(c)
    && (forall p | 0 <= p < |c.pages| && c.pages[p].valid :: c.pages[p].key in c.index && c.index[c.pages[p].key] == p)
    && LruSound(c)
    && (forall p | 0 <= p < |c.pages| && c.pages[p].valid :: p in c.lru)
    && Distinct(c.lru)
    && (forall p | 0 <= p < |c.pages| && c.pages[p].valid :: c.pages[p].used)
    && (forall p | 0 <= p < |c.pages| && c.pages[p].dirty :: c.pages[p].valid)
  }

  ghost predicate IndexSound(c: Cache) {
    forall k | k in c.index ::
      c.index[k] < |c.pages| && c.pages[c.index[k]].valid && c.pages[c.index[k]].key == k
  }

  ghost predicate LruSound(c: Cache) {
    forall p | p in c.lru :: p < |c.pages| && c.pages[p].valid
  }

  // ---- The recency list --------------------------------------------------

  function Without(s: seq<nat>, p: nat): seq<nat> {
    if s == [] then [] else if s[0] == p then s[1..] else [s[0]] + Without(s[1..], p)
  }

  function Touch(lru: seq<nat>, p: nat): seq<nat> {
    [p] + Without(lru, p)
  }

  lemma {:induction false} WithoutSplit(s: seq<nat>, k: nat)
    requires k < |s| && Distinct(s)
    ensures Without(s, s[k]) == s[..k] + s[k + 1..]
  {
    if k > 0 {
      WithoutSplit(s[1..], k - 1);
      assert s[1..][..k - 1] == s[1..k];
      assert s[..k] == [s[0]] + s[1..k];
    }
  }

  lemma {:induction false} WithoutAbsent(s: seq<nat>, p: nat)
    requires p !in s
    ensures Without(s, p) == s
  {
    if s != [] {
      WithoutAbsent(s[1..], p);
    }
  }

  lemma WithoutPresent(s: seq<nat>, p: nat, k: nat)
    requires Distinct(s) && k < |s| && s[k] == p
    ensures Distinct(Without(s, p))
    ensures forall q :: q in Without(s, p) <==> q in s && q != p
  {
    WithoutSplit(s, k);
    var w := Without(s, p);
    forall q ensures q in w <==> q in s && q != p {
      if q in s && q != p {
        var j :| 0 <= j < |s| && s[j] == q;
        assert w[if j < k then j else j - 1] == q;
      }
    }
  }

  lemma WithoutMembers(s: seq<nat>, p: nat)
    requires Distinct(s)
    ensures Distinct(Without(s, p))
    ensures forall q :: q in Without(s, p) <==> q in s && q != p
  {
    if p in s {
      var k :| 0 <= k < |s| && s[k] == p;
      WithoutPresent(s, p, k);
    } else {
      WithoutAbsent(s, p);
    }
  }

  lemma TouchMembers(s: seq<nat>, p: nat)
    requires Distinct(s)
    ensures Distinct(Touch(s, p))
    ensures forall q :: q in Touch(s, p) <==> q in s || q == p
  {
    WithoutMembers(s, p);
    var t := Touch(s, p);
    assert forall i | 0 < i < |t| :: t[i] in Without(s, p);
  }

  // ---- Critical sections ---------------------------------------------------

  /** Pin the page and make it the most recently used one. */
  function PinAndTouch(c: Cache, p: nat): Cache
    requires p < |c.pages|
  {
    c.(pages := c.pages[p := c.pages[p].(pins := c.pages[p].pins + 1)], lru := Touch(c.lru, p))
  }

  function AddPins(c: Cache, p: nat, n: int): Cache
    requires p < |c.pages|
  {
    c.(pages := c.pages[p := c.pages[p].(pins := c.pages[p].pins + n)])
  }

  /** Take the page off both structures and free its slot, keeping its buffer. */
  function Unpublish(c: Cache, p: nat): Cache
    requires p < |c.pages|
  {
    Cache(c.pages[p := c.pages[p].(used := false, valid := false, dirty := false, pins := 0)],
          Without(c.lru, p), c.index - {c.pages[p].key})
  }

  /** As `Unpublish`, and the buffer goes back to the page allocator. */
  function Drop(c: Cache, p: nat): Cache
    requires p < |c.pages|
  {
    var d := Unpublish(c, p);
    d.(pages := d.pages[p := d.pages[p].(buf := None, data := [])])
  }

  /** Publish a filled page under its key. */
  function Publish(c: Cache, p: nat): Cache
    requires p < |c.pages|
  {
    Cache(c.pages[p := c.pages[p].(valid := true)], Touch(c.lru, p), c.index[c.pages[p].key := p])
  }

  /** Claim a free slot for a block about to be read. */
  function Claim(c: Cache, p: nat, k: Key, spb: nat): Cache
    requires p < |c.pages|
  {
    c.(pages := c.pages[p := c.pages[p].(used := true, valid := false, dirty := false, key := k, spb := spb, pins := 1)])
  }

  /** The least recently used page that nobody pins. */
  function Victim(pages: seq<Page>, lru: seq<nat>): Option<nat> {
    if lru == [] then None
    else
      var p := lru[|lru| - 1];
      if p < |pages| && pages[p].pins == 0 then Some(p) else Victim(pages, lru[..|lru| - 1])
  }

  /** The first slot that is not in use, counting from `i`. */
  function FirstFree(pages: seq<Page>, i: nat): Option<nat>
    decreases |pages| - i
  {
    if i >= |pages| then None
    else if !pages[i].used then Some(i)
    else FirstFree(pages, i + 1)
  }

  lemma {:induction false} VictimIsUnpinned(pages: seq<Page>, lru: seq<nat>)
    ensures var v := Victim(pages, lru);
            v.Some? ==> v.value in lru && v.value < |pages| && pages[v.value].pins == 0
    ensures Victim(pages, lru).None? ==> forall i | 0 <= i < |lru| && lru[i] < |pages| :: pages[lru[i]].pins != 0
  {
    if lru != [] {
      VictimIsUnpinned(pages, lru[..|lru| - 1]);
      assert lru == lru[..|lru| - 1] + [lru[|lru| - 1]];
    }
  }

  lemma {:induction false} FirstFreeIsFree(pages: seq<Page>, i: nat)
    ensures var f := FirstFree(pages, i);
            f.Some? ==> i <= f.value < |pages| && !pages[f.value].used
                        && forall j | i <= j < f.value :: pages[j].used
    ensures FirstFree(pages, i).None? ==> forall j | i <= j < |pages| :: pages[j].used
    decreases |pages| - i
  {
    if i < |pages| && pages[i].used {
      FirstFreeIsFree(pages, i + 1);
    }
  }

  /** The slot `_alloc_page` returns: the first free one, else the victim's. */
  function AllocSlot(c: Cache): Option<nat> {
    if FirstFree(c.pages, 0).Some? then FirstFree(c.pages, 0) else Victim(c.pages, c.lru)
  }

  /** What it leaves behind: the victim, if one is needed, is no longer published. */
  function AllocRest(c: Cache): Cache {
    if FirstFree(c.pages, 0).None? && Victim(c.pages, c.lru).Some? && Victim(c.pages, c.lru).value < |c.pages|
    then Unpublish(c, Victim(c.pages, c.lru).value) else c
  }

  lemma AllocSlotIsFree(c: Cache)
    ensures AllocSlot(c).Some? ==> AllocSlot(c).value < |AllocRest(c).pages| && !AllocRest(c).pages[AllocSlot(c).value].used
  {
    FirstFreeIsFree(c.pages, 0);
    VictimIsUnpinned(c.pages, c.lru);
  }

  // ---- Every critical section keeps the cache well formed ---------------------

  lemma PinAndTouchKeeps(c: Cache, p: nat)
    requires WellFormed(c) && p < |c.pages| && c.pages[p].valid
    ensures WellFormed(PinAndTouch(c, p))
  {
    TouchMembers(c.lru, p);
  }

  lemma UnpublishKeepsIndex(c: Cache, p: nat)
    requires WellFormed(c) && p < |c.pages| && c.pages[p].valid
    ensures var d := Unpublish(c, p);
            && IndexSound(d)
            && forall q | 0 <= q < |d.pages| && d.pages[q].valid :: d.pages[q].key in d.index && d.index[d.pages[q].key] == q
  {
    var d := Unpublish(c, p);
    assert forall k | k in d.index :: c.index[k] != p;
  }

  lemma UnpublishKeepsList(c: Cache, p: nat)
    requires WellFormed(c) && p < |c.pages| && c.pages[p].valid
    ensures var d := Unpublish(c, p);
            && LruSound(d) && Distinct(d.lru)
            && forall q | 0 <= q < |d.pages| && d.pages[q].valid :: q in d.lru && d.pages[q].used
  {
    WithoutMembers(c.lru, p);
  }

  lemma UnpublishKeeps(c: Cache, p: nat)
    requires WellFormed(c) && p < |c.pages| && c.pages[p].valid
    ensures WellFormed(Unpublish(c, p))
  {
    UnpublishKeepsIndex(c, p);
    UnpublishKeepsList(c, p);
  }

  lemma DropKeeps(c: Cache, p: nat)
    requires WellFormed(c) && p < |c.pages| && c.pages[p].valid
    ensures WellFormed(Drop(c, p))
  {
    UnpublishKeeps(c, p);
  }

  lemma PublishKeeps(c: Cache, p: nat)
    requires WellFormed(c) && p < |c.pages| && !c.pages[p].valid && c.pages[p].used
    requires c.pages[p].key !in c.index
    ensures WellFormed(Publish(c, p))
  {
    TouchMembers(c.lru, p);
  }
}
