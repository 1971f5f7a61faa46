/** Agreement of the page cache with the devices below it. It holds in every run
    whose steps respect two rules about overlapping calls, in particular in every
    run of calls that do not overlap. */
module PageCacheCoherence {
  import opened MachineInts
  import opened PageCacheModel
  import opened PageCacheProtocol
  import opened PageCacheSafety

  /** Sectors per block of each device: every client of a device uses one size. */
  type Geometry = map<U32, nat>

  ghost predicate InRange(disk: Disk, geo: Geometry, k: Key, spb: nat) {
    && k.dev in disk && k.dev in geo && spb == geo[k.dev] > 0
    && k.block * spb + spb <= |disk[k.dev]| < TWO_32
  }

  /** The first `n` sectors of the page are what the device holds. */
  ghost predicate SyncedUpTo(disk: Disk, g: Page, n: nat) {
    && n <= |g.data|
    && forall j | 0 <= j < n :: g.data[j] == ReadSector(disk, Some(g.key.dev), Lba(g.key, g.spb, j))
  }

  /** The block as a direct sector-by-sector read of its device returns it. */
  function DirectRead(disk: Disk, k: Key, spb: nat): seq<Sector> {
    seq(spb, i requires i >= 0 => ReadSector(disk, Some(k.dev), Lba(k, spb, i)))
  }

  // ---- The rules ---------------------------------------------------------------

  /** The page a step takes out of the cache. */
  function Removes(s: State, step: Step): Option<nat>
    requires Enabled(s, step)
  {
    match step
    case InvalidateBlock(t, k) => Unless(Find(s.cache, k), s.cache)
    case Advance(t, _) =>
      (match s.threads[t].call
       case Missed(_, _) => if FirstFree(s.cache.pages, 0).Some? then None else Victim(s.cache.pages, s.cache.lru)
       case Dropping(dev, i) => if Sweeps(s.cache, dev, i) then Some(i) else None
       case _ => None)
    case _ => None
  }

  /** A page found by its key stays if it is pinned. */
  function Unless(p: Option<nat>, c: Cache): Option<nat> {
    if p.Some? && p.value < |c.pages| && c.pages[p.value].pins <= 0 then p else None
  }

  /** The sweep of a device takes slot `i` out. */
  predicate Sweeps(c: Cache, dev: U32, i: nat) {
    i < |c.pages| && c.pages[i].valid && c.pages[i].key.dev == dev && c.pages[i].pins <= 0
  }

  /** Every request names a live device, its one block size and an existing block. */
  ghost predicate RequestRule(s: State, step: Step, geo: Geometry) {
    step.Get? ==>
      var k := step.key;
      && k.dev in s.disk && k.dev in geo && geo[k.dev] > 0 && step.size == geo[k.dev] * SECTOR_SIZE
      && |s.disk[k.dev]| < TWO_32 && k.block * geo[k.dev] + geo[k.dev] < TWO_32
  }

  /** What a write-back has already written of a buffer is not edited away from it. */
  ghost predicate ExactEditRule(s: State, step: Step)
    requires Enabled(s, step)
  {
    step.Edit? ==>
      var p := s.threads[step.t].holds[step.h].page;
      forall u | 0 <= u < |s.threads| && s.threads[u].call.Writing? && s.threads[u].call.page == p ::
        SyncedUpTo(s.disk, s.cache.pages[p].(data := step.data), s.threads[u].call.next)
  }

  /** No block is taken out of the cache while a fill of it has read what is no longer
      on the device. */
  ghost predicate ExactRemovalRule(s: State, step: Step)
    requires Enabled(s, step)
  {
    RemovalOk(s, Removes(s, step))
  }

  ghost predicate RemovalOk(s: State, p: Option<nat>) {
    p.Some? && p.value < |s.cache.pages| ==> FillsCurrent(s, s.cache.pages[p.value].key)
  }

  /** Every fill of block `k` has read what is on the device now. */
  ghost predicate FillsCurrent(s: State, k: Key) {
    forall u | 0 <= u < |s.threads| && s.threads[u].call.Filling? && s.threads[u].call.page < |s.cache.pages|
               && s.cache.pages[s.threads[u].call.page].key == k ::
      SyncedUpTo(s.disk, s.cache.pages[s.threads[u].call.page], s.threads[u].call.next)
  }

  ghost predicate Rules(s: State, step: Step, geo: Geometry)
    requires Enabled(s, step)
  {
    RequestRule(s, step, geo) && ExactEditRule(s, step) && ExactRemovalRule(s, step)
  }

  ghost predicate RunObeys(s: State, steps: seq<Step>, geo: Geometry)
    requires IsRun(s, steps)
    decreases steps
  {
    steps != [] ==> Rules(s, steps[0], geo) && RunObeys(Apply(s, steps[0]), steps[1..], geo)
  }

  // ---- The invariant -----------------------------------------------------------

  ghost predicate PagesInRange(s: State, geo: Geometry) {
    && (forall p | 0 <= p < |s.cache.pages| && s.cache.pages[p].used ::
          InRange(s.disk, geo, s.cache.pages[p].key, s.cache.pages[p].spb))
    && (forall t | 0 <= t < |s.threads| && s.threads[t].call.Missed? ::
          InRange(s.disk, geo, s.threads[t].call.key, s.threads[t].call.spb))
  }

  /** Every published page that is neither edited nor dirty equals its block. */
  ghost predicate CleanPagesSynced(s: State) {
    forall p | 0 <= p < |s.cache.pages| && s.cache.pages[p].valid && !s.cache.pages[p].dirty && p !in s.editing ::
      SyncedUpTo(s.disk, s.cache.pages[p], s.cache.pages[p].spb)
  }

  ghost predicate WritersSynced(s: State) {
    forall t | 0 <= t < |s.threads| :: WriterSynced(s, s.threads[t].call)
  }

  ghost predicate WriterSynced(s: State, call: Call) {
    match call
    case Writing(p, i, _) => p < |s.cache.pages| && SyncedUpTo(s.disk, s.cache.pages[p], i)
    case _ => true
  }

  ghost predicate FillsSynced(s: State) {
    forall t | 0 <= t < |s.threads| :: FillSynced(s, s.threads[t].call)
  }

  /** What a fill has read is current, unless the block was published meanwhile. */
  ghost predicate FillSynced(s: State, call: Call) {
    call.Filling? ==>
      && call.page < |s.cache.pages|
      && (s.cache.pages[call.page].key in s.cache.index || SyncedUpTo(s.disk, s.cache.pages[call.page], call.next))
  }

  ghost predicate Coherent(s: State, geo: Geometry) {
    PagesInRange(s, geo) && CleanPagesSynced(s) && WritersSynced(s) && FillsSynced(s)
  }

  // ---- Sectors of different blocks are different ---------------------------------

  lemma LbaInRange(disk: Disk, geo: Geometry, k: Key, spb: nat, i: nat)
    requires InRange(disk, geo, k, spb) && i < spb
    ensures Lba(k, spb, i) == k.block * spb + i < |disk[k.dev]|
  {
  }

  lemma LbaInjective(disk: Disk, geo: Geometry, k: Key, l: Key, spb: nat, i: nat, j: nat)
    requires InRange(disk, geo, k, spb) && InRange(disk, geo, l, spb) && i < spb && j < spb
    requires k.dev == l.dev && Lba(k, spb, i) == Lba(l, spb, j)
    ensures k == l && i == j
  {
    LbaInRange(disk, geo, k, spb, i);
    LbaInRange(disk, geo, l, spb, j);
    BlockOfLba(k.block, spb, i);
    BlockOfLba(l.block, spb, j);
  }

  lemma BlockOfLba(b: nat, spb: nat, i: nat)
    requires i < spb
    ensures (b * spb + i) / spb == b && (b * spb + i) % spb == i
  {
    var q, r := (b * spb + i) / spb, (b * spb + i) % spb;
    assert (b - q) * spb == r - i;
    assert b - q >= 1 ==> (b - q) * spb >= spb;
    assert b - q <= -1 ==> (b - q) * spb <= 0 - spb;
  }

  /** Writing sector `i` of page `q` brings it in line, and changes nothing that
      another block's page has been compared with. */
  lemma WriteSyncs(disk: Disk, geo: Geometry, q: Page, i: nat, g: Page, n: nat)
    requires InRange(disk, geo, q.key, q.spb) && InRange(disk, geo, g.key, g.spb)
    requires i < q.spb && i < |q.data| && n <= g.spb && SyncedUpTo(disk, g, n)
    requires g.key != q.key || (g.data == q.data && g.spb == q.spb)
    ensures var disk' := WriteSector(disk, q.key.dev, Lba(q.key, q.spb, i), q.data[i]);
            SyncedUpTo(disk', g, n) && (g.key == q.key && n == i ==> SyncedUpTo(disk', g, i + 1))
  {
    var disk' := WriteSector(disk, q.key.dev, Lba(q.key, q.spb, i), q.data[i]);
    LbaInRange(disk, geo, q.key, q.spb, i);
    forall j | 0 <= j < n ensures g.data[j] == ReadSector(disk', Some(g.key.dev), Lba(g.key, g.spb, j)) {
      LbaInRange(disk, geo, g.key, g.spb, j);
      if g.key.dev == q.key.dev && Lba(g.key, g.spb, j) == Lba(q.key, q.spb, i) {
        LbaInjective(disk, geo, g.key, q.key, g.spb, j, i);
      }
    }
  }

  // ---- Steps that leave the devices and the relied-on contents alone ----------------

  /** Same block, same contents, same publication state. */
  predicate SameBlock(g: Page, h: Page) {
    g.used == h.used && g.valid == h.valid && g.key == h.key && g.spb == h.spb && g.data == h.data
  }

  ghost predicate OthersSameBlock(s: State, r: State, x: Option<nat>) {
    |r.cache.pages| == |s.cache.pages|
    && forall p | 0 <= p < |s.cache.pages| && Some(p) != x :: SameBlock(s.cache.pages[p], r.cache.pages[p])
  }

  ghost predicate UnreadByOthers(s: State, t: nat, x: nat) {
    forall u | 0 <= u < |s.threads| && u != t ::
      !WritesBack(s.threads[u].call, x) && !(s.threads[u].call.Filling? && s.threads[u].call.page == x)
  }

  lemma ExclusiveIsUnread(s: State, t: nat, x: nat)
    requires OnlyThread(s, t, x)
    ensures UnreadByOthers(s, t, x)
  {
    forall u | 0 <= u < |s.threads| && u != t
      ensures !WritesBack(s.threads[u].call, x) && !(s.threads[u].call.Filling? && s.threads[u].call.page == x)
    {
      assert Own(s.threads[u], x) == 0;
    }
  }

  /** No other thread fills page `x`, and what another has written back of it is on the
      device. */
  ghost predicate OthersAgree(s: State, r: State, t: nat, x: nat)
    requires x < |r.cache.pages|
  {
    forall u | 0 <= u < |s.threads| && u != t ::
      && !(s.threads[u].call.Filling? && s.threads[u].call.page == x)
      && (s.threads[u].call.Writing? && s.threads[u].call.page == x ==> SyncedUpTo(r.disk, r.cache.pages[x], s.threads[u].call.next))
  }

  /** A step of thread `t` that writes to no device and changes at most page `x` beyond
      flags and pins, in agreement with what other threads do with that page. */
  ghost predicate QuietStep(s: State, r: State, t: nat, x: Option<nat>) {
    && r.disk == s.disk && OthersSameBlock(s, r, x)
    && t < |s.threads| == |r.threads| && (forall u | 0 <= u < |s.threads| && u != t :: r.threads[u].call == s.threads[u].call)
    && (x.Some? ==> x.value < |s.cache.pages| && OthersAgree(s, r, t, x.value))
    && (forall k | k in s.cache.index && k !in r.cache.index :: FillsCurrent(s, k))
  }

  /** The parts of `Coherent` that concern thread `t` and page `x` themselves. */
  ghost predicate OwnPartOk(s: State, r: State, t: nat, x: Option<nat>, geo: Geometry)
    requires QuietStep(s, r, t, x)
  {
    && (r.threads[t].call.Missed? ==> InRange(r.disk, geo, r.threads[t].call.key, r.threads[t].call.spb))
    && WriterSynced(r, r.threads[t].call) && FillSynced(r, r.threads[t].call)
    && (x.Some? && r.cache.pages[x.value].used ==> InRange(r.disk, geo, r.cache.pages[x.value].key, r.cache.pages[x.value].spb))
    && (forall p | 0 <= p < |r.cache.pages| && r.cache.pages[p].valid && !r.cache.pages[p].dirty && p !in r.editing ::
          || (Some(p) != x && !s.cache.pages[p].dirty && p !in s.editing)
          || SyncedUpTo(r.disk, r.cache.pages[p], r.cache.pages[p].spb))
  }

  lemma QuietStepKeeps(s: State, r: State, t: nat, x: Option<nat>, geo: Geometry)
    requires ThreadsOk(s) && Coherent(s, geo) && QuietStep(s, r, t, x) && OwnPartOk(s, r, t, x, geo)
    ensures Coherent(r, geo)
  {
    assert PagesInRange(r, geo);
    assert CleanPagesSynced(r);
    forall u | 0 <= u < |r.threads| ensures WriterSynced(r, r.threads[u].call) && FillSynced(r, r.threads[u].call) {
      if u != t {
        OtherCallSynced(s, r, t, x, u, geo);
      }
    }
  }

  lemma OtherCallSynced(s: State, r: State, t: nat, x: Option<nat>, u: nat, geo: Geometry)
    requires ThreadsOk(s) && Coherent(s, geo) && QuietStep(s, r, t, x) && u < |s.threads| && u != t
    ensures WriterSynced(r, r.threads[u].call) && FillSynced(r, r.threads[u].call)
  {
    var call := s.threads[u].call;
    assert CallOk(s.cache, call) && WriterSynced(s, call) && FillSynced(s, call);
  }

  // ---- Each step that obeys the rules keeps agreement ---------------------------------

  lemma GetCoheres(s: State, step: Step, geo: Geometry)
    requires ThreadsOk(s) && Coherent(s, geo) && step.Get? && Enabled(s, step) && RequestRule(s, step, geo)
    ensures Coherent(Apply(s, step), geo)
  {
    var r := Apply(s, step);
    if Find(s.cache, step.key).None? && RequestOk(s, step.key, step.size) {
      RequestInRange(s, step.key, step.size, geo);
    }
    QuietStepKeeps(s, r, step.t, None, geo);
  }

  lemma RequestInRange(s: State, k: Key, size: U32, geo: Geometry)
    requires RequestOk(s, k, size) && k.dev in s.disk && k.dev in geo && geo[k.dev] > 0
    requires size == geo[k.dev] * SECTOR_SIZE && |s.disk[k.dev]| < TWO_32
    requires k.block * geo[k.dev] + geo[k.dev] < TWO_32
    ensures InRange(s.disk, geo, k, size / SECTOR_SIZE)
  {
  }

  lemma PutCoheres(s: State, step: Step, geo: Geometry)
    requires ThreadsOk(s) && Coherent(s, geo) && step.Put? && Enabled(s, step)
    ensures Coherent(Apply(s, step), geo)
  {
    QuietStepKeeps(s, Apply(s, step), step.t, None, geo);
  }

  lemma MarkDirtyCoheres(s: State, step: Step, geo: Geometry)
    requires ThreadsOk(s) && Coherent(s, geo) && step.MarkDirty? && Enabled(s, step)
    ensures Coherent(Apply(s, step), geo)
  {
    QuietStepKeeps(s, Apply(s, step), step.t, None, geo);
  }

  lemma FlushDevCoheres(s: State, step: Step, geo: Geometry)
    requires ThreadsOk(s) && Coherent(s, geo) && step.FlushDev? && Enabled(s, step)
    ensures Coherent(Apply(s, step), geo)
  {
    QuietStepKeeps(s, Apply(s, step), step.t, None, geo);
  }

  lemma EditCoheres(s: State, step: Step, geo: Geometry)
    requires ThreadsOk(s) && Coherent(s, geo) && step.Edit? && Enabled(s, step) && ExactEditRule(s, step)
    ensures Coherent(Apply(s, step), geo)
  {
    var x := s.threads[step.t].holds[step.h].page;
    assert HoldOk(s.cache, s.threads[step.t].holds[step.h]);
    forall u | 0 <= u < |s.threads| ensures !(s.threads[u].call.Filling? && s.threads[u].call.page == x) {
      assert CallOk(s.cache, s.threads[u].call);
    }
    QuietStepKeeps(s, Apply(s, step), step.t, Some(x), geo);
  }

  /** Taking an unpinned page out of the cache. */
  lemma RemovalCoheres(s: State, r: State, t: nat, p: nat, call: Call, geo: Geometry)
    requires Inv(s) && Coherent(s, geo) && t < |s.threads| && p < |s.cache.pages|
    requires s.cache.pages[p].valid && s.cache.pages[p].pins <= 0 && RemovalOk(s, Some(p))
    requires r.cache == Drop(s.cache, p) && r.disk == s.disk && r.editing == s.editing
    requires r.threads == SetCall(s, t, call).threads && !call.Missed? && PinnedBy(call).None?
    ensures Coherent(r, geo)
  {
    UnpinnedIsFree(s, t, p);
    ExclusiveIsUnread(s, t, p);
    RemovalIsQuiet(s, r, t, p, call, geo);
    QuietStepKeeps(s, r, t, Some(p), geo);
  }

  lemma RemovalIsQuiet(s: State, r: State, t: nat, p: nat, call: Call, geo: Geometry)
    requires WellFormed(s.cache) && t < |s.threads| && p < |s.cache.pages| && UnreadByOthers(s, t, p)
    requires s.cache.pages[p].valid && RemovalOk(s, Some(p))
    requires r.cache == Drop(s.cache, p) && r.disk == s.disk && r.editing == s.editing
    requires r.threads == SetCall(s, t, call).threads && !call.Missed? && PinnedBy(call).None?
    ensures QuietStep(s, r, t, Some(p))
  {
  }

  lemma InvalidateCoheres(s: State, step: Step, geo: Geometry)
    requires Inv(s) && Coherent(s, geo) && step.InvalidateBlock? && Enabled(s, step) && Rules(s, step, geo)
    ensures Coherent(Apply(s, step), geo)
  {
    var r := Apply(s, step);
    match Find(s.cache, step.key) {
      case Some(p) =>
        if s.cache.pages[p].pins <= 0 {
          UnpinnedIsClean(s, p);
          assert r.threads == SetCall(s, step.t, Idle).threads;
          RemovalCoheres(s, r, step.t, p, Idle, geo);
        }
      case None =>
    }
  }

  lemma ClaimCoheres(s: State, t: nat, alloc: Option<nat>, geo: Geometry)
    requires Inv(s) && Coherent(s, geo) && Enabled(s, Advance(t, alloc)) && s.threads[t].call.Missed?
    requires Rules(s, Advance(t, alloc), geo)
    ensures Coherent(AdvanceCall(s, t, alloc), geo)
  {
    FirstFreeIsFree(s.cache.pages, 0);
    VictimIsUnpinned(s.cache.pages, s.cache.lru);
    if FirstFree(s.cache.pages, 0).Some? {
      ClaimedCoheres(s, AdvanceCall(s, t, alloc), t, FirstFree(s.cache.pages, 0).value, geo);
    } else if Victim(s.cache.pages, s.cache.lru).Some? {
      VictimCoheres(s, t, alloc, Victim(s.cache.pages, s.cache.lru).value, geo);
    } else {
      NothingClaimedCoheres(s, t, alloc, geo);
    }
  }

  lemma VictimCoheres(s: State, t: nat, alloc: Option<nat>, v: nat, geo: Geometry)
    requires Inv(s) && Coherent(s, geo) && Enabled(s, Advance(t, alloc)) && s.threads[t].call.Missed?
    requires ExactRemovalRule(s, Advance(t, alloc))
    requires FirstFree(s.cache.pages, 0).None? && Victim(s.cache.pages, s.cache.lru) == Some(v)
    requires v in s.cache.lru && v < |s.cache.pages| && s.cache.pages[v].pins == 0
    ensures Coherent(AdvanceCall(s, t, alloc), geo)
  {
    UnpinnedIsClean(s, v);
    ClaimedCoheres(s, AdvanceCall(s, t, alloc), t, v, geo);
  }

  lemma NothingClaimedCoheres(s: State, t: nat, alloc: Option<nat>, geo: Geometry)
    requires ThreadsOk(s) && Coherent(s, geo) && Enabled(s, Advance(t, alloc)) && s.threads[t].call.Missed?
    requires AllocSlot(s.cache) == None
    ensures Coherent(AdvanceCall(s, t, alloc), geo)
  {
    MoveOnCoheres(s, AdvanceCall(s, t, alloc), t, Idle, geo);
  }

  lemma ClaimedCoheres(s: State, r: State, t: nat, p: nat, geo: Geometry)
    requires Inv(s) && Coherent(s, geo) && t < |s.threads| && s.threads[t].call.Missed?
    requires p < |s.cache.pages| && s.cache.pages[p].pins == 0 && (s.cache.pages[p].valid ==> RemovalOk(s, Some(p)))
    requires r.disk == s.disk && r.editing == s.editing && r.threads == SetCall(s, t, Claimed(p)).threads
    requires var c := if s.cache.pages[p].valid then Unpublish(s.cache, p) else s.cache;
             r.cache == Claim(c, p, s.threads[t].call.key, s.threads[t].call.spb)
    ensures Coherent(r, geo)
  {
    UnpinnedIsFree(s, t, p);
    ExclusiveIsUnread(s, t, p);
    QuietStepKeeps(s, r, t, Some(p), geo);
  }

  lemma PrivateIsUnread(s: State, t: nat)
    requires Inv(s) && t < |s.threads| && Private(s.threads[t].call).Some?
    ensures Private(s.threads[t].call).value < |s.cache.pages| && UnreadByOthers(s, t, Private(s.threads[t].call).value)
  {
    PrivateIsExclusive(s, t);
    ExclusiveIsUnread(s, t, Private(s.threads[t].call).value);
  }

  lemma ClaimedSlotCoheres(s: State, t: nat, alloc: Option<nat>, geo: Geometry)
    requires ThreadsOk(s) && Coherent(s, geo) && Enabled(s, Advance(t, alloc))
    requires s.threads[t].call.Claimed? || s.threads[t].call.Discarding?
    requires UnreadByOthers(s, t, s.threads[t].call.page)
    ensures Coherent(AdvanceCall(s, t, alloc), geo)
  {
    assert CallOk(s.cache, s.threads[t].call);
    QuietStepKeeps(s, AdvanceCall(s, t, alloc), t, Some(s.threads[t].call.page), geo);
  }

  lemma ReadCoheres(s: State, t: nat, alloc: Option<nat>, geo: Geometry)
    requires ThreadsOk(s) && Coherent(s, geo) && Enabled(s, Advance(t, alloc))
    requires s.threads[t].call.Filling? && s.threads[t].call.next < s.cache.pages[s.threads[t].call.page].spb
    requires UnreadByOthers(s, t, s.threads[t].call.page)
    ensures Coherent(AdvanceCall(s, t, alloc), geo)
  {
    var Filling(p, i) := s.threads[t].call;
    assert CallOk(s.cache, Filling(p, i)) && FillSynced(s, Filling(p, i));
    QuietStepKeeps(s, AdvanceCall(s, t, alloc), t, Some(p), geo);
  }

  lemma PublishCoheres(s: State, t: nat, alloc: Option<nat>, geo: Geometry)
    requires ThreadsOk(s) && Coherent(s, geo) && IndexSound(s.cache) && Enabled(s, Advance(t, alloc))
    requires s.threads[t].call.Filling? && s.threads[t].call.next >= s.cache.pages[s.threads[t].call.page].spb
    requires UnreadByOthers(s, t, s.threads[t].call.page)
    ensures Coherent(AdvanceCall(s, t, alloc), geo)
  {
    var Filling(p, i) := s.threads[t].call;
    var r := AdvanceCall(s, t, alloc);
    assert CallOk(s.cache, Filling(p, i)) && FillSynced(s, Filling(p, i));
    if Find(s.cache, s.cache.pages[p].key).Some? {
      QuietStepKeeps(s, r, t, None, geo);
    } else {
      QuietStepKeeps(s, r, t, Some(p), geo);
    }
  }

  /** A write-back writes one sector to the device. */
  lemma WriteCoheres(s: State, t: nat, alloc: Option<nat>, geo: Geometry)
    requires Inv(s) && Coherent(s, geo) && Enabled(s, Advance(t, alloc))
    requires s.threads[t].call.Writing? && s.threads[t].call.next < s.cache.pages[s.threads[t].call.page].spb
    ensures Coherent(AdvanceCall(s, t, alloc), geo)
  {
    var Writing(q, i, after) := s.threads[t].call;
    var r := AdvanceCall(s, t, alloc);
    var g := s.cache.pages[q];
    assert CallOk(s.cache, s.threads[t].call) && WriterSynced(s, s.threads[t].call);
    DiskShapeKept(s.disk, g.key.dev, Lba(g.key, g.spb, i), g.data[i]);
    forall p, n: nat | 0 <= p < |s.cache.pages| && s.cache.pages[p].used && (p == q || s.cache.pages[p].key != g.key)
                  && n <= s.cache.pages[p].spb && SyncedUpTo(s.disk, s.cache.pages[p], n)
      ensures SyncedUpTo(r.disk, s.cache.pages[p], n)
    {
      WriteSyncs(s.disk, geo, g, i, s.cache.pages[p], n);
    }
    WriteSyncs(s.disk, geo, g, i, g, i);
    PublishedKeysDiffer(s, q);
    WrittenStateCoheres(s, r, t, q, i, after, geo);
  }

  lemma PublishedKeysDiffer(s: State, q: nat)
    requires WellFormed(s.cache) && q < |s.cache.pages| && s.cache.pages[q].valid
    ensures forall p | 0 <= p < |s.cache.pages| && s.cache.pages[p].valid && p != q :: s.cache.pages[p].key != s.cache.pages[q].key
    ensures s.cache.pages[q].key in s.cache.index
  {
  }

  lemma DiskShapeKept(disk: Disk, dev: U32, lba: U32, sec: Sector)
    ensures var d := WriteSector(disk, dev, lba, sec);
            d.Keys == disk.Keys && forall k | k in disk :: |d[k]| == |disk[k]|
  {
  }

  lemma WrittenStateCoheres(s: State, r: State, t: nat, q: nat, i: nat, after: After, geo: Geometry)
    requires ThreadsOk(s) && Coherent(s, geo) && t < |s.threads| && q < |s.cache.pages|
    requires s.threads[t].call == Writing(q, i, after) && s.cache.pages[q].valid && s.cache.pages[q].used
    requires forall p | 0 <= p < |s.cache.pages| && s.cache.pages[p].valid :: s.cache.pages[p].used
    requires r.cache == s.cache && r.editing == s.editing && r.threads == SetCall(s, t, Writing(q, i + 1, after)).threads
    requires r.disk.Keys == s.disk.Keys && forall k | k in s.disk :: |r.disk[k]| == |s.disk[k]|
    requires forall p, n: nat | 0 <= p < |s.cache.pages| && s.cache.pages[p].used && (p == q || s.cache.pages[p].key != s.cache.pages[q].key)
                  && n <= s.cache.pages[p].spb && SyncedUpTo(s.disk, s.cache.pages[p], n) :: SyncedUpTo(r.disk, s.cache.pages[p], n)
    requires SyncedUpTo(r.disk, s.cache.pages[q], i + 1)
    requires forall p | 0 <= p < |s.cache.pages| && s.cache.pages[p].valid && p != q :: s.cache.pages[p].key != s.cache.pages[q].key
    requires s.cache.pages[q].key in s.cache.index
    ensures Coherent(r, geo)
  {
    forall u | 0 <= u < |r.threads| ensures WriterSynced(r, r.threads[u].call) && FillSynced(r, r.threads[u].call) {
      var call := s.threads[u].call;
      assert CallOk(s.cache, call) && WriterSynced(s, call) && FillSynced(s, call);
    }
  }

  lemma WritebackCoheres(s: State, t: nat, alloc: Option<nat>, geo: Geometry)
    requires ThreadsOk(s) && BuffersOk(s.cache) && Coherent(s, geo) && Enabled(s, Advance(t, alloc))
    requires forall p | 0 <= p < |s.cache.pages| && s.cache.pages[p].valid :: s.cache.pages[p].used
    requires s.threads[t].call.Checking? || s.threads[t].call.Unpinning?
             || (s.threads[t].call.Writing? && s.threads[t].call.next >= s.cache.pages[s.threads[t].call.page].spb)
    ensures Coherent(AdvanceCall(s, t, alloc), geo)
  {
    assert CallOk(s.cache, s.threads[t].call) && WriterSynced(s, s.threads[t].call);
    QuietStepKeeps(s, AdvanceCall(s, t, alloc), t, None, geo);
  }

  lemma FlushCoheres(s: State, t: nat, alloc: Option<nat>, geo: Geometry)
    requires ThreadsOk(s) && DirtyOk(s) && Coherent(s, geo) && Enabled(s, Advance(t, alloc)) && s.threads[t].call.Flushing?
    ensures Coherent(AdvanceCall(s, t, alloc), geo)
  {
    var i := s.threads[t].call.i;
    if i < |s.cache.pages| && s.cache.pages[i].dirty {
      var u :| 0 <= u < |s.threads| && WritesBack(s.threads[u].call, i);
      assert WriterSynced(s, s.threads[u].call);
    }
    QuietStepKeeps(s, AdvanceCall(s, t, alloc), t, None, geo);
  }

  /** A step that only moves on within a sweep. */
  lemma MoveOnCoheres(s: State, r: State, t: nat, call: Call, geo: Geometry)
    requires ThreadsOk(s) && Coherent(s, geo) && t < |s.threads| && r == SetCall(s, t, call)
    requires call.Dropping? || call.Idle?
    ensures Coherent(r, geo)
  {
    QuietStepKeeps(s, r, t, None, geo);
  }

  lemma SweepCoheres(s: State, t: nat, alloc: Option<nat>, geo: Geometry)
    requires Inv(s) && Coherent(s, geo) && Enabled(s, Advance(t, alloc)) && ExactRemovalRule(s, Advance(t, alloc))
    requires s.threads[t].call.Dropping?
    ensures Coherent(AdvanceCall(s, t, alloc), geo)
  {
    var r := AdvanceCall(s, t, alloc);
    var call, c := s.threads[t].call, s.cache;
    if Sweeps(c, call.dev, call.i) {
      RemovalCoheres(s, r, t, call.i, Dropping(call.dev, call.i + 1), geo);
    } else {
      MoveOnCoheres(s, r, t, r.threads[t].call, geo);
    }
  }

  lemma AdvanceCoheres(s: State, t: nat, alloc: Option<nat>, geo: Geometry)
    requires Inv(s) && Coherent(s, geo) && Enabled(s, Advance(t, alloc)) && Rules(s, Advance(t, alloc), geo)
    ensures Coherent(AdvanceCall(s, t, alloc), geo)
  {
    var call := s.threads[t].call;
    assert CallOk(s.cache, call);
    if Private(call).Some? {
      PrivateIsUnread(s, t);
    }
    match call
    case Missed(_, _) => ClaimCoheres(s, t, alloc, geo);
    case Claimed(_) => ClaimedSlotCoheres(s, t, alloc, geo);
    case Discarding(_) => ClaimedSlotCoheres(s, t, alloc, geo);
    case Filling(p, i) =>
      if i < s.cache.pages[p].spb { ReadCoheres(s, t, alloc, geo); } else { PublishCoheres(s, t, alloc, geo); }
    case Checking(_, _) => WritebackCoheres(s, t, alloc, geo);
    case Writing(p, i, _) =>
      if i < s.cache.pages[p].spb { WriteCoheres(s, t, alloc, geo); } else { WritebackCoheres(s, t, alloc, geo); }
    case Unpinning(_, _) => WritebackCoheres(s, t, alloc, geo);
    case Flushing(_, _, _) => FlushCoheres(s, t, alloc, geo);
    case Dropping(_, _) => SweepCoheres(s, t, alloc, geo);
  }

  /** A step that obeys the rules keeps the cache in agreement with the devices. */
  lemma ApplyCoheres(s: State, step: Step, geo: Geometry)
    requires Inv(s) && Coherent(s, geo) && Enabled(s, step) && Rules(s, step, geo)
    ensures Coherent(Apply(s, step), geo)
  {
    match step
    case Get(_, _, _) => GetCoheres(s, step, geo);
    case Put(_, _) => PutCoheres(s, step, geo);
    case Edit(_, _, _) => EditCoheres(s, step, geo);
    case MarkDirty(_, _) => MarkDirtyCoheres(s, step, geo);
    case FlushDev(_, _, _) => FlushDevCoheres(s, step, geo);
    case InvalidateBlock(_, _) => InvalidateCoheres(s, step, geo);
    case Advance(t, alloc) => AdvanceCoheres(s, t, alloc, geo);
  }

  lemma {:induction false} RunCoheres(s: State, steps: seq<Step>, geo: Geometry)
    requires Inv(s) && Coherent(s, geo) && IsRun(s, steps) && RunObeys(s, steps, geo)
    ensures Coherent(EndOf(s, steps), geo)
    decreases steps
  {
    if steps != [] {
      ApplyKeeps(s, steps[0]);
      ApplyCoheres(s, steps[0], geo);
      RunCoheres(Apply(s, steps[0]), steps[1..], geo);
    }
  }

  // ---- Main results ------------------------------------------------------------------

  /** A published page that is clean and not being edited, yet differs from the device. */
  ghost predicate Stale(s: State) {
    exists p :: 0 <= p < |s.cache.pages| && s.cache.pages[p].valid && !s.cache.pages[p].dirty && p !in s.editing
                && s.cache.pages[p].data != DirectRead(s.disk, s.cache.pages[p].key, s.cache.pages[p].spb)
  }

  /** In every run that obeys the rules, every published page that is not being
      edited and is not dirty holds exactly what a direct read of its device
      returns, whatever was evicted, reloaded or invalidated in between. */
  lemma CacheAgreesWithDevice(s: State, steps: seq<Step>, geo: Geometry)
    requires Init(s) && IsRun(s, steps) && RunObeys(s, steps, geo)
    ensures !Stale(EndOf(s, steps))
  {
    InitIsInv(s);
    RunKeeps(s, steps);
    RunCoheres(s, steps, geo);
    var e := EndOf(s, steps);
    forall p | 0 <= p < |e.cache.pages| && e.cache.pages[p].valid && !e.cache.pages[p].dirty && p !in e.editing
      ensures e.cache.pages[p].data == DirectRead(e.disk, e.cache.pages[p].key, e.cache.pages[p].spb)
    {
      assert SyncedUpTo(e.disk, e.cache.pages[p], e.cache.pages[p].spb);
    }
  }

  /** No two calls overlap: a thread takes a step only while all others are idle. */
  ghost predicate Serial(s: State, steps: seq<Step>)
    requires IsRun(s, steps)
    decreases steps
  {
    steps != [] ==>
      && (forall u | 0 <= u < |s.threads| && u != steps[0].t :: s.threads[u].call.Idle?)
      && Serial(Apply(s, steps[0]), steps[1..])
  }

  ghost predicate GoodRequests(s: State, steps: seq<Step>, geo: Geometry)
    requires IsRun(s, steps)
    decreases steps
  {
    steps != [] ==>
      && RequestRule(s, steps[0], geo)
      && GoodRequests(Apply(s, steps[0]), steps[1..], geo)
  }

  /** Calls that do not overlap obey the rules. */
  lemma {:induction false} SerialRunObeys(s: State, steps: seq<Step>, geo: Geometry)
    requires IsRun(s, steps) && Serial(s, steps) && GoodRequests(s, steps, geo)
    ensures RunObeys(s, steps, geo)
    decreases steps
  {
    if steps != [] {
      SerialRunObeys(Apply(s, steps[0]), steps[1..], geo);
    }
  }

  /** In every run of calls that do not overlap, once the last call has returned a
      client that holds a page nobody is editing reads from its buffer what a
      direct read of the device returns. */
  lemma SerialReadsAgree(s: State, steps: seq<Step>, geo: Geometry, t: nat, h: nat)
    requires Init(s) && IsRun(s, steps) && Serial(s, steps) && GoodRequests(s, steps, geo)
    requires var e := EndOf(s, steps);
             && (forall u | 0 <= u < |e.threads| :: e.threads[u].call.Idle?)
             && t < |e.threads| && h < |e.threads[t].holds| && e.threads[t].holds[h].page !in e.editing
    ensures var e := EndOf(s, steps); var hold := e.threads[t].holds[h];
            hold.page < |e.cache.pages|
            && e.cache.pages[hold.page].data == DirectRead(e.disk, hold.key, e.cache.pages[hold.page].spb)
  {
    SerialRunObeys(s, steps, geo);
    CacheAgreesWithDevice(s, steps, geo);
    InitIsInv(s);
    RunKeeps(s, steps);
    HoldIsPinned(EndOf(s, steps), t, h);
  }
}
