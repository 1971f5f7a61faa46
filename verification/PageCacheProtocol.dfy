/** The page cache under concurrency. Each critical section of pagecache.c, and
    each sector transfer done outside the lock, is one step of one thread; a run
    is any interleaving of such steps. */
module PageCacheProtocol {
  import opened MachineInts
  import opened PageCacheModel

  type Disk = map<U32, seq<Sector>>

  /** What a thread does once the page it wrote back is unpinned again. */
  datatype After = Return | ResumeFlush(dev: U32, i: nat, drop: bool) | Remove

  /** Where a thread stands inside a cache call, with the lock free. */
  datatype Call =
    | Idle
    | Missed(key: Key, spb: nat)
    | Claimed(page: nat)
    | Filling(page: nat, next: nat)
    | Discarding(page: nat)
    | Checking(page: nat, after: After)
    | Writing(page: nat, next: nat, after: After)
    | Unpinning(page: nat, after: After)
    | Removing(page: nat)
    | Flushing(dev: U32, i: nat, drop: bool)
    | Dropping(dev: U32, i: nat)

  /** A pin that a client got from `pc_get_page` and has not put back. */
  datatype Hold = Hold(key: Key, page: nat, buf: nat)

  datatype Thread = Thread(call: Call, holds: seq<Hold>)

  /** `editing` are the pages a client has changed in memory since they were filled
      and has not marked dirty since. */
  datatype State = State(cache: Cache, disk: Disk, boot: Option<U32>, threads: seq<Thread>, editing: set<nat>)

  datatype Step =
    | Get(t: nat, key: Key, size: U32)
    | Put(t: nat, h: nat)
    | Edit(t: nat, h: nat, data: seq<Sector>)
    | MarkDirty(t: nat, key: Key)
    | FlushDev(t: nat, dev: U32, drop: bool)
    | InvalidateBlock(t: nat, key: Key)
    | Advance(t: nat, alloc: Option<nat>)

  // ---- Device access -------------------------------------------------------

  /** The device a fill reads from: the one named, else the boot device. */
  function Target(s: State, dev: U32): Option<U32> {
    if dev in s.disk then Some(dev) else s.boot
  }

  function Lba(k: Key, spb: nat, i: nat): U32 {
    (k.block * spb + i) % TWO_32
  }

  /** A sector read into a zeroed buffer; a failing read leaves the zeroes. */
  function ReadSector(disk: Disk, dev: Option<U32>, lba: U32): Sector {
    if dev.Some? && dev.value in disk && lba < |disk[dev.value]| then disk[dev.value][lba] else ZeroSector()
  }

  function WriteSector(disk: Disk, dev: U32, lba: U32, data: Sector): Disk {
    if dev in disk && lba < |disk[dev]| then disk[dev := disk[dev][lba := data]] else disk
  }

  /** The checks a missing block passes before a slot is claimed for it; the sums
      are 32-bit. */
  predicate RequestOk(s: State, k: Key, size: U32) {
    && size != 0 && size % SECTOR_SIZE == 0 && size <= PC_MAX_BLOCK_SIZE
    && var spb := size / SECTOR_SIZE;
       var bd := Target(s, k.dev);
       (bd.Some? && bd.value in s.disk ==>
          && k.block <= (TWO_32 - 1) / spb
          && (k.block * spb + spb) % TWO_32 <= |s.disk[bd.value]|)
  }

  // ---- Steps ---------------------------------------------------------------

  function SetCall(s: State, t: nat, call: Call): State
    requires t < |s.threads|
  {
    s.(threads := s.threads[t := s.threads[t].(call := call)])
  }

  function AddHold(s: State, t: nat, p: nat): State
    requires t < |s.threads| && p < |s.cache.pages|
  {
    var g := s.cache.pages[p];
    s.(threads := s.threads[t := s.threads[t].(holds := s.threads[t].holds + [Hold(g.key, p, if g.buf.Some? then g.buf.value else 0)])])
  }

  predicate Enabled(s: State, step: Step) {
    && step.t < |s.threads|
    && var th := s.threads[step.t];
       match step
       case Get(_, _, _) => th.call.Idle?
       case Put(_, h) => th.call.Idle? && h < |th.holds|
       case Edit(_, h, data) =>
         && th.call.Idle? && h < |th.holds| && th.holds[h].page < |s.cache.pages|
         && |data| == s.cache.pages[th.holds[h].page].spb
       case MarkDirty(_, _) => th.call.Idle?
       case FlushDev(_, _, _) => th.call.Idle?
       case InvalidateBlock(_, _) => th.call.Idle?
       case Advance(_, alloc) =>
         && !th.call.Idle?
         && (alloc.Some? ==> FreshBuffer(s.cache, alloc))
         && InPool(s.cache, th.call)
  }

  /** The allocator never hands out a buffer that a page still owns. */
  predicate FreshBuffer(c: Cache, b: Option<nat>) {
    forall p | 0 <= p < |c.pages| :: c.pages[p].buf != b
  }

  predicate InPool(c: Cache, call: Call) {
    match call
    case Claimed(p) => p < |c.pages|
    case Filling(p, i) => p < |c.pages| && |c.pages[p].data| == c.pages[p].spb
    case Discarding(p) => p < |c.pages|
    case Checking(p, _) => p < |c.pages|
    case Writing(p, i, _) => p < |c.pages| && |c.pages[p].data| == c.pages[p].spb
    case Unpinning(p, _) => p < |c.pages|
    case Removing(p) => p < |c.pages|
    case _ => true
  }

  function Find(c: Cache, k: Key): Option<nat>
    ensures Find(c, k).Some? ==> Find(c, k).value < |c.pages|
  {
    if k in c.index && c.index[k] < |c.pages| then Some(c.index[k]) else None
  }

  function Apply(s: State, step: Step): State
    requires Enabled(s, step)
  {
    match step
    case Get(t, k, size) =>
      (match Find(s.cache, k)
       case Some(p) => AddHold(s, t, p).(cache := PinAndTouch(s.cache, p))
       case None => if RequestOk(s, k, size) then SetCall(s, t, Missed(k, size / SECTOR_SIZE)) else s)
    case Put(t, h) =>
      var th := s.threads[t];
      var s1 := s.(threads := s.threads[t := th.(holds := th.holds[..h] + th.holds[h + 1..])]);
      (match Find(s.cache, th.holds[h].key)
       case Some(p) => if s.cache.pages[p].pins == 0 then s1 else s1.(cache := AddPins(s.cache, p, -1))
       case None => s1)
    case Edit(t, h, data) =>
      var p := s.threads[t].holds[h].page;
      s.(cache := s.cache.(pages := s.cache.pages[p := s.cache.pages[p].(data := data)]), editing := s.editing + {p})
    case MarkDirty(t, k) =>
      (match Find(s.cache, k)
       case Some(p) => SetCall(s.(cache := MarkAndPin(s.cache, p), editing := s.editing - {p}), t, Checking(p, Return))
       case None => s)
    case FlushDev(t, dev, drop) => SetCall(s, t, Flushing(dev, 0, drop))
    case InvalidateBlock(t, k) =>
      (match Find(s.cache, k)
       case Some(p) =>
         if s.cache.pages[p].pins > 0 then s
         else if s.cache.pages[p].dirty then SetCall(s.(cache := AddPins(s.cache, p, 1)), t, Checking(p, Remove))
         else s.(cache := Drop(s.cache, p))
       case None => s)
    case Advance(t, alloc) => AdvanceCall(s, t, alloc)
  }

  function MarkAndPin(c: Cache, p: nat): Cache
    requires p < |c.pages|
  {
    c.(pages := c.pages[p := c.pages[p].(dirty := true, pins := c.pages[p].pins + 1)])
  }

  function AdvanceCall(s: State, t: nat, alloc: Option<nat>): State
    requires Enabled(s, Advance(t, alloc))
  {
    var c := s.cache;
    match s.threads[t].call
    case Missed(k, spb) => ClaimSlot(s, t, k, spb)
    case Claimed(p) => GiveBuffer(s, t, p, alloc)
    case Filling(p, i) =>
      var g := c.pages[p];
      if i < g.spb then
        var sec := ReadSector(s.disk, Target(s, g.key.dev), Lba(g.key, g.spb, i));
        SetCall(s.(cache := c.(pages := c.pages[p := g.(data := g.data[i := sec])])), t, Filling(p, i + 1))
      else PublishOrShare(s, t, p)
    case Discarding(p) => SetCall(s.(cache := FreeSlot(c, p)), t, Idle)
    case Checking(p, after) =>
      var g := c.pages[p];
      if !g.dirty then SetCall(s, t, Unpinning(p, after))
      else if g.buf.None? || g.key.dev !in s.disk || |g.data| != g.spb then SetCall(s.(cache := Clean(c, p)), t, Unpinning(p, after))
      else SetCall(s, t, Writing(p, 0, after))
    case Writing(p, i, after) =>
      var g := c.pages[p];
      if i < g.spb then
        SetCall(s.(disk := WriteSector(s.disk, g.key.dev, Lba(g.key, g.spb, i), g.data[i])), t, Writing(p, i + 1, after))
      else SetCall(s.(cache := Clean(c, p)), t, Unpinning(p, after))
    case Unpinning(p, after) =>
      SetCall(s.(cache := AddPins(c, p, -1)), t,
              match after
              case Return => Idle
              case ResumeFlush(dev, i, drop) => Flushing(dev, i, drop)
              case Remove => Removing(p))
    case Removing(p) => SetCall(s.(cache := Drop(c, p)), t, Idle)
    case Flushing(dev, i, drop) =>
      if i >= |c.pages| then SetCall(s, t, if drop then Dropping(dev, 0) else Idle)
      else if c.pages[i].valid && c.pages[i].dirty && c.pages[i].key.dev == dev then
        SetCall(s.(cache := AddPins(c, i, 1)), t, Checking(i, ResumeFlush(dev, i + 1, drop)))
      else SetCall(s, t, Flushing(dev, i + 1, drop))
    case Dropping(dev, i) =>
      if i >= |c.pages| then SetCall(s, t, Idle)
      else if c.pages[i].valid && c.pages[i].key.dev == dev && c.pages[i].pins <= 0 then
        SetCall(s.(cache := Drop(c, i)), t, Dropping(dev, i + 1))
      else SetCall(s, t, Dropping(dev, i + 1))
  }

  function Clean(c: Cache, p: nat): Cache
    requires p < |c.pages|
  {
    c.(pages := c.pages[p := c.pages[p].(dirty := false)])
  }

  function FreeSlot(c: Cache, p: nat): Cache
    requires p < |c.pages|
  {
    c.(pages := c.pages[p := c.pages[p].(used := false, valid := false, dirty := false, pins := 0)])
  }

  /** Write every sector of the page to its device, as `_writeback` does. */
  function WriteAll(disk: Disk, g: Page, i: nat): Disk
    requires i <= |g.data|
    decreases |g.data| - i
  {
    if i == |g.data| then disk
    else WriteAll(WriteSector(disk, g.key.dev, Lba(g.key, g.spb, i), g.data[i]), g, i + 1)
  }

  /** `_alloc_page`, then the claim: a free slot, else the least recently used
      unpinned page, written back first if it is dirty. */
  function ClaimSlot(s: State, t: nat, k: Key, spb: nat): State
    requires t < |s.threads|
  {
    var slot := AllocSlot(s.cache);
    if slot.Some? && slot.value < |s.cache.pages| then
      var g := s.cache.pages[slot.value];
      var written := FirstFree(s.cache.pages, 0).None? && g.dirty;
      SetCall(s.(cache := Claim(AllocRest(s.cache), slot.value, k, spb),
                 disk := if written then WriteAll(s.disk, g, 0) else s.disk), t, Claimed(slot.value))
    else SetCall(s, t, Idle)
  }

  function Zeroes(n: nat): (z: seq<Sector>)
    ensures |z| == n
  {
    seq(n, i => ZeroSector())
  }

  /** A slot without a buffer asks the page allocator for one; when that fails the
      slot is freed again. The buffer is zeroed before the block is read. */
  function GiveBuffer(s: State, t: nat, p: nat, alloc: Option<nat>): State
    requires t < |s.threads| && p < |s.cache.pages|
  {
    var g := s.cache.pages[p];
    if g.buf.None? && alloc.None? then SetCall(s.(cache := FreeSlot(s.cache, p)), t, Idle)
    else
      var b := if g.buf.None? then alloc else g.buf;
      var c := s.cache.(pages := s.cache.pages[p := g.(buf := b, data := Zeroes(g.spb))]);
      SetCall(s.(cache := c), t, Filling(p, 0))
  }

  /** Publish the filled page, unless the block was published meanwhile: then pin
      that page and give the own slot up. */
  function PublishOrShare(s: State, t: nat, p: nat): State
    requires t < |s.threads| && p < |s.cache.pages|
  {
    match Find(s.cache, s.cache.pages[p].key)
    case Some(q) => SetCall(AddHold(s, t, q).(cache := PinAndTouch(s.cache, q)), t, Discarding(p))
    case None => SetCall(AddHold(s, t, p).(cache := Publish(s.cache, p), editing := s.editing - {p}), t, Idle)
  }

  // ---- Runs ------------------------------------------------------------------

  /** `pc_init`: an empty pool over the given devices, no call in progress. */
  ghost predicate Init(s: State) {
    && (forall p | 0 <= p < |s.cache.pages| :: s.cache.pages[p] == FreePage)
    && s.cache.lru == [] && s.cache.index == map[]
    && (forall t | 0 <= t < |s.threads| :: s.threads[t] == Thread(Idle, []))
    && s.editing == {}
  }

  ghost predicate IsRun(s: State, steps: seq<Step>)
    decreases steps
  {
    steps == [] || (Enabled(s, steps[0]) && IsRun(Apply(s, steps[0]), steps[1..]))
  }

  ghost function EndOf(s: State, steps: seq<Step>): State
    requires IsRun(s, steps)
    decreases steps
  {
    if steps == [] then s else EndOf(Apply(s, steps[0]), steps[1..])
  }

  // ---- The invariant ---------------------------------------------------------

  function PinnedBy(call: Call): Option<nat> {
    match call
    case Claimed(p) => Some(p)
    case Filling(p, _) => Some(p)
    case Discarding(p) => Some(p)
    case Checking(p, _) => Some(p)
    case Writing(p, _, _) => Some(p)
    case Unpinning(p, _) => Some(p)
    case _ => None
  }

  function CountHolds(holds: seq<Hold>, p: nat): nat {
    if holds == [] then 0 else (if holds[0].page == p then 1 else 0) + CountHolds(holds[1..], p)
  }

  function Own(th: Thread, p: nat): nat {
    (if PinnedBy(th.call) == Some(p) then 1 else 0) + CountHolds(th.holds, p)
  }

  function TotalPins(threads: seq<Thread>, p: nat): nat {
    if threads == [] then 0 else Own(threads[0], p) + TotalPins(threads[1..], p)
  }

  /** The slot a thread is filling; no other thread may know of it. */
  function Private(call: Call): Option<nat> {
    match call
    case Claimed(p) => Some(p)
    case Filling(p, _) => Some(p)
    case Discarding(p) => Some(p)
    case _ => None
  }

  predicate WritesBack(call: Call, p: nat) {
    (call.Checking? || call.Writing?) && call.page == p
  }

  predicate CallOk(c: Cache, call: Call) {
    match call
    case Claimed(p) => p < |c.pages| && c.pages[p].used && !c.pages[p].valid
    case Filling(p, i) =>
      && p < |c.pages| && c.pages[p].used && !c.pages[p].valid
      && c.pages[p].buf.Some? && i <= |c.pages[p].data| == c.pages[p].spb
    case Discarding(p) => p < |c.pages| && c.pages[p].used && !c.pages[p].valid
    case Checking(p, after) => p < |c.pages| && c.pages[p].valid && !after.Remove?
    case Writing(p, i, after) => p < |c.pages| && c.pages[p].valid && i <= c.pages[p].spb && !after.Remove?
    case Unpinning(p, after) => p < |c.pages| && c.pages[p].valid && !after.Remove?
    case Removing(_) => false
    case _ => true
  }

  predicate HoldOk(c: Cache, h: Hold) {
    && h.page < |c.pages|
    && c.pages[h.page].valid && c.pages[h.page].key == h.key && c.pages[h.page].buf == Some(h.buf)
  }

  ghost predicate BuffersOk(c: Cache) {
    && (forall p | 0 <= p < |c.pages| && c.pages[p].valid :: c.pages[p].buf.Some? && |c.pages[p].data| == c.pages[p].spb)
    && (forall p, q | 0 <= p < q < |c.pages| && c.pages[p].buf.Some? :: c.pages[p].buf != c.pages[q].buf)
  }

  ghost predicate PinsOk(s: State) {
    && (forall p | 0 <= p < |s.cache.pages| :: s.cache.pages[p].pins == TotalPins(s.threads, p))
    && (forall p | 0 <= p < |s.cache.pages| && !s.cache.pages[p].used :: s.cache.pages[p].pins == 0)
  }

  ghost predicate ThreadsOk(s: State) {
    && (forall t | 0 <= t < |s.threads| :: CallOk(s.cache, s.threads[t].call))
    && (forall t, h | 0 <= t < |s.threads| && 0 <= h < |s.threads[t].holds| :: HoldOk(s.cache, s.threads[t].holds[h]))
    && (forall t, u | 0 <= t < |s.threads| && 0 <= u < |s.threads| && t != u && Private(s.threads[t].call).Some? ::
          Private(s.threads[t].call) != Private(s.threads[u].call))
  }

  /** A DIRTY page is being written back by some thread. */
  ghost predicate DirtyOk(s: State) {
    forall p | 0 <= p < |s.cache.pages| && s.cache.pages[p].dirty ::
      exists t :: 0 <= t < |s.threads| && WritesBack(s.threads[t].call, p)
  }

  ghost predicate Inv(s: State) {
    WellFormed(s.cache) && BuffersOk(s.cache) && PinsOk(s) && ThreadsOk(s) && DirtyOk(s)
  }

  // ---- Pin accounting --------------------------------------------------------

  lemma {:induction false} TotalPinsUpdate(threads: seq<Thread>, t: nat, th: Thread, p: nat)
    requires t < |threads|
    ensures TotalPins(threads[t := th], p) == TotalPins(threads, p) - Own(threads[t], p) + Own(th, p)
  {
    if t > 0 {
      TotalPinsUpdate(threads[1..], t - 1, th, p);
      assert threads[t := th][1..] == threads[1..][t - 1 := th];
    } else {
      assert threads[t := th][1..] == threads[1..];
    }
  }

  lemma {:induction false} OwnAtMostTotal(threads: seq<Thread>, t: nat, p: nat)
    requires t < |threads|
    ensures Own(threads[t], p) <= TotalPins(threads, p)
  {
    if t > 0 {
      OwnAtMostTotal(threads[1..], t - 1, p);
    }
  }

  lemma {:induction false} TwoOwnAtMostTotal(threads: seq<Thread>, t: nat, u: nat, p: nat)
    requires t < u < |threads|
    ensures Own(threads[t], p) + Own(threads[u], p) <= TotalPins(threads, p)
  {
    if t > 0 {
      TwoOwnAtMostTotal(threads[1..], t - 1, u - 1, p);
    } else {
      OwnAtMostTotal(threads[1..], u - 1, p);
    }
  }

  lemma {:induction false} CountHoldsAppend(holds: seq<Hold>, h: Hold, p: nat)
    ensures CountHolds(holds + [h], p) == CountHolds(holds, p) + (if h.page == p then 1 else 0)
  {
    if holds != [] {
      assert (holds + [h])[1..] == holds[1..] + [h];
      CountHoldsAppend(holds[1..], h, p);
    }
  }

  lemma {:induction false} CountHoldsRemove(holds: seq<Hold>, i: nat, p: nat)
    requires i < |holds|
    ensures CountHolds(holds[..i] + holds[i + 1..], p) == CountHolds(holds, p) - (if holds[i].page == p then 1 else 0)
  {
    var rest := holds[..i] + holds[i + 1..];
    if i > 0 {
      assert rest[1..] == holds[1..][..i - 1] + holds[1..][i..];
      CountHoldsRemove(holds[1..], i - 1, p);
    } else {
      assert rest == holds[1..];
    }
  }

  lemma {:induction false} HoldCounts(holds: seq<Hold>, i: nat)
    requires i < |holds|
    ensures CountHolds(holds, holds[i].page) >= 1
  {
    if i > 0 {
      HoldCounts(holds[1..], i - 1);
    }
  }
}
