/** Safety of the page cache in every interleaving: the invariant of
    `PageCacheProtocol` is kept by every step, and what follows from it. */
module PageCacheSafety {
  import opened MachineInts
  import opened PageCacheModel
  import opened PageCacheProtocol

  /** The descriptor fields that threads rely on while they refer to a page. */
  predicate Stable(g: Page, h: Page) {
    g.used == h.used && g.valid == h.valid && g.key == h.key && g.spb == h.spb && g.buf == h.buf && |g.data| == |h.data|
  }

  ghost predicate OnlyPage(c: Cache, d: Cache, x: Option<nat>) {
    |c.pages| == |d.pages| && forall p | 0 <= p < |c.pages| && Some(p) != x :: Stable(c.pages[p], d.pages[p])
  }

  /** No thread but `t` pins or fills page `x`. */
  ghost predicate OnlyThread(s: State, t: nat, x: nat) {
    forall u | 0 <= u < |s.threads| && u != t :: Own(s.threads[u], x) == 0
  }

  ghost predicate PinsMatch(s: State, r: State, th: Thread, th': Thread) {
    && |r.cache.pages| == |s.cache.pages|
    && (forall p | 0 <= p < |s.cache.pages| ::
          r.cache.pages[p].pins - s.cache.pages[p].pins == Own(th', p) - Own(th, p))
    && (forall p | 0 <= p < |s.cache.pages| && !r.cache.pages[p].used :: r.cache.pages[p].pins == 0)
  }

  ghost predicate DirtyMatch(s: State, r: State, th: Thread, th': Thread) {
    && |r.cache.pages| == |s.cache.pages|
    && forall p | 0 <= p < |s.cache.pages| && r.cache.pages[p].dirty ::
         WritesBack(th'.call, p) || (s.cache.pages[p].dirty && !WritesBack(th.call, p))
  }

  ghost predicate ThreadOk(s: State, r: State, t: nat, th': Thread) {
    && CallOk(r.cache, th'.call)
    && (forall h | 0 <= h < |th'.holds| :: HoldOk(r.cache, th'.holds[h]))
    && (Private(th'.call).Some? ==>
          forall u | 0 <= u < |s.threads| && u != t :: Private(s.threads[u].call) != Private(th'.call))
  }

  /** One step of thread `t` that changes at most page `x`, which no other thread
      refers to, keeps the invariant if it keeps its own accounts. */
  lemma StepKeeps(s: State, r: State, t: nat, th': Thread, x: Option<nat>)
    requires Inv(s) && t < |s.threads| && r.threads == s.threads[t := th']
    requires WellFormed(r.cache) && BuffersOk(r.cache)
    requires OnlyPage(s.cache, r.cache, x) && (x.Some? ==> OnlyThread(s, t, x.value))
    requires PinsMatch(s, r, s.threads[t], th') && DirtyMatch(s, r, s.threads[t], th')
    requires ThreadOk(s, r, t, th')
    ensures Inv(r)
  {
    PinsKept(s, r, t, th');
    ThreadsKept(s, r, t, th', x);
    DirtyKept(s, r, t, th');
  }

  lemma PinsKept(s: State, r: State, t: nat, th': Thread)
    requires PinsOk(s) && t < |s.threads| && r.threads == s.threads[t := th']
    requires PinsMatch(s, r, s.threads[t], th')
    ensures PinsOk(r)
  {
    forall p | 0 <= p < |r.cache.pages| ensures r.cache.pages[p].pins == TotalPins(r.threads, p) {
      TotalPinsUpdate(s.threads, t, th', p);
    }
  }

  lemma DirtyKept(s: State, r: State, t: nat, th': Thread)
    requires DirtyOk(s) && t < |s.threads| && r.threads == s.threads[t := th']
    requires DirtyMatch(s, r, s.threads[t], th')
    ensures DirtyOk(r)
  {
    forall p | 0 <= p < |r.cache.pages| && r.cache.pages[p].dirty
      ensures exists u :: 0 <= u < |r.threads| && WritesBack(r.threads[u].call, p)
    {
      if WritesBack(th'.call, p) {
        assert r.threads[t] == th';
      } else {
        var u :| 0 <= u < |s.threads| && WritesBack(s.threads[u].call, p);
        assert r.threads[u] == s.threads[u];
      }
    }
  }

  lemma ThreadsKept(s: State, r: State, t: nat, th': Thread, x: Option<nat>)
    requires ThreadsOk(s) && t < |s.threads| && r.threads == s.threads[t := th']
    requires OnlyPage(s.cache, r.cache, x) && (x.Some? ==> OnlyThread(s, t, x.value))
    requires ThreadOk(s, r, t, th')
    ensures ThreadsOk(r)
  {
    forall u | 0 <= u < |r.threads|
      ensures CallOk(r.cache, r.threads[u].call)
      ensures forall h | 0 <= h < |r.threads[u].holds| :: HoldOk(r.cache, r.threads[u].holds[h])
    {
      if u != t {
        OtherThreadKeeps(s, r, t, u, x);
      }
    }
  }

  lemma OtherThreadKeeps(s: State, r: State, t: nat, u: nat, x: Option<nat>)
    requires ThreadsOk(s) && t < |s.threads| && u < |s.threads| && u != t
    requires OnlyPage(s.cache, r.cache, x) && (x.Some? ==> OnlyThread(s, t, x.value))
    ensures CallOk(r.cache, s.threads[u].call)
    ensures forall h | 0 <= h < |s.threads[u].holds| :: HoldOk(r.cache, s.threads[u].holds[h])
  {
    var th := s.threads[u];
    assert CallOk(s.cache, th.call);
    assert x.Some? ==> Own(th, x.value) == 0;
    forall h | 0 <= h < |th.holds| ensures HoldOk(r.cache, th.holds[h]) {
      assert HoldOk(s.cache, th.holds[h]);
      HoldCounts(th.holds, h);
    }
  }

  /** A page with no pins is referred to by no thread. */
  lemma UnpinnedIsFree(s: State, t: nat, p: nat)
    requires Inv(s) && t < |s.threads| && p < |s.cache.pages| && s.cache.pages[p].pins <= 0
    ensures OnlyThread(s, t, p) && Own(s.threads[t], p) == 0
  {
    forall u | 0 <= u < |s.threads| ensures Own(s.threads[u], p) == 0 {
      OwnAtMostTotal(s.threads, u, p);
    }
  }

  /** The slot that a thread fills is referred to by that thread only, once. */
  lemma PrivateIsExclusive(s: State, t: nat)
    requires Inv(s) && t < |s.threads| && Private(s.threads[t].call).Some?
    ensures var p := Private(s.threads[t].call).value;
            OnlyThread(s, t, p) && Own(s.threads[t], p) == 1 && s.cache.pages[p].pins == 1
  {
    var p := Private(s.threads[t].call).value;
    assert CallOk(s.cache, s.threads[t].call);
    forall u | 0 <= u < |s.threads|
      ensures Own(s.threads[u], p) == if u == t then 1 else 0
    {
      NoHoldOnUnpublished(s, u, p);
      assert CallOk(s.cache, s.threads[u].call);
    }
    PinsOfOne(s.threads, t, p);
  }

  lemma NoHoldOnUnpublished(s: State, u: nat, p: nat)
    requires Inv(s) && u < |s.threads| && p < |s.cache.pages| && !s.cache.pages[p].valid
    ensures CountHolds(s.threads[u].holds, p) == 0
  {
    var holds := s.threads[u].holds;
    forall h | 0 <= h < |holds| ensures holds[h].page != p {
      assert HoldOk(s.cache, holds[h]);
    }
    CountNone(holds, p);
  }

  lemma {:induction false} CountNone(holds: seq<Hold>, p: nat)
    requires forall h | 0 <= h < |holds| :: holds[h].page != p
    ensures CountHolds(holds, p) == 0
  {
    if holds != [] {
      assert holds[0].page != p;
      forall h | 0 <= h < |holds[1..]| ensures holds[1..][h].page != p {
        assert holds[1..][h] == holds[h + 1];
      }
      CountNone(holds[1..], p);
    }
  }

  lemma {:induction false} PinsOfNone(threads: seq<Thread>, p: nat)
    requires forall u | 0 <= u < |threads| :: Own(threads[u], p) == 0
    ensures TotalPins(threads, p) == 0
  {
    if threads != [] {
      assert forall u | 0 <= u < |threads[1..]| :: threads[1..][u] == threads[u + 1];
      PinsOfNone(threads[1..], p);
    }
  }

  lemma {:induction false} PinsOfOne(threads: seq<Thread>, t: nat, p: nat)
    requires t < |threads|
    requires forall u | 0 <= u < |threads| && u != t :: Own(threads[u], p) == 0
    ensures TotalPins(threads, p) == Own(threads[t], p)
  {
    var idle := Thread(Idle, []);
    TotalPinsUpdate(threads, t, idle, p);
    PinsOfNone(threads[t := idle], p);
  }

  // ---- Kinds of step -----------------------------------------------------------

  /** Pages whose relied-on fields are unchanged leave both structures well formed. */
  lemma StableCache(c: Cache, d: Cache)
    requires WellFormed(c) && BuffersOk(c) && OnlyPage(c, d, None) && d.lru == c.lru && d.index == c.index
    requires forall p | 0 <= p < |d.pages| && d.pages[p].dirty :: d.pages[p].valid
    ensures WellFormed(d) && BuffersOk(d)
  {
    forall k | k in d.index ensures d.index[k] < |d.pages| && d.pages[d.index[k]].valid && d.pages[d.index[k]].key == k {
      assert Stable(c.pages[c.index[k]], d.pages[c.index[k]]);
    }
    assert forall p | 0 <= p < |c.pages| :: Stable(c.pages[p], d.pages[p]);
  }

  lemma HoldsKept(c: Cache, d: Cache, x: Option<nat>, holds: seq<Hold>)
    requires OnlyPage(c, d, x) && (x.Some? ==> CountHolds(holds, x.value) == 0)
    requires forall h | 0 <= h < |holds| :: HoldOk(c, holds[h])
    ensures forall h | 0 <= h < |holds| :: HoldOk(d, holds[h])
  {
    forall h | 0 <= h < |holds| ensures HoldOk(d, holds[h]) {
      assert HoldOk(c, holds[h]);
      HoldCounts(holds, h);
    }
  }

  function CallPin(call: Call, p: nat): nat {
    if PinnedBy(call) == Some(p) then 1 else 0
  }

  /** Thread `t` moves on and changes only flags, pins or contents of page `p`. */
  ghost predicate PageStep(s: State, r: State, t: nat, call: Call, p: nat, g: Page) {
    && t < |s.threads| && p < |s.cache.pages|
    && r.cache == s.cache.(pages := s.cache.pages[p := g]) && r.threads == SetCall(s, t, call).threads
    && Stable(s.cache.pages[p], g) && (g.dirty ==> g.valid) && (g.used || g.pins == 0)
    && PinnedBy(call) in {None, Some(p)} && PinnedBy(s.threads[t].call) in {None, Some(p)}
    && g.pins - s.cache.pages[p].pins == CallPin(call, p) - CallPin(s.threads[t].call, p)
    && (g.dirty ==> WritesBack(call, p) || (s.cache.pages[p].dirty && !WritesBack(s.threads[t].call, p)))
    && CallOk(r.cache, call) && Private(call) in {None, Private(s.threads[t].call)}
  }

  lemma PageStepPins(s: State, r: State, t: nat, call: Call, p: nat, g: Page)
    requires PinsOk(s) && PageStep(s, r, t, call, p, g)
    ensures PinsOk(r)
  {
    PinsKept(s, r, t, s.threads[t].(call := call));
  }

  lemma PageStepThreads(s: State, r: State, t: nat, call: Call, p: nat, g: Page)
    requires ThreadsOk(s) && PageStep(s, r, t, call, p, g)
    ensures ThreadsOk(r)
  {
    HoldsKept(s.cache, r.cache, None, s.threads[t].holds);
    ThreadsKept(s, r, t, s.threads[t].(call := call), None);
  }

  lemma PageStepDirty(s: State, r: State, t: nat, call: Call, p: nat, g: Page)
    requires DirtyOk(s) && PageStep(s, r, t, call, p, g)
    ensures DirtyOk(r)
  {
    DirtyKept(s, r, t, s.threads[t].(call := call));
  }

  lemma PageStepKeeps(s: State, r: State, t: nat, call: Call, p: nat, g: Page)
    requires Inv(s) && PageStep(s, r, t, call, p, g)
    ensures Inv(r)
  {
    StableCache(s.cache, r.cache);
    PageStepPins(s, r, t, call, p, g);
    PageStepThreads(s, r, t, call, p, g);
    PageStepDirty(s, r, t, call, p, g);
  }

  /** Thread `t` moves on and leaves the cache alone. */
  lemma CallStepKeeps(s: State, r: State, t: nat, call: Call)
    requires Inv(s) && t < |s.threads| && r.cache == s.cache && r.threads == SetCall(s, t, call).threads
    requires PinnedBy(call) == PinnedBy(s.threads[t].call) && CallOk(s.cache, call)
    requires Private(call) in {None, Private(s.threads[t].call)}
    requires forall p | 0 <= p < |s.cache.pages| && s.cache.pages[p].dirty && WritesBack(s.threads[t].call, p) :: WritesBack(call, p)
    ensures Inv(r)
  {
    StepKeeps(s, r, t, s.threads[t].(call := call), None);
  }

  /** Thread `t` pins the published page `q` and records the hold. */
  ghost predicate SharedPin(s: State, r: State, t: nat, q: nat, call: Call) {
    && t < |s.threads| && q < |s.cache.pages| && s.cache.pages[q].valid && s.cache.pages[q].buf.Some?
    && s.cache.pages[q].used
    && r.cache == PinAndTouch(s.cache, q)
    && r.threads == s.threads[t := Thread(call, s.threads[t].holds + [HoldOn(s, q)])]
    && PinnedBy(call) == PinnedBy(s.threads[t].call) && Private(call) == Private(s.threads[t].call)
    && CallOk(s.cache, call)
    && !(call.Checking? || call.Writing?) && !(s.threads[t].call.Checking? || s.threads[t].call.Writing?)
  }

  function HoldOn(s: State, q: nat): Hold
    requires q < |s.cache.pages| && s.cache.pages[q].buf.Some?
  {
    Hold(s.cache.pages[q].key, q, s.cache.pages[q].buf.value)
  }

  lemma SharedPinPins(s: State, r: State, t: nat, q: nat, call: Call)
    requires PinsOk(s) && SharedPin(s, r, t, q, call)
    ensures PinsOk(r)
  {
    forall p ensures CountHolds(r.threads[t].holds, p) == CountHolds(s.threads[t].holds, p) + (if p == q then 1 else 0) {
      CountHoldsAppend(s.threads[t].holds, HoldOn(s, q), p);
    }
    PinsKept(s, r, t, r.threads[t]);
  }

  lemma SharedPinThreads(s: State, r: State, t: nat, q: nat, call: Call)
    requires ThreadsOk(s) && SharedPin(s, r, t, q, call)
    ensures ThreadsOk(r)
  {
    HoldsKept(s.cache, r.cache, None, s.threads[t].holds);
    ThreadsKept(s, r, t, r.threads[t], None);
  }

  lemma SharedPinKeeps(s: State, r: State, t: nat, q: nat, call: Call)
    requires Inv(s) && SharedPin(s, r, t, q, call)
    ensures Inv(r)
  {
    PinAndTouchKeeps(s.cache, q);
    SharedPinPins(s, r, t, q, call);
    SharedPinThreads(s, r, t, q, call);
    DirtyKept(s, r, t, r.threads[t]);
  }

  /** Thread `t` moves on and changes page `x` alone, to which only it refers. */
  ghost predicate ExclStep(s: State, r: State, t: nat, call: Call, x: nat) {
    && t < |s.threads| && x < |s.cache.pages| == |r.cache.pages| && r.threads == SetCall(s, t, call).threads
    && OtherPagesSame(s.cache, r.cache, x)
    && OnlyThread(s, t, x) && CountHolds(s.threads[t].holds, x) == 0
    && s.cache.pages[x].pins == CallPin(s.threads[t].call, x) && r.cache.pages[x].pins == CallPin(call, x)
    && (r.cache.pages[x].used || r.cache.pages[x].pins == 0) && !r.cache.pages[x].dirty
    && PinnedBy(call) in {None, Some(x)} && PinnedBy(s.threads[t].call) in {None, Some(x)}
    && !(s.threads[t].call.Checking? || s.threads[t].call.Writing?)
    && CallOk(r.cache, call) && Private(call) in {None, Some(x)}
  }

  ghost predicate OtherPagesSame(c: Cache, d: Cache, x: nat) {
    |d.pages| == |c.pages| && forall q | 0 <= q < |c.pages| && q != x :: d.pages[q] == c.pages[q]
  }

  lemma ExclPins(s: State, r: State, t: nat, call: Call, x: nat)
    requires PinsOk(s) && ExclStep(s, r, t, call, x)
    ensures PinsOk(r)
  {
    PinsKept(s, r, t, s.threads[t].(call := call));
  }

  lemma ExclThreads(s: State, r: State, t: nat, call: Call, x: nat)
    requires ThreadsOk(s) && ExclStep(s, r, t, call, x)
    ensures ThreadsOk(r)
  {
    HoldsKept(s.cache, r.cache, Some(x), s.threads[t].holds);
    forall u | 0 <= u < |s.threads| && u != t ensures Private(s.threads[u].call) != Some(x) {
      assert Own(s.threads[u], x) == 0;
    }
    ThreadsKept(s, r, t, s.threads[t].(call := call), Some(x));
  }

  lemma ExclDirty(s: State, r: State, t: nat, call: Call, x: nat)
    requires DirtyOk(s) && ExclStep(s, r, t, call, x)
    ensures DirtyOk(r)
  {
    DirtyKept(s, r, t, s.threads[t].(call := call));
  }

  lemma ExclKeeps(s: State, r: State, t: nat, call: Call, x: nat)
    requires Inv(s) && ExclStep(s, r, t, call, x) && WellFormed(r.cache) && BuffersOk(r.cache)
    ensures Inv(r)
  {
    ExclPins(s, r, t, call, x);
    ExclThreads(s, r, t, call, x);
    ExclDirty(s, r, t, call, x);
  }

  // ---- Each step keeps the invariant -------------------------------------------

  lemma GetKeeps(s: State, t: nat, k: Key, size: U32)
    requires Inv(s) && Enabled(s, Get(t, k, size))
    ensures Inv(Apply(s, Get(t, k, size)))
  {
    var r := Apply(s, Get(t, k, size));
    match Find(s.cache, k) {
      case Some(p) => SharedPinKeeps(s, r, t, p, Idle);
      case None =>
        if r != s {
          CallStepKeeps(s, r, t, Missed(k, size / SECTOR_SIZE));
        }
    }
  }

  lemma PutKeeps(s: State, t: nat, h: nat)
    requires Inv(s) && Enabled(s, Put(t, h))
    ensures Inv(Apply(s, Put(t, h)))
  {
    var r := Apply(s, Put(t, h));
    var hold := s.threads[t].holds[h];
    HoldIsPinned(s, t, h);
    PutPins(s, r, t, h);
    PutThreads(s, r, t, h);
    DirtyKept(s, r, t, r.threads[t]);
    StableCache(s.cache, r.cache);
  }

  /** A page that a client holds is found under the hold's key, and pinned. */
  lemma HoldIsPinned(s: State, t: nat, h: nat)
    requires Inv(s) && t < |s.threads| && h < |s.threads[t].holds|
    ensures var hold := s.threads[t].holds[h];
            HoldOk(s.cache, hold) && Find(s.cache, hold.key) == Some(hold.page) && s.cache.pages[hold.page].pins >= 1
  {
    var hold := s.threads[t].holds[h];
    assert HoldOk(s.cache, hold);
    HoldCounts(s.threads[t].holds, h);
    OwnAtMostTotal(s.threads, t, hold.page);
  }

  /** Thread `t` gives back its hold number `h`. */
  ghost predicate PutStep(s: State, r: State, t: nat, h: nat) {
    && t < |s.threads| && h < |s.threads[t].holds|
    && var th := s.threads[t]; var p := th.holds[h].page;
       && p < |s.cache.pages| && s.cache.pages[p].valid && s.cache.pages[p].used
       && r.cache == AddPins(s.cache, p, -1)
       && r.threads == s.threads[t := th.(holds := th.holds[..h] + th.holds[h + 1..])]
  }

  lemma PutPins(s: State, r: State, t: nat, h: nat)
    requires PinsOk(s) && PutStep(s, r, t, h)
    ensures PinsOk(r)
  {
    var th, th' := s.threads[t], r.threads[t];
    forall p ensures CountHolds(th'.holds, p) == CountHolds(th.holds, p) - (if p == th.holds[h].page then 1 else 0) {
      CountHoldsRemove(th.holds, h, p);
    }
    PinsKept(s, r, t, th');
  }

  lemma PutThreads(s: State, r: State, t: nat, h: nat)
    requires ThreadsOk(s) && PutStep(s, r, t, h)
    ensures ThreadsOk(r)
  {
    var th, th' := s.threads[t], r.threads[t];
    HoldsKept(s.cache, r.cache, None, th.holds);
    assert forall j | 0 <= j < |th'.holds| :: th'.holds[j] == th.holds[if j < h then j else j + 1];
    ThreadsKept(s, r, t, th', None);
  }

  lemma EditKeeps(s: State, t: nat, h: nat, data: seq<Sector>)
    requires Inv(s) && Enabled(s, Edit(t, h, data))
    ensures Inv(Apply(s, Edit(t, h, data)))
  {
    var r := Apply(s, Edit(t, h, data));
    HoldIsPinned(s, t, h);
    var p := s.threads[t].holds[h].page;
    assert r.threads == SetCall(s, t, Idle).threads;
    PageStepKeeps(s, r, t, Idle, p, s.cache.pages[p].(data := data));
  }

  lemma MarkDirtyKeeps(s: State, t: nat, k: Key)
    requires Inv(s) && Enabled(s, MarkDirty(t, k))
    ensures Inv(Apply(s, MarkDirty(t, k)))
  {
    var r := Apply(s, MarkDirty(t, k));
    match Find(s.cache, k) {
      case Some(p) =>
        var g := s.cache.pages[p];
        PageStepKeeps(s, r, t, Checking(p, Return), p, g.(dirty := true, pins := g.pins + 1));
      case None =>
    }
  }

  /** A page that is not pinned is not dirty. */
  lemma UnpinnedIsClean(s: State, p: nat)
    requires PinsOk(s) && DirtyOk(s) && p < |s.cache.pages| && s.cache.pages[p].pins <= 0
    ensures !s.cache.pages[p].dirty
  {
    if s.cache.pages[p].dirty {
      var t :| 0 <= t < |s.threads| && WritesBack(s.threads[t].call, p);
      OwnAtMostTotal(s.threads, t, p);
    }
  }

  /** Dropping an unpinned published page. */
  lemma RemovalKeeps(s: State, r: State, t: nat, p: nat, call: Call)
    requires Inv(s) && t < |s.threads| && p < |s.cache.pages|
    requires s.cache.pages[p].valid && s.cache.pages[p].pins <= 0
    requires r.cache == Drop(s.cache, p) && r.threads == SetCall(s, t, call).threads
    requires PinnedBy(call).None? && PinnedBy(s.threads[t].call).None? && !call.Removing?
    ensures Inv(r)
  {
    DropKeeps(s.cache, p);
    UnpinnedIsFree(s, t, p);
    ExclKeeps(s, r, t, call, p);
  }

  lemma InvalidateBlockKeeps(s: State, t: nat, k: Key)
    requires Inv(s) && Enabled(s, InvalidateBlock(t, k))
    ensures Inv(Apply(s, InvalidateBlock(t, k)))
  {
    var r := Apply(s, InvalidateBlock(t, k));
    match Find(s.cache, k) {
      case Some(p) =>
        if s.cache.pages[p].pins <= 0 {
          UnpinnedIsClean(s, p);
          assert r.threads == SetCall(s, t, Idle).threads;
          RemovalKeeps(s, r, t, p, Idle);
        }
      case None =>
    }
  }

  lemma ClaimKeeps(s: State, t: nat, alloc: Option<nat>)
    requires Inv(s) && Enabled(s, Advance(t, alloc)) && s.threads[t].call.Missed?
    ensures Inv(AdvanceCall(s, t, alloc))
  {
    FirstFreeIsFree(s.cache.pages, 0);
    VictimIsUnpinned(s.cache.pages, s.cache.lru);
    if FirstFree(s.cache.pages, 0).Some? {
      ClaimUnusedKeeps(s, t, alloc, FirstFree(s.cache.pages, 0).value);
    } else if Victim(s.cache.pages, s.cache.lru).Some? {
      ClaimVictimKeeps(s, t, alloc, Victim(s.cache.pages, s.cache.lru).value);
    } else {
      CallStepKeeps(s, AdvanceCall(s, t, alloc), t, Idle);
    }
  }

  lemma ClaimUnusedKeeps(s: State, t: nat, alloc: Option<nat>, p: nat)
    requires Inv(s) && Enabled(s, Advance(t, alloc)) && s.threads[t].call.Missed?
    requires FirstFree(s.cache.pages, 0) == Some(p) && p < |s.cache.pages| && !s.cache.pages[p].used
    ensures Inv(AdvanceCall(s, t, alloc))
  {
    var Missed(k, spb) := s.threads[t].call;
    ClaimFreeKeeps(s, AdvanceCall(s, t, alloc), t, p, k, spb, s.cache);
  }

  lemma ClaimVictimKeeps(s: State, t: nat, alloc: Option<nat>, v: nat)
    requires Inv(s) && Enabled(s, Advance(t, alloc)) && s.threads[t].call.Missed?
    requires FirstFree(s.cache.pages, 0).None? && Victim(s.cache.pages, s.cache.lru) == Some(v)
    requires v in s.cache.lru && v < |s.cache.pages| && s.cache.pages[v].pins == 0
    ensures Inv(AdvanceCall(s, t, alloc))
  {
    var Missed(k, spb) := s.threads[t].call;
    UnpublishKeeps(s.cache, v);
    ClaimFreeKeeps(s, AdvanceCall(s, t, alloc), t, v, k, spb, Unpublish(s.cache, v));
  }

  lemma ClaimFreeKeeps(s: State, r: State, t: nat, p: nat, k: Key, spb: nat, c: Cache)
    requires Inv(s) && t < |s.threads| && p < |s.cache.pages| && s.threads[t].call.Missed?
    requires WellFormed(c) && BuffersOk(c) && OtherPagesSame(s.cache, c, p) && s.cache.pages[p].pins == 0
    requires !c.pages[p].used
    requires r.cache == Claim(c, p, k, spb) && r.threads == SetCall(s, t, Claimed(p)).threads
    ensures Inv(r)
  {
    UnpinnedIsFree(s, t, p);
    HiddenPageKeeps(c, r.cache, p);
    ExclKeeps(s, r, t, Claimed(p), p);
  }

  /** Changing an unpublished page, but not its buffer, keeps both structures. */
  lemma HiddenPageKeeps(c: Cache, d: Cache, p: nat)
    requires WellFormed(c) && BuffersOk(c) && p < |c.pages| && OtherPagesSame(c, d, p)
    requires d.lru == c.lru && d.index == c.index && !c.pages[p].valid && !d.pages[p].valid && !d.pages[p].dirty
    requires d.pages[p].buf == c.pages[p].buf || (d.pages[p].buf.Some? && FreshBuffer(c, d.pages[p].buf))
    ensures WellFormed(d) && BuffersOk(d)
  {
  }

  /** A claimed page gets its buffer, or is given up. */
  lemma BufferStepKeeps(s: State, t: nat, alloc: Option<nat>)
    requires Inv(s) && Enabled(s, Advance(t, alloc)) && s.threads[t].call.Claimed?
    ensures Inv(AdvanceCall(s, t, alloc))
  {
    var r := AdvanceCall(s, t, alloc);
    var p := s.threads[t].call.page;
    PrivateIsExclusive(s, t);
    HiddenPageKeeps(s.cache, r.cache, p);
    ExclKeeps(s, r, t, r.threads[t].call, p);
  }

  /** A filled page is thrown away because another thread published the block first. */
  lemma DiscardKeeps(s: State, t: nat, alloc: Option<nat>)
    requires Inv(s) && Enabled(s, Advance(t, alloc)) && s.threads[t].call.Discarding?
    ensures Inv(AdvanceCall(s, t, alloc))
  {
    var r := AdvanceCall(s, t, alloc);
    var p := s.threads[t].call.page;
    PrivateIsExclusive(s, t);
    HiddenPageKeeps(s.cache, r.cache, p);
    ExclKeeps(s, r, t, r.threads[t].call, p);
  }

  /** One more sector is read into the page. */
  lemma SectorKeeps(s: State, t: nat, alloc: Option<nat>)
    requires Inv(s) && Enabled(s, Advance(t, alloc)) && s.threads[t].call.Filling?
             && s.threads[t].call.next < s.cache.pages[s.threads[t].call.page].spb
    ensures Inv(AdvanceCall(s, t, alloc))
  {
    var r := AdvanceCall(s, t, alloc);
    var p := s.threads[t].call.page;
    PrivateIsExclusive(s, t);
    HiddenPageKeeps(s.cache, r.cache, p);
    ExclKeeps(s, r, t, r.threads[t].call, p);
  }

  lemma PublishStepKeeps(s: State, t: nat, alloc: Option<nat>)
    requires Inv(s) && Enabled(s, Advance(t, alloc))
    requires s.threads[t].call.Filling? && s.threads[t].call.next >= s.cache.pages[s.threads[t].call.page].spb
    ensures Inv(AdvanceCall(s, t, alloc))
  {
    match Find(s.cache, s.cache.pages[s.threads[t].call.page].key) {
      case Some(q) => ShareKeeps(s, t, alloc, q);
      case None => PublishNewKeeps(s, t, alloc);
    }
  }

  lemma ShareKeeps(s: State, t: nat, alloc: Option<nat>, q: nat)
    requires Inv(s) && Enabled(s, Advance(t, alloc))
    requires s.threads[t].call.Filling? && s.threads[t].call.next >= s.cache.pages[s.threads[t].call.page].spb
    requires Find(s.cache, s.cache.pages[s.threads[t].call.page].key) == Some(q)
    ensures Inv(AdvanceCall(s, t, alloc))
  {
    SharedPinKeeps(s, AdvanceCall(s, t, alloc), t, q, Discarding(s.threads[t].call.page));
  }

  lemma PublishNewKeeps(s: State, t: nat, alloc: Option<nat>)
    requires Inv(s) && Enabled(s, Advance(t, alloc))
    requires s.threads[t].call.Filling? && s.threads[t].call.next >= s.cache.pages[s.threads[t].call.page].spb
    requires Find(s.cache, s.cache.pages[s.threads[t].call.page].key) == None
    ensures Inv(AdvanceCall(s, t, alloc))
  {
    var p := s.threads[t].call.page;
    PrivateIsExclusive(s, t);
    NoHoldOnUnpublished(s, t, p);
    PublishedKeeps(s, AdvanceCall(s, t, alloc), t, p);
  }

  lemma PublishedKeeps(s: State, r: State, t: nat, p: nat)
    requires Inv(s) && t < |s.threads| && p < |s.cache.pages|
    requires s.threads[t].call.Filling? && s.threads[t].call.page == p
    requires OnlyThread(s, t, p) && CountHolds(s.threads[t].holds, p) == 0 && s.cache.pages[p].buf.Some?
    requires !s.cache.pages[p].dirty && !s.cache.pages[p].valid && s.cache.pages[p].used && s.cache.pages[p].key !in s.cache.index
    requires r.cache == Publish(s.cache, p)
    requires r.threads == s.threads[t := Thread(Idle, s.threads[t].holds + [HoldOn(s, p)])]
    ensures Inv(r)
  {
    PublishKeeps(s.cache, p);
    PublishParts(s, r, t, p);
  }

  lemma PublishParts(s: State, r: State, t: nat, p: nat)
    requires PinsOk(s) && ThreadsOk(s) && DirtyOk(s) && t < |s.threads| && p < |s.cache.pages|
    requires s.threads[t].call.Filling? && s.threads[t].call.page == p
    requires OnlyThread(s, t, p) && CountHolds(s.threads[t].holds, p) == 0 && s.cache.pages[p].buf.Some?
    requires !s.cache.pages[p].dirty && s.cache.pages[p].used
    requires r.cache == Publish(s.cache, p)
    requires r.threads == s.threads[t := Thread(Idle, s.threads[t].holds + [HoldOn(s, p)])]
    ensures PinsOk(r) && ThreadsOk(r) && DirtyOk(r)
  {
    var th, th' := s.threads[t], r.threads[t];
    forall q ensures CountHolds(th'.holds, q) == CountHolds(th.holds, q) + (if p == q then 1 else 0) {
      CountHoldsAppend(th.holds, HoldOn(s, p), q);
    }
    PinsKept(s, r, t, th');
    HoldsKept(s.cache, r.cache, Some(p), th.holds);
    ThreadsKept(s, r, t, th', Some(p));
    DirtyKept(s, r, t, th');
  }

  lemma CheckKeeps(s: State, t: nat, alloc: Option<nat>)
    requires Inv(s) && Enabled(s, Advance(t, alloc)) && s.threads[t].call.Checking?
    ensures Inv(AdvanceCall(s, t, alloc))
  {
    var r := AdvanceCall(s, t, alloc);
    var Checking(p, after) := s.threads[t].call;
    if r.cache == s.cache {
      CallStepKeeps(s, r, t, r.threads[t].call);
    } else {
      PageStepKeeps(s, r, t, Unpinning(p, after), p, s.cache.pages[p].(dirty := false));
    }
  }

  lemma WriteKeeps(s: State, t: nat, alloc: Option<nat>)
    requires Inv(s) && Enabled(s, Advance(t, alloc)) && s.threads[t].call.Writing?
    ensures Inv(AdvanceCall(s, t, alloc))
  {
    if s.threads[t].call.next < s.cache.pages[s.threads[t].call.page].spb {
      WriteSectorKeeps(s, t, alloc);
    } else {
      WrittenKeeps(s, t, alloc);
    }
  }

  lemma WriteSectorKeeps(s: State, t: nat, alloc: Option<nat>)
    requires Inv(s) && Enabled(s, Advance(t, alloc)) && s.threads[t].call.Writing?
    requires s.threads[t].call.next < s.cache.pages[s.threads[t].call.page].spb
    ensures Inv(AdvanceCall(s, t, alloc))
  {
    var Writing(p, i, after) := s.threads[t].call;
    CallStepKeeps(s, AdvanceCall(s, t, alloc), t, Writing(p, i + 1, after));
  }

  lemma WrittenKeeps(s: State, t: nat, alloc: Option<nat>)
    requires Inv(s) && Enabled(s, Advance(t, alloc)) && s.threads[t].call.Writing?
    requires s.threads[t].call.next >= s.cache.pages[s.threads[t].call.page].spb
    ensures Inv(AdvanceCall(s, t, alloc))
  {
    var Writing(p, i, after) := s.threads[t].call;
    PageStepKeeps(s, AdvanceCall(s, t, alloc), t, Unpinning(p, after), p, s.cache.pages[p].(dirty := false));
  }

  lemma UnpinKeeps(s: State, t: nat, alloc: Option<nat>)
    requires Inv(s) && Enabled(s, Advance(t, alloc)) && s.threads[t].call.Unpinning?
    ensures Inv(AdvanceCall(s, t, alloc))
  {
    var r := AdvanceCall(s, t, alloc);
    var p := s.threads[t].call.page;
    OwnAtMostTotal(s.threads, t, p);
    PageStepKeeps(s, r, t, r.threads[t].call, p, r.cache.pages[p]);
  }

  predicate FlushFinds(c: Cache, call: Call)
    requires call.Flushing?
  {
    call.i < |c.pages| && c.pages[call.i].valid && c.pages[call.i].dirty && c.pages[call.i].key.dev == call.dev
  }

  /** One page of a flush. */
  lemma FlushKeeps(s: State, t: nat, alloc: Option<nat>)
    requires Inv(s) && Enabled(s, Advance(t, alloc)) && s.threads[t].call.Flushing?
    ensures Inv(AdvanceCall(s, t, alloc))
  {
    if FlushFinds(s.cache, s.threads[t].call) {
      FlushPinKeeps(s, t, alloc);
    } else {
      FlushPassKeeps(s, t, alloc);
    }
  }

  lemma FlushPinKeeps(s: State, t: nat, alloc: Option<nat>)
    requires Inv(s) && Enabled(s, Advance(t, alloc)) && s.threads[t].call.Flushing? && FlushFinds(s.cache, s.threads[t].call)
    ensures Inv(AdvanceCall(s, t, alloc))
  {
    var r, i := AdvanceCall(s, t, alloc), s.threads[t].call.i;
    PageStepKeeps(s, r, t, r.threads[t].call, i, r.cache.pages[i]);
  }

  lemma FlushPassKeeps(s: State, t: nat, alloc: Option<nat>)
    requires Inv(s) && Enabled(s, Advance(t, alloc)) && s.threads[t].call.Flushing? && !FlushFinds(s.cache, s.threads[t].call)
    ensures Inv(AdvanceCall(s, t, alloc))
  {
    var r := AdvanceCall(s, t, alloc);
    CallStepKeeps(s, r, t, r.threads[t].call);
  }

  /** One page of the sweep that follows it. */
  lemma SweepKeeps(s: State, t: nat, alloc: Option<nat>)
    requires Inv(s) && Enabled(s, Advance(t, alloc)) && s.threads[t].call.Dropping?
    ensures Inv(AdvanceCall(s, t, alloc))
  {
    var r := AdvanceCall(s, t, alloc);
    var call, c := s.threads[t].call, s.cache;
    if call.i < |c.pages| && c.pages[call.i].valid && c.pages[call.i].key.dev == call.dev && c.pages[call.i].pins <= 0 {
      RemovalKeeps(s, r, t, call.i, r.threads[t].call);
    } else {
      CallStepKeeps(s, r, t, r.threads[t].call);
    }
  }

  /** Every step of every thread keeps the invariant. */
  lemma ApplyKeeps(s: State, step: Step)
    requires Inv(s) && Enabled(s, step)
    ensures Inv(Apply(s, step))
  {
    match step
    case Get(t, k, size) => GetKeeps(s, t, k, size);
    case Put(t, h) => PutKeeps(s, t, h);
    case Edit(t, h, data) => EditKeeps(s, t, h, data);
    case MarkDirty(t, k) => MarkDirtyKeeps(s, t, k);
    case FlushDev(t, dev, drop) => CallStepKeeps(s, Apply(s, step), t, Flushing(dev, 0, drop));
    case InvalidateBlock(t, k) => InvalidateBlockKeeps(s, t, k);
    case Advance(t, alloc) => AdvanceKeeps(s, t, alloc);
  }

  lemma AdvanceKeeps(s: State, t: nat, alloc: Option<nat>)
    requires Inv(s) && Enabled(s, Advance(t, alloc))
    ensures Inv(AdvanceCall(s, t, alloc))
  {
    var call := s.threads[t].call;
    assert CallOk(s.cache, call);
    match call
    case Missed(_, _) => ClaimKeeps(s, t, alloc);
    case Claimed(_) => BufferStepKeeps(s, t, alloc);
    case Discarding(_) => DiscardKeeps(s, t, alloc);
    case Filling(p, i) => if i < s.cache.pages[p].spb { SectorKeeps(s, t, alloc); } else { PublishStepKeeps(s, t, alloc); }
    case Checking(_, _) => CheckKeeps(s, t, alloc);
    case Writing(_, _, _) => WriteKeeps(s, t, alloc);
    case Unpinning(_, _) => UnpinKeeps(s, t, alloc);
    case Flushing(_, _, _) => FlushKeeps(s, t, alloc);
    case Dropping(_, _) => SweepKeeps(s, t, alloc);
  }

  // ---- Every run ---------------------------------------------------------------

  lemma InitIsInv(s: State)
    requires Init(s)
    ensures Inv(s)
  {
    forall p ensures TotalPins(s.threads, p) == 0 {
      PinsOfNone(s.threads, p);
    }
  }

  /** The invariant holds after every run that starts from a state where it holds. */
  lemma {:induction false} RunKeeps(s: State, steps: seq<Step>)
    requires Inv(s) && IsRun(s, steps)
    ensures Inv(EndOf(s, steps))
    decreases steps
  {
    if steps != [] {
      ApplyKeeps(s, steps[0]);
      RunKeeps(Apply(s, steps[0]), steps[1..]);
    }
  }

  /** In every interleaving, whenever the lock is free: the index and the recency
      list describe the same VALID pages, a DIRTY page is pinned, and the pin
      count of a page is the number of client holds and calls in progress on it. */
  lemma EveryRunIsSafe(s: State, steps: seq<Step>)
    requires Init(s) && IsRun(s, steps)
    ensures var e := EndOf(s, steps);
            && WellFormed(e.cache)
            && (forall p | 0 <= p < |e.cache.pages| && e.cache.pages[p].dirty :: e.cache.pages[p].pins > 0)
            && (forall p | 0 <= p < |e.cache.pages| :: e.cache.pages[p].pins == TotalPins(e.threads, p))
  {
    InitIsInv(s);
    RunKeeps(s, steps);
    var e := EndOf(s, steps);
    forall p | 0 <= p < |e.cache.pages| && e.cache.pages[p].dirty ensures e.cache.pages[p].pins > 0 {
      if e.cache.pages[p].pins <= 0 {
        UnpinnedIsClean(e, p);
      }
    }
  }

  /** The write-back branches of eviction and invalidation are dead code: the page
      either would take is clean, and no call ever waits to remove a page it
      wrote back. */
  lemma DirtyBranchesNeverTaken(s: State, steps: seq<Step>)
    requires Init(s) && IsRun(s, steps)
    ensures var e := EndOf(s, steps);
            var v := Victim(e.cache.pages, e.cache.lru);
            && (v.Some? ==> v.value < |e.cache.pages| && !e.cache.pages[v.value].dirty)
            && (forall p | 0 <= p < |e.cache.pages| && e.cache.pages[p].pins == 0 :: !e.cache.pages[p].dirty)
            && (forall t | 0 <= t < |e.threads| :: !e.threads[t].call.Removing?)
  {
    InitIsInv(s);
    RunKeeps(s, steps);
    var e := EndOf(s, steps);
    VictimIsUnpinned(e.cache.pages, e.cache.lru);
    forall p | 0 <= p < |e.cache.pages| && e.cache.pages[p].pins == 0 ensures !e.cache.pages[p].dirty {
      UnpinnedIsClean(e, p);
    }
    forall t | 0 <= t < |e.threads| ensures !e.threads[t].call.Removing? {
      assert CallOk(e.cache, e.threads[t].call);
    }
  }

  /** No step of the run is thread `t` putting back this hold. */
  ghost predicate NeverPuts(s: State, steps: seq<Step>, t: nat, hold: Hold)
    requires IsRun(s, steps)
    decreases steps
  {
    steps != [] ==>
      && (steps[0].Put? && steps[0].t == t ==> s.threads[t].holds[steps[0].h] != hold)
      && NeverPuts(Apply(s, steps[0]), steps[1..], t, hold)
  }

  lemma HoldsOnlyGrow(s: State, step: Step, t: nat)
    requires Enabled(s, step) && t < |s.threads| && !(step.Put? && step.t == t)
    ensures |Apply(s, step).threads| == |s.threads| && s.threads[t].holds <= Apply(s, step).threads[t].holds
  {
    if step.Advance? {
      AdvanceHoldsOnlyGrow(s, step.t, step.alloc, t);
    }
  }

  lemma SetCallKeepsHolds(s: State, r: State, t: nat, call: Call, u: nat)
    requires t < |s.threads| && u < |s.threads| && r.threads == SetCall(s, t, call).threads
    ensures |r.threads| == |s.threads| && r.threads[u].holds == s.threads[u].holds
  {
  }

  lemma PublishHoldsOnlyGrow(s: State, t: nat, p: nat, u: nat)
    requires t < |s.threads| && u < |s.threads| && p < |s.cache.pages|
    requires Find(s.cache, s.cache.pages[p].key).Some? ==> Find(s.cache, s.cache.pages[p].key).value < |s.cache.pages|
    ensures |PublishOrShare(s, t, p).threads| == |s.threads|
    ensures s.threads[u].holds <= PublishOrShare(s, t, p).threads[u].holds
  {
  }

  predicate Publishes(s: State, call: Call) {
    call.Filling? && call.page < |s.cache.pages| && call.next >= s.cache.pages[call.page].spb
  }

  lemma AdvanceSetsCall(s: State, t: nat, alloc: Option<nat>)
    requires Enabled(s, Advance(t, alloc)) && !Publishes(s, s.threads[t].call)
    ensures var r := AdvanceCall(s, t, alloc);
            t < |r.threads| && r.threads == SetCall(s, t, r.threads[t].call).threads
  {
  }

  lemma AdvanceHoldsOnlyGrow(s: State, t: nat, alloc: Option<nat>, u: nat)
    requires Enabled(s, Advance(t, alloc)) && u < |s.threads|
    ensures |AdvanceCall(s, t, alloc).threads| == |s.threads|
    ensures s.threads[u].holds <= AdvanceCall(s, t, alloc).threads[u].holds
  {
    if Publishes(s, s.threads[t].call) {
      PublishHoldsOnlyGrow(s, t, s.threads[t].call.page, u);
    } else {
      AdvanceSetsCall(s, t, alloc);
      var r := AdvanceCall(s, t, alloc);
      SetCallKeepsHolds(s, r, t, r.threads[t].call, u);
    }
  }

  lemma HoldsOnlyLeaveByPut(s: State, step: Step, t: nat, hold: Hold)
    requires Enabled(s, step) && t < |s.threads| && hold in s.threads[t].holds
    requires step.Put? && step.t == t ==> s.threads[t].holds[step.h] != hold
    ensures |Apply(s, step).threads| == |s.threads| && hold in Apply(s, step).threads[t].holds
  {
    var j :| 0 <= j < |s.threads[t].holds| && s.threads[t].holds[j] == hold;
    if step.Put? && step.t == t {
      var holds, h := s.threads[t].holds, step.h;
      assert (holds[..h] + holds[h + 1..])[if j < h then j else j - 1] == hold;
    } else {
      HoldsOnlyGrow(s, step, t);
      assert Apply(s, step).threads[t].holds[j] == hold;
    }
  }

  /** From the get that returned it until its own put, a client's page keeps its
      block and its buffer, stays published and stays pinned. */
  lemma {:induction false} HoldSurvives(s: State, steps: seq<Step>, t: nat, hold: Hold)
    requires Inv(s) && IsRun(s, steps) && t < |s.threads| && hold in s.threads[t].holds
    requires NeverPuts(s, steps, t, hold)
    ensures var e := EndOf(s, steps);
            && t < |e.threads| && hold in e.threads[t].holds && hold.page < |e.cache.pages|
            && var g := e.cache.pages[hold.page];
               g.valid && g.key == hold.key && g.buf == Some(hold.buf) && g.pins >= 1
    decreases steps
  {
    if steps == [] {
      var h :| 0 <= h < |s.threads[t].holds| && s.threads[t].holds[h] == hold;
      HoldIsPinned(s, t, h);
    } else {
      ApplyKeeps(s, steps[0]);
      HoldsOnlyLeaveByPut(s, steps[0], t, hold);
      HoldSurvives(Apply(s, steps[0]), steps[1..], t, hold);
    }
  }
}
