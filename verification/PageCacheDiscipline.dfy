/** Two rules a client can follow and check: no block is asked for while another request
    for it is being read in, and no buffer is edited while it is being written back.  In
    every run in which every call follows them the cache agrees with its devices. */
module PageCacheDiscipline {
  import opened MachineInts
  import opened PageCacheModel
  import opened PageCacheProtocol
  import opened PageCacheSafety
  import opened PageCacheCoherence

  /** The block a call has missed and is reading in. */
  function InFlight(s: State, u: nat): Option<Key>
    requires u < |s.threads|
  {
    var call := s.threads[u].call;
    if call.Missed? then Some(call.key)
    else if (call.Claimed? || call.Filling?) && call.page < |s.cache.pages| then Some(s.cache.pages[call.page].key)
    else None
  }

  /** A get does not start while another get of the same block is in flight. */
  ghost predicate GetRule(s: State, step: Step) {
    step.Get? ==> forall u | 0 <= u < |s.threads| :: InFlight(s, u) != Some(step.key)
  }

  ghost predicate NobodyWritesBack(s: State, p: nat) {
    forall u | 0 <= u < |s.threads| :: !WritesBack(s.threads[u].call, p)
  }

  /** No buffer is edited while it is being written back. */
  ghost predicate EditRule(s: State, step: Step)
    requires Enabled(s, step)
  {
    step.Edit? ==> NobodyWritesBack(s, s.threads[step.t].holds[step.h].page)
  }

  ghost predicate Disciplined(s: State, steps: seq<Step>, geo: Geometry)
    requires IsRun(s, steps)
    decreases steps
  {
    steps != [] ==>
      && RequestRule(s, steps[0], geo) && GetRule(s, steps[0]) && EditRule(s, steps[0])
      && Disciplined(Apply(s, steps[0]), steps[1..], geo)
  }

  // ---- Blocks in flight ------------------------------------------------------------------

  /** A block in flight is in no other call and not in the index. */
  ghost predicate FlightsApart(s: State) {
    && (forall u | 0 <= u < |s.threads| && InFlight(s, u).Some? :: InFlight(s, u).value !in s.cache.index)
    && (forall u, v | 0 <= u < |s.threads| && 0 <= v < |s.threads| && u != v && InFlight(s, u).Some? :: InFlight(s, u) != InFlight(s, v))
  }

  /** A step whose thread takes off for no new block, publishes at most the block it had
      in flight, and leaves every other flight as it was. */
  ghost predicate FlightStep(s: State, r: State, t: nat) {
    && t < |s.threads| == |r.threads|
    && (forall u | 0 <= u < |s.threads| && u != t :: InFlight(r, u) == InFlight(s, u))
    && (InFlight(r, t).Some? ==> InFlight(r, t) == InFlight(s, t))
    && (forall k | k in r.cache.index && k !in s.cache.index :: InFlight(s, t) == Some(k) && InFlight(r, t).None?)
  }

  lemma FlightStepKeeps(s: State, r: State, t: nat)
    requires FlightsApart(s) && FlightStep(s, r, t)
    ensures FlightsApart(r)
  {
    forall u | 0 <= u < |r.threads| && InFlight(r, u).Some? ensures InFlight(r, u).value !in r.cache.index {
      if u != t {
        assert InFlight(s, u) == InFlight(r, u);
        assert InFlight(s, t) != InFlight(s, u);
      }
    }
  }

  /** Pages other threads have in flight keep their keys. */
  lemma OtherFlights(s: State, r: State, t: nat, x: Option<nat>)
    requires t < |s.threads| == |r.threads| && |s.cache.pages| == |r.cache.pages|
    requires forall u | 0 <= u < |s.threads| && u != t :: r.threads[u].call == s.threads[u].call
    requires forall p | 0 <= p < |s.cache.pages| && Some(p) != x :: r.cache.pages[p].key == s.cache.pages[p].key
    requires x.Some? ==> forall u | 0 <= u < |s.threads| && u != t :: Private(s.threads[u].call) != x
    ensures forall u | 0 <= u < |s.threads| && u != t :: InFlight(r, u) == InFlight(s, u)
  {
  }

  lemma SlotIsUnpinned(s: State)
    requires WellFormed(s.cache) && forall p | 0 <= p < |s.cache.pages| && !s.cache.pages[p].used :: s.cache.pages[p].pins == 0
    ensures AllocSlot(s.cache).Some? ==>
              var p := AllocSlot(s.cache).value;
              p < |s.cache.pages| && s.cache.pages[p].pins <= 0
  {
    FirstFreeIsFree(s.cache.pages, 0);
    VictimIsUnpinned(s.cache.pages, s.cache.lru);
  }

  lemma ClaimFlies(s: State, t: nat, alloc: Option<nat>)
    requires Inv(s) && Enabled(s, Advance(t, alloc)) && s.threads[t].call.Missed?
    ensures FlightStep(s, AdvanceCall(s, t, alloc), t)
  {
    SlotIsUnpinned(s);
    match AllocSlot(s.cache) {
      case Some(p) =>
        UnpinnedIsFree(s, t, p);
        NobodyFills(s, t, p);
        ClaimedFlies(s, t, alloc, p);
      case None => NothingClaimed(s, t, alloc);
    }
  }

  lemma NothingClaimed(s: State, t: nat, alloc: Option<nat>)
    requires Enabled(s, Advance(t, alloc)) && s.threads[t].call.Missed? && AllocSlot(s.cache) == None
    ensures FlightStep(s, AdvanceCall(s, t, alloc), t)
  {
    OtherFlights(s, AdvanceCall(s, t, alloc), t, None);
  }

  lemma NobodyFills(s: State, t: nat, p: nat)
    requires OnlyThread(s, t, p)
    ensures forall u | 0 <= u < |s.threads| && u != t :: Private(s.threads[u].call) != Some(p)
  {
    forall u | 0 <= u < |s.threads| && u != t ensures Private(s.threads[u].call) != Some(p) {
      assert Own(s.threads[u], p) == 0;
    }
  }

  lemma ClaimedFlies(s: State, t: nat, alloc: Option<nat>, p: nat)
    requires Enabled(s, Advance(t, alloc)) && s.threads[t].call.Missed?
    requires AllocSlot(s.cache) == Some(p) && p < |s.cache.pages|
    requires forall u | 0 <= u < |s.threads| && u != t :: Private(s.threads[u].call) != Some(p)
    ensures FlightStep(s, AdvanceCall(s, t, alloc), t)
  {
    OtherFlights(s, AdvanceCall(s, t, alloc), t, Some(p));
  }

  /** Pages keep their keys, and other threads their calls. */
  ghost predicate KeysKept(s: State, r: State, t: nat) {
    && t < |s.threads| == |r.threads| && |s.cache.pages| == |r.cache.pages|
    && (forall u | 0 <= u < |s.threads| && u != t :: r.threads[u].call == s.threads[u].call)
    && (forall p | 0 <= p < |s.cache.pages| :: r.cache.pages[p].key == s.cache.pages[p].key)
  }

  lemma FillingFlies(s: State, t: nat, alloc: Option<nat>)
    requires ThreadsOk(s) && Enabled(s, Advance(t, alloc)) && Private(s.threads[t].call).Some?
    ensures FlightStep(s, AdvanceCall(s, t, alloc), t)
  {
    var r := AdvanceCall(s, t, alloc);
    assert CallOk(s.cache, s.threads[t].call);
    assert KeysKept(s, r, t);
    OtherFlights(s, r, t, None);
  }

  lemma WritingKeepsKeys(s: State, t: nat, alloc: Option<nat>)
    requires ThreadsOk(s) && Enabled(s, Advance(t, alloc)) && Private(s.threads[t].call).None? && !s.threads[t].call.Missed?
    ensures var r := AdvanceCall(s, t, alloc);
            && KeysKept(s, r, t) && Private(r.threads[t].call).None? && !r.threads[t].call.Missed?
            && forall k | k in r.cache.index :: k in s.cache.index
  {
    assert CallOk(s.cache, s.threads[t].call);
  }

  lemma AdvanceFlies(s: State, t: nat, alloc: Option<nat>)
    requires Inv(s) && Enabled(s, Advance(t, alloc))
    ensures FlightStep(s, AdvanceCall(s, t, alloc), t)
  {
    if s.threads[t].call.Missed? {
      ClaimFlies(s, t, alloc);
    } else if Private(s.threads[t].call).Some? {
      FillingFlies(s, t, alloc);
    } else {
      WritingKeepsKeys(s, t, alloc);
      OtherFlights(s, AdvanceCall(s, t, alloc), t, None);
    }
  }

  /** Calls that begin: a get may take off for a block nobody else has in flight. */
  lemma BeginningKeepsKeys(s: State, step: Step)
    requires ThreadsOk(s) && IndexSound(s.cache) && Enabled(s, step) && !step.Advance?
    ensures var r := Apply(s, step);
            && KeysKept(s, r, step.t) && Private(r.threads[step.t].call).None?
            && (r.threads[step.t].call.Missed? ==> step.Get? && r.threads[step.t].call.key == step.key && step.key !in r.cache.index)
            && forall k | k in r.cache.index :: k in s.cache.index
  {
    if step.Edit? || step.Put? {
      assert HoldOk(s.cache, s.threads[step.t].holds[step.h]);
    }
  }

  lemma BeginningFlies(s: State, r: State, step: Step)
    requires FlightsApart(s) && GetRule(s, step) && KeysKept(s, r, step.t) && Private(r.threads[step.t].call).None?
    requires r.threads[step.t].call.Missed? ==> step.Get? && r.threads[step.t].call.key == step.key && step.key !in r.cache.index
    requires forall k | k in r.cache.index :: k in s.cache.index
    ensures FlightsApart(r)
  {
    OtherFlights(s, r, step.t, None);
  }

  lemma FlightsStayApart(s: State, step: Step)
    requires Inv(s) && FlightsApart(s) && Enabled(s, step) && GetRule(s, step)
    ensures FlightsApart(Apply(s, step))
  {
    if step.Advance? {
      AdvanceFlies(s, step.t, step.alloc);
      FlightStepKeeps(s, Apply(s, step), step.t);
    } else {
      BeginningKeepsKeys(s, step);
      BeginningFlies(s, Apply(s, step), step);
    }
  }

  /** Where flights are apart, no removal can reach a block that is being filled. */
  lemma DisciplineIsEnough(s: State, step: Step, geo: Geometry)
    requires Inv(s) && FlightsApart(s) && Enabled(s, step) && RequestRule(s, step, geo) && EditRule(s, step)
    ensures Rules(s, step, geo)
  {
    var p := Removes(s, step);
    if p.Some? {
      VictimIsUnpinned(s.cache.pages, s.cache.lru);
      assert s.cache.pages[p.value].key in s.cache.index;
      forall u | 0 <= u < |s.threads| && s.threads[u].call.Filling? && s.threads[u].call.page < |s.cache.pages|
        ensures s.cache.pages[s.threads[u].call.page].key != s.cache.pages[p.value].key
      {
        assert InFlight(s, u) == Some(s.cache.pages[s.threads[u].call.page].key);
      }
    }
  }

  lemma {:induction false} DisciplinedRunObeys(s: State, steps: seq<Step>, geo: Geometry)
    requires Inv(s) && FlightsApart(s) && IsRun(s, steps) && Disciplined(s, steps, geo)
    ensures RunObeys(s, steps, geo)
    decreases steps
  {
    if steps != [] {
      DisciplineIsEnough(s, steps[0], geo);
      FlightsStayApart(s, steps[0]);
      ApplyKeeps(s, steps[0]);
      DisciplinedRunObeys(Apply(s, steps[0]), steps[1..], geo);
    }
  }

  // ---- Main results ------------------------------------------------------------------------

  /** If no block is asked for while another request for it is in flight, and no buffer is
      edited while it is being written back, then in every run every published page that
      is clean and not being edited is what a direct read of its device returns, whatever
      was evicted, reloaded or invalidated in between. */
  lemma DisciplinedRunIsCoherent(s: State, steps: seq<Step>, geo: Geometry)
    requires Init(s) && IsRun(s, steps) && Disciplined(s, steps, geo)
    ensures !Stale(EndOf(s, steps))
  {
    InitIsInv(s);
    DisciplinedRunObeys(s, steps, geo);
    CacheAgreesWithDevice(s, steps, geo);
  }
}
