/** The rules of coherence are exact: from a coherent state a step keeps coherence if and
    only if it respects them, and a step that does not can be followed by steps that all
    respect them to a published page that differs from its device. */
module PageCacheExact {
  import opened MachineInts
  import opened PageCacheModel
  import opened PageCacheProtocol
  import opened PageCacheSafety
  import opened PageCacheCoherence

  /** What a removing step does: one published page goes, and nothing else that matters
      to another thread. */
  ghost predicate TakesOut(s: State, r: State, t: nat, p: nat) {
    && p < |s.cache.pages| == |r.cache.pages| && s.cache.pages[p].valid && s.cache.pages[p].key !in r.cache.index
    && r.disk == s.disk && |r.threads| == |s.threads| && t < |s.threads| && !s.threads[t].call.Filling?
    && (forall q | 0 <= q < |s.cache.pages| && q != p :: r.cache.pages[q] == s.cache.pages[q])
    && (forall u | 0 <= u < |s.threads| && u != t :: r.threads[u] == s.threads[u])
  }

  lemma RemovalTakesOut(s: State, step: Step)
    requires Inv(s) && Enabled(s, step) && Removes(s, step).Some?
    ensures TakesOut(s, Apply(s, step), step.t, Removes(s, step).value)
  {
    var p := Removes(s, step).value;
    if step.InvalidateBlock? {
      UnpinnedIsClean(s, p);
    } else if s.threads[step.t].call.Missed? {
      VictimIsUnpinned(s.cache.pages, s.cache.lru);
      UnpinnedIsClean(s, p);
    }
  }

  /** A fill that has read what is no longer on the device, of a block nobody has
      published. */
  ghost predicate StaleFiller(s: State, u: nat, j: nat) {
    && u < |s.threads| && s.threads[u].call.Filling? && s.threads[u].call.page < |s.cache.pages|
    && var g := s.cache.pages[s.threads[u].call.page];
       && g.key !in s.cache.index && j < s.threads[u].call.next && j < |g.data| == g.spb
       && g.data[j] != ReadSector(s.disk, Some(g.key.dev), Lba(g.key, g.spb, j))
  }

  /** A write-back that has written what is no longer in the buffer. */
  ghost predicate StaleWriter(s: State, u: nat, j: nat, geo: Geometry) {
    && u < |s.threads| && s.threads[u].call.Writing? && s.threads[u].call.page < |s.cache.pages|
    && var g := s.cache.pages[s.threads[u].call.page];
       && InRange(s.disk, geo, g.key, g.spb) && j < s.threads[u].call.next && j < |g.data| == g.spb
       && g.data[j] != ReadSector(s.disk, Some(g.key.dev), Lba(g.key, g.spb, j))
  }

  lemma BrokenRemoval(s: State, step: Step) returns (u: nat, j: nat)
    requires Inv(s) && Enabled(s, step) && !ExactRemovalRule(s, step)
    ensures StaleFiller(Apply(s, step), u, j)
  {
    var p := Removes(s, step).value;
    RemovalTakesOut(s, step);
    u :| 0 <= u < |s.threads| && s.threads[u].call.Filling? && s.threads[u].call.page < |s.cache.pages|
         && s.cache.pages[s.threads[u].call.page].key == s.cache.pages[p].key
         && !SyncedUpTo(s.disk, s.cache.pages[s.threads[u].call.page], s.threads[u].call.next);
    assert CallOk(s.cache, s.threads[u].call);
    var g := s.cache.pages[s.threads[u].call.page];
    j :| 0 <= j < s.threads[u].call.next && g.data[j] != ReadSector(s.disk, Some(g.key.dev), Lba(g.key, g.spb, j));
  }

  lemma BrokenEdit(s: State, step: Step, geo: Geometry) returns (u: nat, j: nat)
    requires Inv(s) && PagesInRange(s, geo) && Enabled(s, step) && !ExactEditRule(s, step)
    ensures StaleWriter(Apply(s, step), u, j, geo) && u != step.t
    ensures var r := Apply(s, step); r.threads[u].call.page == r.threads[step.t].holds[step.h].page
  {
    var p := s.threads[step.t].holds[step.h].page;
    u :| 0 <= u < |s.threads| && s.threads[u].call.Writing? && s.threads[u].call.page == p
         && !SyncedUpTo(s.disk, s.cache.pages[p].(data := step.data), s.threads[u].call.next);
    assert CallOk(s.cache, s.threads[u].call);
    var g := s.cache.pages[p].(data := step.data);
    j :| 0 <= j < s.threads[u].call.next && g.data[j] != ReadSector(s.disk, Some(g.key.dev), Lba(g.key, g.spb, j));
  }

  /** From a coherent state a step leads to a coherent state if and only if it respects
      the rules. */
  lemma RulesAreExact(s: State, step: Step, geo: Geometry)
    requires Inv(s) && Coherent(s, geo) && Enabled(s, step) && RequestRule(s, step, geo)
    ensures Coherent(Apply(s, step), geo) <==> ExactEditRule(s, step) && ExactRemovalRule(s, step)
  {
    if !ExactRemovalRule(s, step) {
      var u, j := BrokenRemoval(s, step);
      assert !FillSynced(Apply(s, step), Apply(s, step).threads[u].call);
    } else if !ExactEditRule(s, step) {
      var u, j := BrokenEdit(s, step, geo);
      assert !WriterSynced(Apply(s, step), Apply(s, step).threads[u].call);
    } else {
      ApplyCoheres(s, step, geo);
    }
  }

  // ---- A broken rule shows ---------------------------------------------------------------

  /** A step before a run. */
  lemma PrependStep(r: State, step: Step, more: seq<Step>, geo: Geometry) returns (steps: seq<Step>)
    requires Enabled(r, step) && Rules(r, step, geo) && IsRun(Apply(r, step), more) && RunObeys(Apply(r, step), more, geo)
    ensures IsRun(r, steps) && RunObeys(r, steps, geo) && EndOf(r, steps) == EndOf(Apply(r, step), more)
  {
    steps := [step] + more;
    assert steps[1..] == more;
  }

  /** The stale fill goes on to the end and is published. */
  lemma {:induction false} FillShows(r: State, u: nat, j: nat, geo: Geometry) returns (steps: seq<Step>)
    requires Inv(r) && StaleFiller(r, u, j)
    ensures IsRun(r, steps) && RunObeys(r, steps, geo) && Stale(EndOf(r, steps))
    decreases r.cache.pages[r.threads[u].call.page].spb - r.threads[u].call.next
  {
    var Filling(p, i) := r.threads[u].call;
    assert CallOk(r.cache, r.threads[u].call);
    var step := Advance(u, None);
    var next := Apply(r, step);
    ApplyKeeps(r, step);
    if i < r.cache.pages[p].spb {
      var more := FillShows(next, u, j, geo);
      steps := PrependStep(r, step, more, geo);
    } else {
      PublishedIsStale(r, next, u, p, j);
      steps := PrependStep(r, step, [], geo);
    }
  }

  lemma PublishedIsStale(r: State, next: State, u: nat, p: nat, j: nat)
    requires StaleFiller(r, u, j) && r.threads[u].call.page == p && next == PublishOrShare(r, u, p)
    requires !r.cache.pages[p].dirty
    ensures Stale(next)
  {
    var g := next.cache.pages[p];
    assert g.data[j] != DirectRead(next.disk, g.key, g.spb)[j];
  }

  lemma CleanedIsStale(s: State, p: nat, j: nat)
    requires p < |s.cache.pages| && p !in s.editing
    requires var g := s.cache.pages[p];
             && g.valid && !g.dirty && j < |g.data| == g.spb
             && g.data[j] != ReadSector(s.disk, Some(g.key.dev), Lba(g.key, g.spb, j))
    ensures Stale(s)
  {
    var g := s.cache.pages[p];
    assert g.data[j] != DirectRead(s.disk, g.key, g.spb)[j];
  }

  /** The stale write-back, of a page nobody is editing any more, goes on to the end and
      clears the dirty flag. */
  lemma {:induction false} WriteShows(r: State, u: nat, j: nat, geo: Geometry) returns (steps: seq<Step>)
    requires Inv(r) && StaleWriter(r, u, j, geo) && r.threads[u].call.page !in r.editing
    ensures IsRun(r, steps) && RunObeys(r, steps, geo) && Stale(EndOf(r, steps))
    decreases r.cache.pages[r.threads[u].call.page].spb - r.threads[u].call.next
  {
    var Writing(p, i, after) := r.threads[u].call;
    assert CallOk(r.cache, r.threads[u].call);
    var step := Advance(u, None);
    var next := Apply(r, step);
    ApplyKeeps(r, step);
    var g := r.cache.pages[p];
    if i < g.spb {
      SectorElsewhere(r.disk, geo, g, i, j);
      var more := WriteShows(next, u, j, geo);
      steps := PrependStep(r, step, more, geo);
    } else {
      CleanedIsStale(next, p, j);
      steps := PrependStep(r, step, [], geo);
    }
  }

  lemma SectorElsewhere(disk: Disk, geo: Geometry, g: Page, i: nat, j: nat)
    requires InRange(disk, geo, g.key, g.spb) && i < g.spb == |g.data| && j < g.spb && i != j
    ensures var d := WriteSector(disk, g.key.dev, Lba(g.key, g.spb, i), g.data[i]);
            && InRange(d, geo, g.key, g.spb)
            && ReadSector(d, Some(g.key.dev), Lba(g.key, g.spb, j)) == ReadSector(disk, Some(g.key.dev), Lba(g.key, g.spb, j))
  {
    DiskShapeKept(disk, g.key.dev, Lba(g.key, g.spb, i), g.data[i]);
    if Lba(g.key, g.spb, i) == Lba(g.key, g.spb, j) {
      LbaInjective(disk, geo, g.key, g.key, g.spb, i, j);
    }
  }

  /** The editor marks the page dirty, and the write-back that had begun before the edit
      takes the mark off. */
  lemma EditShows(r: State, t: nat, h: nat, u: nat, j: nat, geo: Geometry) returns (steps: seq<Step>)
    requires Inv(r) && StaleWriter(r, u, j, geo) && t < |r.threads| && t != u && r.threads[t].call.Idle?
    requires h < |r.threads[t].holds| && r.threads[t].holds[h].page == r.threads[u].call.page
    ensures IsRun(r, steps) && RunObeys(r, steps, geo) && Stale(EndOf(r, steps))
  {
    assert HoldOk(r.cache, r.threads[t].holds[h]);
    var step := MarkDirty(t, r.threads[t].holds[h].key);
    ApplyKeeps(r, step);
    var more := WriteShows(Apply(r, step), u, j, geo);
    steps := PrependStep(r, step, more, geo);
  }

  /** A step that breaks a rule can be followed, by steps that break none, to a published
      clean page that differs from its device. */
  lemma BrokenRuleShows(s: State, step: Step, geo: Geometry) returns (steps: seq<Step>)
    requires Inv(s) && Coherent(s, geo) && Enabled(s, step) && !(ExactEditRule(s, step) && ExactRemovalRule(s, step))
    ensures IsRun(Apply(s, step), steps) && RunObeys(Apply(s, step), steps, geo) && Stale(EndOf(Apply(s, step), steps))
  {
    ApplyKeeps(s, step);
    if !ExactRemovalRule(s, step) {
      var u, j := BrokenRemoval(s, step);
      steps := FillShows(Apply(s, step), u, j, geo);
    } else {
      var u, j := BrokenEdit(s, step, geo);
      steps := EditShows(Apply(s, step), step.t, step.h, u, j, geo);
    }
  }
}
