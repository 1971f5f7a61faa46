/** Each rule of `PageCacheDiscipline` is needed: two runs of two threads over one
    block, each breaking one rule, that leave a published, clean page nobody is
    editing with contents that differ from its device. */
module PageCacheRaces {
  import opened MachineInts
  import opened PageCacheModel
  import opened PageCacheProtocol
  import opened PageCacheCoherence
  import opened PageCacheDiscipline

  const A: Sector := Sector([0])
  const B: Sector := Sector([1])
  const C: Sector := Sector([2])
  const K: Key := Key(0, 0)
  const GEO: Geometry := map[0 := 1]

  /** `r` is reached from `s` by a run whose steps obey the request rule and, as
      asked, the edit rule and the get rule. */
  ghost predicate Reaches(s: State, r: State, edit: bool, get: bool) {
    exists steps :: IsRun(s, steps) && Obeys(s, steps, edit, get) && EndOf(s, steps) == r
  }

  ghost predicate Obeys(s: State, steps: seq<Step>, edit: bool, get: bool)
    requires IsRun(s, steps)
    decreases steps
  {
    steps != [] ==>
      && RequestRule(s, steps[0], GEO) && (edit ==> EditRule(s, steps[0])) && (get ==> GetRule(s, steps[0]))
      && Obeys(Apply(s, steps[0]), steps[1..], edit, get)
  }

  lemma Start(s: State, edit: bool, get: bool)
    ensures Reaches(s, s, edit, get)
  {
    assert IsRun(s, []) && Obeys(s, [], edit, get) && EndOf(s, []) == s;
  }

  lemma Then(s: State, q: State, step: Step, r: State, edit: bool, get: bool)
    requires Reaches(s, q, edit, get) && Enabled(q, step) && r == Apply(q, step)
    requires RequestRule(q, step, GEO) && (edit ==> EditRule(q, step)) && (get ==> GetRule(q, step))
    ensures Reaches(s, r, edit, get)
  {
    var steps :| IsRun(s, steps) && Obeys(s, steps, edit, get) && EndOf(s, steps) == q;
    AppendStep(s, steps, step, edit, get);
  }

  lemma {:induction false} AppendStep(s: State, steps: seq<Step>, step: Step, edit: bool, get: bool)
    requires IsRun(s, steps) && Obeys(s, steps, edit, get) && Enabled(EndOf(s, steps), step)
    requires var q := EndOf(s, steps);
             RequestRule(q, step, GEO) && (edit ==> EditRule(q, step)) && (get ==> GetRule(q, step))
    ensures IsRun(s, steps + [step]) && Obeys(s, steps + [step], edit, get)
    ensures EndOf(s, steps + [step]) == Apply(EndOf(s, steps), step)
    decreases steps
  {
    if steps == [] {
      assert steps + [step] == [step];
      assert [step][1..] == [];
    } else {
      AppendStep(Apply(s, steps[0]), steps[1..], step, edit, get);
      assert (steps + [step])[1..] == steps[1..] + [step];
    }
  }

  function Pg(valid: bool, dirty: bool, pins: int, buf: nat, data: seq<Sector>): Page {
    Page(true, valid, dirty, K, 1, pins, Some(buf), data)
  }

  const CLAIMED: Page := Page(true, false, false, K, 1, 1, None, [])
  const IDLE: Thread := Thread(Idle, [])

  /** The state of a pool of two pages over a device of one sector, and two threads. */
  ghost predicate Looks(s: State, p0: Page, p1: Page, index: map<Key, nat>, disk: Sector, t0: Thread, t1: Thread, editing: set<nat>) {
    && |s.cache.pages| == 2 && s.cache.pages[0] == p0 && s.cache.pages[1] == p1 && s.cache.index == index
    && s.disk == map[0 := [disk]] && s.boot == Some(0) && s.editing == editing
    && |s.threads| == 2 && s.threads[0] == t0 && s.threads[1] == t1
  }

  ghost predicate Empty(s: State) {
    Init(s) && Looks(s, FreePage, FreePage, map[], A, IDLE, IDLE, {})
  }

  lemma WriteB()
    ensures WriteSector(map[0 := [A]], 0, 0, B) == map[0 := [B]]
  {
    assert [A][0 := B] == [B];
  }

  lemma DiffersFromDevice(s: State, p1: Page, index: map<Key, nat>, pins: int, x: Sector, disk: Sector, t0: Thread, t1: Thread)
    requires Looks(s, Pg(true, false, pins, 100, [x]), p1, index, disk, t0, t1, {}) && x != disk
    ensures Stale(s)
  {
    assert s.cache.pages[0].data[0] != DirectRead(s.disk, K, 1)[0];
  }

  // ---- Both runs start with thread 0 reading the block into slot 0 ---------------------

  lemma Thread0Claims(s: State, q: State, edit: bool, get: bool) returns (r: State)
    requires Reaches(s, q, edit, get) && Looks(q, FreePage, FreePage, map[], A, IDLE, IDLE, {})
    ensures Reaches(s, r, edit, get) && Looks(r, CLAIMED, FreePage, map[], A, Thread(Claimed(0), []), IDLE, {})
  {
    var r1 := Apply(q, Get(0, K, 512));
    Then(s, q, Get(0, K, 512), r1, edit, get);
    assert Looks(r1, FreePage, FreePage, map[], A, Thread(Missed(K, 1), []), IDLE, {});
    r := Apply(r1, Advance(0, None));
    Then(s, r1, Advance(0, None), r, edit, get);
  }

  lemma Thread0GetsBuffer(s: State, q: State, edit: bool, get: bool) returns (r: State)
    requires Reaches(s, q, edit, get) && Looks(q, CLAIMED, FreePage, map[], A, Thread(Claimed(0), []), IDLE, {})
    ensures Reaches(s, r, edit, get)
    ensures Looks(r, Pg(false, false, 1, 100, [ZeroSector()]), FreePage, map[], A, Thread(Filling(0, 0), []), IDLE, {})
  {
    r := Apply(q, Advance(0, Some(100)));
    Then(s, q, Advance(0, Some(100)), r, edit, get);
    assert Zeroes(1) == [ZeroSector()];
  }

  lemma Thread0Reads(s: State, q: State, edit: bool, get: bool) returns (r: State)
    requires Reaches(s, q, edit, get) && Looks(q, CLAIMED, FreePage, map[], A, Thread(Claimed(0), []), IDLE, {})
    ensures Reaches(s, r, edit, get)
    ensures Looks(r, Pg(false, false, 1, 100, [A]), FreePage, map[], A, Thread(Filling(0, 1), []), IDLE, {})
  {
    var r1 := Thread0GetsBuffer(s, q, edit, get);
    r := Apply(r1, Advance(0, None));
    Then(s, r1, Advance(0, None), r, edit, get);
  }

  // ---- A stale fill: the block is edited, written back and dropped meanwhile ----------

  const F0: Page := Pg(false, false, 1, 100, [A])
  const T0F: Thread := Thread(Filling(0, 1), [])
  const H1: seq<Hold> := [Hold(K, 1, 101)]
  const DROPPED: Page := Page(false, false, false, K, 1, 0, None, [])

  lemma Thread1Claims(s: State, q: State) returns (r: State)
    requires Reaches(s, q, true, false)
    requires Looks(q, F0, FreePage, map[], A, T0F, IDLE, {})
    ensures Reaches(s, r, true, false)
    ensures Looks(r, F0, CLAIMED, map[], A, T0F, Thread(Claimed(1), []), {})
  {
    var r1 := Apply(q, Get(1, K, 512));
    Then(s, q, Get(1, K, 512), r1, true, false);
    assert Looks(r1, F0, FreePage, map[], A, T0F, Thread(Missed(K, 1), []), {});
    assert FirstFree(r1.cache.pages, 1) == Some(1) == FirstFree(r1.cache.pages, 0);
    r := Apply(r1, Advance(1, None));
    Then(s, r1, Advance(1, None), r, true, false);
  }

  lemma Thread1GetsBuffer(s: State, q: State) returns (r: State)
    requires Reaches(s, q, true, false)
    requires Looks(q, F0, CLAIMED, map[], A, T0F, Thread(Claimed(1), []), {})
    ensures Reaches(s, r, true, false)
    ensures Looks(r, F0, Pg(false, false, 1, 101, [ZeroSector()]), map[], A, T0F, Thread(Filling(1, 0), []), {})
  {
    r := Apply(q, Advance(1, Some(101)));
    Then(s, q, Advance(1, Some(101)), r, true, false);
    assert Zeroes(1) == [ZeroSector()];
  }

  lemma Thread1Reads(s: State, q: State) returns (r: State)
    requires Reaches(s, q, true, false)
    requires Looks(q, F0, Pg(false, false, 1, 101, [ZeroSector()]), map[], A, T0F, Thread(Filling(1, 0), []), {})
    ensures Reaches(s, r, true, false)
    ensures Looks(r, F0, Pg(false, false, 1, 101, [A]), map[], A, T0F, Thread(Filling(1, 1), []), {})
  {
    r := Apply(q, Advance(1, None));
    Then(s, q, Advance(1, None), r, true, false);
    assert [ZeroSector()][0 := A] == [A];
  }

  lemma Thread1PublishesAndEdits(s: State, q: State) returns (r: State)
    requires Reaches(s, q, true, false)
    requires Looks(q, F0, Pg(false, false, 1, 101, [A]), map[], A, T0F, Thread(Filling(1, 1), []), {})
    ensures Reaches(s, r, true, false)
    ensures Looks(r, F0, Pg(true, false, 1, 101, [B]), map[K := 1], A, T0F, Thread(Idle, H1), {1})
  {
    var r1 := Apply(q, Advance(1, None));
    Then(s, q, Advance(1, None), r1, true, false);
    assert Looks(r1, F0, Pg(true, false, 1, 101, [A]), map[K := 1], A, T0F, Thread(Idle, H1), {});
    r := Apply(r1, Edit(1, 0, [B]));
    Then(s, r1, Edit(1, 0, [B]), r, true, false);
  }

  lemma Thread1Marks(s: State, q: State) returns (r: State)
    requires Reaches(s, q, true, false)
    requires Looks(q, F0, Pg(true, false, 1, 101, [B]), map[K := 1], A, T0F, Thread(Idle, H1), {1})
    ensures Reaches(s, r, true, false)
    ensures Looks(r, F0, Pg(true, true, 2, 101, [B]), map[K := 1], A, T0F, Thread(Writing(1, 0, Return), H1), {})
  {
    var r1 := Apply(q, MarkDirty(1, K));
    Then(s, q, MarkDirty(1, K), r1, true, false);
    assert Looks(r1, F0, Pg(true, true, 2, 101, [B]), map[K := 1], A, T0F, Thread(Checking(1, Return), H1), {});
    r := Apply(r1, Advance(1, None));
    Then(s, r1, Advance(1, None), r, true, false);
  }

  lemma Thread1Writes(s: State, q: State) returns (r: State)
    requires Reaches(s, q, true, false)
    requires Looks(q, F0, Pg(true, true, 2, 101, [B]), map[K := 1], A, T0F, Thread(Writing(1, 0, Return), H1), {})
    ensures Reaches(s, r, true, false)
    ensures Looks(r, F0, Pg(true, false, 2, 101, [B]), map[K := 1], B, T0F, Thread(Unpinning(1, Return), H1), {})
  {
    var r1 := Apply(q, Advance(1, None));
    Then(s, q, Advance(1, None), r1, true, false);
    WriteB();
    assert Looks(r1, F0, Pg(true, true, 2, 101, [B]), map[K := 1], B, T0F, Thread(Writing(1, 1, Return), H1), {});
    r := Apply(r1, Advance(1, None));
    Then(s, r1, Advance(1, None), r, true, false);
  }

  lemma Thread1Puts(s: State, q: State) returns (r: State)
    requires Reaches(s, q, true, false)
    requires Looks(q, F0, Pg(true, false, 2, 101, [B]), map[K := 1], B, T0F, Thread(Unpinning(1, Return), H1), {})
    ensures Reaches(s, r, true, false)
    ensures Looks(r, F0, Pg(true, false, 0, 101, [B]), map[K := 1], B, T0F, IDLE, {})
  {
    var r1 := Apply(q, Advance(1, None));
    Then(s, q, Advance(1, None), r1, true, false);
    assert Looks(r1, F0, Pg(true, false, 1, 101, [B]), map[K := 1], B, T0F, Thread(Idle, H1), {});
    r := Apply(r1, Put(1, 0));
    Then(s, r1, Put(1, 0), r, true, false);
  }

  lemma Thread1DropsThread0Publishes(s: State, q: State) returns (r: State)
    requires Reaches(s, q, true, false)
    requires Looks(q, F0, Pg(true, false, 0, 101, [B]), map[K := 1], B, T0F, IDLE, {})
    ensures Reaches(s, r, true, false)
    ensures Looks(r, Pg(true, false, 1, 100, [A]), DROPPED, map[K := 0], B, Thread(Idle, [Hold(K, 0, 100)]), IDLE, {})
  {
    var r1 := Apply(q, InvalidateBlock(1, K));
    Then(s, q, InvalidateBlock(1, K), r1, true, false);
    assert Looks(r1, F0, DROPPED, map[], B, T0F, IDLE, {});
    r := Apply(r1, Advance(0, None));
    Then(s, r1, Advance(0, None), r, true, false);
  }

  /** Agreement fails if a block may leave the cache while another thread fills it. */
  lemma StaleFill(s: State) returns (r: State)
    requires Empty(s)
    ensures Reaches(s, r, true, false) && Stale(r)
  {
    Start(s, true, false);
    r := Thread0Claims(s, s, true, false);
    r := Thread0Reads(s, r, true, false);
    r := Thread1Claims(s, r);
    r := Thread1GetsBuffer(s, r);
    r := Thread1Reads(s, r);
    r := Thread1PublishesAndEdits(s, r);
    r := Thread1Marks(s, r);
    r := Thread1Writes(s, r);
    r := Thread1Puts(s, r);
    r := Thread1DropsThread0Publishes(s, r);
    DiffersFromDevice(r, DROPPED, map[K := 0], 1, A, B, Thread(Idle, [Hold(K, 0, 100)]), IDLE);
  }

  // ---- A lost edit: the buffer is edited while another thread writes it back --------------

  const H0: seq<Hold> := [Hold(K, 0, 100)]

  lemma BothGetThePage(s: State, q: State) returns (r: State)
    requires Reaches(s, q, false, true)
    requires Looks(q, F0, FreePage, map[], A, T0F, IDLE, {})
    ensures Reaches(s, r, false, true)
    ensures Looks(r, Pg(true, false, 2, 100, [A]), FreePage, map[K := 0], A, Thread(Idle, H0), Thread(Idle, H0), {})
  {
    var r1 := Apply(q, Advance(0, None));
    Then(s, q, Advance(0, None), r1, false, true);
    assert Looks(r1, Pg(true, false, 1, 100, [A]), FreePage, map[K := 0], A, Thread(Idle, H0), IDLE, {});
    r := Apply(r1, Get(1, K, 512));
    Then(s, r1, Get(1, K, 512), r, false, true);
  }

  lemma Thread0EditsAndMarks(s: State, q: State) returns (r: State)
    requires Reaches(s, q, false, true)
    requires Looks(q, Pg(true, false, 2, 100, [A]), FreePage, map[K := 0], A, Thread(Idle, H0), Thread(Idle, H0), {})
    ensures Reaches(s, r, false, true)
    ensures Looks(r, Pg(true, true, 3, 100, [B]), FreePage, map[K := 0], A, Thread(Checking(0, Return), H0), Thread(Idle, H0), {})
  {
    var r1 := Apply(q, Edit(0, 0, [B]));
    Then(s, q, Edit(0, 0, [B]), r1, false, true);
    assert Looks(r1, Pg(true, false, 2, 100, [B]), FreePage, map[K := 0], A, Thread(Idle, H0), Thread(Idle, H0), {0});
    r := Apply(r1, MarkDirty(0, K));
    Then(s, r1, MarkDirty(0, K), r, false, true);
  }

  lemma Thread0Writes(s: State, q: State) returns (r: State)
    requires Reaches(s, q, false, true)
    requires Looks(q, Pg(true, true, 3, 100, [B]), FreePage, map[K := 0], A, Thread(Checking(0, Return), H0), Thread(Idle, H0), {})
    ensures Reaches(s, r, false, true)
    ensures Looks(r, Pg(true, true, 3, 100, [B]), FreePage, map[K := 0], B, Thread(Writing(0, 1, Return), H0), Thread(Idle, H0), {})
  {
    var r1 := Apply(q, Advance(0, None));
    Then(s, q, Advance(0, None), r1, false, true);
    assert Looks(r1, Pg(true, true, 3, 100, [B]), FreePage, map[K := 0], A, Thread(Writing(0, 0, Return), H0), Thread(Idle, H0), {});
    r := Apply(r1, Advance(0, None));
    assert r.disk == map[0 := [B]] by { WriteB(); }
    Then(s, r1, Advance(0, None), r, false, true);
  }

  lemma Thread1EditsAndMarks(s: State, q: State) returns (r: State)
    requires Reaches(s, q, false, true)
    requires Looks(q, Pg(true, true, 3, 100, [B]), FreePage, map[K := 0], B, Thread(Writing(0, 1, Return), H0), Thread(Idle, H0), {})
    ensures Reaches(s, r, false, true)
    ensures Looks(r, Pg(true, true, 4, 100, [C]), FreePage, map[K := 0], B, Thread(Writing(0, 1, Return), H0), Thread(Checking(0, Return), H0), {})
  {
    var r1 := Apply(q, Edit(1, 0, [C]));
    Then(s, q, Edit(1, 0, [C]), r1, false, true);
    assert Looks(r1, Pg(true, true, 3, 100, [C]), FreePage, map[K := 0], B, Thread(Writing(0, 1, Return), H0), Thread(Idle, H0), {0});
    r := Apply(r1, MarkDirty(1, K));
    Then(s, r1, MarkDirty(1, K), r, false, true);
  }

  lemma Thread0CleansThread1Skips(s: State, q: State) returns (r: State)
    requires Reaches(s, q, false, true)
    requires Looks(q, Pg(true, true, 4, 100, [C]), FreePage, map[K := 0], B, Thread(Writing(0, 1, Return), H0), Thread(Checking(0, Return), H0), {})
    ensures Reaches(s, r, false, true)
    ensures Looks(r, Pg(true, false, 4, 100, [C]), FreePage, map[K := 0], B, Thread(Unpinning(0, Return), H0), Thread(Unpinning(0, Return), H0), {})
  {
    var r1 := Apply(q, Advance(0, None));
    Then(s, q, Advance(0, None), r1, false, true);
    assert Looks(r1, Pg(true, false, 4, 100, [C]), FreePage, map[K := 0], B, Thread(Unpinning(0, Return), H0), Thread(Checking(0, Return), H0), {});
    r := Apply(r1, Advance(1, None));
    Then(s, r1, Advance(1, None), r, false, true);
  }

  lemma BothReturn(s: State, q: State) returns (r: State)
    requires Reaches(s, q, false, true)
    requires Looks(q, Pg(true, false, 4, 100, [C]), FreePage, map[K := 0], B, Thread(Unpinning(0, Return), H0), Thread(Unpinning(0, Return), H0), {})
    ensures Reaches(s, r, false, true)
    ensures Looks(r, Pg(true, false, 2, 100, [C]), FreePage, map[K := 0], B, Thread(Idle, H0), Thread(Idle, H0), {})
  {
    var r1 := Apply(q, Advance(0, None));
    Then(s, q, Advance(0, None), r1, false, true);
    assert Looks(r1, Pg(true, false, 3, 100, [C]), FreePage, map[K := 0], B, Thread(Idle, H0), Thread(Unpinning(0, Return), H0), {});
    r := Apply(r1, Advance(1, None));
    Then(s, r1, Advance(1, None), r, false, true);
  }

  /** Agreement fails if a buffer may be edited while it is being written back: the
      first write-back clears DIRTY, so the second one, which should write the new
      edit, does nothing. Both calls have returned. */
  lemma LostEdit(s: State) returns (r: State)
    requires Empty(s)
    ensures Reaches(s, r, false, true) && Stale(r)
    ensures |r.threads| == 2 && r.threads[0].call.Idle? && r.threads[1].call.Idle?
  {
    Start(s, false, true);
    r := Thread0Claims(s, s, false, true);
    r := Thread0Reads(s, r, false, true);
    r := BothGetThePage(s, r);
    r := Thread0EditsAndMarks(s, r);
    r := Thread0Writes(s, r);
    r := Thread1EditsAndMarks(s, r);
    r := Thread0CleansThread1Skips(s, r);
    r := BothReturn(s, r);
    DiffersFromDevice(r, FreePage, map[K := 0], 2, C, B, Thread(Idle, H0), Thread(Idle, H0));
  }
}
