/** The spin locks of crypto/cact_shim/src/sync.rs as atomic steps of any number of
    processors: every load, store and compare-exchange is a step of its own, and so are
    saving and restoring a processor's interrupt flags. */
module MutexSteps {
  import opened MachineInts

  /** Where a processor is in `lock` and in dropping the guard.  `saved` is what it found
      in its flags; `loaded` is what it read back from the lock. */
  datatype Phase =
    | Out
    | Spinning(saved: U32)
    | Acquired(saved: U32)
    | Holding(saved: U32)
    | Dropping(saved: U32, loaded: U32)
    | Released(saved: U32, loaded: U32)

  datatype Cpu = Cpu(phase: Phase, flags: U32)

  datatype State = State(locked: bool, cell: U32, cpus: seq<Cpu>)

  /** `Save`: interrupts off; `Try`: the compare-exchange; `Keep`: the flags into the lock;
      `Fetch`, `Unlock`, `Restore`: the guard's drop. */
  datatype Step = Save(t: nat, off: U32) | Try(t: nat) | Keep(t: nat) | Fetch(t: nat) | Unlock(t: nat) | Restore(t: nat)

  predicate Enabled(s: State, step: Step) {
    && step.t < |s.cpus|
    && match step
       case Save(t, _) => s.cpus[t].phase.Out?
       case Try(t) => s.cpus[t].phase.Spinning?
       case Keep(t) => s.cpus[t].phase.Acquired?
       case Fetch(t) => s.cpus[t].phase.Holding?
       case Unlock(t) => s.cpus[t].phase.Dropping?
       case Restore(t) => s.cpus[t].phase.Released?
  }

  function Set(s: State, t: nat, p: Phase): State
    requires t < |s.cpus|
  {
    s.(cpus := s.cpus[t := s.cpus[t].(phase := p)])
  }

  function Apply(s: State, step: Step): State
    requires Enabled(s, step)
  {
    var c := s.cpus[step.t];
    match step
    case Save(t, off) => s.(cpus := s.cpus[t := Cpu(Spinning(c.flags), off)])
    case Try(t) => if s.locked then s else Set(s, t, Acquired(c.phase.saved)).(locked := true)
    case Keep(t) => Set(s, t, Holding(c.phase.saved)).(cell := c.phase.saved)
    case Fetch(t) => Set(s, t, Dropping(c.phase.saved, s.cell))
    case Unlock(t) => Set(s, t, Released(c.phase.saved, c.phase.loaded)).(locked := false)
    case Restore(t) => s.(cpus := s.cpus[t := Cpu(Out, c.phase.loaded)])
  }

  predicate Holds(c: Cpu) {
    c.phase.Acquired? || c.phase.Holding? || c.phase.Dropping?
  }

  function Holders(cs: seq<Cpu>): nat {
    if cs == [] then 0 else Holders(cs[..|cs| - 1]) + if Holds(cs[|cs| - 1]) then 1 else 0
  }

  lemma {:induction false} SetHolders(cs: seq<Cpu>, t: nat, c: Cpu)
    requires t < |cs|
    ensures Holders(cs[t := c]) == Holders(cs) - (if Holds(cs[t]) then 1 else 0) + (if Holds(c) then 1 else 0)
  {
    var n := |cs| - 1;
    if t < n {
      SetHolders(cs[..n], t, c);
      assert cs[t := c][..n] == cs[..n][t := c];
    } else {
      assert cs[t := c][..n] == cs[..n];
    }
  }

  lemma {:induction false} AHolder(cs: seq<Cpu>, t: nat)
    requires t < |cs| && Holds(cs[t])
    ensures Holders(cs) >= 1 && forall u | 0 <= u < |cs| && u != t && Holds(cs[u]) :: Holders(cs) >= 2
  {
    SetHolders(cs, t, Cpu(Out, 0));
    forall u | 0 <= u < |cs| && u != t && Holds(cs[u]) ensures Holders(cs) >= 2 {
      SetHolders(cs[t := Cpu(Out, 0)], u, Cpu(Out, 0));
    }
  }

  /** One holder exactly while the lock is taken; the lock keeps its flags for it. */
  ghost predicate Inv(s: State) {
    && Holders(s.cpus) == (if s.locked then 1 else 0)
    && forall t | 0 <= t < |s.cpus| :: FlagsOk(s, s.cpus[t].phase)
  }

  predicate FlagsOk(s: State, p: Phase) {
    && (p.Holding? ==> s.cell == p.saved)
    && (p.Dropping? || p.Released? ==> p.loaded == p.saved)
  }

  lemma ApplyKeeps(s: State, step: Step)
    requires Inv(s) && Enabled(s, step)
    ensures Inv(Apply(s, step))
  {
    var s', t := Apply(s, step), step.t;
    SetHolders(s.cpus, t, s'.cpus[t]);
    assert s'.cpus == s.cpus[t := s'.cpus[t]];
    if step.Keep? {
      AHolder(s.cpus, t);
    }
    forall u | 0 <= u < |s'.cpus| ensures FlagsOk(s', s'.cpus[u].phase) {
      assert FlagsOk(s, s.cpus[u].phase);
      if step.Keep? && u != t {
        assert !Holds(s.cpus[u]);
      }
    }
  }

  ghost predicate Initial(s: State) {
    !s.locked && forall t | 0 <= t < |s.cpus| :: s.cpus[t].phase.Out?
  }

  ghost predicate Reaches(s: State, steps: seq<Step>, u: State)
    decreases |steps|
  {
    if steps == [] then u == s else Enabled(s, steps[0]) && Reaches(Apply(s, steps[0]), steps[1..], u)
  }

  lemma {:induction false} NobodyHolds(cs: seq<Cpu>)
    requires forall t | 0 <= t < |cs| :: cs[t].phase.Out?
    ensures Holders(cs) == 0
  {
    if cs != [] {
      NobodyHolds(cs[..|cs| - 1]);
    }
  }

  lemma {:induction false} RunKeeps(s: State, steps: seq<Step>, u: State)
    requires Inv(s) && Reaches(s, steps, u)
    ensures Inv(u)
    decreases |steps|
  {
    if steps != [] {
      ApplyKeeps(s, steps[0]);
      RunKeeps(Apply(s, steps[0]), steps[1..], u);
    }
  }

  /** In every interleaving no two processors hold the mutex, and a release gives back the
      flags its own lock saved. */
  lemma MutualExclusion(s: State, steps: seq<Step>, u: State)
    requires Initial(s) && Reaches(s, steps, u)
    ensures forall a, b | 0 <= a < |u.cpus| && 0 <= b < |u.cpus| && Holds(u.cpus[a]) && Holds(u.cpus[b]) :: a == b
    ensures forall t | 0 <= t < |u.cpus| && u.cpus[t].phase.Released? :: Apply(u, Restore(t)).cpus[t].flags == u.cpus[t].phase.saved
  {
    NobodyHolds(s.cpus);
    RunKeeps(s, steps, u);
    forall a, b | 0 <= a < |u.cpus| && 0 <= b < |u.cpus| && Holds(u.cpus[a]) && Holds(u.cpus[b]) ensures a == b {
      AHolder(u.cpus, a);
    }
    forall t | 0 <= t < |u.cpus| && u.cpus[t].phase.Released?
      ensures Apply(u, Restore(t)).cpus[t].flags == u.cpus[t].phase.saved
    {
      assert FlagsOk(u, u.cpus[t].phase);
    }
  }
}

/** The reader-writer lock: the top bit of its word is a writer, the rest counts readers. */
module RwLockSteps {
  import opened MachineInts

  const WRITE_BIT: nat := 0x8000_0000

  datatype Phase =
    | Out
    | ReadSpinning(saved: U32)
    | ReadLoaded(saved: U32, seen: U32)
    | ReadAcquired(saved: U32)
    | Reading(saved: U32)
    | ReadDropping(saved: U32, loaded: U32)
    | ReadReleased(saved: U32, loaded: U32)
    | WriteSpinning(saved: U32)
    | WriteAcquired(saved: U32)
    | Writing(saved: U32)
    | WriteDropping(saved: U32, loaded: U32)
    | WriteReleased(saved: U32, loaded: U32)

  datatype State = State(word: U32, cell: U32, cpus: seq<Phase>)

  datatype Step =
    | BeginRead(t: nat, flags: U32)
    | Load(t: nat)       // the load of the word
    | TryRead(t: nat)    // its compare-exchange
    | KeepRead(t: nat)   // flags into the lock
    | FetchRead(t: nat)  // flags out of the lock
    | DropRead(t: nat)   // fetch_sub
    | EndRead(t: nat)
    | BeginWrite(t: nat, flags: U32)
    | TryWrite(t: nat)
    | KeepWrite(t: nat)
    | FetchWrite(t: nat)
    | DropWrite(t: nat)
    | EndWrite(t: nat)

  predicate Enabled(s: State, step: Step) {
    && step.t < |s.cpus|
    && var p := s.cpus[step.t];
       match step
       case BeginRead(_, _) => p.Out?
       case Load(_) => p.ReadSpinning?
       case TryRead(_) => p.ReadLoaded?
       case KeepRead(_) => p.ReadAcquired?
       case FetchRead(_) => p.Reading?
       case DropRead(_) => p.ReadDropping?
       case EndRead(_) => p.ReadReleased?
       case BeginWrite(_, _) => p.Out?
       case TryWrite(_) => p.WriteSpinning?
       case KeepWrite(_) => p.WriteAcquired?
       case FetchWrite(_) => p.Writing?
       case DropWrite(_) => p.WriteDropping?
       case EndWrite(_) => p.WriteReleased?
  }

  function Set(s: State, t: nat, p: Phase): State
    requires t < |s.cpus|
  {
    s.(cpus := s.cpus[t := p])
  }

  function Apply(s: State, step: Step): State
    requires Enabled(s, step)
  {
    var p, t := s.cpus[step.t], step.t;
    match step
    case BeginRead(_, flags) => Set(s, t, ReadSpinning(flags))
    case Load(_) => if s.word < WRITE_BIT then Set(s, t, ReadLoaded(p.saved, s.word)) else s
    case TryRead(_) =>
      if s.word == p.seen then Set(s, t, ReadAcquired(p.saved)).(word := (s.word + 1) % TWO_32) else Set(s, t, ReadSpinning(p.saved))
    case KeepRead(_) => Set(s, t, Reading(p.saved)).(cell := p.saved)
    case FetchRead(_) => Set(s, t, ReadDropping(p.saved, s.cell))
    case DropRead(_) => Set(s, t, ReadReleased(p.saved, p.loaded)).(word := (s.word - 1) % TWO_32)
    case EndRead(_) => Set(s, t, Out)
    case BeginWrite(_, flags) => Set(s, t, WriteSpinning(flags))
    case TryWrite(_) => if s.word == 0 then Set(s, t, WriteAcquired(p.saved)).(word := WRITE_BIT) else s
    case KeepWrite(_) => Set(s, t, Writing(p.saved)).(cell := p.saved)
    case FetchWrite(_) => Set(s, t, WriteDropping(p.saved, s.cell))
    case DropWrite(_) => Set(s, t, WriteReleased(p.saved, p.loaded)).(word := 0)
    case EndWrite(_) => Set(s, t, Out)
  }

  predicate Reads(p: Phase) {
    p.ReadAcquired? || p.Reading? || p.ReadDropping?
  }

  predicate Writes(p: Phase) {
    p.WriteAcquired? || p.Writing? || p.WriteDropping?
  }

  function Readers(cs: seq<Phase>): nat {
    if cs == [] then 0 else Readers(cs[..|cs| - 1]) + if Reads(cs[|cs| - 1]) then 1 else 0
  }

  function Writers(cs: seq<Phase>): nat {
    if cs == [] then 0 else Writers(cs[..|cs| - 1]) + if Writes(cs[|cs| - 1]) then 1 else 0
  }

  lemma {:induction false} SetCounts(cs: seq<Phase>, t: nat, p: Phase)
    requires t < |cs|
    ensures Readers(cs[t := p]) == Readers(cs) - (if Reads(cs[t]) then 1 else 0) + (if Reads(p) then 1 else 0)
    ensures Writers(cs[t := p]) == Writers(cs) - (if Writes(cs[t]) then 1 else 0) + (if Writes(p) then 1 else 0)
  {
    var n := |cs| - 1;
    if t < n {
      SetCounts(cs[..n], t, p);
      assert cs[t := p][..n] == cs[..n][t := p];
    } else {
      assert cs[t := p][..n] == cs[..n];
    }
  }

  lemma {:induction false} FewReaders(cs: seq<Phase>)
    ensures Readers(cs) <= |cs|
  {
    if cs != [] {
      FewReaders(cs[..|cs| - 1]);
    }
  }

  /** Another reader or writer besides `t` counts besides `t`. */
  lemma Others(cs: seq<Phase>, t: nat, u: nat)
    requires t < |cs| && u < |cs| && u != t
    ensures Reads(cs[t]) ==> Readers(cs) >= 1
    ensures Writes(cs[t]) ==> Writers(cs) >= 1
    ensures Writes(cs[t]) && Writes(cs[u]) ==> Writers(cs) >= 2
  {
    SetCounts(cs, t, Out);
    SetCounts(cs[t := Out], u, Out);
  }

  /** The word says who is inside: one writer and no reader, or as many readers as it
      counts; and the lock keeps a writer's flags for it. */
  ghost predicate Inv(s: State) {
    && |s.cpus| < WRITE_BIT
    && CountsOk(s.word, s.cpus)
    && forall t | 0 <= t < |s.cpus| :: FlagsOk(s, s.cpus[t])
  }

  predicate FlagsOk(s: State, p: Phase) {
    && (p.Writing? ==> s.cell == p.saved)
    && (p.WriteDropping? || p.WriteReleased? ==> p.loaded == p.saved)
    && (p.ReadLoaded? ==> p.seen < WRITE_BIT)
  }

  ghost predicate CountsOk(word: nat, cs: seq<Phase>) {
    if word == WRITE_BIT then Writers(cs) == 1 && Readers(cs) == 0 else Writers(cs) == 0 && Readers(cs) == word
  }

  /** How the word may change with one processor's phase. */
  predicate WordFollows(word: U32, was: Phase, now: Phase, word': U32) {
    if Reads(was) == Reads(now) && Writes(was) == Writes(now) then word' == word
    else if !Reads(was) && !Writes(was) && Reads(now) then word < WRITE_BIT && word' == word + 1
    else if Reads(was) && !Reads(now) && !Writes(now) then word' == (word - 1) % TWO_32
    else if !Reads(was) && !Writes(was) && Writes(now) then word == 0 && word' == WRITE_BIT
    else Writes(was) && !Reads(now) && !Writes(now) && word' == 0
  }

  lemma CountsFollow(word: U32, cs: seq<Phase>, t: nat, p: Phase, word': U32)
    requires CountsOk(word, cs) && t < |cs| < WRITE_BIT && WordFollows(word, cs[t], p, word')
    ensures CountsOk(word', cs[t := p])
  {
    SetCounts(cs, t, p);
    FewReaders(cs);
    FewReaders(cs[t := p]);
  }

  lemma CountsKept(s: State, step: Step)
    requires Inv(s) && Enabled(s, step)
    ensures CountsOk(Apply(s, step).word, Apply(s, step).cpus)
  {
    var s', t := Apply(s, step), step.t;
    assert FlagsOk(s, s.cpus[t]);
    CountsFollow(s.word, s.cpus, t, s'.cpus[t], s'.word);
    assert s'.cpus == s.cpus[t := s'.cpus[t]];
  }

  lemma ApplyKeeps(s: State, step: Step)
    requires Inv(s) && Enabled(s, step)
    ensures Inv(Apply(s, step))
  {
    var s', t := Apply(s, step), step.t;
    CountsKept(s, step);
    forall u | 0 <= u < |s'.cpus| ensures FlagsOk(s', s'.cpus[u]) {
      assert FlagsOk(s, s.cpus[u]);
      if u != t {
        Others(s.cpus, t, u);
        Others(s.cpus, u, t);
      }
    }
  }

  ghost predicate Initial(s: State) {
    s.word == 0 && |s.cpus| < WRITE_BIT && forall t | 0 <= t < |s.cpus| :: s.cpus[t].Out?
  }

  ghost predicate Reaches(s: State, steps: seq<Step>, u: State)
    decreases |steps|
  {
    if steps == [] then u == s else Enabled(s, steps[0]) && Reaches(Apply(s, steps[0]), steps[1..], u)
  }

  lemma {:induction false} NobodyInside(cs: seq<Phase>)
    requires forall t | 0 <= t < |cs| :: cs[t].Out?
    ensures Readers(cs) == 0 && Writers(cs) == 0
  {
    if cs != [] {
      NobodyInside(cs[..|cs| - 1]);
    }
  }

  lemma {:induction false} RunKeeps(s: State, steps: seq<Step>, u: State)
    requires Inv(s) && Reaches(s, steps, u)
    ensures Inv(u)
    decreases |steps|
  {
    if steps != [] {
      ApplyKeeps(s, steps[0]);
      RunKeeps(Apply(s, steps[0]), steps[1..], u);
    }
  }

  /** In every interleaving of fewer than 2^31 processors a writer excludes readers and
      other writers, the word otherwise counts the live read guards, and a write guard
      gives back the flags its own lock saved. */
  lemma WritersExclude(s: State, steps: seq<Step>, u: State)
    requires Initial(s) && Reaches(s, steps, u)
    ensures forall a, b | 0 <= a < |u.cpus| && 0 <= b < |u.cpus| && Writes(u.cpus[a]) && (Writes(u.cpus[b]) || Reads(u.cpus[b])) :: a == b
    ensures u.word != WRITE_BIT ==> Readers(u.cpus) == u.word
    ensures forall t | 0 <= t < |u.cpus| && u.cpus[t].WriteReleased? :: u.cpus[t].loaded == u.cpus[t].saved
  {
    NobodyInside(s.cpus);
    RunKeeps(s, steps, u);
    forall a, b | 0 <= a < |u.cpus| && 0 <= b < |u.cpus| && Writes(u.cpus[a]) && (Writes(u.cpus[b]) || Reads(u.cpus[b]))
      ensures a == b
    {
      if a != b {
        Others(u.cpus, a, b);
        Others(u.cpus, b, a);
        assert false;
      }
    }
    forall t | 0 <= t < |u.cpus| && u.cpus[t].WriteReleased? ensures u.cpus[t].loaded == u.cpus[t].saved {
      assert FlagsOk(u, u.cpus[t]);
    }
  }

  // ---- The flags a reader gets back ---------------------------------------------------------------

  /** The flags the last reader to enter put into the lock during `steps`. */
  ghost function LastKept(s: State, steps: seq<Step>, kept: Option<U32>): Option<U32>
    requires Reaches(s, steps, EndOf(s, steps))
    decreases |steps|
  {
    if steps == [] then kept
    else LastKept(Apply(s, steps[0]), steps[1..], if steps[0].KeepRead? then Some(s.cpus[steps[0].t].saved) else kept)
  }

  ghost function EndOf(s: State, steps: seq<Step>): State
    decreases |steps|
  {
    if steps == [] || !Enabled(s, steps[0]) then s else EndOf(Apply(s, steps[0]), steps[1..])
  }

  /** While a reader is inside no writer touches the lock's cell. */
  lemma CellWhileReading(s: State, step: Step, t: nat)
    requires Inv(s) && Enabled(s, step) && t < |s.cpus| && s.cpus[t].Reading? && step.t != t
    ensures Apply(s, step).cell == if step.KeepRead? then s.cpus[step.t].saved else s.cell
  {
    Others(s.cpus, t, step.t);
    Others(s.cpus, step.t, t);
  }

  /** A read guard gets back the flags of the last reader to enter while it was held, and
      its own exactly when there was none or that reader's were the same. */
  lemma {:induction false} ReaderFlags(s: State, steps: seq<Step>, t: nat, kept: Option<U32>)
    requires Inv(s) && Reaches(s, steps, EndOf(s, steps)) && t < |s.cpus| && s.cpus[t].Reading?
    requires forall i | 0 <= i < |steps| :: steps[i].t != t
    requires s.cell == if kept.Some? then kept.value else s.cpus[t].saved
    ensures var u, last := EndOf(s, steps), LastKept(s, steps, kept);
            && t < |u.cpus| && u.cpus[t] == s.cpus[t]
            && Apply(u, FetchRead(t)).cpus[t] == ReadDropping(s.cpus[t].saved, if last.Some? then last.value else s.cpus[t].saved)
    decreases |steps|
  {
    if steps != [] {
      ApplyKeeps(s, steps[0]);
      CellWhileReading(s, steps[0], t);
      ReaderFlags(Apply(s, steps[0]), steps[1..], t, if steps[0].KeepRead? then Some(s.cpus[steps[0].t].saved) else kept);
    }
  }

  lemma Then(s: State, step: Step, next: State, rest: seq<Step>, u: State)
    requires Enabled(s, step) && Apply(s, step) == next && Reaches(next, rest, u)
    ensures Reaches(s, [step] + rest, u)
  {
    assert ([step] + rest)[1..] == rest;
  }

  /** A processor that finds the lock without a writer reads in four steps. */
  lemma Enters(s: State, t: nat, f: U32, rest: seq<Step>, u: State)
    requires t < |s.cpus| && s.cpus[t] == Out && s.word + 1 < WRITE_BIT
    requires Reaches(State(s.word + 1, f, s.cpus[t := Reading(f)]), rest, u)
    ensures Reaches(s, [BeginRead(t, f)] + ([Load(t)] + ([TryRead(t)] + ([KeepRead(t)] + rest))), u)
  {
    var cs := s.cpus;
    var s1 := State(s.word, s.cell, cs[t := ReadSpinning(f)]);
    var s2 := State(s.word, s.cell, cs[t := ReadLoaded(f, s.word)]);
    var s3 := State(s.word + 1, s.cell, cs[t := ReadAcquired(f)]);
    var s4 := State(s.word + 1, f, cs[t := Reading(f)]);
    assert s3.cpus[t := Reading(f)] == s4.cpus;
    Then(s3, KeepRead(t), s4, rest, u);
    assert s2.cpus[t := ReadAcquired(f)] == s3.cpus;
    Then(s2, TryRead(t), s3, [KeepRead(t)] + rest, u);
    assert s1.cpus[t := ReadLoaded(f, s.word)] == s2.cpus;
    Then(s1, Load(t), s2, [TryRead(t)] + ([KeepRead(t)] + rest), u);
    Then(s, BeginRead(t, f), s1, [Load(t)] + ([TryRead(t)] + ([KeepRead(t)] + rest)), u);
  }

  /** Two readers: the first leaves with the second's flags. */
  lemma SecondReadersFlags(a: U32, b: U32, cell: U32)
    ensures var s := State(0, cell, [Out, Out]);
            Initial(s) && exists steps :: Reaches(s, steps, State(2, b, [ReadDropping(a, b), Reading(b)]))
  {
    var u := State(2, b, [ReadDropping(a, b), Reading(b)]);
    var one := State(1, a, [Reading(a), Out]);
    var leaves := [FetchRead(0)];
    assert Reaches(State(2, b, [Reading(a), Reading(b)]), leaves, u);
    assert one.cpus[1 := Reading(b)] == [Reading(a), Reading(b)];
    Enters(one, 1, b, leaves, u);
    var rest := [BeginRead(1, b)] + ([Load(1)] + ([TryRead(1)] + ([KeepRead(1)] + leaves)));
    var s := State(0, cell, [Out, Out]);
    assert s.cpus[0 := Reading(a)] == [Reading(a), Out];
    Enters(s, 0, a, rest, u);
  }
}
