/** The bus walk of drivers/pci/enum/pci_enum.c: a depth-first search through bridges
    with a bitmap of scanned buses, a depth limit and a fixed pool of descriptors. */
module PciEnum {
  import opened MachineInts

  const MAX_DEVICES: nat := 128
  const MAX_DEPTH: nat := 16
  const BUSES: nat := 256
  const DEVS: nat := 32
  const FNS: nat := 8

  /** One function of one device on one bus. */
  datatype Fn = Fn(bus: nat, dev: nat, fn: nat)

  /** What configuration space says: whether a function answers, whether device (bus, dev)
      is multi-function, and the secondary bus of a PCI-to-PCI bridge (0 if it is none). */
  datatype Config = Config(present: Fn -> bool, multi: (nat, nat) -> bool, secondary: Fn -> nat)

  predicate InBounds(f: Fn) {
    f.bus < BUSES && f.dev < DEVS && f.fn < FNS
  }

  /** Function 0 answers, and the function is 0 or a further one of a multi-function device. */
  predicate Visible(c: Config, f: Fn) {
    && InBounds(f) && c.present(Fn(f.bus, f.dev, 0))
    && (f.fn == 0 || (c.multi(f.bus, f.dev) && c.present(f)))
  }

  predicate Bridges(c: Config, f: Fn, bus: nat) {
    Visible(c, f) && c.secondary(f) == bus && 0 < bus < BUSES
  }

  ghost predicate ConfigOk(c: Config) {
    forall f: Fn :: c.secondary(f) < BUSES
  }

  // ---- Topologies the walk covers ---------------------------------------------------------------

  /** The buses the walk starts from. */
  ghost predicate IsRoot(c: Config, b: nat) {
    if !c.multi(0, 0) then b == 0 else b < FNS && forall k: nat | k <= b :: c.present(Fn(0, 0, k))
  }

  ghost predicate Behind(c: Config, a: nat, b: nat) {
    exists f: Fn :: f.bus == a && Bridges(c, f, b)
  }

  /** The last bus of `p` is behind a bridge on the one before, and so on back to a root. */
  ghost predicate IsPath(c: Config, p: seq<nat>)
    decreases |p|
  {
    && p != []
    && (|p| == 1 ==> p[0] < FNS && IsRoot(c, p[0]))
    && (|p| > 1 ==> IsPath(c, p[..|p| - 1]) && Behind(c, p[|p| - 2], p[|p| - 1]))
  }

  /** A region of buses closed under bridges, whose visible functions fit the pool, when
      no path of bridges that enters no bus twice is longer than the depth limit.  Bridges
      may lead back to earlier buses. */
  datatype Region = Region(buses: set<nat>, fns: set<Fn>)

  ghost predicate Covered(c: Config, r: Region) {
    && (forall f: Fn, bus: nat | f.bus in r.buses && Bridges(c, f, bus) :: bus in r.buses)
    && (forall b: nat | b in r.buses :: b < BUSES)
    && (forall p: seq<nat> | IsPath(c, p) && Distinct(p) :: |p| <= MAX_DEPTH)
    && (forall f: Fn | f.bus in r.buses && Visible(c, f) :: f in r.fns)
    && |r.fns| <= MAX_DEVICES
  }

  ghost function UpTo(n: nat): (s: set<nat>)
    ensures forall b: nat :: b in s <==> b < n
  {
    if n == 0 then {} else UpTo(n - 1) + {n - 1}
  }

  // ---- States -------------------------------------------------------------------------------------

  /** `list` is the device list, in pool order; `scanned` is the bitmap. */
  datatype State = State(list: seq<Fn>, scanned: set<nat>, depth: nat)

  /** Nothing is listed twice, and everything listed is visible on a scanned bus. */
  ghost predicate Sound(c: Config, s: State) {
    && Distinct(s.list) && |s.list| <= MAX_DEVICES
    && (forall b | b in s.scanned :: b < BUSES)
    && (forall f | f in s.list :: Visible(c, f) && f.bus in s.scanned)
  }

  /** `f` is listed and, if it is a bridge, the bus behind it has been scanned. */
  ghost predicate Handled(c: Config, s: State, f: Fn) {
    f in s.list && forall bus: nat | Bridges(c, f, bus) :: bus in s.scanned
  }

  ghost predicate BusDone(c: Config, s: State, b: nat) {
    forall f: Fn | f.bus == b && Visible(c, f) :: Handled(c, s, f)
  }

  /** From `s` to `t` only functions of buses outside `known` are added to the list. */
  ghost predicate Grows(s: State, t: State, known: set<nat>) {
    && t.depth == s.depth && s.scanned <= t.scanned && s.list <= t.list
    && forall k | |s.list| <= k < |t.list| :: t.list[k].bus !in known
  }

  lemma GrowsJoins(s: State, m: State, t: State, known: set<nat>, more: set<nat>)
    requires Grows(s, m, known) && Grows(m, t, more) && known <= more
    ensures Grows(s, t, known)
  {
    forall k | |s.list| <= k < |t.list| ensures t.list[k].bus !in known {
      if k < |m.list| {
        assert t.list[k] == m.list[k];
      }
    }
  }

  ghost predicate AllDone(c: Config, t: State, bs: set<nat>) {
    forall b: nat | b in bs :: BusDone(c, t, b)
  }

  lemma DoneStaysDone(c: Config, s: State, t: State, bs: set<nat>)
    requires AllDone(c, s, bs) && s.scanned <= t.scanned && s.list <= t.list
    ensures AllDone(c, t, bs)
  {
    forall b: nat, f: Fn | b in bs && f.bus == b && Visible(c, f) ensures Handled(c, t, f) {
      assert BusDone(c, s, b) && Handled(c, s, f);
    }
  }

  /** Buses done in two stretches. */
  lemma DoneJoins(c: Config, s: State, m: State, t: State)
    requires s.scanned <= m.scanned <= t.scanned && m.list <= t.list
    ensures AllDone(c, m, m.scanned - s.scanned) && AllDone(c, t, t.scanned - m.scanned) ==> AllDone(c, t, t.scanned - s.scanned)
    ensures forall f | Handled(c, m, f) :: Handled(c, t, f)
  {
    if AllDone(c, m, m.scanned - s.scanned) {
      DoneStaysDone(c, m, t, m.scanned - s.scanned);
    }
  }

  lemma SearchedBus(c: Config, t: State, bus: nat, known: set<nat>)
    requires DevsDone(c, t, bus, DEVS) && AllDone(c, t, t.scanned - (known + {bus}))
    ensures AllDone(c, t, t.scanned - known)
  {
    assert BusDone(c, t, bus);
  }

  /** A list without repetition inside a set leaves room for one more of the set. */
  lemma {:induction false} RoomForOneMore(list: seq<Fn>, fns: set<Fn>, f: Fn)
    requires Distinct(list) && (forall g | g in list :: g in fns) && f in fns && f !in list
    ensures |list| < |fns|
    decreases |list|
  {
    if list != [] {
      var n := |list| - 1;
      var last := list[n];
      forall g | g in list[..n] ensures g in fns - {last} {
      }
      RoomForOneMore(list[..n], fns - {last}, f);
    }
  }

  /** `stack` is the path of buses being searched. */
  ghost predicate OnPath(c: Config, s: State, stack: seq<nat>) {
    |stack| == s.depth && Distinct(stack) && (forall b | b in stack :: b in s.scanned) && (stack != [] ==> IsPath(c, stack))
  }

  /** The bus can be searched in full from state `s`: it lies in a covered region, and
      the way to it is a path. */
  ghost predicate Fits(c: Config, r: Region, s: State, bus: nat, stack: seq<nat>) {
    Covered(c, r) && s.scanned <= r.buses && bus in r.buses && OnPath(c, s, stack) && IsPath(c, stack + [bus])
  }

  /** The same, once the search of the bus has begun. */
  ghost predicate Roomy(c: Config, r: Region, s: State, bus: nat, stack: seq<nat>) {
    Covered(c, r) && s.scanned <= r.buses && OnPath(c, s, stack) && stack != [] && stack[|stack| - 1] == bus
  }

  ghost predicate DevsDone(c: Config, s: State, bus: nat, n: nat) {
    forall f: Fn | f.bus == bus && f.dev < n && Visible(c, f) :: Handled(c, s, f)
  }

  ghost predicate FnsDone(c: Config, s: State, bus: nat, dev: nat, n: nat) {
    forall f: Fn | f.bus == bus && f.dev == dev && f.fn < n && Visible(c, f) :: Handled(c, s, f)
  }

  /** One more function of a device. */
  lemma NextFn(c: Config, s: State, t: State, bus: nat, dev: nat, fn: nat)
    requires FnsDone(c, s, bus, dev, fn) && s.scanned <= t.scanned && s.list <= t.list
    requires Visible(c, Fn(bus, dev, fn)) ==> Handled(c, t, Fn(bus, dev, fn))
    ensures FnsDone(c, t, bus, dev, fn + 1)
  {
    forall f: Fn | f.bus == bus && f.dev == dev && f.fn < fn + 1 && Visible(c, f) ensures Handled(c, t, f) {
      if f.fn < fn {
        assert Handled(c, s, f);
      } else {
        assert f == Fn(bus, dev, fn);
      }
    }
  }

  lemma NextDev(c: Config, s: State, t: State, bus: nat, dev: nat)
    requires DevsDone(c, s, bus, dev) && FnsDone(c, t, bus, dev, FNS) && s.scanned <= t.scanned && s.list <= t.list
    ensures DevsDone(c, t, bus, dev + 1)
  {
    forall f: Fn | f.bus == bus && f.dev < dev + 1 && Visible(c, f) ensures Handled(c, t, f) {
      if f.dev < dev {
        assert Handled(c, s, f);
      }
    }
  }

  lemma BehindFits(c: Config, r: Region, s: State, f: Fn, sec: nat, stack: seq<nat>)
    requires f.bus in s.scanned && Bridges(c, f, sec)
    ensures Roomy(c, r, s, f.bus, stack) ==> Fits(c, r, s, sec, stack)
  {
    if Roomy(c, r, s, f.bus, stack) {
      assert (stack + [sec])[..|stack|] == stack && Behind(c, f.bus, sec);
    }
  }

  /** A bus not scanned before is entered with room to spare. */
  lemma EnterNew(c: Config, r: Region, s: State, bus: nat, stack: seq<nat>)
    requires Fits(c, r, s, bus, stack) && bus !in s.scanned
    ensures s.depth < MAX_DEPTH
    ensures Roomy(c, r, State(s.list, s.scanned + {bus}, s.depth + 1), bus, stack + [bus])
  {
    var p := stack + [bus];
    assert forall i | 0 <= i < |stack| :: p[i] == stack[i] && stack[i] in stack;
    assert Distinct(p);
  }

  lemma RoomyStays(c: Config, r: Region, s: State, t: State, bus: nat, stack: seq<nat>, known: set<nat>)
    requires Roomy(c, r, s, bus, stack) && Grows(s, t, known) && t.scanned <= r.buses
    ensures Roomy(c, r, t, bus, stack)
  {
  }

  lemma AppendKeepsSound(c: Config, s: State, f: Fn)
    requires Sound(c, s) && |s.list| < MAX_DEVICES && Visible(c, f) && f.bus in s.scanned && f !in s.list
    ensures Sound(c, s.(list := s.list + [f]))
  {
  }

  // ---- The walk -----------------------------------------------------------------------------------

  class Enumerator {
    const c: Config
    var list: seq<Fn>
    var scanned: set<nat>
    var depth: nat

    ghost function View(): State
      reads this
    {
      State(list, scanned, depth)
    }

    constructor (c: Config)
      ensures Sound(c, View()) && this.c == c && list == [] && scanned == {} && depth == 0
    {
      this.c := c;
      list, scanned, depth := [], {}, 0;
    }

    /** `probe_fn` on a function that answers. */
    method ProbeFn(f: Fn, ghost r: Region, ghost stack: seq<nat>)
      requires ConfigOk(c) && Sound(c, View()) && Visible(c, f) && f.bus in scanned && f !in list
      modifies this
      decreases UpTo(BUSES) - scanned, 1
      ensures Sound(c, View()) && Grows(old(View()), View(), old(scanned) - {f.bus})
      ensures forall k | |old(list)| <= k < |list| :: list[k] == f || list[k].bus !in old(scanned)
      ensures Roomy(c, r, old(View()), f.bus, stack) ==>
                scanned <= r.buses && AllDone(c, View(), scanned - old(scanned)) && Handled(c, View(), f)
    {
      if Covered(c, r) && scanned <= r.buses {
        RoomForOneMore(list, r.fns, f);
      }
      if |list| >= MAX_DEVICES {
        return;
      }
      AppendKeepsSound(c, View(), f);
      list := list + [f];
      var sec := c.secondary(f);
      if sec != 0 {
        BehindFits(c, r, View(), f, sec, stack);
        ScanBus(sec, r, stack);
      }
      assert list[|old(list)|] == f;
    }

    /** `scan_bus`: it ends whatever the bridges say, since a bus is marked before it is
        searched. */
    method ScanBus(bus: nat, ghost r: Region, ghost stack: seq<nat>)
      requires ConfigOk(c) && Sound(c, View()) && bus < BUSES
      modifies this
      decreases UpTo(BUSES) - scanned, 0
      ensures Sound(c, View()) && Grows(old(View()), View(), old(scanned)) && bus in scanned
      ensures Fits(c, r, old(View()), bus, stack) ==>
                scanned <= r.buses && AllDone(c, View(), scanned - old(scanned))
    {
      if bus in scanned {
        return;
      }
      ghost var fits := Fits(c, r, View(), bus, stack);
      if fits {
        EnterNew(c, r, View(), bus, stack);
      }
      scanned := scanned + {bus};
      if depth >= MAX_DEPTH {
        return;
      }
      depth := depth + 1;
      ghost var s1 := View();
      for dev := 0 to DEVS
        invariant Sound(c, View()) && Grows(s1, View(), old(scanned)) && bus in scanned
        invariant forall f | f in list && f.bus == bus :: f.dev < dev
        invariant fits ==> Roomy(c, r, View(), bus, stack + [bus]) && AllDone(c, View(), scanned - s1.scanned)
        invariant fits ==> DevsDone(c, View(), bus, dev)
      {
        ghost var mid := View();
        ScanDev(bus, dev, r, stack + [bus]);
        GrowsJoins(s1, mid, View(), old(scanned), mid.scanned - {bus});
        DoneJoins(c, s1, mid, View());
        if fits {
          RoomyStays(c, r, mid, View(), bus, stack + [bus], mid.scanned - {bus});
          NextDev(c, mid, View(), bus, dev);
        }
      }
      depth := depth - 1;
      if fits {
        SearchedBus(c, View(), bus, old(scanned));
      }
    }

    /** One device of a bus: function 0 and, for a multi-function device, the others. */
    method ScanDev(bus: nat, dev: nat, ghost r: Region, ghost stack: seq<nat>)
      requires ConfigOk(c) && Sound(c, View()) && bus in scanned && dev < DEVS
      requires forall f | f in list && f.bus == bus :: f.dev < dev
      modifies this
      decreases UpTo(BUSES) - scanned, 2
      ensures Sound(c, View()) && Grows(old(View()), View(), old(scanned) - {bus})
      ensures forall f | f in list && f.bus == bus :: f in old(list) || f.dev == dev
      ensures Roomy(c, r, old(View()), bus, stack) ==>
                && scanned <= r.buses && AllDone(c, View(), scanned - old(scanned))
                && FnsDone(c, View(), bus, dev, FNS)
    {
      if !c.present(Fn(bus, dev, 0)) {
        return;
      }
      ghost var roomy := Roomy(c, r, View(), bus, stack);
      ProbeFn(Fn(bus, dev, 0), r, stack);
      if roomy {
        RoomyStays(c, r, old(View()), View(), bus, stack, old(scanned) - {bus});
      }
      if c.multi(bus, dev) {
        for fn := 1 to FNS
          invariant Sound(c, View()) && Grows(old(View()), View(), old(scanned) - {bus})
          invariant forall f | f in list && f.bus == bus :: f in old(list) || (f.dev == dev && f.fn < fn)
          invariant roomy ==> Roomy(c, r, View(), bus, stack) && AllDone(c, View(), scanned - old(scanned))
          invariant roomy ==> FnsDone(c, View(), bus, dev, fn)
        {
          ghost var mid := View();
          if c.present(Fn(bus, dev, fn)) {
            ProbeFn(Fn(bus, dev, fn), r, stack);
            DoneJoins(c, old(View()), mid, View());
            if roomy {
              RoomyStays(c, r, mid, View(), bus, stack, mid.scanned - {bus});
            }
          }
          if roomy {
            NextFn(c, mid, View(), bus, dev, fn);
          }
        }
      }
    }

    /** `pci_enumerate`: bus 0, or one bus per function of a multi-function host bridge. */
    method Enumerate(ghost r: Region)
      requires ConfigOk(c) && Sound(c, View()) && scanned == {} && depth == 0
      modifies this
      ensures Sound(c, View())
      ensures Covered(c, r) && (forall b: nat | b < FNS && IsRoot(c, b) :: b in r.buses) ==> Complete(c, View())
    {
      if !c.multi(0, 0) {
        assert IsRoot(c, 0) && IsPath(c, [0]) && [] + [0] == [0];
        ScanBus(0, r, []);
        return;
      }
      ghost var nice := Covered(c, r) && forall b: nat | b < FNS && IsRoot(c, b) :: b in r.buses;
      for fn := 0 to FNS
        invariant Sound(c, View()) && depth == 0
        invariant forall b: nat | b < fn :: c.present(Fn(0, 0, b)) && b in scanned
        invariant nice ==> scanned <= r.buses && AllDone(c, View(), scanned)
      {
        if !c.present(Fn(0, 0, fn)) {
          return;
        }
        assert IsRoot(c, fn);
        ghost var mid := View();
        assert IsPath(c, [fn]) && [] + [fn] == [fn];
        ScanBus(fn, r, []);
        DoneJoins(c, State([], {}, 0), mid, View());
        assert mid.scanned - {} == mid.scanned && scanned - {} == scanned;
      }
    }
  }

  /** Every root is scanned, and every scanned bus is done. */
  ghost predicate Complete(c: Config, s: State) {
    (forall b: nat | b < FNS && IsRoot(c, b) :: b in s.scanned) && AllDone(c, s, s.scanned)
  }

  /** A complete walk reaches every bus behind a chain of bridges. */
  lemma {:induction false} EveryReachableBusIsScanned(c: Config, s: State, p: seq<nat>)
    requires Complete(c, s) && IsPath(c, p)
    ensures p[|p| - 1] in s.scanned
    decreases |p|
  {
    if |p| > 1 {
      var g: Fn :| g.bus == p[|p| - 2] && Bridges(c, g, p[|p| - 1]);
      EveryReachableBusIsScanned(c, s, p[..|p| - 1]);
      assert BusDone(c, s, g.bus) && Handled(c, s, g);
    }
  }

  /** After a complete walk every visible function of every reachable bus is listed, and
      listed once. */
  lemma EveryReachableFunctionIsListed(c: Config, s: State, p: seq<nat>, f: Fn)
    requires Sound(c, s) && Complete(c, s) && IsPath(c, p) && f.bus == p[|p| - 1] && Visible(c, f)
    ensures exists i | 0 <= i < |s.list| :: s.list[i] == f && forall j | 0 <= j < |s.list| && s.list[j] == f :: j == i
  {
    EveryReachableBusIsScanned(c, s, p);
    assert BusDone(c, s, f.bus) && Handled(c, s, f);
    var i :| 0 <= i < |s.list| && s.list[i] == f;
  }
}
