/** The xHCI transfer and command rings of xhci_ring.c (xHCI specification, sections
    4.9.2 and 4.9.3): the driver publishes TRBs store by store, the controller
    follows cycle bits and the toggling link TRB, and any interleaving of the two
    is a run. */
module XhciRing {
  import opened MachineInts

  const TRB_LINK: nat := 6

  /** A transfer request block; `control` is kept as its cycle bit and the bits above it. */
  datatype Trb = Trb(lo: U32, hi: U32, status: U32, body: nat, cycle: bool)

  /** What a TRB says, whoever owns it. */
  datatype Payload = Payload(lo: U32, hi: U32, status: U32, body: nat)

  function PayloadOf(t: Trb): Payload {
    Payload(t.lo, t.hi, t.status, t.body)
  }

  /** The TRB type field is bits 10..15 of the control word. */
  predicate IsLink(t: Trb) {
    t.body / 512 % 64 == TRB_LINK
  }

  /** Where the driver stands inside `xhci_ring_enqueue`: the number of fields of the
      TRB already stored, or the link TRB still to be handed over. */
  datatype Writer = Ready | Storing(trb: Trb, stage: nat) | Linking

  datatype Ring = Ring(mem: seq<Trb>, enqueue: nat, cycle: bool, writer: Writer,
                       dequeue: nat, ccs: bool, sent: seq<Payload>, received: seq<Payload>)

  datatype Step = Begin(trb: Trb) | Store | Consume

  /** The link TRB at the end of a fresh ring: type 6, toggle-cycle, owned by the controller. */
  function LinkTrb(base: U32): Trb {
    Trb(base, 0, 0, 3073, true)
  }

  const ZERO_TRB: Trb := Trb(0, 0, 0, 0, false)

  ghost predicate Init(r: Ring) {
    && |r.mem| >= 2 && (forall j | 0 <= j < |r.mem| - 1 :: r.mem[j] == ZERO_TRB)
    && (exists base :: r.mem[|r.mem| - 1] == LinkTrb(base))
    && r.enqueue == 0 && r.cycle && r.writer == Ready && r.dequeue == 0 && r.ccs && r.sent == [] && r.received == []
  }

  function Outstanding(r: Ring): int {
    |r.sent| - |r.received|
  }

  /** The driver starts a TRB only while fewer than `bound` are outstanding. */
  predicate Enabled(r: Ring, step: Step, bound: nat) {
    match step
    case Begin(trb) => r.writer.Ready? && !IsLink(trb) && Outstanding(r) < bound
    case Store => !r.writer.Ready? && r.enqueue < |r.mem|
    case Consume => r.dequeue < |r.mem|
  }

  function Apply(r: Ring, step: Step, bound: nat): Ring
    requires Enabled(r, step, bound)
  {
    match step
    case Begin(trb) => r.(writer := Storing(trb, 0))
    case Store => StoreField(r)
    case Consume => ControllerStep(r)
  }

  /** One store of the driver. The store of the control word publishes the TRB; at
      the last slot the link TRB is handed over next and the cycle toggles. */
  function StoreField(r: Ring): Ring
    requires !r.writer.Ready? && r.enqueue < |r.mem|
  {
    var i := r.enqueue;
    match r.writer
    case Linking =>
      var last := |r.mem| - 1;
      r.(mem := r.mem[last := r.mem[last].(cycle := r.cycle)], enqueue := 0, cycle := !r.cycle, writer := Ready)
    case Storing(t, stage) =>
      if stage == 0 then r.(mem := r.mem[i := r.mem[i].(lo := t.lo)], writer := Storing(t, 1))
      else if stage == 1 then r.(mem := r.mem[i := r.mem[i].(hi := t.hi)], writer := Storing(t, 2))
      else if stage == 2 then r.(mem := r.mem[i := r.mem[i].(status := t.status)], writer := Storing(t, 3))
      else
        r.(mem := r.mem[i := r.mem[i].(body := t.body, cycle := r.cycle)], enqueue := i + 1,
           writer := if i + 1 >= |r.mem| - 1 then Linking else Ready, sent := r.sent + [PayloadOf(t)])
  }

  /** The controller executes the TRB it points at if it owns it; a link TRB takes it
      back to the first slot and toggles its cycle state. */
  function ControllerStep(r: Ring): Ring
    requires r.dequeue < |r.mem|
  {
    var t := r.mem[r.dequeue];
    if t.cycle != r.ccs then r
    else if IsLink(t) then r.(dequeue := 0, ccs := !r.ccs)
    else r.(dequeue := r.dequeue + 1, received := r.received + [PayloadOf(t)])
  }

  ghost predicate IsRun(r: Ring, steps: seq<Step>, bound: nat)
    decreases steps
  {
    steps == [] || (Enabled(r, steps[0], bound) && IsRun(Apply(r, steps[0], bound), steps[1..], bound))
  }

  ghost function EndOf(r: Ring, steps: seq<Step>, bound: nat): Ring
    requires IsRun(r, steps, bound)
    decreases steps
  {
    if steps == [] then r else EndOf(Apply(r, steps[0], bound), steps[1..], bound)
  }

  // ---- The invariant -------------------------------------------------------------

  /** How many TRBs the controller executes before it reaches slot `j`. */
  function Ahead(r: Ring, j: nat): int {
    if j >= r.dequeue then j - r.dequeue else j - r.dequeue + |r.mem| - 1
  }

  /** The cycle state the controller will have when it reaches slot `j`. */
  function CycleAt(r: Ring, j: nat): bool {
    if j >= r.dequeue then r.ccs else !r.ccs
  }

  /** A slot carries the cycle bit the controller expects exactly when it holds an
      outstanding TRB, and then it holds that TRB whole. */
  ghost predicate SlotOk(r: Ring, j: nat)
    requires j < |r.mem|
  {
    && (r.mem[j].cycle == CycleAt(r, j) <==> Ahead(r, j) < Outstanding(r))
    && (0 <= Ahead(r, j) < Outstanding(r) ==>
          !IsLink(r.mem[j]) && |r.received| + Ahead(r, j) < |r.sent| && PayloadOf(r.mem[j]) == r.sent[|r.received| + Ahead(r, j)])
  }

  /** The driver writes next where the controller arrives after all outstanding TRBs. */
  ghost predicate DriverOk(r: Ring) {
    var m := |r.mem| - 1;
    var slot, cycle := if r.enqueue == m then 0 else r.enqueue, if r.enqueue == m then !r.cycle else r.cycle;
    && r.enqueue <= m && (r.writer.Linking? <==> r.enqueue == m)
    && (if r.dequeue + Outstanding(r) < m then slot == r.dequeue + Outstanding(r) && cycle == r.ccs
        else slot == r.dequeue + Outstanding(r) - m && cycle == !r.ccs)
  }

  ghost predicate LinkOk(r: Ring)
    requires |r.mem| >= 2
  {
    var m := |r.mem| - 1;
    && IsLink(r.mem[m])
    && (r.dequeue + Outstanding(r) >= m && !r.writer.Linking? ==> r.mem[m].cycle == r.ccs)
  }

  ghost predicate WriterOk(r: Ring) {
    r.writer.Storing? && r.enqueue < |r.mem| ==>
      && !IsLink(r.writer.trb)
      && Outstanding(r) < |r.mem| - 2
      && (r.writer.stage >= 1 ==> r.mem[r.enqueue].lo == r.writer.trb.lo)
      && (r.writer.stage >= 2 ==> r.mem[r.enqueue].hi == r.writer.trb.hi)
      && (r.writer.stage >= 3 ==> r.mem[r.enqueue].status == r.writer.trb.status)
  }

  ghost predicate Inv(r: Ring) {
    && |r.mem| >= 2 && r.dequeue < |r.mem|
    && r.received <= r.sent && Outstanding(r) <= |r.mem| - 2
    && (forall j | 0 <= j < |r.mem| - 1 :: SlotOk(r, j))
    && DriverOk(r) && LinkOk(r) && WriterOk(r)
  }

  /** Changing the free slot the driver writes to, but not its cycle bit, disturbs no slot. */
  lemma FreeSlotMayChange(r: Ring, x: Trb, w: Writer, j: nat)
    requires |r.mem| >= 2 && r.dequeue < |r.mem| && r.received <= r.sent && Outstanding(r) <= |r.mem| - 2
    requires DriverOk(r) && r.enqueue < |r.mem| - 1 && x.cycle == r.mem[r.enqueue].cycle
    requires j < |r.mem| - 1 && SlotOk(r, j)
    ensures SlotOk(r.(mem := r.mem[r.enqueue := x], writer := w), j)
  {
    assert Ahead(r, r.enqueue) == Outstanding(r);
  }

  /** Storing a field of a TRB that is not yet published. */
  lemma FieldKeeps(r: Ring)
    requires Inv(r) && r.writer.Storing? && r.writer.stage < 3
    ensures Inv(StoreField(r))
  {
    var s := StoreField(r);
    forall j | 0 <= j < |r.mem| - 1 ensures SlotOk(s, j) {
      assert SlotOk(r, j);
      FreeSlotMayChange(r, s.mem[r.enqueue], s.writer, j);
    }
  }

  lemma PublishKeeps(r: Ring)
    requires Inv(r) && r.writer.Storing? && r.writer.stage >= 3
    ensures Inv(StoreField(r))
  {
    var s := StoreField(r);
    assert Ahead(r, r.enqueue) == Outstanding(r);
    forall j | 0 <= j < |r.mem| - 1 ensures SlotOk(s, j) {
      assert SlotOk(r, j);
      assert Ahead(s, j) == Ahead(r, j) && CycleAt(s, j) == CycleAt(r, j);
    }
  }

  lemma LinkKeeps(r: Ring)
    requires Inv(r) && r.writer.Linking?
    ensures Inv(StoreField(r))
  {
    var s := StoreField(r);
    forall j | 0 <= j < |r.mem| - 1 ensures SlotOk(s, j) {
      assert SlotOk(r, j);
    }
  }

  lemma ConsumeKeeps(r: Ring)
    requires Inv(r)
    ensures Inv(ControllerStep(r))
  {
    var s := ControllerStep(r);
    if r.dequeue < |r.mem| - 1 {
      assert SlotOk(r, r.dequeue);
    }
    forall j | 0 <= j < |r.mem| - 1 ensures SlotOk(s, j) {
      assert SlotOk(r, j);
    }
  }

  lemma InitIsInv(r: Ring)
    requires Init(r)
    ensures Inv(r)
  {
    forall j | 0 <= j < |r.mem| - 1 ensures SlotOk(r, j) {
      assert r.mem[j] == ZERO_TRB;
    }
  }

  lemma BeginKeeps(r: Ring, trb: Trb)
    requires Inv(r) && r.writer.Ready? && !IsLink(trb) && Outstanding(r) < |r.mem| - 2
    ensures Inv(r.(writer := Storing(trb, 0)))
  {
    forall j | 0 <= j < |r.mem| - 1 ensures SlotOk(r.(writer := Storing(trb, 0)), j) {
      assert SlotOk(r, j);
    }
  }

  lemma StepKeeps(r: Ring, step: Step, bound: nat)
    requires Inv(r) && Enabled(r, step, bound) && bound <= |r.mem| - 2
    ensures Inv(Apply(r, step, bound)) && |Apply(r, step, bound).mem| == |r.mem|
  {
    match step
    case Begin(trb) => BeginKeeps(r, trb);
    case Store =>
      if r.writer.Linking? { LinkKeeps(r); } else if r.writer.stage < 3 { FieldKeeps(r); } else { PublishKeeps(r); }
    case Consume => ConsumeKeeps(r);
  }

  lemma {:induction false} RunKeeps(r: Ring, steps: seq<Step>, bound: nat)
    requires Inv(r) && IsRun(r, steps, bound) && bound <= |r.mem| - 2
    ensures Inv(EndOf(r, steps, bound))
    decreases steps
  {
    if steps != [] {
      StepKeeps(r, steps[0], bound);
      RunKeeps(Apply(r, steps[0], bound), steps[1..], bound);
    }
  }

  // ---- Main results ----------------------------------------------------------------

  /** With at most `size - 2` TRBs outstanding, whatever the interleaving and however
      often the ring wraps, the controller has received exactly the TRBs sent so
      far, whole, in order and once each, up to those outstanding; and while any is
      outstanding and the driver is between calls, it owns the TRB it points at. */
  lemma ControllerReceivesWhatWasSent(r: Ring, steps: seq<Step>, bound: nat)
    requires Init(r) && IsRun(r, steps, bound) && bound <= |r.mem| - 2
    ensures var e := EndOf(r, steps, bound);
            && e.received <= e.sent && Outstanding(e) <= |e.mem| - 2 && e.dequeue < |e.mem|
            && (e.writer.Ready? && Outstanding(e) > 0 ==> ControllerStep(e) != e)
            && (Outstanding(e) == 0 ==> ControllerStep(e).received == e.received)
  {
    InitIsInv(r);
    RunKeeps(r, steps, bound);
    var e := EndOf(r, steps, bound);
    if e.dequeue < |e.mem| - 1 {
      assert SlotOk(e, e.dequeue);
    }
  }

  /** At most one link TRB stands between the controller and the next TRB. */
  lemma NextTrbArrives(r: Ring)
    requires Inv(r) && r.writer.Ready? && Outstanding(r) > 0
    ensures var one := ControllerStep(r);
            || one.received == r.received + [r.sent[|r.received|]]
            || (one.dequeue == 0 && ControllerStep(one).received == r.received + [r.sent[|r.received|]])
  {
    var one := ControllerStep(r);
    ConsumeKeeps(r);
    if r.dequeue < |r.mem| - 1 {
      assert SlotOk(r, r.dequeue);
    } else {
      assert SlotOk(one, 0);
    }
  }

  // ---- The whole call, and the bound it needs -----------------------------------------

  /** `xhci_ring_enqueue` as one step. */
  function EnqueueTrb(r: Ring, t: Trb): Ring
    requires r.enqueue < |r.mem| - 1
  {
    var i, last := r.enqueue, |r.mem| - 1;
    var mem := r.mem[i := t.(cycle := r.cycle)];
    var sent := r.sent + [PayloadOf(t)];
    if i + 1 >= last then
      r.(mem := mem[last := mem[last].(cycle := r.cycle)], enqueue := 0, cycle := !r.cycle, sent := sent)
    else r.(mem := mem, enqueue := i + 1, sent := sent)
  }

  ghost predicate Reaches(r: Ring, q: Ring, bound: nat) {
    exists steps :: IsRun(r, steps, bound) && EndOf(r, steps, bound) == q
  }

  lemma {:induction false} AppendStep(r: Ring, steps: seq<Step>, step: Step, bound: nat)
    requires IsRun(r, steps, bound) && Enabled(EndOf(r, steps, bound), step, bound)
    ensures IsRun(r, steps + [step], bound)
    ensures EndOf(r, steps + [step], bound) == Apply(EndOf(r, steps, bound), step, bound)
    decreases steps
  {
    if steps == [] {
      assert steps + [step] == [step] && [step][1..] == [];
    } else {
      assert (steps + [step])[1..] == steps[1..] + [step];
      AppendStep(Apply(r, steps[0], bound), steps[1..], step, bound);
    }
  }

  lemma Then(r: Ring, q: Ring, step: Step, bound: nat)
    requires Reaches(r, q, bound) && Enabled(q, step, bound)
    ensures Reaches(r, Apply(q, step, bound), bound)
  {
    var steps :| IsRun(r, steps, bound) && EndOf(r, steps, bound) == q;
    AppendStep(r, steps, step, bound);
  }

  /** The stores of one call, uninterrupted, amount to `EnqueueTrb`. */
  lemma EnqueueIsRun(r: Ring, q: Ring, t: Trb, bound: nat)
    requires Reaches(r, q, bound) && Enabled(q, Begin(t), bound) && q.enqueue < |q.mem| - 1
    ensures Reaches(r, EnqueueTrb(q, t), bound)
  {
    var i := q.enqueue;
    var q0 := Apply(q, Begin(t), bound);
    Then(r, q, Begin(t), bound);
    var q1 := StoreField(q0);
    Then(r, q0, Store, bound);
    var q2 := StoreField(q1);
    Then(r, q1, Store, bound);
    var q3 := StoreField(q2);
    Then(r, q2, Store, bound);
    var q4 := StoreField(q3);
    Then(r, q3, Store, bound);
    assert q4.mem == q.mem[i := t.(cycle := q.cycle)];
    if q4.writer.Linking? {
      Then(r, q4, Store, bound);
    }
  }

  /** After `k` TRBs, each executed before the next: the controller stops in front of
      the link TRB when `k` reaches the last slot. */
  ghost predicate FirstLap(q: Ring, n: nat, k: nat) {
    && 2 <= n == |q.mem| && k < n && q.writer.Ready? && IsLink(q.mem[n - 1]) && q.mem[n - 1].cycle && q.ccs
    && q.dequeue == k == |q.sent| == |q.received|
    && (if k < n - 1 then q.enqueue == k && q.cycle else q.enqueue == 0 && !q.cycle)
  }

  lemma {:induction false} RunFirstLap(r: Ring, q: Ring, n: nat, k: nat, bound: nat) returns (e: Ring)
    requires Reaches(r, q, bound) && FirstLap(q, n, k) && bound >= 1
    ensures Reaches(r, e, bound) && FirstLap(e, n, n - 1)
    decreases n - k
  {
    if k == n - 1 {
      e := q;
    } else {
      EnqueueIsRun(r, q, ZERO_TRB, bound);
      var q1 := EnqueueTrb(q, ZERO_TRB);
      Then(r, q1, Consume, bound);
      e := RunFirstLap(r, ControllerStep(q1), n, k + 1, bound);
    }
  }

  /** The controller waits in front of the link TRB while `k` further TRBs are sent. */
  ghost predicate SecondLap(q: Ring, n: nat, k: nat) {
    && 2 <= n == |q.mem| && k < n && q.writer.Ready? && q.ccs
    && q.dequeue == n - 1 && |q.received| == n - 1 && |q.sent| == n - 1 + k
    && (if k < n - 1 then q.enqueue == k && !q.cycle else !q.mem[n - 1].cycle)
  }

  lemma {:induction false} RunSecondLap(r: Ring, q: Ring, n: nat, k: nat, bound: nat) returns (e: Ring)
    requires Reaches(r, q, bound) && SecondLap(q, n, k) && bound >= n - 1
    ensures Reaches(r, e, bound) && SecondLap(e, n, n - 1)
    decreases n - k
  {
    if k == n - 1 {
      e := q;
    } else {
      EnqueueIsRun(r, q, ZERO_TRB, bound);
      e := RunSecondLap(r, EnqueueTrb(q, ZERO_TRB), n, k + 1, bound);
    }
  }

  /** TRBs are outstanding, the driver is between calls, and the controller waits for
      a TRB it does not own: nothing the controller does changes this. */
  ghost predicate Stuck(r: Ring) {
    r.writer.Ready? && Outstanding(r) > 0 && r.dequeue < |r.mem| && ControllerStep(r) == r
  }

  ghost predicate NeverStuck(n: nat, bound: nat) {
    forall r: Ring, steps: seq<Step> | Init(r) && |r.mem| == n && IsRun(r, steps, bound) :: !Stuck(EndOf(r, steps, bound))
  }

  /** A ring of `n` slots never gets stuck exactly when at most `n - 2` TRBs may be
      outstanding: with `n - 1`, the driver can hand the link TRB over a second time
      before the controller has followed it once. */
  lemma BoundIsExact(n: nat, bound: nat)
    requires n >= 2
    ensures NeverStuck(n, bound) <==> bound <= n - 2
  {
    if bound <= n - 2 {
      forall r: Ring, steps: seq<Step> | Init(r) && |r.mem| == n && IsRun(r, steps, bound)
        ensures !Stuck(EndOf(r, steps, bound))
      {
        ControllerReceivesWhatWasSent(r, steps, bound);
      }
    } else {
      var r := Ring(seq(n - 1, i => ZERO_TRB) + [LinkTrb(0)], 0, true, Ready, 0, true, [], []);
      assert Init(r) && FirstLap(r, n, 0);
      assert IsRun(r, [], bound) && EndOf(r, [], bound) == r;
      var q := RunFirstLap(r, r, n, 0, bound);
      var e := RunSecondLap(r, q, n, 0, bound);
      assert Stuck(e);
    }
  }

  // ---- The driver's ring object -----------------------------------------------------

  /** `xhci_ring_t`: ring memory shared with the controller, and the driver's cursor. */
  class DriverRing {
    var ring: array<Trb>
    var enqueue: nat
    var cycle: bool

    /** `xhci_ring_init`. */
    constructor (base: U32, size: nat)
      requires size >= 2
      ensures fresh(ring) && ring.Length == size && enqueue == 0 && cycle
      ensures forall sent: seq<Payload>, received: seq<Payload> | sent == received == [] ::
                Init(Ring(ring[..], enqueue, cycle, Ready, 0, true, sent, received))
    {
      ring := new Trb[size](i => ZERO_TRB);
      enqueue, cycle := 0, true;
      new;
      ring[size - 1] := LinkTrb(base);
    }

    /** `xhci_ring_enqueue`, run to its end: it has the effect of `EnqueueTrb`. */
    method Enqueue(t: Trb)
      requires enqueue < ring.Length - 1
      modifies this`enqueue, this`cycle, ring
      ensures enqueue < ring.Length - 1
      ensures forall r: Ring | r.mem == old(ring[..]) && r.enqueue == old(enqueue) && r.cycle == old(cycle) ::
                var e := EnqueueTrb(r, t); ring[..] == e.mem && enqueue == e.enqueue && cycle == e.cycle
    {
      var idx := enqueue;
      ring[idx] := ring[idx].(lo := t.lo);
      ring[idx] := ring[idx].(hi := t.hi);
      ring[idx] := ring[idx].(status := t.status);
      ring[idx] := ring[idx].(body := t.body, cycle := cycle);
      assert ring[..] == old(ring[..])[idx := t.(cycle := cycle)];
      enqueue := enqueue + 1;
      if enqueue >= ring.Length - 1 {
        var last := ring.Length - 1;
        ring[last] := ring[last].(cycle := cycle);
        enqueue := 0;
        cycle := !cycle;
      }
    }
  }
}
