/** The xHCI event ring (drivers/usb/xhci/xhci_ring.c, and section 4.9.4 of the xHCI
    specification for the controller): the controller posts events with its cycle bit, the
    driver handles them as far as the bit matches and then tells the controller so. */
module XhciEvents {
  import opened XhciRing

  /** Slot `i` and `n` further on, going round the end. */
  function Onward(i: nat, n: nat, size: nat): (j: nat)
    requires i < size && n <= size
    ensures j < size
  {
    if i + n < size then i + n else i + n - size
  }

  /** How far slot `j` is past the cursor. */
  function Past(j: nat, cursor: nat, size: nat): (d: nat)
    requires j < size && cursor < size
    ensures d < size && Onward(cursor, d, size) == j
  {
    if j >= cursor then j - cursor else j + size - cursor
  }

  /** Slot `j` has the cycle bit the cursor expects exactly if it holds one of the waiting
      events, and then it holds the right one. */
  ghost predicate EventSlotOk(m: seq<Trb>, cursor: nat, cycle: bool, waiting: seq<Payload>, j: nat)
    requires j < |m| && cursor < |m|
  {
    var d := Past(j, cursor, |m|);
    && (m[j].cycle == (if j >= cursor then cycle else !cycle) <==> d < |waiting|)
    && (d < |waiting| ==> PayloadOf(m[j]) == waiting[d])
  }

  ghost predicate EventSlotsOk(m: seq<Trb>, cursor: nat, cycle: bool, waiting: seq<Payload>) {
    cursor < |m| && forall j | 0 <= j < |m| :: EventSlotOk(m, cursor, cycle, waiting, j)
  }

  /** The cycle bit of the slot `n` past the cursor. */
  function CycleOf(cursor: nat, cycle: bool, n: nat, size: nat): bool {
    if cursor + n < size then cycle else !cycle
  }

  function Next(i: nat, size: nat): nat {
    if i + 1 < size then i + 1 else 0
  }

  lemma OneOnward(i: nat, cycle: bool, n: nat, size: nat)
    requires i < size && n + 1 < size
    ensures Onward(i, n + 1, size) == Next(Onward(i, n, size), size)
    ensures CycleOf(i, cycle, n + 1, size) == if Next(Onward(i, n, size), size) == 0 then !CycleOf(i, cycle, n, size) else CycleOf(i, cycle, n, size)
  {
  }

  /** The ring is full for the controller exactly when its next slot is the one it was told. */
  lemma FullWhenNextIsTold(i: nat, n: nat, size: nat)
    requires i < size && n < size
    ensures Next(Onward(i, n, size), size) == i <==> n + 1 == size
  {
  }

  lemma PostKeepsSlots(m: seq<Trb>, cursor: nat, cycle: bool, waiting: seq<Payload>, t: Trb)
    requires EventSlotsOk(m, cursor, cycle, waiting) && |waiting| < |m|
    ensures var p := Onward(cursor, |waiting|, |m|);
            EventSlotsOk(m[p := t.(cycle := CycleOf(cursor, cycle, |waiting|, |m|))], cursor, cycle, waiting + [PayloadOf(t)])
  {
    var p := Onward(cursor, |waiting|, |m|);
    var now, more := m[p := t.(cycle := CycleOf(cursor, cycle, |waiting|, |m|))], waiting + [PayloadOf(t)];
    forall j | 0 <= j < |m| ensures EventSlotOk(now, cursor, cycle, more, j) {
      assert EventSlotOk(m, cursor, cycle, waiting, j);
    }
  }

  lemma HandleKeepsSlots(m: seq<Trb>, cursor: nat, cycle: bool, waiting: seq<Payload>)
    requires EventSlotsOk(m, cursor, cycle, waiting) && waiting != [] && |waiting| < |m|
    ensures EventSlotsOk(m, Onward(cursor, 1, |m|), CycleOf(cursor, cycle, 1, |m|), waiting[1..])
  {
    var next, flag, rest := Onward(cursor, 1, |m|), CycleOf(cursor, cycle, 1, |m|), waiting[1..];
    forall j | 0 <= j < |m| ensures EventSlotOk(m, next, flag, rest, j) {
      assert EventSlotOk(m, cursor, cycle, waiting, j);
    }
  }

  /** The event ring and its two ends. `posted` and `handled` are the events the
      controller has written and the driver has processed, over all time; `erdp` is the
      dequeue pointer last told to the controller, after `released` of them. */
  class EventRing {
    const mem: array<Trb>
    var dequeue: nat
    var cycle: bool
    var producer: nat
    var producerCycle: bool
    var erdp: nat
    ghost var posted: seq<Payload>
    ghost var handled: seq<Payload>
    ghost var released: nat

    ghost function Waiting(): seq<Payload>
      requires |handled| <= |posted|
      reads this
    {
      posted[|handled|..]
    }

    /** The controller knows of `released` events and stays behind that point. */
    ghost predicate PointerOk()
      reads this
    {
      && erdp < mem.Length && released <= |handled| <= |posted| < released + mem.Length
      && dequeue == Onward(erdp, |handled| - released, mem.Length)
      && producer == Onward(erdp, |posted| - released, mem.Length)
    }

    ghost predicate Valid()
      reads this, mem
    {
      && PointerOk() && handled <= posted && producer == Onward(dequeue, |Waiting()|, mem.Length)
      && producerCycle == CycleOf(dequeue, cycle, |Waiting()|, mem.Length)
      && EventSlotsOk(mem[..], dequeue, cycle, Waiting())
    }

    constructor (size: nat)
      requires size > 0
      ensures Valid() && fresh(mem) && mem.Length == size && posted == handled == []
    {
      mem := new Trb[size](i => ZERO_TRB);
      dequeue, cycle, producer, producerCycle, erdp := 0, true, 0, true, 0;
      posted, handled, released := [], [], 0;
    }

    /** The controller posts an event, unless its next slot would be the one it was last
        told: it does not see what the driver has handled since. */
    method Post(t: Trb) returns (ok: bool)
      requires Valid()
      modifies this, mem
      ensures Valid() && handled == old(handled) && released == old(released)
      ensures ok == (|old(posted)| - released + 1 < mem.Length)
      ensures posted == if ok then old(posted) + [PayloadOf(t)] else old(posted)
    {
      var next := Next(producer, mem.Length);
      ok := next != erdp;
      FullWhenNextIsTold(erdp, |posted| - released, mem.Length);
      if ok {
        OneOnward(erdp, true, |posted| - released, mem.Length);
        OneOnward(dequeue, cycle, |Waiting()|, mem.Length);
        PostKeepsSlots(mem[..], dequeue, cycle, Waiting(), t);
        mem[producer] := t.(cycle := producerCycle);
        posted := posted + [PayloadOf(t)];
        assert Waiting() == old(Waiting()) + [PayloadOf(t)];
        assert mem[..] == old(mem[..])[producer := t.(cycle := producerCycle)];
        assert EventSlotsOk(mem[..], dequeue, cycle, Waiting());
        producer := next;
        if producer == 0 {
          producerCycle := !producerCycle;
        }
      }
    }

    /** One round of the loop of `xhci_drain_events`: process the event under the
        cursor if the controller has posted it. */
    method HandleOne() returns (ok: bool)
      requires Valid()
      modifies this
      ensures Valid() && posted == old(posted) && mem[..] == old(mem[..]) && released == old(released)
      ensures ok == (old(|handled|) < |posted|)
      ensures handled == if ok then old(handled) + [posted[|old(handled)|]] else old(handled)
    {
      assert EventSlotOk(mem[..], dequeue, cycle, Waiting(), dequeue);
      var evt := mem[dequeue];
      ok := evt.cycle == cycle;
      if ok {
        HandleKeepsSlots(mem[..], dequeue, cycle, Waiting());
        handled := handled + [PayloadOf(evt)];
        assert Waiting() == old(Waiting())[1..];
        dequeue := dequeue + 1;
        if dequeue >= mem.Length {
          dequeue, cycle := 0, !cycle;
        }
      }
    }

    method PostAll(ts: seq<Trb>)
      requires Valid()
      modifies this, mem
      ensures Valid() && handled == old(handled) && old(posted) <= posted && released == old(released)
    {
      for i := 0 to |ts|
        invariant Valid() && handled == old(handled) && old(posted) <= posted && released == old(released)
      {
        var ok := Post(ts[i]);
      }
    }

    /** `xhci_drain_events`, with the controller posting `arrivals[k]` before round `k`:
        every event posted and not yet handled is handled once, in order, also those
        posted on the way, and the loop stops at the first slot not posted.  Then the
        controller is told of all of them. */
    method Drain(arrivals: seq<seq<Trb>>) returns (processed: nat)
      requires Valid()
      modifies this, mem
      ensures Valid() && old(posted) <= posted && handled == posted
      ensures processed == |posted| - |old(handled)|
      ensures released == if processed > 0 then |posted| else old(released)
    {
      processed := 0;
      var more, k := true, 0;
      while more
        invariant Valid() && old(posted) <= posted && old(handled) <= handled && released == old(released)
        invariant processed == |handled| - |old(handled)| && (!more ==> |handled| == |posted|)
        decreases if k < |arrivals| then |arrivals| - k else 0, |posted| - |handled|, more
      {
        if k < |arrivals| {
          PostAll(arrivals[k]);
        }
        k := k + 1;
        more := HandleOne();
        if more {
          processed := processed + 1;
        }
      }
      if processed > 0 {
        erdp, released := dequeue, |handled|;
      }
    }
  }
}
