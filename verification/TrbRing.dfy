/**
 A ring of transfer request blocks with cycle bits, between a producer and a consumer that share only its memory
 (sections 4.9.2 to 4.9.4 of the xHCI specification).  The last entry of the ring is a link back to its start.
 */
module TrbRing {
  import opened Optional

  /** `control` has the cycle bit in bit 0. */
  datatype Trb = Trb(dataLow: nat, dataHigh: nat, status: nat, control: nat)

  const ZERO_TRB := Trb(0, 0, 0, 0)

  /** A link with the toggle-cycle bit: `1 << 1 | COMMAND_TYPE(6)`. */
  const LINK_CONTROL := 2 + 6 * 1024

  predicate Bit0(control: nat) {
    control % 2 == 1
  }

  /** `control |= cycle`. */
  function WithCycle(control: nat, cycle: bool): nat {
    if cycle && !Bit0(control) then control + 1 else control
  }

  /** `1 ^ control`. */
  function Flipped(control: nat): nat {
    if Bit0(control) then control - 1 else control + 1
  }

  /** The index and cycle state of one end of the ring. */
  datatype Side = Side(index: nat, cycle: bool)

  /** The next index, with the cycle state toggled at the link. */
  function Advance(side: Side, size: nat): Side {
    if side.index + 1 == size - 1 then Side(0, !side.cycle) else Side(side.index + 1, side.cycle)
  }

  function Stamped(trb: Trb, cycle: bool): Trb {
    Trb(trb.dataLow, trb.dataHigh, trb.status, WithCycle(trb.control, cycle))
  }

  // ----- the two operations on the shared memory ---------------------------------------------

  /** What `enqueueCommand` leaves in memory. */
  function EnqueueInto(trbs: seq<Trb>, side: Side, trb: Trb): (r: seq<Trb>)
    requires side.index < |trbs| - 1
    ensures |r| == |trbs|
  {
    var stored := trbs[side.index := Stamped(trb, side.cycle)];
    var link := |trbs| - 1;
    if side.index + 1 == link then
      stored[link := Trb(stored[link].dataLow, stored[link].dataHigh, stored[link].status,
                         Flipped(stored[link].control))]
    else stored
  }

  /** The index that `trbRingFetch` yields. */
  function FetchFrom(trbs: seq<Trb>, side: Side): (r: Option<nat>)
    requires side.index < |trbs| - 1
  {
    if Bit0(trbs[side.index].control) != side.cycle then None else Some(side.index)
  }

  // ----- both ends together ------------------------------------------------------------------

  datatype Ring = Ring(trbs: seq<Trb>, producer: Side, consumer: Side)

  function Size(r: Ring): nat {
    |r.trbs|
  }

  predicate Shaped(r: Ring) {
    Size(r) >= 2 && r.producer.index < Size(r) - 1 && r.consumer.index < Size(r) - 1
  }

  function Setup(size: nat, physical: nat): Ring
    requires size >= 2
  {
    Ring(seq(size, _ => ZERO_TRB)[size - 1 := Trb(physical, 0, 0, LINK_CONTROL)], Side(0, true), Side(0, true))
  }

  function Enqueue(r: Ring, trb: Trb): Ring
    requires Shaped(r)
  {
    Ring(EnqueueInto(r.trbs, r.producer, trb), Advance(r.producer, Size(r)), r.consumer)
  }

  /** The consumer moves on if it finds something. */
  function Fetch(r: Ring): Ring
    requires Shaped(r)
  {
    if FetchFrom(r.trbs, r.consumer).None? then r else Ring(r.trbs, r.producer, Advance(r.consumer, Size(r)))
  }

  /** Slots before the producer carry its cycle bit, later ones and the link the other; and the consumer is in the
      producer's lap and not ahead, or one lap behind and not behind more. */
  predicate Inv(r: Ring) {
    && Shaped(r)
    && (forall i | 0 <= i < Size(r) - 1 :: Bit0(r.trbs[i].control) == (r.producer.cycle == (i < r.producer.index)))
    && Bit0(r.trbs[Size(r) - 1].control) != r.producer.cycle
    && (if r.consumer.cycle == r.producer.cycle then r.consumer.index <= r.producer.index
        else r.consumer.index >= r.producer.index)
  }

  /** How many TRBs are outstanding. */
  function Outstanding(r: Ring): nat
    requires Inv(r)
  {
    if r.consumer.cycle == r.producer.cycle then r.producer.index - r.consumer.index
    else Size(r) - 1 - r.consumer.index + r.producer.index
  }

  function Wrap(r: Ring, i: nat): nat
    requires Size(r) > 0
  {
    if i < Size(r) - 1 then i else i - (Size(r) - 1)
  }

  /** The index of the `j`-th oldest outstanding TRB. */
  function Position(r: Ring, j: nat): (i: nat)
    requires Inv(r) && j < Outstanding(r)
    ensures i < Size(r) - 1
  {
    Wrap(r, r.consumer.index + j)
  }

  /** The outstanding TRBs, oldest first. */
  function Queue(r: Ring): (q: seq<Trb>)
    requires Inv(r)
    ensures |q| == Outstanding(r)
  {
    seq(Outstanding(r), j requires 0 <= j < Outstanding(r) => r.trbs[Position(r, j)])
  }

  // ----- the ring is a bounded queue ---------------------------------------------------------

  lemma SetupIsEmpty(size: nat, physical: nat)
    requires size >= 2
    ensures Inv(Setup(size, physical)) && Queue(Setup(size, physical)) == []
    ensures forall i | 0 <= i < size - 1 :: Setup(size, physical).trbs[i] == Trb(0, 0, 0, 0)
    ensures IsLink(Setup(size, physical).trbs[size - 1], physical)
  {
  }

  /** At most `size - 1` TRBs are outstanding, and they are at distinct places. */
  lemma OutstandingAreDistinct(r: Ring, i: nat, j: nat)
    requires Inv(r) && i < j < Outstanding(r)
    ensures Outstanding(r) <= Size(r) - 1
    ensures Position(r, i) != Position(r, j)
  {
  }

  /** With room in the ring, a TRB whose stored cycle bit is the producer's is appended to the queue. */
  lemma EnqueueAppends(r: Ring, trb: Trb)
    requires Inv(r) && Outstanding(r) < Size(r) - 1 && Fits(r, trb)
    ensures Inv(Enqueue(r, trb)) && Queue(Enqueue(r, trb)) == Queue(r) + [Stamped(trb, r.producer.cycle)]
  {
    var t := Enqueue(r, trb);
    assert Inv(t);
    assert Outstanding(t) == Outstanding(r) + 1;
    forall j: nat | j < Outstanding(t) ensures Queue(t)[j] == (Queue(r) + [Stamped(trb, r.producer.cycle)])[j] {
      if j < Outstanding(r) {
        assert Position(t, j) == Position(r, j) != r.producer.index;
      } else {
        assert Position(t, j) == r.producer.index;
      }
    }
  }

  /** `control |= cycle` leaves the producer's cycle bit: its cycle is 1, or the TRB comes with a clear bit. */
  predicate Fits(r: Ring, trb: Trb) {
    r.producer.cycle || !Bit0(trb.control)
  }

  /** With room in the ring, exactly these TRBs keep the cycle bits in order. */
  lemma EnqueueKeepsInvIff(r: Ring, trb: Trb)
    requires Inv(r) && Outstanding(r) < Size(r) - 1
    ensures Inv(Enqueue(r, trb)) <==> Fits(r, trb)
  {
    if Fits(r, trb) {
      EnqueueAppends(r, trb);
    } else {
      assert Bit0(Enqueue(r, trb).trbs[r.producer.index].control);
    }
  }

  /** The condition does fail: `enqueueCommand` stamps the caller's own TRB, and a caller that enqueues the same one
      again one lap later leaves it with the old cycle bit, so that the consumer does not find it. */
  lemma ReusedTrbIsHidden(size: nat, physical: nat, trb: Trb)
    requires size == 2
    ensures var r := Fetch(Enqueue(Setup(size, physical), trb));
            && Inv(r) && Queue(r) == []
            && !Inv(Enqueue(r, Stamped(trb, true)))
            && FetchFrom(Enqueue(r, Stamped(trb, true)).trbs, r.consumer).None?
  {
    var r0 := Setup(size, physical);
    SetupIsEmpty(size, physical);
    EnqueueAppends(r0, trb);
    FetchTakesOldest(Enqueue(r0, trb));
    var r := Fetch(Enqueue(r0, trb));
    assert !r.producer.cycle;
    EnqueueKeepsInvIff(r, Stamped(trb, true));
  }

  /** The consumer finds nothing exactly if nothing is outstanding, and otherwise takes the oldest TRB. */
  lemma FetchTakesOldest(r: Ring)
    requires Inv(r)
    ensures FetchFrom(r.trbs, r.consumer).None? <==> Queue(r) == []
    ensures Inv(Fetch(r))
    ensures Queue(r) != [] ==>
              && r.trbs[FetchFrom(r.trbs, r.consumer).value] == Queue(r)[0]
              && Queue(Fetch(r)) == Queue(r)[1..]
  {
    if Queue(r) != [] {
      var t := Fetch(r);
      assert Position(r, 0) == r.consumer.index;
      assert Outstanding(t) == Outstanding(r) - 1;
      forall j: nat | j < Outstanding(t) ensures Queue(t)[j] == Queue(r)[1..][j] {
        assert Position(t, j) == Position(r, j + 1);
      }
    }
  }

  /** One TRB too many: the oldest is overwritten, and the consumer then sees an empty ring. */
  lemma OverrunHidesRing(r: Ring, trb: Trb)
    requires Inv(r) && Outstanding(r) == Size(r) - 1 && Fits(r, trb)
    ensures Queue(r) != [] && FetchFrom(Enqueue(r, trb).trbs, Enqueue(r, trb).consumer).None?
  {
  }

  // ----- every interleaving ------------------------------------------------------------------

  datatype Step = Put(trb: Trb) | Get

  predicate Enabled(r: Ring, step: Step) {
    Inv(r) && (step.Put? ==> Outstanding(r) < Size(r) - 1 && Fits(r, step.trb))
  }

  function Take(r: Ring, step: Step): Ring
    requires Enabled(r, step)
  {
    match step case Put(trb) => Enqueue(r, trb) case Get => Fetch(r)
  }

  predicate Takes(r: Ring, step: Step, t: Ring) {
    Inv(r) ==> Enabled(r, step) && t == Take(r, step)
  }

  ghost predicate IsRun(run: seq<Ring>, steps: seq<Step>) {
    && |run| == |steps| + 1
    && (exists size: nat, physical: nat :: size >= 2 && run[0] == Setup(size, physical))
    && forall i | 0 <= i < |steps| :: Takes(run[i], steps[i], run[i + 1])
  }

  /** The TRB that a step puts into the ring, as it is stored. */
  function PutBy(r: Ring, step: Step): seq<Trb> {
    match step case Put(trb) => [Stamped(trb, r.producer.cycle)] case Get => []
  }

  /** The TRB that the consumer finds in a step. */
  function GotBy(r: Ring, step: Step): seq<Trb> {
    if step.Get? && Shaped(r) && FetchFrom(r.trbs, r.consumer).Some? then [r.trbs[r.consumer.index]] else []
  }

  /** All TRBs that were put in the first `n` steps. */
  function Sent(run: seq<Ring>, steps: seq<Step>, n: nat): seq<Trb>
    requires n <= |steps| <= |run|
  {
    if n == 0 then [] else Sent(run, steps, n - 1) + PutBy(run[n - 1], steps[n - 1])
  }

  /** All TRBs that the consumer found in the first `n` steps. */
  function Received(run: seq<Ring>, steps: seq<Step>, n: nat): seq<Trb>
    requires n <= |steps| <= |run|
  {
    if n == 0 then [] else Received(run, steps, n - 1) + GotBy(run[n - 1], steps[n - 1])
  }

  lemma StepIsFifo(r: Ring, step: Step)
    requires Enabled(r, step)
    ensures Inv(Take(r, step)) && Queue(r) + PutBy(r, step) == GotBy(r, step) + Queue(Take(r, step))
  {
    match step
    case Put(trb) => EnqueueAppends(r, trb);
    case Get => FetchTakesOldest(r);
  }

  lemma Regroup(sent: seq<Trb>, received: seq<Trb>, q: seq<Trb>, put: seq<Trb>, got: seq<Trb>, q': seq<Trb>)
    requires sent == received + q && q + put == got + q'
    ensures sent + put == received + got + q'
  {
    assert sent + put == received + (q + put);
  }

  /** Over every interleaving, what was put is what was received followed by what is outstanding: no TRB is lost,
      repeated or reordered. */
  lemma {:induction false} RingIsFifo(run: seq<Ring>, steps: seq<Step>, n: nat)
    requires IsRun(run, steps) && n <= |steps|
    ensures Inv(run[n]) && Sent(run, steps, n) == Received(run, steps, n) + Queue(run[n])
    decreases n
  {
    if n == 0 {
      var size: nat, physical: nat :| size >= 2 && run[0] == Setup(size, physical);
      SetupIsEmpty(size, physical);
    } else {
      RingIsFifo(run, steps, n - 1);
      var r, step := run[n - 1], steps[n - 1];
      assert Takes(r, step, run[n]);
      StepIsFifo(r, step);
      Regroup(Sent(run, steps, n - 1), Received(run, steps, n - 1), Queue(r),
              PutBy(r, step), GotBy(r, step), Queue(run[n]));
    }
  }

  // ----- what travels ------------------------------------------------------------------------

  /** `stored` has the contents of `trb`, and `cycle` in bit 0 of its control word. */
  predicate Carries(stored: Trb, trb: Trb, cycle: bool) {
    && stored.dataLow == trb.dataLow && stored.dataHigh == trb.dataHigh && stored.status == trb.status
    && stored.control / 2 == trb.control / 2 && (stored.control % 2 == 1 <==> cycle)
  }

  /** The TRBs that the producer was given in the first `n` steps, each with the producer's cycle at that time. */
  function Given(run: seq<Ring>, steps: seq<Step>, n: nat): seq<(Trb, bool)>
    requires n <= |steps| <= |run|
  {
    if n == 0 then []
    else
      Given(run, steps, n - 1)
      + match steps[n - 1] case Put(trb) => [(trb, run[n - 1].producer.cycle)] case Get => []
  }

  lemma {:induction false} SentCarriesGiven(run: seq<Ring>, steps: seq<Step>, n: nat)
    requires IsRun(run, steps) && n <= |steps|
    ensures |Sent(run, steps, n)| == |Given(run, steps, n)|
    ensures forall k | 0 <= k < |Sent(run, steps, n)| ::
              Carries(Sent(run, steps, n)[k], Given(run, steps, n)[k].0, Given(run, steps, n)[k].1)
  {
    if n > 0 {
      SentCarriesGiven(run, steps, n - 1);
      RingIsFifo(run, steps, n - 1);
      assert Takes(run[n - 1], steps[n - 1], run[n]);
      if steps[n - 1].Put? {
        StampedCarries(run[n - 1], steps[n - 1].trb);
      }
    }
  }

  lemma StampedCarries(r: Ring, trb: Trb)
    requires Fits(r, trb)
    ensures Carries(Stamped(trb, r.producer.cycle), trb, r.producer.cycle)
  {
  }

  /** Over every interleaving, the `k`-th TRB that the consumer finds is the `k`-th that the producer was given: its
      data and status are the same, and so is its control word except for bit 0, which is the producer's cycle. */
  lemma ReceivedIsGiven(run: seq<Ring>, steps: seq<Step>, n: nat, k: nat)
    requires IsRun(run, steps) && n <= |steps| && k < |Received(run, steps, n)|
    ensures k < |Given(run, steps, n)|
    ensures Carries(Received(run, steps, n)[k], Given(run, steps, n)[k].0, Given(run, steps, n)[k].1)
  {
    RingIsFifo(run, steps, n);
    SentCarriesGiven(run, steps, n);
    assert Sent(run, steps, n)[k] == Received(run, steps, n)[k];
  }

  /** The entry is a link (type 6) with the toggle bit to this address. */
  predicate IsLink(trb: Trb, physical: nat) {
    && trb.dataLow == physical && trb.dataHigh == 0 && trb.status == 0
    && trb.control / 1024 == 6 && trb.control % 1024 / 2 == 1
  }

  /** Over every interleaving, the last entry remains the link to the start of the ring. */
  lemma {:induction false} LinkStays(run: seq<Ring>, steps: seq<Step>, n: nat, size: nat, physical: nat)
    requires IsRun(run, steps) && n <= |steps| && size >= 2 && run[0] == Setup(size, physical)
    ensures Size(run[n]) == size && IsLink(run[n].trbs[size - 1], physical)
  {
    if n > 0 {
      LinkStays(run, steps, n - 1, size, physical);
      RingIsFifo(run, steps, n - 1);
      assert Takes(run[n - 1], steps[n - 1], run[n]);
      StepKeepsLink(run[n - 1], steps[n - 1], physical);
    }
  }

  lemma StepKeepsLink(r: Ring, step: Step, physical: nat)
    requires Enabled(r, step) && IsLink(r.trbs[Size(r) - 1], physical)
    ensures Size(Take(r, step)) == Size(r) && IsLink(Take(r, step).trbs[Size(r) - 1], physical)
  {
  }

  // ----- in place ----------------------------------------------------------------------------

  /** One end's view of a ring; two ends share the array `trbs`. */
  class Endpoint {
    const trbs: array<Trb>
    const physical: nat
    var enqueue: nat
    var dequeue: nat
    var cycle: bool

    ghost predicate Valid()
      reads this
    {
      trbs.Length >= 2 && enqueue < trbs.Length - 1 && dequeue < trbs.Length - 1
    }

    /** `setupTrbRing`, on zeroed memory. */
    constructor (memory: array<Trb>, physical: nat)
      requires memory.Length >= 2 && forall i | 0 <= i < memory.Length :: memory[i] == ZERO_TRB
      modifies memory
      ensures Valid() && trbs == memory && this.physical == physical
      ensures memory[..] == Setup(memory.Length, physical).trbs
      ensures Side(enqueue, cycle) == Setup(memory.Length, physical).producer
      ensures Side(dequeue, cycle) == Setup(memory.Length, physical).consumer
    {
      trbs, this.physical := memory, physical;
      cycle, enqueue, dequeue := true, 0, 0;
      new;
      memory[memory.Length - 1] := Trb(physical, 0, 0, LINK_CONTROL);
    }

    /** `enqueueCommand`: also yields the address of the stored TRB. */
    method EnqueueCommand(trb: Trb) returns (address: nat)
      requires Valid()
      modifies trbs, `enqueue, `cycle
      ensures Valid() && address == physical + 16 * old(enqueue)
      ensures trbs[..] == EnqueueInto(old(trbs[..]), old(Side(enqueue, cycle)), trb)
      ensures Side(enqueue, cycle) == Advance(old(Side(enqueue, cycle)), trbs.Length)
    {
      trbs[enqueue] := Stamped(trb, cycle);
      address := physical + 16 * enqueue;
      enqueue := enqueue + 1;
      if enqueue == trbs.Length - 1 {
        var link := trbs[enqueue];
        trbs[enqueue] := Trb(link.dataLow, link.dataHigh, link.status, Flipped(link.control));
        cycle := !cycle;
        enqueue := 0;
      }
    }

    /** `trbRingFetch`: the index of the TRB found, if any. */
    method TrbRingFetch() returns (index: Option<nat>)
      requires Valid()
      modifies `dequeue, `cycle
      ensures Valid() && index == FetchFrom(trbs[..], old(Side(dequeue, cycle)))
      ensures Side(dequeue, cycle)
           == if index.None? then old(Side(dequeue, cycle)) else Advance(old(Side(dequeue, cycle)), trbs.Length)
    {
      if Bit0(trbs[dequeue].control) != cycle {
        return None;
      }
      index := Some(dequeue);
      dequeue := dequeue + 1;
      if dequeue == trbs.Length - 1 {
        dequeue := 0;
        cycle := !cycle;
      }
    }
  }
}
