/** irq_mngr.vhdl: interrupt lines are synchronised, their rises latched through a
    mask, and cleared by acknowledgement. */
module IrqManager {
  import opened Pins
  import opened Wishbone

  /** The inputs of one clock. */
  datatype In = In(irqport: Word, bus: Bus)

  // What the registers hold before clock `t`, said in terms of the inputs of
  // earlier clocks. Line and bit numbers run from 0 to 15.

  /** The line `k` as sampled `back` clocks ago; low before the reset. */
  predicate Sampled(ins: seq<In>, t: int, back: nat, k: nat)
    requires t <= |ins| && back >= 1 && k < 16
  {
    t - back >= 0 && ins[t - back].irqport[k]
  }

  /** The mask bit last written; clear after reset. */
  predicate Masked(ins: seq<In>, t: nat, k: nat)
    requires t <= |ins| && k < 16
  {
    t > 0 &&
    var b := ins[t - 1].bus;
    if Written(b) && Register(b) == 0 then b.writedata[k] else Masked(ins, t - 1, k)
  }

  /** The synchronised line rises, unmasked, at clock `t`. */
  predicate Rises(ins: seq<In>, t: nat, k: nat)
    requires t <= |ins| && k < 16
  {
    Sampled(ins, t, 1, k) && !Sampled(ins, t, 2, k) && Masked(ins, t, k)
  }

  /** An acknowledgement of the line takes effect at clock `t`: it was written in
      the clock before. */
  predicate Acknowledged(ins: seq<In>, t: nat, k: nat)
    requires t <= |ins| && k < 16
  {
    t > 0 && Written(ins[t - 1].bus) && Register(ins[t - 1].bus) == 1 && ins[t - 1].bus.writedata[k]
  }

  /** Line `k` is pending after `t` clocks: it rose at one of them, and has not been
      acknowledged at that one or later. */
  ghost predicate Pending(ins: seq<In>, t: nat, k: nat)
    requires t <= |ins| && k < 16
  {
    exists r :: 0 <= r < t && Rises(ins, r, k) && Quiet(ins, r, t, k)
  }

  ghost predicate Quiet(ins: seq<In>, from: nat, t: nat, k: nat)
    requires t <= |ins| && k < 16
  {
    forall u :: from <= u < t ==> !Acknowledged(ins, u, k)
  }

  /** A rise, an acknowledgement and the mask in terms of the lines and of the bus: the
      mask is the last word written to register 0, and register 1 acknowledges. */
  lemma RisesWhen(ins: seq<In>, t: nat, k: nat)
    requires t <= |ins| && k < 16
    ensures Rises(ins, t, k) <==>
            t >= 1 && ins[t - 1].irqport[k] && (t >= 2 ==> !ins[t - 2].irqport[k]) && Masked(ins, t, k)
    ensures Acknowledged(ins, t, k) <==>
            t >= 1 && var b := ins[t - 1].bus;
                      b.strobe && b.cycle && b.writing && b.address % 4 == 1 && b.writedata[k]
  {}

  lemma {:induction false} MaskedWhen(ins: seq<In>, t: nat, k: nat)
    requires t <= |ins| && k < 16
    ensures Masked(ins, t, k) <==>
            exists u :: 0 <= u < t && SetsMask(ins[u].bus) && ins[u].bus.writedata[k] &&
                        forall v :: u < v < t ==> !SetsMask(ins[v].bus)
  {
    if t == 0 {
    } else {
      MaskedWhen(ins, t - 1, k);
    }
  }

  predicate SetsMask(b: Bus) {
    b.strobe && b.cycle && b.writing && b.address % 4 == 0
  }

  /** The latch equation: an acknowledgement wins over a rise at the same clock. */
  lemma PendingStep(ins: seq<In>, t: nat, k: nat)
    requires t < |ins| && k < 16
    ensures Pending(ins, t + 1, k) <==> !Acknowledged(ins, t, k) && (Pending(ins, t, k) || Rises(ins, t, k))
  {
    if !Acknowledged(ins, t, k) && Pending(ins, t, k) {
      var r :| 0 <= r < t && Rises(ins, r, k) && Quiet(ins, r, t, k);
      assert Quiet(ins, r, t + 1, k);
    }
    if !Acknowledged(ins, t, k) && Rises(ins, t, k) {
      assert Quiet(ins, t, t + 1, k);
    }
    if Pending(ins, t + 1, k) {
      var r :| 0 <= r < t + 1 && Rises(ins, r, k) && Quiet(ins, r, t + 1, k);
      assert !Acknowledged(ins, t, k);
      if r < t {
        assert Quiet(ins, r, t, k);
      }
    }
  }

  /** Later inputs do not change what has been. */
  lemma {:induction false} MaskedPast(ins: seq<In>, i: In, t: nat, k: nat)
    requires t <= |ins| && k < 16
    ensures Masked(ins + [i], t, k) == Masked(ins, t, k)
  {
    if t == 0 {
    } else {
      MaskedPast(ins, i, t - 1, k);
    }
  }

  lemma PendingPast(ins: seq<In>, i: In, t: nat, k: nat)
    requires t <= |ins| && k < 16
    ensures Rises(ins + [i], t, k) == Rises(ins, t, k)
    ensures Acknowledged(ins + [i], t, k) == Acknowledged(ins, t, k)
    ensures Pending(ins + [i], t, k) == Pending(ins, t, k)
  {
    MaskedPast(ins, i, t, k);
    forall r | 0 <= r < t
      ensures Rises(ins + [i], r, k) == Rises(ins, r, k)
      ensures Quiet(ins + [i], r, t, k) == Quiet(ins, r, t, k)
    {
      MaskedPast(ins, i, r, k);
      forall u | r <= u < t
        ensures Acknowledged(ins + [i], u, k) == Acknowledged(ins, u, k)
      {}
    }
  }

  class IrqManager {
    var irqR: Word
    var irqOld: Word
    var irqPend: Word
    var irqAck: Word
    var irqMask: Word
    ghost var ins: seq<In>  // every clock since reset

    ghost predicate Valid()
      reads this
    {
      var t := |ins|;
      forall k :: 0 <= k < 16 ==>
        irqR[k] == Sampled(ins, t, 1, k) &&
        irqOld[k] == Sampled(ins, t, 2, k) &&
        irqMask[k] == Masked(ins, t, k) &&
        irqAck[k] == Acknowledged(ins, t, k) &&
        irqPend[k] == Pending(ins, t, k)
    }

    constructor ()
      ensures Valid() && ins == []
    {
      irqR, irqOld, irqPend, irqAck, irqMask := ZERO, ZERO, ZERO, ZERO, ZERO;
      ins := [];
    }

    method Clock(irqport: Word, bus: Bus)
      requires Valid()
      modifies this
      ensures Valid() && ins == old(ins) + [In(irqport, bus)]
    {
      Clocked(In(irqport, bus));
      hide Pending, Masked, Rises, Acknowledged, Sampled;
      Update(irqport, bus);
      ins := ins + [In(irqport, bus)];
    }

    /** The processes, each on the old signals. */
    method Update(irqport: Word, bus: Bus)
      modifies `irqR, `irqOld, `irqPend, `irqAck, `irqMask
      ensures irqR == irqport && irqOld == old(irqR)
      ensures forall k :: 0 <= k < 16 ==>
                irqPend[k] == (!old(irqAck[k]) &&
                               (old(irqPend[k]) || (old(irqR[k]) && !old(irqOld[k]) && old(irqMask[k]))))
      ensures forall k :: 0 <= k < 16 ==>
                irqAck[k] == (Written(bus) && Register(bus) == 1 && bus.writedata[k])
      ensures irqMask == if Written(bus) && Register(bus) == 0 then bus.writedata else old(irqMask)
    {
      var ack, pend, r, before, mask := irqAck, irqPend, irqR, irqOld, irqMask;
      irqOld := irqR;
      irqR := irqport;
      irqPend := seq(16, k requires 0 <= k < 16 => !ack[k] && (pend[k] || (r[k] && !before[k] && mask[k])));
      irqAck := ZERO;
      if Written(bus) {
        if Register(bus) == 0 {
          irqMask := bus.writedata;
        } else if Register(bus) == 1 {
          irqAck := bus.writedata;
        }
      }
    }

    /** One clock more, line by line. */
    lemma Clocked(i: In)
      requires Valid()
      ensures var ins', t := ins + [i], |ins|;
              forall k :: 0 <= k < 16 ==>
                Sampled(ins', t + 1, 1, k) == i.irqport[k] && Sampled(ins', t + 1, 2, k) == irqR[k] &&
                Pending(ins', t + 1, k) == (!irqAck[k] && (irqPend[k] || (irqR[k] && !irqOld[k] && irqMask[k]))) &&
                Masked(ins', t + 1, k) ==
                (if Written(i.bus) && Register(i.bus) == 0 then i.bus.writedata[k] else irqMask[k]) &&
                Acknowledged(ins', t + 1, k) ==
                (Written(i.bus) && Register(i.bus) == 1 && i.bus.writedata[k])
    {
      var ins', t := ins + [i], |ins|;
      forall k | 0 <= k < 16
        ensures Pending(ins', t + 1, k) == (!irqAck[k] && (irqPend[k] || (irqR[k] && !irqOld[k] && irqMask[k])))
      {
        PendingPast(ins, i, t, k);
        PendingStep(ins', t, k);
      }
      forall k | 0 <= k < 16
        ensures Masked(ins', t + 1, k) ==
                if Written(i.bus) && Register(i.bus) == 0 then i.bus.writedata[k] else irqMask[k]
      {
        MaskedPast(ins, i, t, k);
      }
    }

    /** The request line is at its active level while any line is pending, unless the
        reset is on. */
    method Irq(level: bool, reset: bool) returns (irq: bool)
      requires Valid()
      ensures irq == level <==> !reset && exists k :: 0 <= k < 16 && Pending(ins, |ins|, k)
    {
      var any := irqPend != ZERO;
      if any {
        var k :| 0 <= k < 16 && irqPend[k] != ZERO[k];
        assert Pending(ins, |ins|, k);
      }
      irq := if any && !reset then level else !level;
    }
  }
}
