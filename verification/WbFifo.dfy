/** wb_fifo.vhdl: the queue as a bus device. The registers are a function of the
    inputs of every clock since reset; what a reader gets is a function of them. */
module WbFifo {
  import opened Wrappers
  import opened Queue
  import opened Fifo
  import opened Wishbone

  /** Register 2 of 4 is the head of the queue. */
  predicate ReadsData(b: Bus) {
    Selected(b) && Register(b) == 2
  }

  /** What the device puts on the data bus. */
  datatype Answer<T> = Id | Count(n: nat) | Data(d: T) | Bad

  /** The inputs of one clock. */
  datatype In<T> = In(bus: Bus, wrEn: bool, din: T)

  /** `rd_en` is registered, so it reaches the queue one clock after the read. */
  predicate Pending<T>(ins: seq<In<T>>) {
    ins != [] && ReadsData(ins[|ins| - 1].bus)
  }

  /** What the queue has been asked, clock by clock. */
  function Requests<T>(ins: seq<In<T>>): seq<Request<T>> {
    if ins == [] then [] else
      var before, i := ins[..|ins| - 1], ins[|ins| - 1];
      Requests(before) + [Request(Pending(before), i.wrEn, i.din)]
  }

  function QueueAfter<T>(cap: nat, ins: seq<In<T>>): Queue<T> {
    Run(cap, Requests(ins))
  }

  /** The words the queue has taken, and how many it has dropped after a read. */
  function Accepted<T>(cap: nat, ins: seq<In<T>>): seq<T> {
    Taken(cap, Requests(ins))
  }

  function Dropped<T>(cap: nat, ins: seq<In<T>>): nat {
    Popped(cap, Requests(ins))
  }

  /** For each data read of the run, which accepted word it was answered with, by
      its position among them; nothing if the queue was empty. */
  function Positions<T>(cap: nat, ins: seq<In<T>>): seq<Option<nat>> {
    if ins == [] then [] else
      var before := ins[..|ins| - 1];
      Positions(cap, before) +
      if !Pending(ins) then []
      else if QueueAfter(cap, before).items == [] then [None]
      else [Some(Dropped(cap, before))]
  }

  /** The values those reads returned. */
  function Values<T>(cap: nat, zero: T, ins: seq<In<T>>): seq<T> {
    if ins == [] then [] else
      var before := ins[..|ins| - 1];
      Values(cap, zero, before) +
      if Pending(ins) then [Head(QueueAfter(cap, before), zero)] else []
  }

  function Head<T>(q: Queue<T>, zero: T): T {
    if q.items == [] then zero else q.items[0]
  }

  /** The reader takes the accepted words one by one, skipping and repeating none. */
  predicate ExactlyOnce<T>(cap: nat, ins: seq<In<T>>) {
    var ps := Positions(cap, ins);
    forall i :: 0 <= i < |ps| ==> ps[i] == Some(i)
  }

  /** What a reader has to respect: read only a queue that is not empty, and never
      in two clocks running. */
  predicate Disciplined<T>(cap: nat, ins: seq<In<T>>) {
    ins != [] ==>
      var before := ins[..|ins| - 1];
      Disciplined(cap, before) &&
      (Pending(ins) ==> QueueAfter(cap, before).items != [] && !Pending(before))
  }

  lemma StepQueue<T>(cap: nat, ins: seq<In<T>>)
    requires ins != []
    ensures var before, i := ins[..|ins| - 1], ins[|ins| - 1];
            var q, r := QueueAfter(cap, before), Request(Pending(before), i.wrEn, i.din);
            QueueAfter(cap, ins) == Next(cap, q, r) &&
            Accepted(cap, ins) == Accepted(cap, before) + (if Takes(cap, q, r) then [i.din] else []) &&
            Dropped(cap, ins) == Dropped(cap, before) + (if Pops(q, r) then 1 else 0)
  {
    var rs := Requests(ins);
    assert rs[..|rs| - 1] == Requests(ins[..|ins| - 1]);
  }

  /** In a disciplined run every pending read finds its word still at the head,
      and the reads made are the words dropped plus the one pending. */
  lemma {:induction false} ReadsKeepStep<T>(cap: nat, ins: seq<In<T>>)
    requires Disciplined(cap, ins)
    ensures Pending(ins) ==> QueueAfter(cap, ins).items != []
    ensures |Positions(cap, ins)| == Dropped(cap, ins) + (if Pending(ins) then 1 else 0)
  {
    if ins == [] {
    } else {
      ReadsKeepStep(cap, ins[..|ins| - 1]);
      StepQueue(cap, ins);
    }
  }

  /** Exactly-once delivery holds for the disciplined runs and for no others. */
  lemma {:induction false} ExactlyOnceIffDisciplined<T>(cap: nat, ins: seq<In<T>>)
    ensures ExactlyOnce(cap, ins) <==> Disciplined(cap, ins)
  {
    if ins == [] {
    } else {
      var before := ins[..|ins| - 1];
      var ps, ps' := Positions(cap, before), Positions(cap, ins);
      ExactlyOnceIffDisciplined(cap, before);
      assert ps == ps'[..|ps|];
      if Disciplined(cap, before) {
        ReadsKeepStep(cap, before);
      }
      assert forall i :: 0 <= i < |ps| ==> ps'[i] == ps[i];
      if Pending(ins) {
        assert ps'[|ps|] == if QueueAfter(cap, before).items == [] then None else Some(Dropped(cap, before));
      }
    }
  }

  /** Two reads in clocks running, the first of a queue that is not empty, return the
      same word. */
  lemma ReadTwice<T>(cap: nat, zero: T, ins: seq<In<T>>, i: In<T>, j: In<T>)
    requires QueueAfter(cap, ins).items != [] && !Pending(ins) && ReadsData(i.bus) && ReadsData(j.bus)
    ensures var word := QueueAfter(cap, ins).items[0];
            Values(cap, zero, ins + [i] + [j]) == Values(cap, zero, ins) + [word, word]
  {
    var once := ins + [i];
    var twice := once + [j];
    assert once[..|once| - 1] == ins && twice[..|twice| - 1] == once;
    StepQueue(cap, once);
    hide Run, Requests;
    assert Values(cap, zero, once) == Values(cap, zero, ins) + [QueueAfter(cap, ins).items[0]];
  }

  /** As it does after the first write since reset. */
  lemma FirstWordTwice<T>(cap: nat, zero: T, w: T, idle: Bus, read: Bus)
    requires cap >= 1 && !ReadsData(idle) && ReadsData(read)
    ensures Values(cap, zero, [In(idle, true, w), In(read, false, zero), In(read, false, zero)]) == [w, w]
  {
    var ins := [In(idle, true, w)];
    assert ins[..0] == [];
    StepQueue(cap, ins);
    assert QueueAfter(cap, ins).items == [w];
    var i := In(read, false, zero);
    assert ins + [i] + [i] == [In(idle, true, w), i, i];
    ReadTwice(cap, zero, ins, i, i);
    assert Values(cap, zero, ins) == [];
  }

  /** The answer to a read is the accepted word at its position. */
  lemma {:induction false} ValueAtPosition<T>(cap: nat, zero: T, ins: seq<In<T>>, i: nat)
    requires i < |Positions(cap, ins)|
    ensures |Values(cap, zero, ins)| == |Positions(cap, ins)|
    ensures match Positions(cap, ins)[i]
            case None => Values(cap, zero, ins)[i] == zero
            case Some(p) => p < |Accepted(cap, ins)| && Values(cap, zero, ins)[i] == Accepted(cap, ins)[p]
  {
    var before := ins[..|ins| - 1];
    StepQueue(cap, ins);
    ValuesPerPosition(cap, zero, before);
    if i < |Positions(cap, before)| {
      ValueAtPosition(cap, zero, before, i);
    } else {
      Conservation(cap, Requests(before));
    }
  }

  lemma {:induction false} ValuesPerPosition<T>(cap: nat, zero: T, ins: seq<In<T>>)
    ensures |Values(cap, zero, ins)| == |Positions(cap, ins)|
  {
    if ins == [] {
    } else {
      ValuesPerPosition(cap, zero, ins[..|ins| - 1]);
    }
  }

  /** The words the reader has not been given yet. */
  function Unread<T>(cap: nat, ins: seq<In<T>>): seq<T> {
    var q := QueueAfter(cap, ins).items;
    if Pending(ins) && q != [] then q[1..] else q
  }

  /** Delivery: in a disciplined run the values read, followed by the words not
      read yet, are the words accepted, in order, however writes interleave. */
  lemma Delivery<T>(cap: nat, zero: T, ins: seq<In<T>>)
    requires Disciplined(cap, ins)
    ensures Values(cap, zero, ins) + Unread(cap, ins) == Accepted(cap, ins)
  {
    hide Disciplined, Values, Positions, Run, Taken, Popped, Requests;
    ReadsKeepStep(cap, ins);
    ValuesArePrefix(cap, zero, ins);
    Conservation(cap, Requests(ins));
  }

  lemma ValuesArePrefix<T>(cap: nat, zero: T, ins: seq<In<T>>)
    requires Disciplined(cap, ins)
    ensures var n := |Positions(cap, ins)|;
            n <= |Accepted(cap, ins)| && Values(cap, zero, ins) == Accepted(cap, ins)[..n]
  {
    hide Disciplined, Values, Positions, Accepted, QueueAfter, Dropped;
    var n := |Positions(cap, ins)|;
    ExactlyOnceIffDisciplined(cap, ins);
    ValuesPerPosition(cap, zero, ins);
    forall i | 0 <= i < n
      ensures i < |Accepted(cap, ins)| && Values(cap, zero, ins)[i] == Accepted(cap, ins)[i]
    {
      ValueAtPosition(cap, zero, ins, i);
    }
    if n > 0 {
      ValueAtPosition(cap, zero, ins, n - 1);
    }
  }

  /** The words offered to the queue. */
  function Offered<T>(ins: seq<In<T>>): seq<T> {
    if ins == [] then [] else
      var i := ins[|ins| - 1];
      Offered(ins[..|ins| - 1]) + if i.wrEn then [i.din] else []
  }

  /** Nothing is offered to a queue that is full and not being read. */
  predicate NoOverflow<T>(cap: nat, ins: seq<In<T>>) {
    ins != [] ==>
      var before := ins[..|ins| - 1];
      NoOverflow(cap, before) &&
      (ins[|ins| - 1].wrEn && |QueueAfter(cap, before).items| >= cap ==> Pending(before))
  }

  /** Then nothing offered is lost. */
  lemma {:induction false} OfferedAccepted<T>(cap: nat, ins: seq<In<T>>)
    requires Disciplined(cap, ins) && NoOverflow(cap, ins)
    ensures Accepted(cap, ins) == Offered(ins)
  {
    if ins == [] {
    } else {
      var before := ins[..|ins| - 1];
      OfferedAccepted(cap, before);
      ReadsKeepStep(cap, before);
      StepQueue(cap, ins);
    }
  }

  /** With no reads the queue fills with the first words offered. */
  lemma {:induction false} Unattended<T>(cap: nat, ins: seq<In<T>>)
    requires forall i :: 0 <= i < |ins| ==> !ReadsData(ins[i].bus)
    ensures var all := Offered(ins);
            QueueAfter(cap, ins).items == if |all| <= cap then all else all[..cap]
  {
    if ins == [] {
    } else {
      Unattended(cap, ins[..|ins| - 1]);
      StepQueue(cap, ins);
    }
  }

  // ---- The interrupt ----

  /** The top bit of the occupancy counter: at least half full but not full,
      the counter of a full queue being 0. */
  predicate HalfFull<T>(cap: nat, ins: seq<In<T>>) {
    var n := |QueueAfter(cap, ins).items|;
    cap <= 2 * n && n < cap
  }

  /** The line is up for the one clock after the occupancy enters that range. */
  predicate Interrupt<T>(cap: nat, ins: seq<In<T>>) {
    |ins| >= 2 && HalfFull(cap, ins[..|ins| - 1]) && !HalfFull(cap, ins[..|ins| - 2])
  }

  lemma InterruptStep<T>(cap: nat, ins: seq<In<T>>, i: In<T>)
    ensures Interrupt(cap, ins + [i]) ==
            (ins != [] && HalfFull(cap, ins) && !HalfFull(cap, ins[..|ins| - 1]))
  {
    var ins' := ins + [i];
    assert ins'[..|ins'| - 1] == ins;
    if ins != [] {
      assert ins'[..|ins'| - 2] == ins[..|ins| - 1];
    }
  }

  /** The occupancy as the device reports it: a full queue reads as 0. */
  function Reported<T>(cap: nat, q: Queue<T>): nat {
    if |q.items| == cap then 0 else |q.items|
  }

  /** The data bus after a clock in which `bus` was seen, `answer` being on it
      before. */
  function Reply<T>(bus: Bus, answer: Answer<T>, count: nat, dout: T): Answer<T> {
    if !Selected(bus) then answer else
    match Register(bus)
    case 0 => Id
    case 1 => Count(count)
    case 2 => Data(dout)
    case _ => Bad
  }

  function AnswerAfter<T>(cap: nat, zero: T, reset: Answer<T>, ins: seq<In<T>>): Answer<T> {
    if ins == [] then reset else
      var before := ins[..|ins| - 1];
      var q := QueueAfter(cap, before);
      Reply(ins[|ins| - 1].bus, AnswerAfter(cap, zero, reset, before), Reported(cap, q), Head(q, zero))
  }

  lemma AnswerStep<T>(cap: nat, zero: T, reset: Answer<T>, ins: seq<In<T>>, i: In<T>)
    ensures var q := QueueAfter(cap, ins);
            AnswerAfter(cap, zero, reset, ins + [i]) ==
            Reply(i.bus, AnswerAfter(cap, zero, reset, ins), Reported(cap, q), Head(q, zero))
    ensures Requests(ins + [i]) == Requests(ins) + [Request(Pending(ins), i.wrEn, i.din)]
    ensures Pending(ins + [i]) == ReadsData(i.bus)
  {
    assert (ins + [i])[..|ins|] == ins;
  }

  /** The four registers: a read puts the identity, the occupancy (0 when full), the head
      of the queue (or zero) or the error pattern on the bus, by the two low address bits,
      and a clock without a read leaves the bus alone. */
  lemma BusAnswers<T>(cap: nat, zero: T, reset: Answer<T>, ins: seq<In<T>>, i: In<T>)
    ensures var words := QueueAfter(cap, ins).items;
            var after := AnswerAfter(cap, zero, reset, ins + [i]);
            if i.bus.strobe && i.bus.cycle && !i.bus.writing then
              (i.bus.address % 4 == 0 ==> after == Id) &&
              (i.bus.address % 4 == 1 ==> after == Count(if |words| == cap then 0 else |words|)) &&
              (i.bus.address % 4 == 2 ==> after == Data(if words == [] then zero else words[0])) &&
              (i.bus.address % 4 == 3 ==> after == Bad)
            else
              after == AnswerAfter(cap, zero, reset, ins)
    ensures Pending(ins + [i]) ==
            (i.bus.strobe && i.bus.cycle && !i.bus.writing && i.bus.address % 4 == 2)
  {
    AnswerStep(cap, zero, reset, ins, i);
  }

  /** Writes alone, by a bus that is not reading data. */
  function Filling<T>(idle: Bus, w: T, k: nat): seq<In<T>> {
    seq(k, _ => In(idle, true, w))
  }

  lemma {:induction false} FillingOffers<T>(idle: Bus, w: T, k: nat)
    ensures Offered(Filling(idle, w, k)) == seq(k, _ => w)
  {
    if k == 0 {
    } else {
      FillingOffers(idle, w, k - 1);
      assert Filling(idle, w, k)[..k - 1] == Filling(idle, w, k - 1);
    }
  }

  /** A queue that is only written interrupts once: in the clock after it has become
      half full. */
  lemma InterruptsWhenHalfFull<T>(cap: nat, idle: Bus, w: T, k: nat)
    requires cap >= 2 && !(idle.strobe && idle.cycle && !idle.writing && idle.address % 4 == 2)
    ensures |QueueAfter(cap, Filling(idle, w, k)).items| == if k < cap then k else cap
    ensures Interrupt(cap, Filling(idle, w, k)) <==> k == (cap + 1) / 2 + 1
  {
    hide QueueAfter, Offered;
    FillingOffers(idle, w, k);
    Unattended(cap, Filling(idle, w, k));
    if k >= 2 {
      assert Filling(idle, w, k)[..k - 1] == Filling(idle, w, k - 1);
      assert Filling(idle, w, k)[..k - 2] == Filling(idle, w, k - 2);
      FillingOffers(idle, w, k - 1);
      FillingOffers(idle, w, k - 2);
      Unattended(cap, Filling(idle, w, k - 1));
      Unattended(cap, Filling(idle, w, k - 2));
    }
  }

  /** The data bus as the reader finds it after each of its data reads. */
  function Seen<T>(cap: nat, zero: T, reset: Answer<T>, ins: seq<In<T>>): seq<Answer<T>> {
    if ins == [] then [] else
      Seen(cap, zero, reset, ins[..|ins| - 1]) +
      if Pending(ins) then [AnswerAfter(cap, zero, reset, ins)] else []
  }

  /** What is on the bus then is the value read. */
  lemma {:induction false} SeenAreValues<T>(cap: nat, zero: T, reset: Answer<T>, ins: seq<In<T>>)
    ensures var seen, values := Seen(cap, zero, reset, ins), Values(cap, zero, ins);
            |seen| == |values| && forall i :: 0 <= i < |seen| ==> seen[i] == Data(values[i])
  {
    if ins == [] {
    } else {
      SeenAreValues(cap, zero, reset, ins[..|ins| - 1]);
    }
  }

  class WbFifo<T(!new)> {
    const fifo: FifoSyn<T>
    var rdEn: bool
    var readdata: Answer<T>
    var irqport: bool
    var previousHalf: bool
    ghost const atReset: Answer<T>
    ghost var ins: seq<In<T>>  // every clock since reset

    ghost function Cap(): nat
    {
      fifo.Capacity()
    }

    /** The registers of the bus process. */
    ghost predicate Registers(cap: nat)
      reads `rdEn, `readdata, `irqport, `previousHalf, `ins
    {
      rdEn == Pending(ins) &&
      readdata == AnswerAfter(cap, fifo.zero, atReset, ins) &&
      irqport == Interrupt(cap, ins) &&
      previousHalf == (ins == [] || HalfFull(cap, ins[..|ins| - 1]))
    }

    ghost predicate Valid()
      reads this, fifo, fifo.reg
    {
      fifo.Valid() && fifo.requests == Requests(ins) && Registers(Cap())
    }

    constructor (addrdepth: nat, zero: T)
      requires addrdepth >= 1
      ensures Valid() && ins == [] && fresh(fifo) && fresh(fifo.reg)
      ensures fifo.addrdepth == addrdepth && fifo.zero == zero
    {
      fifo := new FifoSyn(addrdepth, zero);
      rdEn, irqport, previousHalf := false, false, true;
      readdata, atReset := Id, Id;
      ins := [];
    }

    predicate Half()
      reads this, fifo, fifo.reg
      requires Valid()
      ensures Half() == HalfFull(Cap(), ins)
    {
      2 * fifo.DataCount() >= fifo.reg.Length
    }

    /** A rising edge of the clock. Both processes see the old signals, so the
        queue is given the `rd_en` of the clock before. */
    method Clock(bus: Bus, wrEn: bool, din: T)
      requires Valid()
      modifies this, fifo, fifo.reg
      ensures Valid() && fifo.reg == old(fifo.reg)
      ensures ins == old(ins) + [In(bus, wrEn, din)]
      ensures var words := old(QueueAfter(Cap(), ins).items);
              if bus.strobe && bus.cycle && !bus.writing then
                (bus.address % 4 == 0 ==> readdata == Id) &&
                (bus.address % 4 == 1 ==> readdata == Count(if |words| == Cap() then 0 else |words|)) &&
                (bus.address % 4 == 2 ==> readdata == Data(if words == [] then fifo.zero else words[0])) &&
                (bus.address % 4 == 3 ==> readdata == Bad)
              else
                readdata == old(readdata)
      ensures rdEn == (bus.strobe && bus.cycle && !bus.writing && bus.address % 4 == 2)
    {
      hide Run, Requests, Reply, ReadsData, AnswerAfter, Pending, Next, Holds, HalfFull;
      AnswerStep(Cap(), fifo.zero, atReset, ins, In(bus, wrEn, din));
      BusAnswers(Cap(), fifo.zero, atReset, ins, In(bus, wrEn, din));
      var half := Half();
      var dout := fifo.Dout();
      var count := fifo.DataCount();
      fifo.Clock(rdEn, wrEn, din);
      BusProcess(bus, half, dout, count, In(bus, wrEn, din));
    }

    method BusProcess(bus: Bus, half: bool, dout: T, count: nat, ghost i: In<T>)
      requires Registers(Cap()) && i.bus == bus
      requires half == HalfFull(Cap(), ins)
      requires dout == Head(QueueAfter(Cap(), ins), fifo.zero)
      requires count == Reported(Cap(), QueueAfter(Cap(), ins))
      modifies `rdEn, `readdata, `irqport, `previousHalf, `ins
      ensures Registers(Cap()) && ins == old(ins) + [i]
    {
      hide AnswerAfter, Interrupt, HalfFull, QueueAfter, Requests, Pending, Pow2, Head, Reported;
      hide Reply, ReadsData, Selected;
      InterruptStep(Cap(), ins, i);
      AnswerStep(Cap(), fifo.zero, atReset, ins, i);
      assert (ins + [i])[..|ins|] == ins;
      irqport := half && !previousHalf;
      ReadProcess(bus, dout, count);
      previousHalf := half;
      ins := ins + [i];
    }

    method ReadProcess(bus: Bus, dout: T, count: nat)
      modifies `rdEn, `readdata
      ensures rdEn == ReadsData(bus)
      ensures readdata == Reply(bus, old(readdata), count, dout)
    {
      if Selected(bus) {
        match Register(bus) {
          case 0 =>
            rdEn := false;
            readdata := Id;
          case 1 =>
            rdEn := false;
            readdata := Count(count);
          case 2 =>
            rdEn := true;
            readdata := Data(dout);
          case _ =>
            rdEn := false;
            readdata := Bad;
        }
      } else {
        rdEn := false;
      }
    }
  }
}
