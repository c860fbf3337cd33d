/** The bounded queue that fifo_syn implements, and what its flags and counter
    say about it. */
module Queue {

  /** What one clock asks of the queue. */
  datatype Request<T> = Request(read: bool, write: bool, din: T)

  /** The words queued, and the registered write acknowledge. */
  datatype Queue<T> = Queue(items: seq<T>, ack: bool)

  predicate Pops<T>(q: Queue<T>, r: Request<T>) {
    r.read && q.items != []
  }

  /** A word is taken when there is room for it, or room is being made; a word
      offered along with a read of an empty queue is lost. */
  predicate Takes<T>(cap: nat, q: Queue<T>, r: Request<T>) {
    r.write && if r.read then q.items != [] else |q.items| < cap
  }

  function Next<T>(cap: nat, q: Queue<T>, r: Request<T>): Queue<T> {
    var kept := if Pops(q, r) then q.items[1..] else q.items;
    Queue(
      if Takes(cap, q, r) then kept + [r.din] else kept,
      if r.write then r.read || |q.items| < cap || q.ack else false)
  }

  function Run<T>(cap: nat, rs: seq<Request<T>>): Queue<T> {
    if rs == [] then Queue([], false) else Next(cap, Run(cap, rs[..|rs| - 1]), rs[|rs| - 1])
  }

  lemma Step<T>(cap: nat, rs: seq<Request<T>>, r: Request<T>)
    ensures Run(cap, rs + [r]) == Next(cap, Run(cap, rs), r)
  {
    assert (rs + [r])[..|rs|] == rs;
  }

  // `Next`, one kind of request at a time.

  lemma ReadAndWrite<T>(cap: nat, q: Queue<T>, r: Request<T>)
    requires r.read && r.write
    ensures Next(cap, q, r) == Queue(if q.items == [] then [] else q.items[1..] + [r.din], true)
    ensures |Next(cap, q, r).items| == |q.items|
  {}

  lemma ReadOnly<T>(cap: nat, q: Queue<T>, r: Request<T>)
    requires r.read && !r.write
    ensures Next(cap, q, r) == Queue(if q.items == [] then [] else q.items[1..], false)
  {}

  lemma WriteOnly<T>(cap: nat, q: Queue<T>, r: Request<T>)
    requires !r.read && r.write
    ensures Next(cap, q, r) ==
            if |q.items| < cap then Queue(q.items + [r.din], true) else q
  {}

  lemma Idle<T>(cap: nat, q: Queue<T>, r: Request<T>)
    requires !r.read && !r.write
    ensures Next(cap, q, r) == q.(ack := false)
  {}

  /** The words taken over a run, and how many have been read out. */
  function Taken<T>(cap: nat, rs: seq<Request<T>>): seq<T> {
    if rs == [] then [] else
      var before, r := rs[..|rs| - 1], rs[|rs| - 1];
      Taken(cap, before) + if Takes(cap, Run(cap, before), r) then [r.din] else []
  }

  function Popped<T>(cap: nat, rs: seq<Request<T>>): nat {
    if rs == [] then 0 else
      var before, r := rs[..|rs| - 1], rs[|rs| - 1];
      Popped(cap, before) + if Pops(Run(cap, before), r) then 1 else 0
  }

  lemma NextItems<T>(cap: nat, q: Queue<T>, r: Request<T>)
    requires |q.items| <= cap
    ensures var more := if Takes(cap, q, r) then [r.din] else [];
            Next(cap, q, r).items == (q.items + more)[if Pops(q, r) then 1 else 0..] &&
            |Next(cap, q, r).items| <= cap && (Pops(q, r) ==> q.items != [])
  {}

  /** Conservation: over any run, the words taken are the words read out followed
      by the words still queued, in order, and no more than `cap` are queued. */
  lemma {:induction false} Conservation<T>(cap: nat, rs: seq<Request<T>>)
    ensures Popped(cap, rs) <= |Taken(cap, rs)|
    ensures Run(cap, rs).items == Taken(cap, rs)[Popped(cap, rs)..]
    ensures |Run(cap, rs).items| <= cap
  {
    if rs == [] {
    } else {
      var before, r := rs[..|rs| - 1], rs[|rs| - 1];
      var q := Run(cap, before);
      Conservation(cap, before);
      hide Takes, Pops;
      var more := if Takes(cap, q, r) then [r.din] else [];
      assert Taken(cap, rs) == Taken(cap, before) + more;
      assert Taken(cap, rs)[Popped(cap, before)..] == q.items + more;
      NextItems(cap, q, r);
    }
  }

  /** The acknowledge tells the truth about the last clock, except for a write
      lost to a simultaneous read of an empty queue, and for a refused write
      that finds the acknowledge still up from the clock before. */
  lemma AckTruth<T>(cap: nat, q: Queue<T>, r: Request<T>)
    ensures (Next(cap, q, r).ack == Takes(cap, q, r)) <==>
            !(r.write && ((r.read && q.items == []) || (!r.read && |q.items| >= cap && q.ack)))
  {}

  /** Writes alone, of the word `w`. */
  function Writing<T>(w: T, k: nat): seq<Request<T>> {
    if k == 0 then [] else Writing(w, k - 1) + [Request(false, true, w)]
  }

  lemma {:induction false} WritesFill<T>(cap: nat, w: T, k: nat)
    requires k <= cap
    ensures var q := Run(cap, Writing(w, k)); |q.items| == k && (k > 0 ==> q.ack)
  {
    if k == 0 {
    } else {
      WritesFill(cap, w, k - 1);
      Step(cap, Writing(w, k - 1), Request(false, true, w));
    }
  }

  /** Both happen: a queue filled without a pause goes on acknowledging what it
      refuses, and one that is read while empty acknowledges the word it loses. */
  lemma AckWrong<T>(cap: nat, w: T)
    requires cap >= 1
    ensures var full, more := Run(cap, Writing(w, cap)), Request(false, true, w);
            |full.items| == cap && Next(cap, full, more).ack && !Takes(cap, full, more)
    ensures var empty, both := Run<T>(cap, []), Request(true, true, w);
            Next(cap, empty, both).ack && !Takes(cap, empty, both)
  {
    WritesFill(cap, w, cap);
  }
}

/** fifo.vhdl: a ring buffer of 2**addrdepth words with registered flags. */
module Fifo {
  import opened Queue
  import opened Arithmetic

  function Pow2(k: nat): (p: nat)
    ensures p >= 1 && (k >= 1 ==> p >= 2)
  {
    if k == 0 then 1 else 2 * Pow2(k - 1)
  }

  lemma Capacities(k: nat)
    ensures Pow2(0) == 1 && Pow2(k + 1) == 2 * Pow2(k) && Pow2(10) == 1024
  {
    assert Pow2(5) == 32;
  }

  /** The slot `k` places after slot `from`, going round once at most. */
  function Slot(from: nat, k: nat, m: nat): nat
    requires from < m && k <= m
  {
    if from + k < m then from + k else from + k - m
  }

  /** Addition and subtraction of 1 on an address of log2(m) bits. */
  function Inc(x: nat, m: nat): (y: nat)
    requires x < m
    ensures y == Slot(x, 1, m) && y < m
  {
    Turn(x + 1, m);
    (x + 1) % m
  }

  function Dec(x: nat, m: nat): (y: nat)
    requires x < m
    ensures y == if x == 0 then m - 1 else x - 1
  {
    Turn(x + m - 1, m);
    (x + m - 1) % m
  }

  /** `items` is stored in `mem` from slot `rd` on, `wr` is the slot after it and
      `count` its length, as far as an address can tell. */
  ghost predicate Holds<T>(mem: seq<T>, rd: nat, wr: nat, count: nat, items: seq<T>) {
    rd < |mem| && |items| <= |mem| &&
    (forall k :: 0 <= k < |items| ==> items[k] == mem[Slot(rd, k, |mem|)]) &&
    wr == Slot(rd, |items|, |mem|) &&
    count == if |items| == |mem| then 0 else |items|
  }

  lemma AfterRead<T>(mem: seq<T>, rd: nat, wr: nat, count: nat, items: seq<T>)
    requires Holds(mem, rd, wr, count, items) && items != []
    ensures rd < |mem| && count < |mem|
    ensures Holds(mem, Inc(rd, |mem|), wr, Dec(count, |mem|), items[1..])
    ensures (Inc(rd, |mem|) == wr) == (|items| == 1 || |mem| == 1)
  {
    var m := |mem|;
    forall k | 0 <= k < |items| - 1
      ensures items[1..][k] == mem[Slot(Inc(rd, m), k, m)]
    {
      assert items[1..][k] == items[k + 1];
    }
  }

  lemma AfterWrite<T>(mem: seq<T>, rd: nat, wr: nat, count: nat, items: seq<T>, x: T)
    requires Holds(mem, rd, wr, count, items) && |items| < |mem|
    ensures wr < |mem| && count < |mem|
    ensures Holds(mem[wr := x], rd, Inc(wr, |mem|), Inc(count, |mem|), items + [x])
    ensures (Inc(wr, |mem|) == rd) == (|items| + 1 == |mem|)
  {}

  /** A full memory may be read and written in one clock: the word written takes
      the slot of the word read. */
  lemma AfterBoth<T>(mem: seq<T>, rd: nat, wr: nat, count: nat, items: seq<T>, x: T)
    requires Holds(mem, rd, wr, count, items)
    ensures rd < |mem| && wr < |mem|
    ensures Holds(mem[wr := x], Inc(rd, |mem|), Inc(wr, |mem|), count,
                  if items == [] then [] else items[1..] + [x])
  {
    var m := |mem|;
    if items != [] {
      forall k | 0 <= k < |items|
        ensures (items[1..] + [x])[k] == mem[wr := x][Slot(Inc(rd, m), k, m)]
      {
        if k < |items| - 1 {
          assert items[1..][k] == items[k + 1];
        }
      }
    }
  }

  class FifoSyn<T(!new)> {
    const addrdepth: nat
    const zero: T             // what the output shows when the queue is empty
    var reg: array<T>
    var rdCntr: nat
    var wrCntr: nat
    var dCntr: nat
    var empty: bool
    var full: bool
    var wrAck: bool
    ghost var requests: seq<Request<T>>  // every clock since reset

    ghost function Capacity(): nat { Pow2(addrdepth) }

    ghost function Contents(): Queue<T>
      reads `requests
    {
      Run(Capacity(), requests)
    }

    /** The registers and the memory hold `q`. */
    ghost predicate Represents(q: Queue<T>)
      reads `reg, `rdCntr, `wrCntr, `dCntr, `empty, `full, `wrAck, reg
    {
      addrdepth >= 1 && reg.Length == Capacity() &&
      Holds(reg[..], rdCntr, wrCntr, dCntr, q.items) &&
      empty == (|q.items| == 0) &&
      full == (|q.items| == Capacity()) &&
      wrAck == q.ack
    }

    ghost predicate Valid()
      reads this, reg
    {
      Represents(Contents())
    }

    constructor (addrdepth: nat, zero: T)
      requires addrdepth >= 1
      ensures Valid() && requests == [] && fresh(reg)
      ensures this.addrdepth == addrdepth && this.zero == zero
    {
      this.addrdepth, this.zero := addrdepth, zero;
      reg := new T[Pow2(addrdepth)](_ => zero);
      rdCntr, wrCntr, dCntr := 0, 0, 0;
      empty, full, wrAck := true, false, false;
      requests := [];
    }

    method Reset()
      requires addrdepth >= 1 && reg.Length == Capacity()
      modifies this
      ensures Valid() && requests == [] && reg == old(reg)
    {
      rdCntr, wrCntr, dCntr := 0, 0, 0;
      empty, full, wrAck := true, false, false;
      requests := [];
    }

    /** The head of the queue, or zero. */
    function Dout(): (d: T)
      reads this, reg
      requires Valid()
      ensures d == if Contents().items == [] then zero else Contents().items[0]
    {
      hide Run;
      if !empty then reg[rdCntr] else zero
    }

    /** The occupancy, except that a full queue counts as empty. */
    function DataCount(): (c: nat)
      reads this, reg
      requires Valid()
      ensures c == if |Contents().items| == Capacity() then 0 else |Contents().items|
    {
      hide Run;
      dCntr
    }

    method Store(slot: nat, x: T)
      requires slot < reg.Length
      modifies reg
      ensures reg[..] == old(reg[..])[slot := x]
    {
      reg[slot] := x;
    }

    /** A rising edge of the clock: the memory moves exactly as the queue does. */
    method Clock(rdEn: bool, wrEn: bool, din: T)
      requires Valid()
      modifies this, reg
      ensures Valid() && reg == old(reg)
      ensures requests == old(requests) + [Request(rdEn, wrEn, din)]
      ensures Contents() == Next(Capacity(), old(Contents()), Request(rdEn, wrEn, din))
    {
      ghost var q := Contents();
      ghost var r := Request(rdEn, wrEn, din);
      Step(Capacity(), requests, r);
      hide Run, Next, Represents;
      if rdEn && wrEn {
        ReadWrite(din, q);
      } else if rdEn {
        Read(q, r);
      } else if wrEn {
        Write(din, q);
      } else {
        Rest(q, r);
      }
      requests := requests + [r];
    }

    method Rest(ghost q: Queue<T>, ghost r: Request<T>)
      requires Represents(q) && !r.read && !r.write
      modifies `wrAck
      ensures Represents(Next(Capacity(), q, r))
    {
      Idle(Capacity(), q, r);
      wrAck := false;
    }

    method ReadWrite(din: T, ghost q: Queue<T>)
      requires Represents(q)
      modifies `rdCntr, `wrCntr, `wrAck, reg
      ensures Represents(Next(Capacity(), q, Request(true, true, din)))
    {
      ReadAndWrite(Capacity(), q, Request(true, true, din));
      AfterBoth(reg[..], rdCntr, wrCntr, dCntr, q.items, din);
      hide Holds, Next, Inc;
      Store(wrCntr, din);
      rdCntr, wrCntr := Inc(rdCntr, reg.Length), Inc(wrCntr, reg.Length);
      wrAck := true;
    }

    method Read(ghost q: Queue<T>, ghost r: Request<T>)
      requires Represents(q) && r.read && !r.write
      modifies `rdCntr, `dCntr, `empty, `full, `wrAck
      ensures Represents(Next(Capacity(), q, r))
    {
      ReadOnly(Capacity(), q, r);
      if !empty {
        DropHead(q.items);
      }
      hide Next, Holds;
      full := false;
      wrAck := false;
    }

    method DropHead(ghost items: seq<T>)
      requires reg.Length == Capacity()
      requires Holds(reg[..], rdCntr, wrCntr, dCntr, items) && |items| > 0 && !empty && addrdepth >= 1
      modifies `rdCntr, `dCntr, `empty
      ensures Holds(reg[..], rdCntr, wrCntr, dCntr, items[1..]) && empty == (|items| == 1)
      ensures |items| <= Capacity()
    {
      AfterRead(reg[..], rdCntr, wrCntr, dCntr, items);
      assert |items| <= Capacity();
      hide Holds, Inc, Dec, Slot;
      if Inc(rdCntr, reg.Length) == wrCntr {
        empty := true;
      }
      rdCntr := Inc(rdCntr, reg.Length);
      dCntr := Dec(dCntr, reg.Length);
    }

    method Write(din: T, ghost q: Queue<T>)
      requires Represents(q)
      modifies `wrCntr, `dCntr, `empty, `full, `wrAck, reg
      ensures Represents(Next(Capacity(), q, Request(false, true, din)))
    {
      WriteOnly(Capacity(), q, Request(false, true, din));
      empty := false;
      if !full {
        AfterWrite(reg[..], rdCntr, wrCntr, dCntr, q.items, din);
        hide Holds, Next, Inc;
        Store(wrCntr, din);
        if Inc(wrCntr, reg.Length) == rdCntr {
          full := true;
        }
        wrCntr := Inc(wrCntr, reg.Length);
        dCntr := Inc(dCntr, reg.Length);
        wrAck := true;
      }
    }
  }
}
