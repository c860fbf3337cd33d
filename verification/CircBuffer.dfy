/** The circular buffer of sxi_sim_driver.c, as a value. The buffer size is the
    length of `data`, 1024 in the source; the CIRC_ macros are those of the
    kernel's circ_buf.h, which is not part of this model. */
module CircBuffer {

  datatype Cb<T> = Cb(head: nat, tail: nat, overflow: nat, data: seq<T>) {
    ghost predicate Valid() {
      head < |data| && tail < |data|
    }
  }

  /** `x & (size - 1)`, the size being a power of two. */
  function Mask(x: int, size: nat): (y: nat)
    requires size > 0
    ensures y < size
    ensures 0 <= x < size ==> y == x
    ensures size <= x < 2 * size ==> y == x - size
    ensures 0 - size <= x < 0 ==> y == x + size
  {
    MaskNear(x, size);
    x % size
  }

  lemma MaskNear(x: int, size: nat)
    requires size > 0
    ensures 0 <= x < size ==> x % size == x
    ensures size <= x < 2 * size ==> x % size == x - size
    ensures 0 - size <= x < 0 ==> x % size == x + size
  {}

  /** On the 32 bits of a C int, that mask is the remainder by 1024. */
  lemma MaskIsRemainder(x: bv32)
    ensures x & (1024 - 1) == x % 1024
  {}

  /** CIRC_CNT. */
  function Count<T>(b: Cb<T>): (n: nat)
    requires b.Valid()
    ensures n < |b.data|
  {
    Mask(b.head - b.tail, |b.data|)
  }

  /** CIRC_SPACE: CIRC_CNT with the pointers exchanged and head one further on. */
  function Space<T>(b: Cb<T>): (n: nat)
    requires b.Valid()
    ensures n == |b.data| - 1 - Count(b)
  {
    Mask(b.tail - (b.head + 1), |b.data|)
  }

  /** CIRC_CNT_TO_END: the words that can be copied without wrapping. */
  function CountToEnd<T>(b: Cb<T>): (n: nat)
    requires b.Valid()
    ensures n <= Count(b) && b.tail + n <= |b.data|
    ensures n == 0 <==> Count(b) == 0
  {
    var end := |b.data| - b.tail;
    var n := Mask(b.head + end, |b.data|);
    if n < end then n else end
  }

  function Slot<T>(b: Cb<T>, k: nat): (s: nat)
    requires b.Valid() && k < |b.data|
    ensures s < |b.data|
  {
    if b.tail + k < |b.data| then b.tail + k else b.tail + k - |b.data|
  }

  /** The words in the buffer, oldest first. */
  ghost function Contents<T>(b: Cb<T>): (s: seq<T>)
    requires b.Valid()
    ensures |s| == Count(b)
  {
    seq(Count(b), i requires 0 <= i < Count(b) => b.data[Slot(b, i)])
  }

  /** Where they are: from `tail` on, going round the array, up to `head`. */
  lemma ContentsAt<T>(b: Cb<T>, i: nat)
    requires b.Valid()
    ensures |Contents(b)| == (b.head - b.tail) % |b.data|
    ensures i < |Contents(b)| ==> Contents(b)[i] == b.data[(b.tail + i) % |b.data|]
  {
    if i < |Contents(b)| {
      SlotAt(b.tail + i, |b.data|);
      assert Contents(b)[i] == b.data[Slot(b, i)];
    }
    hide Contents;
  }

  lemma SlotAt(k: nat, size: nat)
    requires k < 2 * size
    ensures k % size == if k < size then k else k - size
  {
    MaskNear(k, size);
  }

  /** The contiguous count is the lesser of the occupancy and the room to the end. */
  lemma ToEnd<T>(b: Cb<T>)
    requires b.Valid()
    ensures var count, room := |Contents(b)|, |b.data| - b.tail;
            CountToEnd(b) == if count < room then count else room
  {}

  // ---- The two halves of a put, and a drop ----

  function Store<T>(b: Cb<T>, d: T): (r: Cb<T>)
    requires b.Valid()
    ensures r.Valid()
  {
    b.(data := b.data[b.head := d])
  }

  function Publish<T>(b: Cb<T>): (r: Cb<T>)
    requires b.Valid()
    ensures r.Valid() && r.data == b.data
  {
    b.(head := Mask(b.head + 1, |b.data|))
  }

  function Put<T>(b: Cb<T>, d: T): (r: Cb<T>)
    requires b.Valid()
    ensures r.Valid()
  {
    if Space(b) == 0 then b.(overflow := b.overflow + 1) else Publish(Store(b, d))
  }

  function Drop<T>(b: Cb<T>, n: nat): (r: Cb<T>)
    requires b.Valid()
    ensures r.Valid() && r.data == b.data
  {
    b.(tail := Mask(b.tail + n, |b.data|))
  }

  /** The slot at head is outside the buffered words. */
  lemma StoreKeeps<T>(b: Cb<T>, d: T)
    requires b.Valid()
    ensures Contents(Store(b, d)) == Contents(b)
  {
    forall i | 0 <= i < Count(b)
      ensures Slot(b, i) != b.head
    {}
  }

  lemma PublishAppends<T>(b: Cb<T>)
    requires b.Valid() && Space(b) > 0
    ensures Contents(Publish(b)) == Contents(b) + [b.data[b.head]]
    ensures Count(Publish(b)) == Count(b) + 1
  {
    assert Slot(b, Count(b)) == b.head;
  }

  lemma PutAppends<T>(b: Cb<T>, d: T)
    requires b.Valid()
    ensures Space(b) == 0 ==> Contents(Put(b, d)) == Contents(b) && Put(b, d).overflow == b.overflow + 1
    ensures Space(b) > 0 ==> Contents(Put(b, d)) == Contents(b) + [d] && Put(b, d).overflow == b.overflow
  {
    if Space(b) > 0 {
      StoreKeeps(b, d);
      PublishAppends(Store(b, d));
    }
  }

  lemma DropRemoves<T>(b: Cb<T>, n: nat)
    requires b.Valid() && n <= Count(b)
    ensures Contents(Drop(b, n)) == Contents(b)[n..]
    ensures Count(Drop(b, n)) == Count(b) - n
  {
    var r := Drop(b, n);
    assert Count(r) == Count(b) - n;
    forall i | 0 <= i < Count(r)
      ensures Slot(r, i) == Slot(b, i + n)
    {}
  }

  /** The words up to the end of the array are the first of the buffer. */
  lemma CopyIsContents<T>(b: Cb<T>, n: nat)
    requires b.Valid() && n <= CountToEnd(b)
    ensures b.data[b.tail..b.tail + n] == Contents(b)[..n]
  {}
}

/** One reader in `sxi_read`, and an interrupt that may put a word between any two
    of the reader's memory accesses, each side seen access by access. */
module SharedBuffer {
  import opened CircBuffer

  datatype Writer<T> =
    | Away
    | Room(d: T)      // cb_put has found space
    | Full            // cb_put has found none
    | Stored(d: T)    // the word is in its slot, head not yet moved

  datatype Reader =
    | Outside
    | Waiting(left: nat)                      // words wanted, none seen yet
    | Looping(left: nat)                      // at the top of the copy loop
    | Copying(left: nat, n: nat, copied: nat) // inside copy_to_user

  datatype System<T> = System(
    b: Cb<T>, writer: Writer<T>, reader: Reader,
    delivered: seq<T>,  // words copied to the user
    accepted: seq<T>,   // words put, in order
    puts: nat)          // calls of cb_put completed

  datatype Action<T> =
    | PutCheck(d: T) | PutRefuse | PutStore | PutPublish
    | ReadCall(bytes: nat) | Poll | Signal | LoopTop | CopyWord | DropCopied

  function Start<T>(data: seq<T>): System<T> {
    System(Cb(0, 0, 0, data), Away, Outside, [], [], 0)
  }

  /** One access by either side; an action that is not the side's next leaves the
      system alone. */
  function Next<T>(s: System<T>, a: Action<T>): System<T>
    requires s.b.Valid()
  {
    match a
    case PutCheck(d) =>
      if !s.writer.Away? then s else s.(writer := if Space(s.b) == 0 then Full else Room(d))
    case PutRefuse =>
      if !s.writer.Full? then s else
        s.(writer := Away, b := s.b.(overflow := s.b.overflow + 1), puts := s.puts + 1)
    case PutStore =>
      if !s.writer.Room? then s else s.(writer := Stored(s.writer.d), b := Store(s.b, s.writer.d))
    case PutPublish =>
      if !s.writer.Stored? then s else
        s.(writer := Away, b := Publish(s.b), accepted := s.accepted + [s.writer.d], puts := s.puts + 1)
    case ReadCall(bytes) =>
      if !s.reader.Outside? || bytes % 2 == 1 || s.b.overflow != 0 then s
      else s.(reader := Waiting(bytes / 2))
    case Poll =>
      if !s.reader.Waiting? || CountToEnd(s.b) == 0 then s else s.(reader := Looping(s.reader.left))
    case Signal =>
      if !s.reader.Waiting? then s else s.(reader := Outside)
    case LoopTop =>
      if !s.reader.Looping? then s else
        var left, n := s.reader.left, CountToEnd(s.b);
        if left == 0 || n == 0 then s.(reader := Outside)
        else s.(reader := Copying(left, if n > left then left else n, 0))
    case CopyWord =>
      if !s.reader.Copying? || s.reader.copied >= s.reader.n || s.b.tail + s.reader.copied >= |s.b.data| then s
      else
        s.(delivered := s.delivered + [s.b.data[s.b.tail + s.reader.copied]],
           reader := s.reader.(copied := s.reader.copied + 1))
    case DropCopied =>
      if !s.reader.Copying? || s.reader.copied != s.reader.n || s.reader.n > s.reader.left then s
      else s.(b := Drop(s.b, s.reader.n), reader := Looping(s.reader.left - s.reader.n))
  }

  function Copied(r: Reader): nat {
    if r.Copying? then r.copied else 0
  }

  ghost predicate Invariant<T>(s: System<T>) {
    s.b.Valid() &&
    Copied(s.reader) <= Count(s.b) &&
    // delivered and still buffered are what was accepted
    s.delivered + Contents(s.b)[Copied(s.reader)..] == s.accepted &&
    s.puts == |s.accepted| + s.b.overflow &&
    // room once found stays, and a stored word stays in its slot
    (s.writer.Room? || s.writer.Stored? ==> Space(s.b) > 0) &&
    (s.writer.Stored? ==> s.b.data[s.b.head] == s.writer.d) &&
    // a chunk counted stays copyable
    (s.reader.Copying? ==> s.reader.copied <= s.reader.n <= s.reader.left && s.reader.n <= CountToEnd(s.b))
  }

  lemma PublishKeeps<T>(s: System<T>)
    requires Invariant(s) && s.writer.Stored?
    ensures Invariant(Next(s, PutPublish))
  {
    var c := Copied(s.reader);
    PublishAppends(s.b);
    hide Contents;
    assert (Contents(s.b) + [s.writer.d])[c..] == Contents(s.b)[c..] + [s.writer.d];
  }

  lemma StoreKeepsAll<T>(s: System<T>)
    requires Invariant(s) && s.writer.Room?
    ensures Invariant(Next(s, PutStore))
  {
    StoreKeeps(s.b, s.writer.d);
    hide Contents;
  }

  lemma CopyKeeps<T>(s: System<T>)
    requires Invariant(s) && s.reader.Copying? && s.reader.copied < s.reader.n
    ensures Invariant(Next(s, CopyWord))
  {
    var c := s.reader.copied;
    CopyIsContents(s.b, c + 1);
    assert s.b.data[s.b.tail + c] == Contents(s.b)[c];
    hide Contents;
    assert Contents(s.b)[c..] == [Contents(s.b)[c]] + Contents(s.b)[c + 1..];
  }

  lemma DropKeeps<T>(s: System<T>)
    requires Invariant(s) && s.reader.Copying? && s.reader.copied == s.reader.n
    ensures Invariant(Next(s, DropCopied))
  {
    DropRemoves(s.b, s.reader.n);
    hide Contents;
  }

  lemma InvariantKept<T>(s: System<T>, a: Action<T>)
    requires Invariant(s)
    ensures Invariant(Next(s, a))
  {
    hide Contents, CountToEnd;
    if a.PutPublish? && s.writer.Stored? {
      PublishKeeps(s);
    } else if a.PutStore? && s.writer.Room? {
      StoreKeepsAll(s);
    } else if a.CopyWord? && s.reader.Copying? && s.reader.copied < s.reader.n {
      CopyKeeps(s);
    } else if a.DropCopied? && s.reader.Copying? && s.reader.copied == s.reader.n {
      DropKeeps(s);
    } else {
      OthersKeep(s, a);
    }
  }

  /** Everything else leaves the words alone. */
  lemma OthersKeep<T>(s: System<T>, a: Action<T>)
    requires Invariant(s)
    requires !(a.PutPublish? && s.writer.Stored?) && !(a.PutStore? && s.writer.Room?)
    requires !(a.CopyWord? && s.reader.Copying? && s.reader.copied < s.reader.n)
    requires !(a.DropCopied? && s.reader.Copying? && s.reader.copied == s.reader.n)
    ensures Invariant(Next(s, a))
  {
    hide Contents, Mask, Count, CountToEnd, Space, Drop, Store, Publish;
    SameBuffer(s, a);
    ContentsSame(s.b, Next(s, a).b);
  }

  lemma SameBuffer<T>(s: System<T>, a: Action<T>)
    requires Invariant(s)
    requires !(a.PutPublish? && s.writer.Stored?) && !(a.PutStore? && s.writer.Room?)
    requires !(a.DropCopied? && s.reader.Copying? && s.reader.copied == s.reader.n)
    ensures var b := Next(s, a).b;
            b.Valid() && b.head == s.b.head && b.tail == s.b.tail && b.data == s.b.data
  {
    hide Contents, Mask, Count, CountToEnd, Space, Drop, Store, Publish;
  }

  lemma ContentsSame<T>(b: Cb<T>, c: Cb<T>)
    requires b.Valid() && c.Valid() && b.head == c.head && b.tail == c.tail && b.data == c.data
    ensures Contents(b) == Contents(c) && Count(b) == Count(c) && Space(b) == Space(c)
    ensures CountToEnd(b) == CountToEnd(c)
  {}

  function Run<T>(s: System<T>, actions: seq<Action<T>>): (r: System<T>)
    requires s.b.Valid()
    ensures r.b.Valid()
    decreases |actions|
  {
    if actions == [] then s else Next(Run(s, actions[..|actions| - 1]), actions[|actions| - 1])
  }

  /** Over every interleaving from an empty buffer. */
  lemma {:induction false} Always<T>(data: seq<T>, actions: seq<Action<T>>)
    requires data != []
    ensures Invariant(Run(Start(data), actions))
    decreases |actions|
  {
    if actions != [] {
      Always(data, actions[..|actions| - 1]);
      InvariantKept(Run(Start(data), actions[..|actions| - 1]), actions[|actions| - 1]);
    } else {
      assert Contents(Start(data).b) == [];
    }
  }

  /** In order and exactly once: outside a copy, the words delivered followed by
      the words buffered are the words accepted, and every put is accounted for. */
  lemma Conserved<T>(data: seq<T>, actions: seq<Action<T>>)
    requires data != []
    ensures var s := Run(Start(data), actions);
            s.delivered <= s.accepted &&
            (!s.reader.Copying? ==> s.delivered + Contents(s.b) == s.accepted) &&
            s.puts == |s.accepted| + s.b.overflow &&
            |Contents(s.b)| < |data|
  {
    Always(data, actions);
    SizeFixed(data, actions);
  }

  lemma {:induction false} SizeFixed<T>(data: seq<T>, actions: seq<Action<T>>)
    requires data != []
    ensures |Run(Start(data), actions).b.data| == |data|
    decreases |actions|
  {
    if actions == [] {
    } else {
      SizeFixed(data, actions[..|actions| - 1]);
    }
  }

  /** No access of the writer touches the slots of the chunk being copied. */
  lemma ChunkUntouched<T>(data: seq<T>, actions: seq<Action<T>>, a: Action<T>)
    requires data != []
    requires a.PutCheck? || a.PutRefuse? || a.PutStore? || a.PutPublish?
    ensures var s := Run(Start(data), actions);
            var s' := Next(s, a);
            s.reader.Copying? ==>
              s'.reader == s.reader && s'.b.tail == s.b.tail &&
              s.b.tail + s.reader.n <= |s.b.data| == |s'.b.data| &&
              s'.b.data[s.b.tail..s.b.tail + s.reader.n] == s.b.data[s.b.tail..s.b.tail + s.reader.n]
  {
    Always(data, actions);
    var s := Run(Start(data), actions);
    hide Contents, Mask, CountToEnd, Run;
    if s.reader.Copying? && a.PutStore? && s.writer.Room? {
      StoreKeeps(s.b, s.writer.d);
      CopyIsContents(s.b, s.reader.n);
      CopyIsContents(Store(s.b, s.writer.d), s.reader.n);
    }
  }

  // ---- What each access does ----

  /** A put of a word that finds room adds it, in three accesses. */
  lemma PutAccepted<T>(s: System<T>, d: T)
    requires Invariant(s) && s.writer.Away? && |Contents(s.b)| < |s.b.data| - 1
    ensures var t := Next(Next(Next(s, PutCheck(d)), PutStore), PutPublish);
            t.b.Valid() && Contents(t.b) == Contents(s.b) + [d] && t.b.overflow == s.b.overflow &&
            t.accepted == s.accepted + [d] && t.puts == s.puts + 1 && t.writer.Away?
  {
    var x := Next(Next(s, PutCheck(d)), PutStore);
    assert x.b == Store(s.b, d) && x.writer == Stored(d);
    StoreKeeps(s.b, d);
    PublishAppends(x.b);
  }

  /** It is refused, and counted, if and only if the buffer is full. */
  lemma PutRefused<T>(s: System<T>, d: T)
    requires Invariant(s) && s.writer.Away?
    ensures var t := Next(Next(s, PutCheck(d)), PutRefuse);
            t.b.Valid() && Contents(t.b) == Contents(s.b) && t.accepted == s.accepted &&
            t.b.overflow == s.b.overflow + if |Contents(s.b)| == |s.b.data| - 1 then 1 else 0
  {
    ContentsSame(s.b, Next(Next(s, PutCheck(d)), PutRefuse).b);
  }

  /** A read is let in if and only if it asks for whole words and none has been lost;
      it waits until there is a word. */
  lemma ReadBegins<T>(s: System<T>, bytes: nat)
    requires s.b.Valid()
    ensures s.reader.Outside? ==>
              Next(s, ReadCall(bytes)).reader ==
              if bytes % 2 == 0 && s.b.overflow == 0 then Waiting(bytes / 2) else Outside
    ensures s.reader.Waiting? ==>
              Next(s, Poll).reader == if Contents(s.b) != [] then Looping(s.reader.left) else s.reader
  {}

  /** A round of its loop begins with what is wanted, and there, and contiguous; with
      nothing wanted or nothing there it returns. */
  lemma ReadGoesOn<T>(s: System<T>)
    requires s.b.Valid() && s.reader.Looping?
    ensures var left, count, room := s.reader.left, |Contents(s.b)|, |s.b.data| - s.b.tail;
            var n := if count < room then count else room;
            Next(s, LoopTop).reader ==
            if left == 0 || count == 0 then Outside else Copying(left, if left < n then left else n, 0)
  {
    ToEnd(s.b);
    hide Contents, CountToEnd;
  }

  /** It copies them word by word. */
  lemma ReadCopies<T>(s: System<T>)
    requires Invariant(s) && s.reader.Copying? && s.reader.copied < s.reader.n
    ensures var t, k := Next(s, CopyWord), s.reader.copied;
            k < |Contents(s.b)| && t.delivered == s.delivered + [Contents(s.b)[k]] &&
            t.reader == s.reader.(copied := k + 1) && t.b == s.b
  {
    var k := s.reader.copied;
    CopyIsContents(s.b, k + 1);
    hide Contents;
    assert s.b.data[s.b.tail..s.b.tail + k + 1][k] == Contents(s.b)[..k + 1][k];
  }

  /** And then drops them. */
  lemma ReadDrops<T>(s: System<T>)
    requires Invariant(s) && s.reader.Copying? && s.reader.copied == s.reader.n
    ensures var t, n := Next(s, DropCopied), s.reader.n;
            t.b.Valid() && n <= |Contents(s.b)| && Contents(t.b) == Contents(s.b)[n..] &&
            t.reader == Looping(s.reader.left - n)
  {
    DropRemoves(s.b, s.reader.n);
    hide Contents;
  }

  /** How many puts, over a run, began on a full buffer. */
  ghost function Unlucky<T>(s: System<T>, actions: seq<Action<T>>): nat
    requires s.b.Valid()
    decreases |actions|
  {
    if actions == [] then 0 else
      var x, a := Run(s, actions[..|actions| - 1]), actions[|actions| - 1];
      Unlucky(s, actions[..|actions| - 1]) +
      if a.PutCheck? && x.writer.Away? && |Contents(x.b)| == |x.b.data| - 1 then 1 else 0
  }

  /** Those and no others are lost: `overflow` counts them, a last one being perhaps not
      counted yet. So while no put has met a full buffer nothing is lost. */
  lemma {:induction false} OverflowCounts<T>(data: seq<T>, actions: seq<Action<T>>)
    requires data != []
    ensures var s := Run(Start(data), actions);
            s.b.overflow + (if s.writer.Full? then 1 else 0) == Unlucky(Start(data), actions)
    decreases |actions|
  {
    if actions == [] {
    } else {
      var before, a := actions[..|actions| - 1], actions[|actions| - 1];
      OverflowCounts(data, before);
      Always(data, before);
      CountedOnce(Run(Start(data), before), a);
    }
  }

  lemma CountedOnce<T>(s: System<T>, a: Action<T>)
    requires Invariant(s)
    ensures var t, full := Next(s, a), a.PutCheck? && s.writer.Away? && |Contents(s.b)| == |s.b.data| - 1;
            t.b.overflow + (if t.writer.Full? then 1 else 0) ==
            s.b.overflow + (if s.writer.Full? then 1 else 0) + if full then 1 else 0
  {
    hide Contents, CountToEnd;
  }

  // ---- One call of sxi_read ----

  /** A call for `wanted` words, begun when `before` words had been delivered, is
      under way: what it has delivered and what it has left add up, and until its
      first chunk is taken the buffer is not empty again. */
  ghost predicate InCall<T>(s: System<T>, before: nat, wanted: nat) {
    Invariant(s) && |s.delivered| >= before &&
    var given := |s.delivered| - before;
    match s.reader
    case Outside => false
    case Waiting(left) => given == 0 && left == wanted
    case Looping(left) => given + left == wanted && (left == wanted ==> CountToEnd(s.b) > 0)
    case Copying(left, n, copied) => given + left - copied == wanted && left <= wanted && n >= 1
  }

  lemma CallKept<T>(s: System<T>, a: Action<T>, before: nat, wanted: nat)
    requires InCall(s, before, wanted) && !Next(s, a).reader.Outside?
    ensures InCall(Next(s, a), before, wanted)
  {
    hide Contents, CountToEnd, Mask, Invariant;
    InvariantKept(s, a);
    CopyBounded(s);
    if s.reader.Looping? && s.reader.left == wanted && Next(s, a).reader.Looping? {
      WriterAdds(s, a);
    }
  }

  lemma CopyBounded<T>(s: System<T>)
    requires Invariant(s)
    ensures s.b.Valid() && (s.reader.Copying? ==> s.reader.copied <= s.reader.n <= s.reader.left)
  {}

  /** While the reader is between chunks nothing is taken out. */
  lemma WriterAdds<T>(s: System<T>, a: Action<T>)
    requires Invariant(s) && s.reader.Looping? && CountToEnd(s.b) > 0
    ensures CountToEnd(Next(s, a).b) > 0
  {
    if a.PutPublish? && s.writer.Stored? {
      PublishAppends(s.b);
    } else {
      CountSame(s, a);
    }
  }

  lemma CountSame<T>(s: System<T>, a: Action<T>)
    requires s.b.Valid() && s.reader.Looping? && !(a.PutPublish? && s.writer.Stored?)
    ensures Count(Next(s, a).b) == Count(s.b)
  {}

  lemma {:induction false} StaysInCall<T>(s: System<T>, actions: seq<Action<T>>, before: nat, wanted: nat)
    requires InCall(s, before, wanted)
    requires forall k :: 0 <= k <= |actions| ==> !Run(s, actions[..k]).reader.Outside?
    ensures InCall(Run(s, actions), before, wanted)
    decreases |actions|
  {
    if actions == [] {
    } else {
      var n := |actions| - 1;
      forall k | 0 <= k <= n
        ensures actions[..n][..k] == actions[..k]
      {}
      assert actions[..n + 1] == actions;
      hide InCall;
      StaysInCall(s, actions[..n], before, wanted);
      CallKept(Run(s, actions[..n]), actions[n], before, wanted);
    }
  }

  /** From `s` a call for `bytes` bytes is accepted, goes on during the accesses
      `during` of either side, and returns at `last`. */
  predicate WholeCall<T>(s: System<T>, bytes: nat, during: seq<Action<T>>, last: Action<T>)
    requires s.b.Valid()
  {
    var c := Next(s, ReadCall(bytes));
    s.reader.Outside? && c.reader.Waiting? &&
    (forall k :: 0 <= k <= |during| ==> !Run(c, during[..k]).reader.Outside?) &&
    Next(Run(c, during), last).reader.Outside?
  }

  /** One call, however the interrupt comes between its accesses: it delivers what
      was asked for; or, if it finds the buffer empty, less but something; or, given
      up while waiting for a first word, nothing. */
  lemma OneCall<T>(data: seq<T>, earlier: seq<Action<T>>, bytes: nat, during: seq<Action<T>>, last: Action<T>)
    requires data != []
    ensures var s := Run(Start(data), earlier);
            var end := Next(Run(Next(s, ReadCall(bytes)), during), last);
            var given := |end.delivered| - |s.delivered|;
            WholeCall(s, bytes, during, last) ==>
              bytes % 2 == 0 && s.delivered <= end.delivered &&
              if last.Signal? then given == 0
              else given == bytes / 2 || (1 <= given < bytes / 2 && Contents(end.b) == [])
  {
    var s := Run(Start(data), earlier);
    var c := Next(s, ReadCall(bytes));
    if WholeCall(s, bytes, during, last) {
      Always(data, earlier);
      hide Invariant, InCall, Next, Run, Mask, Count;
      CallBegins(s, bytes);
      StaysInCall(c, during, |s.delivered|, bytes / 2);
      DeliveredGrows(c, during);
      CallEnds(Run(c, during), last, |s.delivered|, bytes / 2);
    }
  }

  lemma CallBegins<T>(s: System<T>, bytes: nat)
    requires Invariant(s) && s.reader.Outside? && Next(s, ReadCall(bytes)).reader.Waiting?
    ensures bytes % 2 == 0 && InCall(Next(s, ReadCall(bytes)), |s.delivered|, bytes / 2)
    ensures Next(s, ReadCall(bytes)).delivered == s.delivered
  {
    InvariantKept(s, ReadCall(bytes));
    hide Invariant;
  }

  lemma CallEnds<T>(s: System<T>, last: Action<T>, before: nat, wanted: nat)
    requires InCall(s, before, wanted) && Next(s, last).reader.Outside?
    ensures var end := Next(s, last);
            var given := |end.delivered| - before;
            end.delivered == s.delivered &&
            if last.Signal? then given == 0
            else given == wanted || (1 <= given < wanted && Contents(end.b) == [])
  {
    assert CountToEnd(s.b) == 0 ==> Contents(s.b) == [];
    hide Invariant, Mask, Count, Contents, CountToEnd;
  }

  lemma DeliveredStep<T>(s: System<T>, a: Action<T>)
    requires s.b.Valid()
    ensures s.delivered <= Next(s, a).delivered
  {}

  lemma {:induction false} DeliveredGrows<T>(s: System<T>, actions: seq<Action<T>>)
    requires s.b.Valid()
    ensures s.delivered <= Run(s, actions).delivered
    decreases |actions|
  {
    if actions == [] {
    } else {
      hide Next;
      DeliveredGrows(s, actions[..|actions| - 1]);
      DeliveredStep(Run(s, actions[..|actions| - 1]), actions[|actions| - 1]);
    }
  }

  /** The accesses a call may still make: at most three for each word wanted, two for
      the wait and the return. */
  function AccessesLeft(r: Reader): nat {
    match r
    case Outside => 0
    case Waiting(left) => 3 * left + 2
    case Looping(left) => 3 * left + 1
    case Copying(left, n, copied) => if copied <= n <= left then 3 * (left - n) + (n - copied) + 2 else 0
  }

  /** The accesses of the reader over a run, the others being of the interrupt or not
      its next. */
  function Accesses<T>(s: System<T>, actions: seq<Action<T>>): nat
    requires s.b.Valid()
    decreases |actions|
  {
    if actions == [] then 0 else
      var before := actions[..|actions| - 1];
      Accesses(s, before) + if Run(s, before).reader == Run(s, actions).reader then 0 else 1
  }

  lemma AccessCounted<T>(s: System<T>, a: Action<T>)
    requires Invariant(s) && !s.reader.Outside? && Next(s, a).reader != s.reader
    ensures AccessesLeft(Next(s, a).reader) < AccessesLeft(s.reader)
  {
    InvariantKept(s, a);
    hide Contents, Mask, Count;
    CopyBounded(s);
  }

  /** However the interrupt comes between them, a call makes at most three accesses for
      each word wanted, and two more. */
  lemma {:induction false} AccessesBounded<T>(s: System<T>, actions: seq<Action<T>>)
    requires Invariant(s) && s.reader.Waiting?
    requires forall k :: 0 <= k < |actions| ==> !Run(s, actions[..k]).reader.Outside?
    ensures Invariant(Run(s, actions))
    ensures Accesses(s, actions) + AccessesLeft(Run(s, actions).reader) <= 3 * s.reader.left + 2
    decreases |actions|
  {
    if actions == [] {
    } else {
      var n := |actions| - 1;
      forall k | 0 <= k < n
        ensures actions[..n][..k] == actions[..k]
      {}
      hide Invariant, Next;
      AccessesBounded(s, actions[..n]);
      InvariantKept(Run(s, actions[..n]), actions[n]);
      if Run(s, actions).reader != Run(s, actions[..n]).reader {
        AccessCounted(Run(s, actions[..n]), actions[n]);
      }
    }
  }

  /** An overflow is never forgotten: from then on every call of `sxi_read` is
      turned away. */
  lemma {:induction false} OverflowSticks<T>(s: System<T>, actions: seq<Action<T>>, bytes: nat)
    requires s.b.Valid() && s.b.overflow > 0
    ensures var r := Run(s, actions);
            r.b.overflow >= s.b.overflow && Next(r, ReadCall(bytes)) == r
    decreases |actions|
  {
    if actions == [] {
    } else {
      OverflowSticks(s, actions[..|actions| - 1], bytes);
    }
  }
}

/** The buffer as the driver keeps it, and the driver's two loops over it. */
module SxiDriver {
  import opened CircBuffer

  lemma Rejoin<T>(x: seq<T>, y: seq<T>, z: seq<T>)
    ensures x + (y + z) == (x + y) + z
  {}

  const EINVAL := 22
  const EPIPE := 32
  const ERESTARTSYS := 512

  class SxiCb<T> {
    var head: nat
    var tail: nat
    var overflow: nat
    const data: array<T>

    ghost function View(): Cb<T>
      reads this, data
    {
      Cb(head, tail, overflow, data[..])
    }

    ghost predicate Valid()
      reads this, data
    {
      View().Valid()
    }

    ghost function Words(): seq<T>
      reads this, data
      requires Valid()
    {
      Contents(View())
    }

    constructor (size: nat, blank: T)
      requires size > 0
      ensures Valid() && Words() == [] && overflow == 0 && fresh(data) && data.Length == size
    {
      data := new T[size](_ => blank);
      head, tail, overflow := 0, 0, 0;
    }

    method Init()
      requires data.Length > 0
      modifies this
      ensures Valid() && Words() == [] && overflow == 0
    {
      head, tail, overflow := 0, 0, 0;
    }

    /** cb_count: the words that can be taken in one piece. */
    method Available() returns (n: nat)
      requires Valid()
      ensures n == CountToEnd(View())
    {
      var end := data.Length - tail;
      n := Mask(head + end, data.Length);
      if n >= end {
        n := end;
      }
    }

    method Room() returns (n: nat)
      requires Valid()
      ensures n == data.Length - 1 - |Words()|
    {
      n := Mask(tail - (head + 1), data.Length);
      assert n == Space(View());
    }

    method Drop(n: nat)
      requires Valid() && n <= |Words()|
      modifies `tail
      ensures Valid() && Words() == old(Words())[n..]
    {
      DropRemoves(View(), n);
      tail := Mask(tail + n, data.Length);
    }

    /** A word that finds no room is counted and lost. */
    method Put(d: T)
      requires Valid()
      modifies `head, `overflow, data
      ensures Valid()
      ensures if |old(Words())| == data.Length - 1
              then Words() == old(Words()) && overflow == old(overflow) + 1
              else Words() == old(Words()) + [d] && overflow == old(overflow)
    {
      ghost var b := View();
      PutAppends(b, d);
      var room := Room();
      if room == 0 {
        overflow := overflow + 1;
        assert View() == CircBuffer.Put(b, d);
      } else {
        data[head] := d;
        head := Mask(head + 1, data.Length);
        assert View() == CircBuffer.Put(b, d);
      }
    }

    /** sxi_read with nobody else running: words are delivered from the front, as
        many as asked for or as there are, whether or not they wrap. A wait with
        nobody to end it ends in a signal. */
    method Read(count: nat) returns (retval: int, buff: seq<T>)
      requires Valid()
      modifies `tail
      ensures Valid()
      ensures count % 2 == 1 ==> retval == -22 && buff == [] && Words() == old(Words())
      ensures count % 2 == 0 && overflow != 0 ==> retval == -32 && buff == [] && Words() == old(Words())
      ensures count % 2 == 0 && overflow == 0 && old(Words()) == [] ==>
                retval == -512 && buff == [] && Words() == []
      ensures count % 2 == 0 && overflow == 0 && old(Words()) != [] ==>
                var k := if count / 2 < |old(Words())| then count / 2 else |old(Words())|;
                buff == old(Words())[..k] && Words() == old(Words())[k..] && retval == 2 * k
    {
      buff := [];
      if count % 2 == 1 {
        return -EINVAL, buff;
      }
      if overflow != 0 {
        return -EPIPE, buff;
      }
      var some := Available();
      if some == 0 {
        return -ERESTARTSYS, buff;
      }
      buff := Copy(count);
      retval := 2 * |buff|;
    }

    /** The copy loop of sxi_read. */
    method Copy(count: nat) returns (buff: seq<T>)
      requires Valid() && count % 2 == 0
      modifies `tail
      ensures Valid()
      ensures var k := if count / 2 < |old(Words())| then count / 2 else |old(Words())|;
              buff == old(Words())[..k] && Words() == old(Words())[k..]
    {
      hide Contents, CountToEnd, Mask;
      buff := [];
      var left := count;
      while left > 0
        invariant Valid()
        invariant left >= 0 && left % 2 == 0 && left + 2 * |buff| == count
        invariant buff + Words() == old(Words())
        decreases left
      {
        var bytes := Available();
        bytes := 2 * bytes;
        if bytes == 0 {
          break;
        }
        if bytes > left {
          bytes := left;
        }
        var chunk := TakeChunk(bytes / 2);
        Rejoin(buff, chunk, Words());
        buff := buff + chunk;
        left := left - bytes;
      }
      assert left == 0 || Words() == [];
      assert buff == (buff + Words())[..|buff|] && Words() == (buff + Words())[|buff|..];
    }

    /** copy_to_user of the first words, then their drop. */
    method TakeChunk(n: nat) returns (chunk: seq<T>)
      requires Valid() && n <= CountToEnd(View())
      modifies `tail
      ensures Valid() && |chunk| == n && chunk + Words() == old(Words())
    {
      hide Contents, CountToEnd, Mask;
      CopyIsContents(View(), n);
      chunk := data[tail..tail + n];
      Drop(n);
    }

    /** The drain loop of the interrupt handler, over the words the hardware queue
        has to give: those that fit are kept in order, the rest are counted. */
    method Drain(hardware: seq<T>)
      requires Valid()
      modifies `head, `overflow, data
      ensures Valid()
      ensures var room := data.Length - 1 - |old(Words())|;
              if |hardware| <= room
              then Words() == old(Words()) + hardware && overflow == old(overflow)
              else Words() == old(Words()) + hardware[..room] && overflow == old(overflow) + (|hardware| - room)
    {
      var i := 0;
      ghost var room := data.Length - 1 - |Words()|;
      while i < |hardware|
        invariant 0 <= i <= |hardware| && Valid()
        invariant Words() == old(Words()) + hardware[..if i <= room then i else room]
        invariant overflow == old(overflow) + (if i <= room then 0 else i - room)
      {
        Put(hardware[i]);
        i := i + 1;
      }
    }
  }
}
