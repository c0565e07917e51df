/**
 The single-producer single-consumer ring in shared memory: no CAS, only release stores of `tail`
 and `head` and acquire loads of the other side's index.

 Memory is modelled by modification orders.  `tails` and `heads` list every value ever stored in
 `tail` and `head`; a load may return any entry not older than the one the thread saw last, so the
 other side's index may be stale.  `writes` lists the plain writes to `slots`; a plain read may
 return any write to that slot that no later write known to the reader has replaced.
 */
module SpscRing {
  import opened Modular

  // ---------------------------------------------------------------- index arithmetic

  /** The `&` operator on unsigned integers, bit by bit. */
  function BitAnd(a: nat, b: nat): nat {
    if a == 0 || b == 0 then 0
    else (if a % 2 == 1 && b % 2 == 1 then 1 else 0) + 2 * BitAnd(a / 2, b / 2)
  }

  const UINT32: nat := 0x1_0000_0000

  /** (i + 1) & (N - 1) in uint32_t. */
  function NextIndex(i: nat, n: nat): nat
    requires 0 < n
  {
    BitAnd((i + 1) % UINT32, n - 1)
  }

  /** One more low bit. */
  lemma ModDouble(a: nat, h: nat)
    requires 0 < h
    ensures a % (2 * h) == 2 * ((a / 2) % h) + a % 2
  {
    var q, r := (a / 2) / h, (a / 2) % h;
    assert a / 2 == h * q + r;
    assert a == 2 * (h * q) + (2 * r + a % 2);
    assert 2 * (h * q) == (2 * h) * q;
    ModUnique(a, 2 * h, q, 2 * r + a % 2);
  }

  /** Masking with 2^k - 1 keeps the remainder modulo 2^k. */
  lemma {:induction false} MaskIsMod(a: nat, k: nat)
    ensures BitAnd(a, Pow2(k) - 1) == a % Pow2(k)
  {
    if k == 0 {
      ModUnique(a, 1, a, 0);
    } else if a == 0 {
      ModUnique(0, Pow2(k), 0, 0);
    } else {
      var h := Pow2(k - 1);
      hide Pow2;
      MaskIsMod(a / 2, k - 1);
      ModDouble(a, h);
      assert Pow2(k) == 2 * h by { Pow2Doubles(k); }
      assert (2 * h - 1) / 2 == h - 1 && (2 * h - 1) % 2 == 1;
    }
  }

  lemma Pow2Of32()
    ensures Pow2(32) == UINT32
  {
    assert Pow2(2) == 4;
    Pow2Double(2);
    Pow2Double(4);
    Pow2Double(8);
    Pow2Double(16);
  }

  lemma Pow2Double(k: nat)
    ensures Pow2(2 * k) == Pow2(k) * Pow2(k)
  {
    hide Pow2;
    Pow2Add(k, k);
  }

  lemma DoubleProduct(a: nat, b: nat)
    ensures a * (2 * b) == 2 * (a * b)
  {
  }

  lemma {:induction false} Pow2Add(j: nat, k: nat)
    ensures Pow2(j + k) == Pow2(j) * Pow2(k)
  {
    if k > 0 {
      Pow2Add(j, k - 1);
      DoubleProduct(Pow2(j), Pow2(k - 1));
    }
  }

  /** For a power-of-two N the mask is the step to the next slot, wrap-around of uint32_t included. */
  lemma NextIndexIsNextSlot(i: nat, k: nat)
    requires k <= 32 && i < Pow2(k)
    ensures NextIndex(i, Pow2(k)) == (i + 1) % Pow2(k)
  {
    hide Pow2, BitAnd;
    var n := Pow2(k);
    Pow2Grows(k, 32);
    Pow2Of32();
    MaskIsMod((i + 1) % UINT32, k);
    if i + 1 == UINT32 {
      ModUnique(i + 1, UINT32, 1, 0);
    } else {
      ModUnique(i + 1, UINT32, 0, i + 1);
    }
  }

  // ---------------------------------------------------------------- the shared ring

  type Item = int

  datatype Write = Write(slot: nat, item: Item)

  /** push: own tail loaded and `next` computed; head seen and found different; slot written. */
  datatype Producer =
    | PIdle
    | PLoadHead(item: Item, tail: nat, next: nat)
    | PWriteSlot(item: Item, tail: nat, next: nat)
    | PStoreTail(item: Item, tail: nat, next: nat)

  /** pop: own head loaded; tail seen and found different; slot read. */
  datatype Consumer = CIdle | CLoadTail(head: nat) | CReadSlot(head: nat) | CStoreHead(head: nat, item: Item)

  datatype Ring = Ring(
    n: nat,
    tails: seq<nat>,        // every value stored in tail, oldest first
    heads: seq<nat>,
    writes: seq<Write>,     // every plain write to slots, oldest first
    prod: Producer,
    cons: Consumer,
    headSeen: nat,          // position in `heads` of the producer's last load
    tailSeen: nat,          // position in `tails` of the consumer's last load
    pushed: seq<Item>,      // history: items whose push returned true
    popped: seq<Item>)      // history: items pop returned

  /** `version` is the position of the entry an acquire load returns; `write` the write a read returns. */
  datatype Move =
    | StartPush(item: Item) | LoadHead(version: nat) | WriteSlot | StoreTail
    | StartPop | LoadTail(version: nat) | ReadSlot(write: nat) | StoreHead

  function Empty(n: nat): Ring { Ring(n, [0], [0], [], PIdle, CIdle, 0, 0, [], []) }

  predicate WellFormed(q: Ring) {
    0 < q.n && q.tails != [] && q.heads != []
  }

  /** The consumer may read write j: same slot, and not replaced by a later write it knows of. */
  predicate Readable(q: Ring, slot: nat, j: nat) {
    && j < |q.writes| && q.writes[j].slot == slot
    && forall i :: j < i < |q.writes| && i < q.tailSeen ==> q.writes[i].slot != slot
  }

  predicate Can(q: Ring, mv: Move) {
    match mv
    case StartPush(_) => q.prod.PIdle?
    case LoadHead(v) => q.prod.PLoadHead? && q.headSeen <= v < |q.heads|
    case WriteSlot => q.prod.PWriteSlot?
    case StoreTail => q.prod.PStoreTail?
    case StartPop => q.cons.CIdle?
    case LoadTail(v) => q.cons.CLoadTail? && q.tailSeen <= v < |q.tails|
    case ReadSlot(j) => q.cons.CReadSlot? && Readable(q, q.cons.head, j)
    case StoreHead => q.cons.CStoreHead?
  }

  function Step(q: Ring, mv: Move): Ring
    requires WellFormed(q) && Can(q, mv)
  {
    match mv
    case StartPush(item) =>
      var tail := q.tails[|q.tails| - 1];
      q.(prod := PLoadHead(item, tail, NextIndex(tail, q.n)))
    case LoadHead(v) =>
      var p := q.prod;
      q.(headSeen := v, prod := if p.next == q.heads[v] then PIdle else PWriteSlot(p.item, p.tail, p.next))
    case WriteSlot =>
      var p := q.prod;
      q.(writes := q.writes + [Write(p.tail, p.item)], prod := PStoreTail(p.item, p.tail, p.next))
    case StoreTail =>
      q.(tails := q.tails + [q.prod.next], pushed := q.pushed + [q.prod.item], prod := PIdle)
    case StartPop => q.(cons := CLoadTail(q.heads[|q.heads| - 1]))
    case LoadTail(v) =>
      q.(tailSeen := v, cons := if q.cons.head == q.tails[v] then CIdle else CReadSlot(q.cons.head))
    case ReadSlot(j) => q.(cons := CStoreHead(q.cons.head, q.writes[j].item))
    case StoreHead =>
      q.(heads := q.heads + [NextIndex(q.cons.head, q.n)], popped := q.popped + [q.cons.item], cons := CIdle)
  }

  // ---------------------------------------------------------------- the invariant

  /** Number of completed pushes and pops. */
  function Pushes(q: Ring): nat requires q.tails != [] { |q.tails| - 1 }
  function Pops(q: Ring): nat requires q.heads != [] { |q.heads| - 1 }

  ghost predicate Indices(q: Ring) {
    && WellFormed(q)
    && (forall i :: 0 <= i < |q.tails| ==> q.tails[i] == Slot(0, i, q.n))
    && (forall i :: 0 <= i < |q.heads| ==> q.heads[i] == Slot(0, i, q.n))
    && (forall j :: 0 <= j < |q.writes| ==> q.writes[j].slot == Slot(0, j, q.n))
  }

  /** What each side may conclude from the (stale) index it has seen. */
  ghost predicate Views(q: Ring)
    requires WellFormed(q)
  {
    && q.headSeen <= Pops(q) <= q.tailSeen <= Pushes(q)
    && Pushes(q) - q.headSeen < q.n
    && (!q.prod.PIdle? ==> q.prod.tail == Slot(0, Pushes(q), q.n) && q.prod.next == Slot(0, Pushes(q) + 1, q.n))
    && (q.prod.PWriteSlot? || q.prod.PStoreTail? ==> Pushes(q) + 1 - q.headSeen < q.n)
    && (!q.cons.CIdle? ==> q.cons.head == Slot(0, Pops(q), q.n))
    && (q.cons.CReadSlot? || q.cons.CStoreHead? ==> Pops(q) < q.tailSeen)
  }

  /** The writes are the pushed items in order, and what was popped is a prefix of what was pushed. */
  ghost predicate Items(q: Ring)
    requires WellFormed(q)
  {
    && |q.pushed| == Pushes(q) && |q.popped| == Pops(q)
    && |q.writes| == Pushes(q) + (if q.prod.PStoreTail? then 1 else 0)
    && (forall j :: 0 <= j < |q.pushed| ==> q.writes[j].item == q.pushed[j])
    && (q.prod.PStoreTail? ==> q.writes[Pushes(q)].item == q.prod.item)
    && q.popped <= q.pushed
    && (q.cons.CStoreHead? ==> Pops(q) < |q.pushed| && q.cons.item == q.pushed[Pops(q)])
  }

  ghost predicate Good(q: Ring) {
    Indices(q) && Views(q) && Items(q)
  }

  lemma EmptyGood(k: nat)
    requires k <= 32
    ensures Good(Empty(Pow2(k)))
  {
    ModUnique(0, Pow2(k), 0, 0);
  }

  lemma NextOfSlot(i: nat, k: nat)
    requires k <= 32
    ensures NextIndex(Slot(0, i, Pow2(k)), Pow2(k)) == Slot(0, i + 1, Pow2(k))
  {
    NextIndexIsNextSlot(Slot(0, i, Pow2(k)), k);
    SlotNext(0, i, Pow2(k));
  }

  /** Two counts less than n apart have the same slot only if they are equal. */
  lemma SameSlot(i: nat, j: nat, n: nat)
    requires 0 < n && i <= j < i + n
    ensures Slot(0, i, n) == Slot(0, j, n) <==> i == j
  {
    if i < j {
      SlotsDiffer(0, i, j, n);
    }
  }

  lemma SlotWraps(i: nat, n: nat)
    requires 0 < n
    ensures Slot(0, i + n, n) == Slot(0, i, n)
  {
    ModAdd(i, n, n);
  }

  /**
   push gives up exactly when the version of head it saw leaves n - 1 items unread; otherwise it goes
   on to write its item.
   */
  lemma PushFailsOnlyWhenFull(q: Ring, v: nat)
    requires Good(q) && Can(q, LoadHead(v))
    ensures q.prod.next == q.heads[v] <==> Pushes(q) - v == q.n - 1
    ensures var q' := Step(q, LoadHead(v));
            && q'.headSeen == v
            && (q'.prod.PIdle? <==> Pushes(q) - v == q.n - 1)
            && (q'.prod.PWriteSlot? <==> Pushes(q) - v < q.n - 1)
            && (q'.prod.PWriteSlot? ==> q'.prod.item == q.prod.item)
            && q'.pushed == q.pushed
  {
    hide Slot;
    var t := Pushes(q);
    if t + 1 - v < q.n {
      SameSlot(v, t + 1, q.n);
    } else {
      SlotWraps(v, q.n);
    }
  }

  /**
   pop gives up exactly when the version of tail it saw is the number of items popped; otherwise it
   goes on to read.
   */
  lemma PopFailsOnlyWhenEmpty(q: Ring, v: nat)
    requires Good(q) && Can(q, LoadTail(v))
    ensures q.cons.head == q.tails[v] <==> v == Pops(q)
    ensures var q' := Step(q, LoadTail(v));
            && q'.tailSeen == v
            && (q'.cons.CIdle? <==> v == Pops(q))
            && (q'.cons.CReadSlot? <==> v > Pops(q))
            && q'.popped == q.popped
  {
    hide Slot;
    SameSlot(Pops(q), v, q.n);
  }

  /** The only write the consumer can read is the item it is due, already released to it. */
  lemma ReadIsTheDueItem(q: Ring, j: nat)
    requires Good(q) && Can(q, ReadSlot(j))
    ensures j == Pops(q) < q.tailSeen && q.writes[j].item == q.pushed[j]
  {
    hide Slot, Pow2;
    var h := Pops(q);
    assert h < |q.writes| && q.writes[h].slot == q.cons.head;
    if j > h {
      SameSlot(h, j, q.n);
    }
  }

  /** The consumer always finds a write to read: the slot is never uninitialised. */
  lemma DueItemIsReadable(q: Ring)
    requires Good(q) && q.cons.CReadSlot?
    ensures Can(q, ReadSlot(Pops(q)))
  {
    hide Slot, Pow2;
    var h := Pops(q);
    forall i | h < i < |q.writes| && i < q.tailSeen ensures q.writes[i].slot != q.cons.head {
      SameSlot(h, i, q.n);
    }
  }

  /** No unread slot is overwritten: every older item of the slot was popped, and the producer has seen it. */
  lemma NoUnreadSlotIsOverwritten(q: Ring, j: nat)
    requires Good(q) && q.prod.PWriteSlot? && j < |q.writes| && q.writes[j].slot == q.prod.tail
    ensures j < q.headSeen <= Pops(q)
  {
    hide Slot, Pow2;
    if j >= q.headSeen {
      SameSlot(j, Pushes(q), q.n);
    }
  }

  lemma StepIndices(q: Ring, k: nat, mv: Move)
    requires k <= 32 && q.n == Pow2(k) && Good(q) && Can(q, mv)
    ensures Indices(Step(q, mv))
  {
    hide Slot, Pow2, NextIndex;
    if mv.StoreHead? {
      NextOfSlot(Pops(q), k);
    }
  }

  lemma StepViews(q: Ring, k: nat, mv: Move)
    requires k <= 32 && q.n == Pow2(k) && Good(q) && Can(q, mv)
    ensures WellFormed(Step(q, mv)) && Views(Step(q, mv))
  {
    hide Slot, Pow2, NextIndex;
    match mv {
      case StartPush(_) => NextOfSlot(Pushes(q), k);
      case LoadHead(v) => PushFailsOnlyWhenFull(q, v);
      case LoadTail(v) => PopFailsOnlyWhenEmpty(q, v);
      case _ =>
    }
  }

  lemma StepItems(q: Ring, k: nat, mv: Move)
    requires k <= 32 && q.n == Pow2(k) && Good(q) && Can(q, mv)
    ensures WellFormed(Step(q, mv)) && Items(Step(q, mv))
  {
    hide Slot, Pow2, NextIndex;
    match mv {
      case ReadSlot(j) => ReadIsTheDueItem(q, j);
      case _ =>
    }
  }

  predicate Runs(q: Ring, moves: seq<Move>)
    decreases |moves|
  {
    moves == [] || (WellFormed(q) && Can(q, moves[0]) && Runs(Step(q, moves[0]), moves[1..]))
  }

  function After(q: Ring, moves: seq<Move>): Ring
    requires Runs(q, moves)
    decreases |moves|
  {
    if moves == [] then q else After(Step(q, moves[0]), moves[1..])
  }

  lemma {:induction false} RunGood(q: Ring, k: nat, moves: seq<Move>)
    requires k <= 32 && q.n == Pow2(k) && Good(q) && Runs(q, moves)
    ensures Good(After(q, moves)) && After(q, moves).n == q.n
    decreases |moves|
  {
    if moves != [] {
      StepIndices(q, k, moves[0]);
      StepViews(q, k, moves[0]);
      StepItems(q, k, moves[0]);
      RunGood(Step(q, moves[0]), k, moves[1..]);
    }
  }

  /**
   For every power-of-two N and every interleaving, stale loads included: the items popped are a
   prefix of the items pushed, and never more than N - 1 items are held.
   */
  lemma PoppedIsAPrefixOfPushed(k: nat, moves: seq<Move>)
    requires k <= 32 && Runs(Empty(Pow2(k)), moves)
    ensures var q := After(Empty(Pow2(k)), moves);
            && q.popped <= q.pushed
            && |q.pushed| - |q.popped| <= Pow2(k) - 1
  {
    EmptyGood(k);
    RunGood(Empty(Pow2(k)), k, moves);
  }

  // ---------------------------------------------------------------- one whole call

  lemma StepIsGood(q: Ring, k: nat, mv: Move)
    requires k <= 32 && q.n == Pow2(k) && Good(q) && Can(q, mv)
    ensures WellFormed(q) && Good(Step(q, mv)) && Step(q, mv).n == q.n
  {
    hide Slot, Pow2, NextIndex, Views, Items;
    StepIndices(q, k, mv);
    StepViews(q, k, mv);
    StepItems(q, k, mv);
  }

  lemma RunFirst(q: Ring, mv: Move, rest: seq<Move>)
    requires WellFormed(q) && Can(q, mv) && Runs(Step(q, mv), rest)
    ensures Runs(q, [mv] + rest) && After(q, [mv] + rest) == After(Step(q, mv), rest)
  {
    assert ([mv] + rest)[1..] == rest;
  }

  lemma RunNone(q: Ring)
    ensures Runs(q, []) && After(q, []) == q
  {
  }

  /**
   A call of push with any head it may load: it gives up with nothing pushed exactly when that version
   leaves N - 1 items unread, and otherwise it pushes its item and is done.
   */
  lemma PushCall(q: Ring, k: nat, item: Item, v: nat)
    requires k <= 32 && q.n == Pow2(k) && Good(q) && q.prod.PIdle? && q.headSeen <= v < |q.heads|
    ensures var full := Pushes(q) - v == q.n - 1;
            var moves := [StartPush(item)] + ([LoadHead(v)] + if full then [] else [WriteSlot] + ([StoreTail] + []));
            && Runs(q, moves)
            && var q' := After(q, moves);
               q'.prod.PIdle? && q'.cons == q.cons && q'.pushed == if full then q.pushed else q.pushed + [item]
  {
    var q1 := Step(q, StartPush(item));
    StepIsGood(q, k, StartPush(item));
    var q2 := Step(q1, LoadHead(v));
    PushFailsOnlyWhenFull(q1, v);
    StepIsGood(q1, k, LoadHead(v));
    hide Good, NextIndex, Pow2, Runs, After;
    if q2.prod.PIdle? {
      RunNone(q2);
      RunFirst(q1, LoadHead(v), []);
      RunFirst(q, StartPush(item), [LoadHead(v)] + []);
    } else {
      var q3 := Step(q2, WriteSlot);
      var q4 := Step(q3, StoreTail);
      RunNone(q4);
      RunFirst(q3, StoreTail, []);
      RunFirst(q2, WriteSlot, [StoreTail] + []);
      RunFirst(q1, LoadHead(v), [WriteSlot] + ([StoreTail] + []));
      RunFirst(q, StartPush(item), [LoadHead(v)] + ([WriteSlot] + ([StoreTail] + [])));
    }
  }

  /**
   A call of pop with any tail it may load: it gives up with nothing popped exactly when that version
   is the number of items popped, and otherwise it pops the oldest unread item and is done.
   */
  lemma PopCall(q: Ring, k: nat, v: nat)
    requires k <= 32 && q.n == Pow2(k) && Good(q) && q.cons.CIdle? && q.tailSeen <= v < |q.tails|
    ensures var none := v == Pops(q);
            var moves := [StartPop]
                         + ([LoadTail(v)] + if none then [] else [ReadSlot(Pops(q))] + ([StoreHead] + []));
            && (Pops(q) < |q.pushed| || none)
            && Runs(q, moves)
            && var q' := After(q, moves);
               (&& q'.cons.CIdle? && q'.prod == q.prod
                && q'.popped == if none then q.popped else q.popped + [q.pushed[Pops(q)]])
  {
    var q1 := Step(q, StartPop);
    StepIsGood(q, k, StartPop);
    var q2 := Step(q1, LoadTail(v));
    PopFailsOnlyWhenEmpty(q1, v);
    StepIsGood(q1, k, LoadTail(v));
    if q2.cons.CIdle? {
      hide Good, NextIndex, Pow2, Runs, After;
      RunNone(q2);
      RunFirst(q1, LoadTail(v), []);
      RunFirst(q, StartPop, [LoadTail(v)] + []);
    } else {
      assert Pops(q) < |q.pushed|;
      DueItemIsReadable(q2);
      ReadIsTheDueItem(q2, Pops(q));
      hide Good, NextIndex, Pow2, Runs, After;
      var q3 := Step(q2, ReadSlot(Pops(q)));
      var q4 := Step(q3, StoreHead);
      assert q4.popped == q.popped + [q.pushed[Pops(q)]];
      RunNone(q4);
      RunFirst(q3, StoreHead, []);
      RunFirst(q2, ReadSlot(Pops(q)), [StoreHead] + []);
      RunFirst(q1, LoadTail(v), [ReadSlot(Pops(q))] + ([StoreHead] + []));
      RunFirst(q, StartPop, [LoadTail(v)] + ([ReadSlot(Pops(q))] + ([StoreHead] + [])));
    }
  }

  // ---------------------------------------------------------------- the code, on the struct itself

  /** RingQueue.  `seen` is what the acquire load of the other side's index returned. */
  class RingQueue {
    const slots: array<Item>
    const k: nat  // N is 2^k
    var head: nat
    var tail: nat

    ghost predicate Valid()
      reads this
    {
      k <= 32 && slots.Length == Pow2(k) && head < slots.Length && tail < slots.Length
    }

    ghost function Held(): nat
      reads this
      requires Valid()
    {
      if head <= tail then tail - head else tail + slots.Length - head
    }

    /** The unread items, oldest first. */
    ghost function Contents(): (s: seq<Item>)
      reads this, slots
      requires Valid()
      ensures |s| == Held()
    {
      if head <= tail then slots[head..tail] else slots[head..] + slots[..tail]
    }

    constructor (k: nat)
      requires k <= 32
      ensures Valid() && Contents() == [] && slots.Length == Pow2(k) && fresh(slots)
    {
      this.k := k;
      slots := new Item[Pow2(k)](_ => 0);
      head, tail := 0, 0;
    }

    /** A current `seen` makes push fail exactly when N - 1 items are held. */
    method Push(item: Item, seen: nat) returns (ok: bool)
      requires Valid() && seen < slots.Length
      modifies this`tail, slots
      ensures Valid()
      ensures ok <==> (old(tail) + 1) % slots.Length != seen
      ensures !ok ==> tail == old(tail) && slots[..] == old(slots[..])
      ensures ok ==> tail == (old(tail) + 1) % slots.Length && slots[..] == old(slots[..])[old(tail) := item]
      ensures seen == head ==> (ok <==> old(Held()) < slots.Length - 1)
      ensures seen == head && ok ==> Contents() == old(Contents()) + [item]
    {
      NextIndexIsNextSlot(tail, k);
      StepWraps(tail, slots.Length);
      var next := NextIndex(tail, slots.Length);
      if next == seen {
        return false;
      }
      slots[tail] := item;
      tail := next;
      ok := true;
    }

    /** A current `seen` makes pop fail exactly when nothing is held. */
    method Pop(seen: nat) returns (ok: bool, item: Item)
      requires Valid() && seen < slots.Length
      modifies this`head
      ensures Valid()
      ensures ok <==> old(head) != seen
      ensures !ok ==> head == old(head)
      ensures ok ==> head == (old(head) + 1) % slots.Length && item == slots[old(head)]
      ensures seen == tail ==> (ok <==> old(Held()) > 0)
      ensures seen == tail && ok ==> old(Contents()) == [item] + Contents()
    {
      NextIndexIsNextSlot(head, k);
      StepWraps(head, slots.Length);
      item := 0;
      if head == seen {
        return false, item;
      }
      item := slots[head];
      head := NextIndex(head, slots.Length);
      ok := true;
    }
  }

  lemma StepWraps(i: nat, n: nat)
    requires i < n
    ensures (i + 1) % n == if i + 1 < n then i + 1 else 0
  {
    ModUnique(i, n, 0, i);
    ModAdd(i, 1, n);
  }
}
