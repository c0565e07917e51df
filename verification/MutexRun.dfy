/**
 The protocol of run_mutex: who holds the mutex, who sleeps on which condition variable, and which
 signals are still owed.  Any number of producers, consumers, items and slots.
 */
module MutexRun {
  import opened Tally
  import opened MutexQueue
  import opened Items

  datatype Config = Config(producers: nat, consumers: nat, items: nat, size: nat)

  /** mutex_producer with i items done. */
  datatype Producer =
    | PLock(i: nat) | PCheck(i: nat) | PWait(i: nat) | PWake(i: nat)
    | PPut(i: nat) | PSignal(i: nat) | PUnlock(i: nat) | PDone(i: nat)

  datatype Consumer =
    | CLock | CCheck | CWait | CWake | CTake | CSignal | CUnlock | CLeave | CExit

  datatype Main = MJoin | MLock | MSetDone | MBroadcast | MUnlock | MCollect | MFinished

  datatype Holder = Free | ByProducer(p: nat) | ByConsumer(c: nat) | ByMain

  datatype Sys = Sys(
    ring: Ring,
    lock: Holder,
    done: bool,
    prod: seq<Producer>,
    cons: seq<Consumer>,
    consumed: seq<nat>,
    main: Main,
    filled: seq<int>,    // history: items put, in order
    released: seq<int>)  // history: items in the slots taken, in order

  /** `wake` is the sleeper a signal wakes; SpuriousP and SpuriousC are wake-ups nobody asked for. */
  datatype Move =
    | Produce(p: nat, wake: nat) | Consume(c: nat, wake: nat) | MainStep
    | SpuriousP(p: nat) | SpuriousC(c: nat)

  function Next(cfg: Config, i: nat): Producer {
    if i < cfg.items then PLock(i) else PDone(i)
  }

  function Begin(cfg: Config): Sys {
    Sys(Ring(seq(cfg.size, _ => 0), 0, 0, 0), Free, false,
        seq(cfg.producers, _ => Next(cfg, 0)), seq(cfg.consumers, _ => CLock),
        seq(cfg.consumers, _ => 0), MJoin, [], [])
  }

  predicate AllDone(prod: seq<Producer>) {
    forall p :: 0 <= p < |prod| ==> prod[p].PDone?
  }

  predicate AllExited(cons: seq<Consumer>) {
    forall c :: 0 <= c < |cons| ==> cons[c].CExit?
  }

  predicate SomeoneSleepsP(prod: seq<Producer>) {
    exists p :: 0 <= p < |prod| && prod[p].PWait?
  }

  predicate SomeoneSleepsC(cons: seq<Consumer>) {
    exists c :: 0 <= c < |cons| && cons[c].CWait?
  }

  predicate Can(q: Sys, mv: Move) {
    match mv
    case Produce(p, w) => p < |q.prod| &&
      (match q.prod[p]
       case PLock(_) => q.lock.Free?
       case PWake(_) => q.lock.Free?
       case PWait(_) => false
       case PDone(_) => false
       case PSignal(_) => SomeoneSleepsC(q.cons) ==> w < |q.cons| && q.cons[w].CWait?
       case _ => true)
    case Consume(c, w) => c < |q.cons| &&
      (match q.cons[c]
       case CLock => q.lock.Free?
       case CWake => q.lock.Free?
       case CWait => false
       case CExit => false
       case CSignal => SomeoneSleepsP(q.prod) ==> w < |q.prod| && q.prod[w].PWait?
       case _ => true)
    case MainStep =>
      (match q.main
       case MJoin => AllDone(q.prod)
       case MLock => q.lock.Free?
       case MCollect => AllExited(q.cons)
       case MFinished => false
       case _ => true)
    case SpuriousP(p) => p < |q.prod| && q.prod[p].PWait?
    case SpuriousC(c) => c < |q.cons| && q.cons[c].CWait?
  }

  function WakeP(x: Producer): Producer { if x.PWait? then PWake(x.i) else x }

  function WakeC(x: Consumer): Consumer { if x.CWait? then CWake else x }

  /** pthread_cond_signal: one sleeper, or nobody. */
  function SignalC(cons: seq<Consumer>, w: nat): seq<Consumer> {
    if w < |cons| then cons[w := WakeC(cons[w])] else cons
  }

  function SignalP(prod: seq<Producer>, w: nat): seq<Producer> {
    if w < |prod| then prod[w := WakeP(prod[w])] else prod
  }

  function BroadcastC(cons: seq<Consumer>): seq<Consumer> {
    seq(|cons|, c requires 0 <= c < |cons| => WakeC(cons[c]))
  }

  /** The array accesses of the step are inside the buffer. */
  predicate InBounds(q: Sys, mv: Move)
    requires Can(q, mv)
  {
    && (mv.Produce? && q.prod[mv.p].PPut? ==> q.ring.tail < |q.ring.buf|)
    && (mv.Consume? && q.cons[mv.c].CTake? ==> q.ring.head < |q.ring.buf| && 0 < q.ring.count && mv.c < |q.consumed|)
    && (mv.Consume? ==> mv.c < |q.consumed|)
  }

  function Step(cfg: Config, q: Sys, mv: Move): Sys
    requires Can(q, mv) && InBounds(q, mv)
  {
    match mv
    case Produce(p, w) =>
      (match q.prod[p]
       case PLock(i) => q.(lock := ByProducer(p), prod := q.prod[p := PCheck(i)])
       case PWake(i) => q.(lock := ByProducer(p), prod := q.prod[p := PCheck(i)])
       case PCheck(i) =>
         if q.ring.count == cfg.size then q.(lock := Free, prod := q.prod[p := PWait(i)])
         else q.(prod := q.prod[p := PPut(i)])
       case PPut(i) =>
         q.(ring := PutRing(q.ring, Item(p, i)), filled := q.filled + [Item(p, i)], prod := q.prod[p := PSignal(i)])
       case PSignal(i) => q.(cons := SignalC(q.cons, w), prod := q.prod[p := PUnlock(i)])
       case PUnlock(i) => q.(lock := Free, prod := q.prod[p := Next(cfg, i + 1)])
       case _ => q)
    case Consume(c, w) =>
      (match q.cons[c]
       case CLock => q.(lock := ByConsumer(c), cons := q.cons[c := CCheck])
       case CWake => q.(lock := ByConsumer(c), cons := q.cons[c := CCheck])
       case CCheck =>
         if q.ring.count == 0 && !q.done then q.(lock := Free, cons := q.cons[c := CWait])
         else if q.ring.count == 0 then q.(cons := q.cons[c := CLeave])
         else q.(cons := q.cons[c := CTake])
       case CTake =>
         q.(ring := TakeRing(q.ring), released := q.released + [q.ring.buf[q.ring.head]], cons := q.cons[c := CSignal])
       case CSignal => q.(prod := SignalP(q.prod, w), cons := q.cons[c := CUnlock])
       case CUnlock => q.(lock := Free, consumed := q.consumed[c := q.consumed[c] + 1], cons := q.cons[c := CLock])
       case CLeave => q.(lock := Free, cons := q.cons[c := CExit])
       case _ => q)
    case MainStep =>
      (match q.main
       case MJoin => q.(main := MLock)
       case MLock => q.(lock := ByMain, main := MSetDone)
       case MSetDone => q.(done := true, main := MBroadcast)
       case MBroadcast => q.(cons := BroadcastC(q.cons), main := MUnlock)
       case MUnlock => q.(lock := Free, main := MCollect)
       case MCollect => q.(main := MFinished)
       case MFinished => q)
    case SpuriousP(p) => q.(prod := q.prod[p := WakeP(q.prod[p])])
    case SpuriousC(c) => q.(cons := q.cons[c := WakeC(q.cons[c])])
  }

  /** Any sleeper may wake spuriously, and any one of them may be the one a signal wakes. */
  lemma AnySleeperMayWake(cfg: Config, q: Sys, p: nat, c: nat)
    requires p < |q.prod| && c < |q.cons|
    ensures q.prod[p].PWait? ==>
              && Can(q, SpuriousP(p)) && InBounds(q, SpuriousP(p))
              && Step(cfg, q, SpuriousP(p)).prod == q.prod[p := PWake(q.prod[p].i)]
    ensures q.cons[c].CWait? ==>
              && Can(q, SpuriousC(c)) && InBounds(q, SpuriousC(c))
              && Step(cfg, q, SpuriousC(c)).cons == q.cons[c := CWake]
    ensures q.prod[p].PSignal? && q.cons[c].CWait? ==>
              Can(q, Produce(p, c)) && Step(cfg, q, Produce(p, c)).cons == q.cons[c := CWake]
    ensures q.cons[c].CSignal? && q.prod[p].PWait? && c < |q.consumed| ==>
              Can(q, Consume(c, p)) && Step(cfg, q, Consume(c, p)).prod == q.prod[p := PWake(q.prod[p].i)]
  {
  }

  // ---------------------------------------------------------------- mutual exclusion

  predicate InsideP(x: Producer) { x.PCheck? || x.PPut? || x.PSignal? || x.PUnlock? }

  predicate InsideC(x: Consumer) { x.CCheck? || x.CTake? || x.CSignal? || x.CUnlock? || x.CLeave? }

  predicate InsideM(x: Main) { x.MSetDone? || x.MBroadcast? || x.MUnlock? }

  ghost predicate ProducerOk(cfg: Config, q: Sys, p: nat)
    requires p < |q.prod|
  {
    var x := q.prod[p];
    && (InsideP(x) <==> q.lock == ByProducer(p))
    && (if x.PDone? then x.i == cfg.items else x.i < cfg.items)
    && (x.PPut? ==> q.ring.count < cfg.size)
  }

  ghost predicate ConsumerOk(q: Sys, c: nat)
    requires c < |q.cons|
  {
    var x := q.cons[c];
    && (InsideC(x) <==> q.lock == ByConsumer(c))
    && (x.CTake? ==> 0 < q.ring.count)
    && (x.CLeave? ==> q.done && q.ring.count == 0)
    && (x.CExit? ==> q.done && q.ring.count == 0)
    && (x.CWait? ==> q.main.MJoin? || q.main.MLock? || q.main.MSetDone? || q.main.MBroadcast?)
  }

  ghost predicate MainOk(q: Sys) {
    && (InsideM(q.main) <==> q.lock == ByMain)
    && (q.lock.ByProducer? ==> q.lock.p < |q.prod|)
    && (q.lock.ByConsumer? ==> q.lock.c < |q.cons|)
    && (q.done <==> q.main.MBroadcast? || q.main.MUnlock? || q.main.MCollect? || q.main.MFinished?)
    && (!q.main.MJoin? ==> AllDone(q.prod))
    && (q.main.MFinished? ==> AllExited(q.cons))
  }

  /** Threads, lock, ring and flag fit together; at most one thread is in a critical section. */
  ghost predicate Shape(cfg: Config, q: Sys) {
    && |q.prod| == cfg.producers && |q.cons| == |q.consumed| == cfg.consumers && |q.ring.buf| == cfg.size
    && RingOk(q.ring)
    && (forall p :: 0 <= p < cfg.producers ==> ProducerOk(cfg, q, p))
    && (forall c :: 0 <= c < cfg.consumers ==> ConsumerOk(q, c))
    && MainOk(q)
  }

  lemma BeginShape(cfg: Config)
    requires 0 < cfg.size
    ensures Shape(cfg, Begin(cfg))
  {
  }

  lemma ShapeInBounds(cfg: Config, q: Sys, mv: Move)
    requires Shape(cfg, q) && Can(q, mv)
    ensures InBounds(q, mv)
  {
    if mv.Consume? { assert ConsumerOk(q, mv.c); }
  }

  lemma StepProducers(cfg: Config, q: Sys, mv: Move, p: nat)
    requires Shape(cfg, q) && Can(q, mv) && InBounds(q, mv) && p < cfg.producers
    ensures |Step(cfg, q, mv).prod| == cfg.producers && ProducerOk(cfg, Step(cfg, q, mv), p)
  {
    assert ProducerOk(cfg, q, p);
    match mv {
      case Produce(r, _) => assert ProducerOk(cfg, q, r);
      case Consume(c, _) => assert ConsumerOk(q, c);
      case MainStep =>
      case SpuriousP(r) => assert ProducerOk(cfg, q, r);
      case SpuriousC(c) =>
    }
  }

  lemma StepConsumers(cfg: Config, q: Sys, mv: Move, c: nat)
    requires Shape(cfg, q) && Can(q, mv) && InBounds(q, mv) && c < cfg.consumers
    ensures |Step(cfg, q, mv).cons| == cfg.consumers && ConsumerOk(Step(cfg, q, mv), c)
  {
    assert ConsumerOk(q, c);
    match mv {
      case Produce(r, _) => assert ProducerOk(cfg, q, r);
      case Consume(d, _) => assert ConsumerOk(q, d);
      case MainStep =>
      case SpuriousP(r) =>
      case SpuriousC(d) => assert ConsumerOk(q, d);
    }
  }

  lemma StepMain(cfg: Config, q: Sys, mv: Move)
    requires Shape(cfg, q) && Can(q, mv) && InBounds(q, mv)
    ensures MainOk(Step(cfg, q, mv))
  {
    match mv {
      case Produce(r, _) => assert ProducerOk(cfg, q, r);
      case Consume(d, _) => assert ConsumerOk(q, d);
      case MainStep =>
      case SpuriousP(r) =>
      case SpuriousC(d) =>
    }
  }

  lemma StepRing(cfg: Config, q: Sys, mv: Move)
    requires Shape(cfg, q) && Can(q, mv) && InBounds(q, mv)
    ensures var q' := Step(cfg, q, mv);
            RingOk(q'.ring) && |q'.ring.buf| == cfg.size && |q'.consumed| == cfg.consumers
  {
    if mv.Produce? && q.prod[mv.p].PPut? {
      assert ProducerOk(cfg, q, mv.p);
      PutAppends(q.ring, Item(mv.p, q.prod[mv.p].i));
    } else if mv.Consume? && q.cons[mv.c].CTake? {
      TakeDropsOldest(q.ring);
    }
  }

  lemma StepShape(cfg: Config, q: Sys, mv: Move)
    requires Shape(cfg, q) && Can(q, mv)
    ensures InBounds(q, mv) && Shape(cfg, Step(cfg, q, mv))
  {
    ShapeInBounds(cfg, q, mv);
    hide Step, Can, InBounds, RingOk, ProducerOk, ConsumerOk, MainOk;
    StepRing(cfg, q, mv);
    StepMain(cfg, q, mv);
    var q' := Step(cfg, q, mv);
    forall p | 0 <= p < cfg.producers ensures p < |q'.prod| && ProducerOk(cfg, q', p) {
      StepProducers(cfg, q, mv, p);
    }
    forall c | 0 <= c < cfg.consumers ensures c < |q'.cons| && ConsumerOk(q', c) {
      StepConsumers(cfg, q, mv, c);
    }
    StepLengths(cfg, q, mv);
  }

  lemma StepLengths(cfg: Config, q: Sys, mv: Move)
    requires Can(q, mv) && InBounds(q, mv)
    ensures var q' := Step(cfg, q, mv); |q'.prod| == |q.prod| && |q'.cons| == |q.cons|
  {
  }

  // ---------------------------------------------------------------- no lost wake-up

  /** Awake, and yet to fill a slot in its current round. */
  function MayPut(x: Producer): int { if x.PLock? || x.PCheck? || x.PWake? || x.PPut? then 1 else 0 }

  function OwesSignalP(x: Producer): int { if x.PSignal? then 1 else 0 }

  function MayTake(x: Consumer): int { if x.CLock? || x.CCheck? || x.CWake? || x.CTake? then 1 else 0 }

  function OwesSignalC(x: Consumer): int { if x.CSignal? then 1 else 0 }

  /** If a consumer sleeps, every item has a consumer awake for it or a signal still owed. */
  ghost predicate ItemsHaveTakers(q: Sys) {
    !q.done && SomeoneSleepsC(q.cons) ==> q.ring.count <= Sum(q.cons, MayTake) + Sum(q.prod, OwesSignalP)
  }

  /** If a producer sleeps, every free slot has a producer awake for it or a signal still owed. */
  ghost predicate SlotsHaveFillers(q: Sys) {
    SomeoneSleepsP(q.prod) ==> |q.ring.buf| - q.ring.count <= Sum(q.prod, MayPut) + Sum(q.cons, OwesSignalC)
  }

  lemma SumsNonNegative(q: Sys)
    ensures 0 <= Sum(q.prod, MayPut) && 0 <= Sum(q.prod, OwesSignalP)
    ensures 0 <= Sum(q.cons, MayTake) && 0 <= Sum(q.cons, OwesSignalC)
  {
    SumBounds(q.prod, MayPut, 0, 1);
    SumBounds(q.prod, OwesSignalP, 0, 1);
    SumBounds(q.cons, MayTake, 0, 1);
    SumBounds(q.cons, OwesSignalC, 0, 1);
  }

  /** One producer's change, seen by both sums. */
  lemma ProducerSums(prod: seq<Producer>, p: nat, x: Producer)
    requires p < |prod|
    ensures Sum(prod[p := x], MayPut) == Sum(prod, MayPut) - MayPut(prod[p]) + MayPut(x)
    ensures Sum(prod[p := x], OwesSignalP) == Sum(prod, OwesSignalP) - OwesSignalP(prod[p]) + OwesSignalP(x)
    ensures !x.PWait? && SomeoneSleepsP(prod[p := x]) ==> SomeoneSleepsP(prod)
  {
    SumUpdate(prod, p, x, MayPut);
    SumUpdate(prod, p, x, OwesSignalP);
  }

  lemma ConsumerSums(cons: seq<Consumer>, c: nat, x: Consumer)
    requires c < |cons|
    ensures Sum(cons[c := x], MayTake) == Sum(cons, MayTake) - MayTake(cons[c]) + MayTake(x)
    ensures Sum(cons[c := x], OwesSignalC) == Sum(cons, OwesSignalC) - OwesSignalC(cons[c]) + OwesSignalC(x)
    ensures !x.CWait? && SomeoneSleepsC(cons[c := x]) ==> SomeoneSleepsC(cons)
  {
    SumUpdate(cons, c, x, MayTake);
    SumUpdate(cons, c, x, OwesSignalC);
  }

  ghost predicate Awake(q: Sys) {
    ItemsHaveTakers(q) && SlotsHaveFillers(q)
  }

  lemma ProducerKeepsAwake(cfg: Config, q: Sys, p: nat, w: nat)
    requires Shape(cfg, q) && Awake(q) && Can(q, Produce(p, w)) && InBounds(q, Produce(p, w))
    ensures Awake(Step(cfg, q, Produce(p, w)))
  {
    var q' := Step(cfg, q, Produce(p, w));
    assert ProducerOk(cfg, q, p);
    SumsNonNegative(q);
    ProducerSums(q.prod, p, q'.prod[p]);
    assert q'.prod == q.prod[p := q'.prod[p]];
    if q.prod[p].PSignal? && w < |q.cons| {
      ConsumerSums(q.cons, w, WakeC(q.cons[w]));
    }
    SumsNonNegative(q');
  }

  lemma ConsumerKeepsAwake(cfg: Config, q: Sys, c: nat, w: nat)
    requires Shape(cfg, q) && Awake(q) && Can(q, Consume(c, w)) && InBounds(q, Consume(c, w))
    ensures Awake(Step(cfg, q, Consume(c, w)))
  {
    var q' := Step(cfg, q, Consume(c, w));
    assert ConsumerOk(q, c);
    SumsNonNegative(q);
    ConsumerSums(q.cons, c, q'.cons[c]);
    assert q'.cons == q.cons[c := q'.cons[c]];
    if q.cons[c].CSignal? && w < |q.prod| {
      ProducerSums(q.prod, w, WakeP(q.prod[w]));
    }
    SumsNonNegative(q');
  }

  lemma {:induction false} BroadcastSums(cons: seq<Consumer>)
    ensures Sum(BroadcastC(cons), OwesSignalC) == Sum(cons, OwesSignalC)
  {
    if cons != [] {
      var last := |cons| - 1;
      BroadcastSums(cons[..last]);
      assert BroadcastC(cons)[..last] == BroadcastC(cons[..last]);
    }
  }

  lemma StepAwake(cfg: Config, q: Sys, mv: Move)
    requires Shape(cfg, q) && Awake(q) && Can(q, mv) && InBounds(q, mv)
    ensures Awake(Step(cfg, q, mv))
  {
    match mv {
      case Produce(p, w) => ProducerKeepsAwake(cfg, q, p, w);
      case Consume(c, w) => ConsumerKeepsAwake(cfg, q, c, w);
      case MainStep => BroadcastSums(q.cons);
      case SpuriousP(p) => ProducerSums(q.prod, p, WakeP(q.prod[p]));
      case SpuriousC(c) => ConsumerSums(q.cons, c, WakeC(q.cons[c]));
    }
  }

  /** A step that somebody can take without a spurious wake-up. */
  ghost predicate CanGoOn(q: Sys) {
    exists mv :: Can(q, mv) && !mv.SpuriousP? && !mv.SpuriousC?
  }

  lemma HolderCanGoOn(cfg: Config, q: Sys)
    requires Shape(cfg, q) && !q.lock.Free?
    ensures CanGoOn(q)
  {
    match q.lock {
      case ByProducer(p) =>
        assert ProducerOk(cfg, q, p);
        var w := if c :| 0 <= c < |q.cons| && q.cons[c].CWait? then c else 0;
        assert Can(q, Produce(p, w));
      case ByConsumer(c) =>
        assert ConsumerOk(q, c);
        var w := if p :| 0 <= p < |q.prod| && q.prod[p].PWait? then p else 0;
        assert Can(q, Consume(c, w));
      case ByMain =>
        assert Can(q, MainStep);
      case Free =>
    }
  }

  /** Nobody inside, nobody queueing for the mutex: everyone left is asleep or has returned. */
  ghost predicate AllAsleep(q: Sys) {
    && (forall p :: 0 <= p < |q.prod| ==> q.prod[p].PWait? || q.prod[p].PDone?)
    && (forall c :: 0 <= c < |q.cons| ==> q.cons[c].CWait? || q.cons[c].CExit?)
  }

  lemma FreeLockOrAllAsleep(cfg: Config, q: Sys)
    requires Shape(cfg, q) && q.lock.Free?
    ensures CanGoOn(q) || AllAsleep(q)
  {
    if p :| 0 <= p < |q.prod| && !q.prod[p].PWait? && !q.prod[p].PDone? {
      assert ProducerOk(cfg, q, p);
      assert Can(q, Produce(p, 0));
    } else if c :| 0 <= c < |q.cons| && !q.cons[c].CWait? && !q.cons[c].CExit? {
      assert ConsumerOk(q, c);
      assert Can(q, Consume(c, 0));
    }
  }

  /** Nobody awake and nothing owed: both sums are zero, so the buffer would be empty and full. */
  lemma AllAsleepContradiction(cfg: Config, q: Sys)
    requires Shape(cfg, q) && Awake(q) && 0 < cfg.consumers && 0 < cfg.size
    requires AllAsleep(q) && q.main.MJoin?
    ensures AllDone(q.prod)
  {
    SumBounds(q.prod, MayPut, 0, 0);
    SumBounds(q.prod, OwesSignalP, 0, 0);
    SumBounds(q.cons, MayTake, 0, 0);
    SumBounds(q.cons, OwesSignalC, 0, 0);
    assert ConsumerOk(q, 0);
    assert q.cons[0].CWait?;
  }

  /**
   Deadlock freedom: with at least one consumer and one slot, until the main thread has joined
   everybody some thread can take a step that is not a spurious wake-up.
   */
  lemma NoDeadlock(cfg: Config, q: Sys)
    requires Shape(cfg, q) && Awake(q) && 0 < cfg.consumers && 0 < cfg.size && !q.main.MFinished?
    ensures CanGoOn(q)
  {
    if !q.lock.Free? {
      HolderCanGoOn(cfg, q);
    } else {
      FreeLockOrAllAsleep(cfg, q);
      if AllAsleep(q) {
        if q.main.MJoin? {
          AllAsleepContradiction(cfg, q);
        } else if q.main.MCollect? {
          forall c | 0 <= c < |q.cons| ensures q.cons[c].CExit? {
            assert ConsumerOk(q, c);
          }
        }
        assert Can(q, MainStep);
      }
    }
  }

  // ---------------------------------------------------------------- first in, first out

  /** What was put is what was released, in the same order, followed by what the ring holds. */
  ghost predicate Fifo(q: Sys) {
    0 < |q.ring.buf| && q.filled == q.released + Contents(q.ring)
  }

  lemma StepFifo(cfg: Config, q: Sys, mv: Move)
    requires Shape(cfg, q) && Fifo(q) && Can(q, mv) && InBounds(q, mv)
    ensures Fifo(Step(cfg, q, mv))
  {
    if mv.Produce? && q.prod[mv.p].PPut? {
      assert ProducerOk(cfg, q, mv.p);
      PutAppends(q.ring, Item(mv.p, q.prod[mv.p].i));
    } else if mv.Consume? && q.cons[mv.c].CTake? {
      TakeKeepsOrder(q.filled, q.released, q.ring);
    }
  }

  lemma TakeKeepsOrder(filled: seq<int>, released: seq<int>, q: Ring)
    requires RingOk(q) && 0 < q.count && filled == released + Contents(q)
    ensures filled == released + [q.buf[q.head]] + Contents(TakeRing(q))
  {
    TakeDropsOldest(q);
    OldestIsAtHead(q);
    assert Contents(q) == [Contents(q)[0]] + Contents(q)[1..];
  }

  lemma OldestIsAtHead(q: Ring)
    requires RingOk(q) && 0 < q.count
    ensures Contents(q)[0] == q.buf[q.head]
  {
    ModSmall(q.head, |q.buf|);
  }

  lemma ModSmall(a: nat, n: nat)
    requires a < n
    ensures a % n == a
  {
  }

  // ---------------------------------------------------------------- totals

  function PutBy(x: Producer): nat { if x.PSignal? || x.PUnlock? then x.i + 1 else x.i }

  function PutCounts(prod: seq<Producer>): seq<nat> {
    seq(|prod|, p requires 0 <= p < |prod| => PutBy(prod[p]))
  }

  function PutInt(x: Producer): int { PutBy(x) }

  function Uncounted(x: Consumer): int { if x.CSignal? || x.CUnlock? then 1 else 0 }

  ghost predicate FilledItems(filled: seq<int>, prod: seq<Producer>) {
    multiset(filled) == AllItems(PutCounts(prod))
  }

  ghost predicate Totals(q: Sys) {
    && |q.filled| == Sum(q.prod, PutInt)
    && |q.released| == Sum<nat>(q.consumed, Value) + Sum(q.cons, Uncounted)
    && FilledItems(q.filled, q.prod)
  }

  lemma FilledAfterPut(filled: seq<int>, prod: seq<Producer>, p: nat)
    requires FilledItems(filled, prod) && p < |prod| && prod[p].PPut?
    ensures FilledItems(filled + [Item(p, prod[p].i)], prod[p := PSignal(prod[p].i)])
  {
    hide AllItems;
    var counts := PutCounts(prod);
    AllItemsBump(counts, p);
    assert PutCounts(prod[p := PSignal(prod[p].i)]) == counts[p := counts[p] + 1];
  }

  lemma FilledSame(filled: seq<int>, prod: seq<Producer>, p: nat, x: Producer)
    requires FilledItems(filled, prod) && p < |prod| && PutBy(x) == PutBy(prod[p])
    ensures FilledItems(filled, prod[p := x])
  {
    assert PutCounts(prod[p := x]) == PutCounts(prod);
  }

  lemma ProducerTotals(cfg: Config, q: Sys, p: nat, w: nat)
    requires Shape(cfg, q) && Totals(q) && Can(q, Produce(p, w)) && InBounds(q, Produce(p, w))
    ensures Totals(Step(cfg, q, Produce(p, w)))
  {
    hide FilledItems, Sum, PutRing, TakeRing;
    var q' := Step(cfg, q, Produce(p, w));
    var x := q'.prod[p];
    assert ProducerOk(cfg, q, p);
    assert q'.prod == q.prod[p := x];
    SumUpdate(q.prod, p, x, PutInt);
    if q.prod[p].PPut? {
      FilledAfterPut(q.filled, q.prod, p);
    } else {
      FilledSame(q.filled, q.prod, p, x);
    }
    if q.prod[p].PSignal? && w < |q.cons| {
      SumUpdate(q.cons, w, WakeC(q.cons[w]), Uncounted);
    }
  }

  lemma ConsumerTotals(cfg: Config, q: Sys, c: nat, w: nat)
    requires Shape(cfg, q) && Totals(q) && Can(q, Consume(c, w)) && InBounds(q, Consume(c, w))
    ensures Totals(Step(cfg, q, Consume(c, w)))
  {
    hide FilledItems, Shape, PutRing, TakeRing, Next, AllItems, Sum;
    var q' := Step(cfg, q, Consume(c, w));
    assert q'.cons == q.cons[c := q'.cons[c]];
    SumUpdate(q.cons, c, q'.cons[c], Uncounted);
    if q.cons[c].CUnlock? {
      SumUpdate<nat>(q.consumed, c, q.consumed[c] + 1, Value);
    }
    if q.cons[c].CSignal? && w < |q.prod| {
      SumUpdate(q.prod, w, WakeP(q.prod[w]), PutInt);
      FilledSame(q.filled, q.prod, w, WakeP(q.prod[w]));
    }
  }

  lemma {:induction false} BroadcastTotals(cons: seq<Consumer>)
    ensures Sum(BroadcastC(cons), Uncounted) == Sum(cons, Uncounted)
  {
    if cons != [] {
      var last := |cons| - 1;
      BroadcastTotals(cons[..last]);
      assert BroadcastC(cons)[..last] == BroadcastC(cons[..last]);
    }
  }

  lemma StepTotals(cfg: Config, q: Sys, mv: Move)
    requires Shape(cfg, q) && Totals(q) && Can(q, mv) && InBounds(q, mv)
    ensures Totals(Step(cfg, q, mv))
  {
    match mv {
      case Produce(p, w) => ProducerTotals(cfg, q, p, w);
      case Consume(c, w) => ConsumerTotals(cfg, q, c, w);
      case MainStep => BroadcastTotals(q.cons);
      case SpuriousP(p) =>
        SumUpdate(q.prod, p, WakeP(q.prod[p]), PutInt);
        FilledSame(q.filled, q.prod, p, WakeP(q.prod[p]));
      case SpuriousC(c) =>
        SumUpdate(q.cons, c, WakeC(q.cons[c]), Uncounted);
    }
  }

  lemma PutsAreBounded(cfg: Config, q: Sys)
    requires Shape(cfg, q) && Totals(q) && Fifo(q)
    ensures |q.released| <= |q.filled| <= cfg.producers * cfg.items
  {
    forall p | 0 <= p < |q.prod| ensures 0 <= PutInt(q.prod[p]) <= cfg.items {
      assert ProducerOk(cfg, q, p);
    }
    SumBounds(q.prod, PutInt, 0, cfg.items);
  }

  // ---------------------------------------------------------------- every run ends

  /** An upper bound on the steps still to come, apart from those paid for by spurious wake-ups. */
  function WorkP(cfg: Config, x: Producer): int {
    var left := 7 * (cfg.items - x.i);
    match x
    case PLock(_) => left
    case PCheck(_) => left - 1
    case PWait(_) => left - 2
    case PWake(_) => left
    case PPut(_) => left - 2
    case PSignal(_) => left - 3
    case PUnlock(_) => left - 6
    case PDone(_) => left
  }

  function WorkC(x: Consumer): int {
    match x
    case CLock => 3
    case CCheck => 2
    case CWait => 1
    case CWake => 3
    case CTake => 1
    case CSignal => 7
    case CUnlock => 4
    case CLeave => 1
    case CExit => 0
  }

  function WorkM(cfg: Config, x: Main): int {
    match x
    case MJoin => 6 + 2 * cfg.consumers
    case MLock => 5 + 2 * cfg.consumers
    case MSetDone => 4 + 2 * cfg.consumers
    case MBroadcast => 3 + 2 * cfg.consumers
    case MUnlock => 2
    case MCollect => 1
    case MFinished => 0
  }

  function SumWorkP(cfg: Config, prod: seq<Producer>): int {
    if prod == [] then 0 else SumWorkP(cfg, prod[..|prod| - 1]) + WorkP(cfg, prod[|prod| - 1])
  }

  function Work(cfg: Config, q: Sys): int {
    SumWorkP(cfg, q.prod) + Sum(q.cons, WorkC) + WorkM(cfg, q.main)
      + 7 * (cfg.producers * cfg.items - |q.released|)
  }

  lemma {:induction false} SumWorkUpdate(cfg: Config, prod: seq<Producer>, p: nat, x: Producer)
    requires p < |prod|
    ensures SumWorkP(cfg, prod[p := x]) == SumWorkP(cfg, prod) - WorkP(cfg, prod[p]) + WorkP(cfg, x)
  {
    var last := |prod| - 1;
    if p < last {
      SumWorkUpdate(cfg, prod[..last], p, x);
      assert prod[p := x][..last] == prod[..last][p := x];
    } else {
      assert prod[p := x][..last] == prod[..last];
    }
  }

  lemma {:induction false} SumWorkNonNegative(cfg: Config, prod: seq<Producer>)
    requires forall p :: 0 <= p < |prod| ==> prod[p].i < cfg.items || (prod[p].PDone? && prod[p].i == cfg.items)
    ensures 0 <= SumWorkP(cfg, prod)
  {
    if prod != [] {
      SumWorkNonNegative(cfg, prod[..|prod| - 1]);
    }
  }

  lemma {:induction false} BroadcastWork(cons: seq<Consumer>)
    ensures Sum(BroadcastC(cons), WorkC) <= Sum(cons, WorkC) + 2 * |cons|
  {
    if cons != [] {
      var last := |cons| - 1;
      BroadcastWork(cons[..last]);
      assert BroadcastC(cons)[..last] == BroadcastC(cons[..last]);
    }
  }

  lemma ProducerWorks(cfg: Config, q: Sys, p: nat, w: nat)
    requires Shape(cfg, q) && Can(q, Produce(p, w)) && InBounds(q, Produce(p, w))
    ensures Work(cfg, Step(cfg, q, Produce(p, w))) + 1 <= Work(cfg, q)
  {
    var q' := Step(cfg, q, Produce(p, w));
    assert ProducerOk(cfg, q, p);
    assert q'.prod == q.prod[p := q'.prod[p]];
    SumWorkUpdate(cfg, q.prod, p, q'.prod[p]);
    if q.prod[p].PSignal? && w < |q.cons| {
      SumUpdate(q.cons, w, WakeC(q.cons[w]), WorkC);
    }
  }

  lemma ConsumerWorks(cfg: Config, q: Sys, c: nat, w: nat)
    requires Shape(cfg, q) && Can(q, Consume(c, w)) && InBounds(q, Consume(c, w))
    ensures Work(cfg, Step(cfg, q, Consume(c, w))) + 1 <= Work(cfg, q)
  {
    var q' := Step(cfg, q, Consume(c, w));
    assert q'.cons == q.cons[c := q'.cons[c]];
    SumUpdate(q.cons, c, q'.cons[c], WorkC);
    if q.cons[c].CSignal? && w < |q.prod| {
      SumWorkUpdate(cfg, q.prod, w, WakeP(q.prod[w]));
    }
  }

  /** Every step uses up work; a spurious wake-up adds two units and is itself a step, three in all. */
  lemma StepWorks(cfg: Config, q: Sys, mv: Move)
    requires Shape(cfg, q) && Can(q, mv) && InBounds(q, mv)
    ensures Work(cfg, Step(cfg, q, mv)) + 1
         <= Work(cfg, q) + if mv.SpuriousP? || mv.SpuriousC? then 3 else 0
  {
    match mv {
      case Produce(p, w) => ProducerWorks(cfg, q, p, w);
      case Consume(c, w) => ConsumerWorks(cfg, q, c, w);
      case MainStep => BroadcastWork(q.cons);
      case SpuriousP(p) => SumWorkUpdate(cfg, q.prod, p, WakeP(q.prod[p]));
      case SpuriousC(c) => SumUpdate(q.cons, c, WakeC(q.cons[c]), WorkC);
    }
  }

  // ---------------------------------------------------------------- whole runs

  ghost predicate Good(cfg: Config, q: Sys) {
    Shape(cfg, q) && Awake(q) && Fifo(q) && Totals(q)
  }

  lemma BeginGood(cfg: Config)
    requires 0 < cfg.size
    ensures Good(cfg, Begin(cfg))
  {
    var q := Begin(cfg);
    BeginShape(cfg);
    assert q.ring.count == 0;
    SumBounds(q.prod, PutInt, 0, 0);
    SumBounds(q.cons, Uncounted, 0, 0);
    SumBounds<nat>(q.consumed, Value, 0, 0);
    AllItemsNone(PutCounts(q.prod));
    assert Contents(q.ring) == [];
  }

  lemma StepGood(cfg: Config, q: Sys, mv: Move)
    requires Good(cfg, q) && Can(q, mv)
    ensures InBounds(q, mv) && Good(cfg, Step(cfg, q, mv))
  {
    hide Shape, Awake, Fifo, Totals, Step, Can, InBounds;
    StepShape(cfg, q, mv);
    StepAwake(cfg, q, mv);
    StepFifo(cfg, q, mv);
    StepTotals(cfg, q, mv);
  }

  ghost predicate Leads(cfg: Config, q: Sys, moves: seq<Move>, q': Sys)
    decreases |moves|
  {
    if moves == [] then q' == q
    else Can(q, moves[0]) && InBounds(q, moves[0]) && Leads(cfg, Step(cfg, q, moves[0]), moves[1..], q')
  }

  lemma {:induction false} RunGood(cfg: Config, q: Sys, moves: seq<Move>, q': Sys)
    requires Good(cfg, q) && Leads(cfg, q, moves, q')
    ensures Good(cfg, q')
    decreases |moves|
  {
    if moves != [] {
      StepGood(cfg, q, moves[0]);
      RunGood(cfg, Step(cfg, q, moves[0]), moves[1..], q');
    }
  }

  function Spurious(moves: seq<Move>): nat {
    if moves == [] then 0
    else Spurious(moves[1..]) + if moves[0].SpuriousP? || moves[0].SpuriousC? then 1 else 0
  }

  lemma {:induction false} RunWorks(cfg: Config, q: Sys, moves: seq<Move>, q': Sys)
    requires Good(cfg, q) && Leads(cfg, q, moves, q')
    ensures |moves| + Work(cfg, q') <= Work(cfg, q) + 3 * Spurious(moves)
    decreases |moves|
  {
    if moves != [] {
      StepGood(cfg, q, moves[0]);
      StepWorks(cfg, q, moves[0]);
      RunWorks(cfg, Step(cfg, q, moves[0]), moves[1..], q');
    }
  }

  lemma WorkNonNegative(cfg: Config, q: Sys)
    requires Good(cfg, q)
    ensures 0 <= Work(cfg, q)
  {
    PutsAreBounded(cfg, q);
    forall p | 0 <= p < |q.prod|
      ensures q.prod[p].i < cfg.items || (q.prod[p].PDone? && q.prod[p].i == cfg.items)
    {
      assert ProducerOk(cfg, q, p);
    }
    SumWorkNonNegative(cfg, q.prod);
    SumBounds(q.cons, WorkC, 0, 7);
  }

  lemma {:induction false} BeginWork(cfg: Config, prod: seq<Producer>)
    requires forall p :: 0 <= p < |prod| ==> prod[p] == Next(cfg, 0)
    ensures SumWorkP(cfg, prod) == |prod| * (7 * cfg.items)
  {
    if prod != [] {
      BeginWork(cfg, prod[..|prod| - 1]);
      assert |prod| * (7 * cfg.items) == (|prod| - 1) * (7 * cfg.items) + 7 * cfg.items;
    }
  }

  lemma WorkAtBegin(cfg: Config)
    ensures Work(cfg, Begin(cfg)) == 14 * (cfg.producers * cfg.items) + 5 * cfg.consumers + 6
  {
    var q0 := Begin(cfg);
    BeginWork(cfg, q0.prod);
    SumBounds(q0.cons, WorkC, 3, 3);
    assert cfg.producers * (7 * cfg.items) == 7 * (cfg.producers * cfg.items);
  }

  /**
   Every run is bounded: with P producers of K items and C consumers, a run has at most
   14 P K + 5 C + 6 steps, plus three for each spurious wake-up.
   */
  lemma RunsAreBounded(cfg: Config, moves: seq<Move>, q: Sys)
    requires 0 < cfg.size && Leads(cfg, Begin(cfg), moves, q)
    ensures |moves| <= 14 * (cfg.producers * cfg.items) + 5 * cfg.consumers + 6 + 3 * Spurious(moves)
  {
    BeginGood(cfg);
    RunGood(cfg, Begin(cfg), moves, q);
    RunWorks(cfg, Begin(cfg), moves, q);
    hide Leads, Good, Work, Begin;
    WorkNonNegative(cfg, q);
    WorkAtBegin(cfg);
  }

  /**
   The end of every run: a run that cannot go on has joined everybody, the consumers' counts add up
   to producers times items, every item made has been put and released in the same order, and the
   buffer is empty.
   */
  lemma EndOfRun(cfg: Config, moves: seq<Move>, q: Sys)
    requires 0 < cfg.size && 0 < cfg.consumers
    requires Leads(cfg, Begin(cfg), moves, q) && !CanGoOn(q)
    ensures q.main.MFinished?
    ensures Sum<nat>(q.consumed, Value) == cfg.producers * cfg.items
    ensures q.released == q.filled && multiset(q.filled) == AllProduced(cfg.producers, cfg.items)
    ensures forall v :: v in q.filled <==> IsMade(v, cfg.producers, cfg.items)
    ensures q.ring.count == 0
  {
    BeginGood(cfg);
    RunGood(cfg, Begin(cfg), moves, q);
    hide Leads, Good, Shape, Awake, Fifo, Totals, CanGoOn;
    if !q.main.MFinished? {
      NoDeadlock(cfg, q) by { GoodParts(cfg, q); }
    }
    FinalState(cfg, q);
    assert multiset(q.filled) + multiset([]) == multiset(q.filled);
    MembersOfBoth(q.filled, [], cfg.producers, cfg.items);
  }

  lemma GoodParts(cfg: Config, q: Sys)
    requires Good(cfg, q)
    ensures Shape(cfg, q) && Awake(q) && Fifo(q) && Totals(q)
  {
  }

  lemma FinalState(cfg: Config, q: Sys)
    requires Good(cfg, q) && q.main.MFinished? && 0 < cfg.consumers
    ensures Sum<nat>(q.consumed, Value) == cfg.producers * cfg.items
    ensures q.released == q.filled && multiset(q.filled) == AllProduced(cfg.producers, cfg.items)
    ensures q.ring.count == 0
  {
    hide Awake, AllItems;
    assert ConsumerOk(q, 0) && q.cons[0].CExit?;
    assert q.filled == q.released + Contents(q.ring) && Contents(q.ring) == [];
    forall p | 0 <= p < |q.prod| ensures q.prod[p] == PDone(cfg.items) {
      assert ProducerOk(cfg, q, p);
    }
    SumBounds(q.prod, PutInt, cfg.items, cfg.items);
    SumBounds(q.cons, Uncounted, 0, 0);
    assert PutCounts(q.prod) == seq(cfg.producers, _ => cfg.items);
  }
}
