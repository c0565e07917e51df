/**
 run_cas of bench.c: P producers that each push K items, C consumers that pop until they see an
 empty stack and then `cas_done`, and the main thread that joins.  P, C and K are parameters.
 Thread numbers are 0..P for the producers and P..P+C for the consumers.
 */
module RunCas {
  import opened Tally
  import opened CasStack
  import opened Wrappers
  import opened Items

  datatype Config = Config(producers: nat, consumers: nat, items: nat)

  /** cas_producer: allocate, write `val`, run the push loop, bump push_count. */
  datatype Producer =
    | Allocate(i: nat)
    | SetVal(i: nat, node: nat)
    | InPush(i: nat, node: nat)
    | BumpPush(i: nat)
    | Returned(i: nat)

  /** cas_consumer: run the pop loop, read `val`, bump pop_count; on "empty" look at cas_done. */
  datatype Consumer = Start | InPop | GetVal(node: nat) | BumpPop | CheckDone | Exited

  datatype Main = JoinProducers | JoinConsumers | Finished

  datatype Run = Run(
    m: Mem,
    val: map<nat, int>,
    prod: seq<Producer>,
    cons: seq<Consumer>,
    consumed: seq<nat>,   // each consumer's local count
    taken: seq<int>,      // history: the values read by consumers
    pushCount: nat,
    popCount: nat,
    done: bool,
    doneAt: nat,          // history: length of the log when cas_done was stored
    main: Main)

  datatype Move = Produce(p: nat, spurious: bool) | Consume(c: nat, spurious: bool) | MainStep

  const POOL_SLACK: nat := 16

  function PoolSize(cfg: Config): nat { cfg.producers * cfg.items + POOL_SLACK }

  function Begin(cfg: Config): Run {
    Run(Init(cfg.producers + cfg.consumers), map[], seq(cfg.producers, _ => Allocate(0)),
        seq(cfg.consumers, _ => Start), seq(cfg.consumers, _ => 0), [], 0, 0, false, 0, JoinProducers)
  }

  predicate AllReturned(prod: seq<Producer>) {
    forall p :: 0 <= p < |prod| ==> prod[p].Returned?
  }

  predicate AllExited(cons: seq<Consumer>) {
    forall c :: 0 <= c < |cons| ==> cons[c].Exited?
  }

  predicate Can(r: Run, mv: Move) {
    match mv
    case Produce(p, _) => p < |r.prod| && !r.prod[p].Returned?
    case Consume(c, _) => c < |r.cons| && !r.cons[c].Exited?
    case MainStep =>
      (r.main.JoinProducers? && AllReturned(r.prod)) || (r.main.JoinConsumers? && AllExited(r.cons))
  }

  /** The access to the stack's memory that a move makes, if any. */
  function Access(cfg: Config, r: Run, mv: Move): Option<Choice>
    requires Can(r, mv)
  {
    match mv
    case Produce(p, spurious) =>
      (match r.prod[p]
       case Allocate(i) => if i < cfg.items then Some(Choice(p, Alloc)) else None
       case SetVal(_, n) => Some(Choice(p, BeginPush(n)))
       case InPush(_, _) => Some(Choice(p, Advance(spurious)))
       case _ => None)
    case Consume(c, spurious) =>
      (match r.cons[c]
       case Start => Some(Choice(cfg.producers + c, BeginPop))
       case InPop => Some(Choice(cfg.producers + c, Advance(spurious)))
       case _ => None)
    case MainStep => None
  }

  predicate AccessOk(cfg: Config, r: Run, mv: Move)
    requires Can(r, mv)
  {
    Access(cfg, r, mv).Some? ==> Enabled(r.m, Access(cfg, r, mv).value)
  }

  function MemAfter(cfg: Config, r: Run, mv: Move): Mem
    requires Can(r, mv) && AccessOk(cfg, r, mv)
  {
    match Access(cfg, r, mv)
    case None => r.m
    case Some(c) => Do(r.m, c)
  }

  function EventsOf(cfg: Config, r: Run, mv: Move): seq<Event>
    requires Can(r, mv) && AccessOk(cfg, r, mv)
  {
    match Access(cfg, r, mv)
    case None => []
    case Some(c) => Logged(r.m, c)
  }

  function Step(cfg: Config, r: Run, mv: Move): Run
    requires Can(r, mv) && AccessOk(cfg, r, mv)
  {
    var r' := r.(m := MemAfter(cfg, r, mv));
    var events := EventsOf(cfg, r, mv);
    match mv
    case Produce(p, _) =>
      (match r.prod[p]
       case Allocate(i) =>
         if i < cfg.items then r'.(prod := r.prod[p := SetVal(i, r.m.brk)])
         else r'.(prod := r.prod[p := Returned(i)])
       case SetVal(i, n) => r'.(val := r.val[n := Item(p, i)], prod := r.prod[p := InPush(i, n)])
       case InPush(i, n) => if events == [] then r' else r'.(prod := r.prod[p := BumpPush(i)])
       case BumpPush(i) => r'.(pushCount := r.pushCount + 1, prod := r.prod[p := Allocate(i + 1)])
       case Returned(_) => r')
    case Consume(c, _) =>
      (match r.cons[c]
       case Start => r'.(cons := r.cons[c := InPop])
       case InPop =>
         if events == [] then r'
         else if events[0].SawEmpty? then r'.(cons := r.cons[c := CheckDone])
         else r'.(cons := r.cons[c := GetVal(events[0].node)])
       case GetVal(n) =>
         r'.(taken := r.taken + [if n in r.val then r.val[n] else 0], cons := r.cons[c := BumpPop])
       case BumpPop =>
         r'.(popCount := r.popCount + 1, cons := r.cons[c := Start],
             consumed := if c < |r.consumed| then r.consumed[c := r.consumed[c] + 1] else r.consumed)
       case CheckDone => r'.(cons := r.cons[c := if r.done then Exited else Start])
       case Exited => r')
    case MainStep =>
      if r.main.JoinProducers? then r'.(done := true, doneAt := |r.m.log|, main := JoinConsumers)
      else r'.(main := Finished)
  }

  // ---------------------------------------------------------------- who is where

  ghost predicate ProducerOk(cfg: Config, r: Run, p: nat)
    requires p < |r.prod| && p < |r.m.pc|
  {
    var pc := r.m.pc[p];
    match r.prod[p]
    case Allocate(i) => i <= cfg.items && pc.Idle?
    case SetVal(i, n) =>
      && i < cfg.items && pc.Idle? && n in r.m.owner && r.m.owner[n] == p
      && forall u :: 0 <= u < |r.m.pc| ==> !InWindow(r.m.pc[u], n)
    case InPush(i, n) => i < cfg.items && Pushing(pc, n) && n in r.val && r.val[n] == Item(p, i)
    case BumpPush(i) => i < cfg.items && pc.Idle?
    case Returned(i) => i == cfg.items && pc.Idle?
  }

  ghost predicate ConsumerOk(cfg: Config, r: Run, c: nat)
    requires c < |r.cons| && cfg.producers + c < |r.m.pc|
  {
    var pc := r.m.pc[cfg.producers + c];
    if r.cons[c].InPop? then Popping(pc) else pc.Idle?
  }

  ghost predicate Shape(cfg: Config, r: Run) {
    && Inv(r.m)
    && |r.m.pc| == cfg.producers + cfg.consumers
    && |r.prod| == cfg.producers && |r.cons| == |r.consumed| == cfg.consumers
    && (forall p :: 0 <= p < cfg.producers ==> ProducerOk(cfg, r, p))
    && (forall c :: 0 <= c < cfg.consumers ==> ConsumerOk(cfg, r, c))
  }

  /** A popped node belongs to a consumer for ever. */
  ghost predicate PoppedStayOut(cfg: Config, r: Run) {
    forall k :: 0 <= k < |r.m.log| && r.m.log[k].Popped? ==>
      r.m.log[k].node in r.m.owner && r.m.owner[r.m.log[k].node] >= cfg.producers
  }

  lemma BeginShape(cfg: Config)
    ensures Shape(cfg, Begin(cfg)) && PoppedStayOut(cfg, Begin(cfg))
  {
    InitInv(cfg.producers + cfg.consumers);
  }

  /** Every access a thread of the program makes is a careful step of CasStack. */
  lemma AccessIsCareful(cfg: Config, r: Run, mv: Move)
    requires Shape(cfg, r) && Can(r, mv)
    ensures AccessOk(cfg, r, mv)
    ensures Access(cfg, r, mv).Some? ==> Careful(r.m, Access(cfg, r, mv).value)
    ensures Inv(MemAfter(cfg, r, mv))
  {
    InvFacts(r.m);
    match mv {
      case Produce(p, _) => assert ProducerOk(cfg, r, p);
      case Consume(c, _) => assert ConsumerOk(cfg, r, c);
      case MainStep =>
    }
    if Access(cfg, r, mv).Some? {
      StepInv(r.m, Access(cfg, r, mv).value);
    }
  }

  lemma ProducerKeepsItself(cfg: Config, r: Run, p: nat, spurious: bool)
    requires Shape(cfg, r) && Can(r, Produce(p, spurious)) && AccessOk(cfg, r, Produce(p, spurious))
    ensures var r' := Step(cfg, r, Produce(p, spurious));
            && |r'.prod| == |r.prod| && |r'.m.pc| == |r.m.pc| && ProducerOk(cfg, r', p)
  {
    assert ProducerOk(cfg, r, p);
    match r.prod[p] {
      case Allocate(i) => NewNodeUnseen(r.m, p);
      case SetVal(i, n) =>
      case InPush(i, n) => AdvancePush(r.m, p, spurious, n);
      case BumpPush(i) =>
      case Returned(i) =>
    }
  }

  lemma ConsumerKeepsItself(cfg: Config, r: Run, c: nat, spurious: bool)
    requires Shape(cfg, r) && Can(r, Consume(c, spurious)) && AccessOk(cfg, r, Consume(c, spurious))
    ensures var r' := Step(cfg, r, Consume(c, spurious));
            && |r'.cons| == |r.cons| && |r'.m.pc| == |r.m.pc| && ConsumerOk(cfg, r', c)
  {
    hide Inv, Do, Logged;
    assert ConsumerOk(cfg, r, c);
    if r.cons[c].InPop? {
      AdvancePop(r.m, cfg.producers + c, spurious);
    } else if r.cons[c].Start? {
      BeginPopStarts(r.m, cfg.producers + c);
    }
  }

  function Mover(cfg: Config, mv: Move): int {
    match mv
    case Produce(p, _) => p
    case Consume(c, _) => cfg.producers + c
    case MainStep => -1
  }

  /** What a move cannot touch. */
  lemma StepFrame(cfg: Config, r: Run, mv: Move)
    requires Can(r, mv) && AccessOk(cfg, r, mv)
    ensures var r' := Step(cfg, r, mv);
            && r'.m == MemAfter(cfg, r, mv)
            && |r'.prod| == |r.prod| && |r'.cons| == |r.cons| && |r'.consumed| == |r.consumed|
            && (forall p :: 0 <= p < |r.prod| && !(mv.Produce? && mv.p == p) ==> r'.prod[p] == r.prod[p])
            && (forall c :: 0 <= c < |r.cons| && !(mv.Consume? && mv.c == c) ==> r'.cons[c] == r.cons[c])
            && r'.val == (if mv.Produce? && r.prod[mv.p].SetVal?
                          then r.val[r.prod[mv.p].node := Item(mv.p, r.prod[mv.p].i)] else r.val)
  {
    hide MemAfter, EventsOf, AccessOk, Access, Can;
    match mv {
      case Produce(p, _) => assert p < |r.prod| by { CanMove(r, mv); }
      case Consume(c, _) => assert c < |r.cons| by { CanMove(r, mv); }
      case MainStep =>
    }
  }

  lemma CanMove(r: Run, mv: Move)
    requires Can(r, mv)
    ensures mv.Produce? ==> mv.p < |r.prod|
    ensures mv.Consume? ==> mv.c < |r.cons|
  {
  }

  /** A move leaves every other producer as it was. */
  lemma ProducerKeepsOthers(cfg: Config, r: Run, mv: Move, p: nat)
    requires Shape(cfg, r) && Can(r, mv) && AccessOk(cfg, r, mv)
    requires p < cfg.producers && Mover(cfg, mv) != p
    ensures var r' := Step(cfg, r, mv);
            && |r'.prod| == |r.prod| && |r'.m.pc| == |r.m.pc| && ProducerOk(cfg, r', p) && r'.prod[p] == r.prod[p]
  {
    StepFrame(cfg, r, mv);
    assert ProducerOk(cfg, r, p) && ThreadOk(r.m, p);
    assert mv.Produce? ==> ProducerOk(cfg, r, mv.p);
    hide Step, Do, Inv;
    var r' := Step(cfg, r, mv);
    var access := Access(cfg, r, mv);
    if access.Some? {
      var c := access.value;
      assert c.thread == Mover(cfg, mv);
      StepLeavesOthers(r.m, c, p);
      if r.prod[p].SetVal? {
        var n := r.prod[p].node;
        StepKeepsOwned(r.m, c, p, n);
        forall u | 0 <= u < |r.m.pc| ensures !InWindow(r'.m.pc[u], n) {
          if InWindow(r'.m.pc[u], n) { StepOpensNoWindow(r.m, c, p, n, u); }
        }
      }
    }
  }

  lemma ConsumerKeepsOthers(cfg: Config, r: Run, mv: Move, c: nat)
    requires Shape(cfg, r) && Can(r, mv) && AccessOk(cfg, r, mv)
    requires c < cfg.consumers && Mover(cfg, mv) != cfg.producers + c
    ensures var r' := Step(cfg, r, mv);
            && |r'.cons| == |r.cons| && |r'.m.pc| == |r.m.pc| && ConsumerOk(cfg, r', c) && r'.cons[c] == r.cons[c]
  {
    hide Step, Do, Inv;
    StepFrame(cfg, r, mv);
    assert ConsumerOk(cfg, r, c);
    var access := Access(cfg, r, mv);
    if access.Some? {
      assert access.value.thread == Mover(cfg, mv);
      StepLeavesOthers(r.m, access.value, cfg.producers + c);
    }
  }

  lemma StepThreads(cfg: Config, r: Run, mv: Move)
    requires Can(r, mv) && AccessOk(cfg, r, mv)
    ensures |MemAfter(cfg, r, mv).pc| == |r.m.pc|
  {
  }

  lemma StepShape(cfg: Config, r: Run, mv: Move)
    requires Shape(cfg, r) && Can(r, mv)
    ensures AccessOk(cfg, r, mv) && Shape(cfg, Step(cfg, r, mv))
  {
    hide Inv, Step, Do;
    AccessIsCareful(cfg, r, mv);
    StepFrame(cfg, r, mv);
    StepThreads(cfg, r, mv);
    var r' := Step(cfg, r, mv);
    forall p | 0 <= p < cfg.producers ensures ProducerOk(cfg, r', p) {
      if mv.Produce? && mv.p == p {
        ProducerKeepsItself(cfg, r, p, mv.spurious);
      } else {
        ProducerKeepsOthers(cfg, r, mv, p);
      }
    }
    forall c | 0 <= c < cfg.consumers ensures ConsumerOk(cfg, r', c) {
      if mv.Consume? && mv.c == c {
        ConsumerKeepsItself(cfg, r, c, mv.spurious);
      } else {
        ConsumerKeepsOthers(cfg, r, mv, c);
      }
    }
  }

  // ---------------------------------------------------------------- counts

  function Took(x: Producer): int {
    match x
    case Allocate(i) => i
    case SetVal(i, _) => i + 1
    case InPush(i, _) => i + 1
    case BumpPush(i) => i + 1
    case Returned(i) => i
  }

  function Landed(x: Producer): nat {
    match x
    case Allocate(i) => i
    case SetVal(i, _) => i
    case InPush(i, _) => i
    case BumpPush(i) => i + 1
    case Returned(i) => i
  }

  function LandedInt(x: Producer): int { Landed(x) }

  function Bumped(x: Producer): int { x.i }

  function Owing(x: Consumer): int { if x.GetVal? || x.BumpPop? then 1 else 0 }

  ghost predicate Counts(r: Run) {
    && r.m.brk == Sum(r.prod, Took)
    && |PushedNodes(r.m.log)| == Sum(r.prod, LandedInt)
    && r.pushCount == Sum(r.prod, Bumped)
    && |PoppedNodes(r.m.log)| == r.popCount + Sum(r.cons, Owing)
    && r.popCount == Sum<nat>(r.consumed, Value)
  }

  lemma BeginCounts(cfg: Config)
    ensures Counts(Begin(cfg))
  {
    var r := Begin(cfg);
    SumBounds(r.prod, Took, 0, 0);
    SumBounds(r.prod, LandedInt, 0, 0);
    SumBounds(r.prod, Bumped, 0, 0);
    SumBounds(r.cons, Owing, 0, 0);
    SumBounds<nat>(r.consumed, Value, 0, 0);
  }

  /** The event a producer move logs, and how it moves the break. */
  lemma ProducerEvents(cfg: Config, r: Run, p: nat, spurious: bool)
    requires Shape(cfg, r) && Can(r, Produce(p, spurious)) && AccessOk(cfg, r, Produce(p, spurious))
    ensures var mv, x := Produce(p, spurious), r.prod[p];
            && MemAfter(cfg, r, mv).log == r.m.log + EventsOf(cfg, r, mv)
            && (EventsOf(cfg, r, mv) != [] ==> x.InPush? && EventsOf(cfg, r, mv) == [Pushed(p, x.node)])
            && MemAfter(cfg, r, mv).brk == r.m.brk + if x.Allocate? && x.i < cfg.items then 1 else 0
  {
    hide Inv;
    assert ProducerOk(cfg, r, p);
    if Access(cfg, r, Produce(p, spurious)).Some? {
      StepLogs(r.m, Access(cfg, r, Produce(p, spurious)).value);
      if r.prod[p].InPush? { AdvancePush(r.m, p, spurious, r.prod[p].node); }
    }
  }

  lemma ConsumerEvents(cfg: Config, r: Run, c: nat, spurious: bool)
    requires Shape(cfg, r) && Can(r, Consume(c, spurious)) && AccessOk(cfg, r, Consume(c, spurious))
    ensures var mv, t := Consume(c, spurious), cfg.producers + c;
            && MemAfter(cfg, r, mv).log == r.m.log + EventsOf(cfg, r, mv)
            && (EventsOf(cfg, r, mv) != [] ==>
                  (&& r.cons[c].InPop? && |EventsOf(cfg, r, mv)| == 1
                   && !EventsOf(cfg, r, mv)[0].Pushed? && EventsOf(cfg, r, mv)[0].thread == t))
            && MemAfter(cfg, r, mv).brk == r.m.brk
  {
    hide Inv;
    assert ConsumerOk(cfg, r, c);
    if Access(cfg, r, Consume(c, spurious)).Some? {
      StepLogs(r.m, Access(cfg, r, Consume(c, spurious)).value);
      if r.cons[c].InPop? { AdvancePop(r.m, cfg.producers + c, spurious); }
    }
  }

  /** Which event a move logs, and how it moves the break. */
  lemma StepEvents(cfg: Config, r: Run, mv: Move)
    requires Shape(cfg, r) && Can(r, mv) && AccessOk(cfg, r, mv)
    ensures MemAfter(cfg, r, mv).log == r.m.log + EventsOf(cfg, r, mv)
    ensures EventsOf(cfg, r, mv) != [] ==>
              (mv.Produce? && r.prod[mv.p].InPush? && EventsOf(cfg, r, mv) == [Pushed(mv.p, r.prod[mv.p].node)])
              || (mv.Consume? && r.cons[mv.c].InPop? && |EventsOf(cfg, r, mv)| == 1
                  && !EventsOf(cfg, r, mv)[0].Pushed? && EventsOf(cfg, r, mv)[0].thread == cfg.producers + mv.c)
    ensures MemAfter(cfg, r, mv).brk
         == r.m.brk + if mv.Produce? && r.prod[mv.p].Allocate? && r.prod[mv.p].i < cfg.items then 1 else 0
  {
    match mv {
      case Produce(p, spurious) =>
        hide MemAfter, EventsOf, Shape, AccessOk;
        ProducerEvents(cfg, r, p, spurious);
      case Consume(c, spurious) =>
        hide MemAfter, EventsOf, Shape, AccessOk;
        ConsumerEvents(cfg, r, c, spurious);
      case MainStep =>
    }
  }

  lemma StepCountsProducer(cfg: Config, r: Run, p: nat, spurious: bool)
    requires Shape(cfg, r) && Counts(r) && Can(r, Produce(p, spurious)) && AccessOk(cfg, r, Produce(p, spurious))
    ensures Counts(Step(cfg, r, Produce(p, spurious)))
  {
    hide Inv, Do, Logged, AccessOk, Sum, PushedNodes, PoppedNodes, ConsumerOk;
    var mv := Produce(p, spurious);
    var r' := Step(cfg, r, mv);
    StepEvents(cfg, r, mv);
    StepFrame(cfg, r, mv);
    assert ProducerOk(cfg, r, p);
    if r'.prod != r.prod {
      var x := r'.prod[p];
      assert r'.prod == r.prod[p := x];
      SumUpdate(r.prod, p, x, Took);
      SumUpdate(r.prod, p, x, LandedInt);
      SumUpdate(r.prod, p, x, Bumped);
    }
    if EventsOf(cfg, r, mv) == [] {
      assert r'.m.log == r.m.log;
    } else {
      NodesSnoc(r.m.log, Pushed(p, r.prod[p].node));
    }
  }

  lemma StepCountsConsumer(cfg: Config, r: Run, c: nat, spurious: bool)
    requires Shape(cfg, r) && Counts(r) && Can(r, Consume(c, spurious)) && AccessOk(cfg, r, Consume(c, spurious))
    ensures Counts(Step(cfg, r, Consume(c, spurious)))
  {
    hide Inv, Do, Logged, AccessOk, Sum, PushedNodes, PoppedNodes, ProducerOk;
    var mv := Consume(c, spurious);
    var r' := Step(cfg, r, mv);
    StepEvents(cfg, r, mv);
    StepFrame(cfg, r, mv);
    if r'.cons != r.cons {
      assert r'.cons == r.cons[c := r'.cons[c]];
      SumUpdate(r.cons, c, r'.cons[c], Owing);
    }
    if r.cons[c].BumpPop? {
      SumUpdate<nat>(r.consumed, c, r.consumed[c] + 1, Value);
    }
    if EventsOf(cfg, r, mv) == [] {
      assert r'.m.log == r.m.log;
    } else {
      NodesSnoc(r.m.log, EventsOf(cfg, r, mv)[0]);
      assert EventsOf(cfg, r, mv) == [EventsOf(cfg, r, mv)[0]];
    }
  }

  lemma StepCounts(cfg: Config, r: Run, mv: Move)
    requires Shape(cfg, r) && Counts(r) && Can(r, mv) && AccessOk(cfg, r, mv)
    ensures Counts(Step(cfg, r, mv))
  {
    match mv {
      case Produce(p, spurious) => StepCountsProducer(cfg, r, p, spurious);
      case Consume(c, spurious) => StepCountsConsumer(cfg, r, c, spurious);
      case MainStep =>
    }
  }

  /** pool_alloc never runs past the pool. */
  lemma PoolIsLargeEnough(cfg: Config, r: Run, p: nat)
    requires Shape(cfg, r) && Counts(r) && p < cfg.producers
    ensures r.m.brk <= cfg.producers * cfg.items == PoolSize(cfg) - 16
    ensures r.prod[p].Allocate? && r.prod[p].i < cfg.items ==> r.m.brk < cfg.producers * cfg.items
  {
    forall q | 0 <= q < |r.prod| ensures 0 <= Took(r.prod[q]) <= cfg.items {
      assert ProducerOk(cfg, r, q);
    }
    SumBounds(r.prod, Took, 0, cfg.items);
    if r.prod[p].Allocate? && r.prod[p].i < cfg.items {
      var x := Allocate(r.prod[p].i + 1);
      SumUpdate(r.prod, p, x, Took);
      var more := r.prod[p := x];
      assert forall q :: 0 <= q < |more| ==> 0 <= Took(more[q]) <= cfg.items;
      SumBounds(more, Took, 0, cfg.items);
    }
  }

  // ---------------------------------------------------------------- popped nodes stay out

  lemma StepPoppedStayOut(cfg: Config, r: Run, mv: Move)
    requires Shape(cfg, r) && PoppedStayOut(cfg, r) && Can(r, mv) && AccessOk(cfg, r, mv)
    ensures PoppedStayOut(cfg, Step(cfg, r, mv))
  {
    StepEvents(cfg, r, mv);
    StepFrame(cfg, r, mv);
    var m' := MemAfter(cfg, r, mv);
    hide Step;
    forall k | 0 <= k < |m'.log| && m'.log[k].Popped?
      ensures m'.log[k].node in m'.owner && m'.owner[m'.log[k].node] >= cfg.producers
    {
      if k < |r.m.log| {
        assert m'.log[k] == r.m.log[k];
        OwnedByConsumerStays(cfg, r, mv, m'.log[k].node);
      } else {
        assert ConsumerOk(cfg, r, mv.c);
      }
    }
  }

  lemma OwnedByConsumerStays(cfg: Config, r: Run, mv: Move, n: nat)
    requires Shape(cfg, r) && Can(r, mv) && AccessOk(cfg, r, mv)
    requires n in r.m.owner && r.m.owner[n] >= cfg.producers
    ensures var m' := MemAfter(cfg, r, mv); n in m'.owner && m'.owner[n] >= cfg.producers
  {
    if Access(cfg, r, mv).Some? {
      assert ThreadOk(r.m, Access(cfg, r, mv).value.thread);
      match mv {
        case Produce(p, _) => assert ProducerOk(cfg, r, p);
        case Consume(c, _) => assert ConsumerOk(cfg, r, c);
        case MainStep =>
      }
    }
  }

  // ---------------------------------------------------------------- values

  /** How many pushes of each producer have succeeded. */
  function LandedCounts(prod: seq<Producer>): seq<nat> {
    seq(|prod|, p requires 0 <= p < |prod| => Landed(prod[p]))
  }

  /** The values of nodes popped but not read yet. */
  function Pending(cons: seq<Consumer>, val: map<nat, int>): multiset<int> {
    if cons == [] then multiset{}
    else Pending(cons[..|cons| - 1], val) + PendingOne(cons[|cons| - 1], val)
  }

  function PendingOne(x: Consumer, val: map<nat, int>): multiset<int> {
    if x.GetVal? then multiset{ValueOf(val, x.node)} else multiset{}
  }

  lemma Rearrange(a': multiset<int>, a: multiset<int>, x: multiset<int>, y: multiset<int>, q: multiset<int>)
    requires a' + x == a + y
    ensures (a' + q) + x == (a + q) + y
  {
    assert (a' + q) + x == (a' + x) + q;
    assert (a + q) + y == (a + y) + q;
  }

  lemma {:induction false} PendingUpdate(cons: seq<Consumer>, c: nat, x: Consumer, val: map<nat, int>)
    requires c < |cons|
    ensures Pending(cons[c := x], val) + PendingOne(cons[c], val) == Pending(cons, val) + PendingOne(x, val)
  {
    hide PendingOne;
    var last := |cons| - 1;
    if c < last {
      PendingUpdate(cons[..last], c, x, val);
      assert cons[c := x][..last] == cons[..last][c := x];
      Rearrange(Pending(cons[..last][c := x], val), Pending(cons[..last], val),
                PendingOne(cons[c], val), PendingOne(x, val), PendingOne(cons[last], val));
    } else {
      assert cons[c := x][..last] == cons[..last];
      Rearrange(PendingOne(x, val), PendingOne(cons[c], val), PendingOne(cons[c], val), PendingOne(x, val),
                Pending(cons[..last], val));
    }
  }

  lemma {:induction false} PendingFrame(cons: seq<Consumer>, val: map<nat, int>, n: nat, v: int)
    requires forall c :: 0 <= c < |cons| && cons[c].GetVal? ==> cons[c].node != n
    ensures Pending(cons, val[n := v]) == Pending(cons, val)
  {
    if cons != [] {
      PendingFrame(cons[..|cons| - 1], val, n, v);
    }
  }

  /** Popped values are accounted for: read already, or pending. */
  ghost predicate Settled(popped: seq<nat>, taken: seq<int>, cons: seq<Consumer>, val: map<nat, int>) {
    multiset(ValuesOf(popped, val)) == multiset(taken) + Pending(cons, val)
  }

  /** The values published are the items whose push has succeeded. */
  ghost predicate Published(pushed: seq<nat>, prod: seq<Producer>, val: map<nat, int>) {
    multiset(ValuesOf(pushed, val)) == AllItems(LandedCounts(prod))
  }

  ghost predicate Values(r: Run) {
    && Published(PushedNodes(r.m.log), r.prod, r.val)
    && Settled(PoppedNodes(r.m.log), r.taken, r.cons, r.val)
    && forall c :: 0 <= c < |r.cons| && r.cons[c].GetVal? ==> r.cons[c].node in PoppedNodes(r.m.log)
  }

  lemma {:induction false} PoppedNodesAreInLog(log: seq<Event>, n: nat)
    requires n in PoppedNodes(log)
    ensures exists k :: 0 <= k < |log| && log[k].Popped? && log[k].node == n
  {
    var last := log[|log| - 1];
    if !(last.Popped? && last.node == n) {
      PoppedNodesAreInLog(log[..|log| - 1], n);
      var k :| 0 <= k < |log| - 1 && log[..|log| - 1][k].Popped? && log[..|log| - 1][k].node == n;
      assert log[k].Popped? && log[k].node == n;
    } else {
      assert log[|log| - 1].Popped?;
    }
  }

  /** A node a producer still holds is neither published nor popped. */
  lemma HeldNodeIsUnpublished(cfg: Config, r: Run, p: nat)
    requires Shape(cfg, r) && PoppedStayOut(cfg, r) && p < cfg.producers && r.prod[p].SetVal?
    ensures r.prod[p].node !in PushedNodes(r.m.log) && r.prod[p].node !in PoppedNodes(r.m.log)
  {
    var n := r.prod[p].node;
    assert ProducerOk(cfg, r, p);
    NodesConserved(r.m.log);
    if n in PoppedNodes(r.m.log) {
      PoppedNodesAreInLog(r.m.log, n);
      assert false;
    }
  }

  lemma PublishedFrame(pushed: seq<nat>, prod: seq<Producer>, val: map<nat, int>, p: nat, x: Producer, n: nat, v: int)
    requires Published(pushed, prod, val) && p < |prod| && Landed(x) == Landed(prod[p]) && n !in pushed
    ensures Published(pushed, prod[p := x], val[n := v])
  {
    ValuesFrame(pushed, val, n, v);
    assert LandedCounts(prod[p := x]) == LandedCounts(prod);
  }

  lemma PublishedSame(pushed: seq<nat>, prod: seq<Producer>, val: map<nat, int>, p: nat, x: Producer)
    requires Published(pushed, prod, val) && p < |prod| && Landed(x) == Landed(prod[p])
    ensures Published(pushed, prod[p := x], val)
  {
    assert LandedCounts(prod[p := x]) == LandedCounts(prod);
  }

  lemma LandedBump(prod: seq<Producer>, p: nat, x: Producer)
    requires p < |prod| && Landed(x) == Landed(prod[p]) + 1
    ensures p < |LandedCounts(prod)| && LandedCounts(prod)[p] == Landed(prod[p])
    ensures LandedCounts(prod[p := x]) == LandedCounts(prod)[p := Landed(prod[p]) + 1]
  {
  }

  lemma PublishedAfterPush(pushed: seq<nat>, prod: seq<Producer>, val: map<nat, int>, p: nat, x: Producer, n: nat)
    requires Published(pushed, prod, val) && p < |prod| && Landed(x) == Landed(prod[p]) + 1
    requires ValueOf(val, n) == Item(p, Landed(prod[p]))
    ensures Published(pushed + [n], prod[p := x], val)
  {
    hide ValuesOf, AllItems, LandedCounts;
    ValuesSnoc(pushed, n, val);
    LandedBump(prod, p, x);
    AllItemsBump(LandedCounts(prod), p);
  }

  lemma SettledFrame(popped: seq<nat>, taken: seq<int>, cons: seq<Consumer>, val: map<nat, int>, n: nat, v: int)
    requires Settled(popped, taken, cons, val) && n !in popped
    requires forall c :: 0 <= c < |cons| && cons[c].GetVal? ==> cons[c].node in popped
    ensures Settled(popped, taken, cons, val[n := v])
  {
    ValuesFrame(popped, val, n, v);
    PendingFrame(cons, val, n, v);
  }

  /** The three kinds of producer move, as far as values are concerned. */
  lemma ProducerEffect(cfg: Config, r: Run, p: nat, spurious: bool)
    requires Shape(cfg, r) && Can(r, Produce(p, spurious)) && AccessOk(cfg, r, Produce(p, spurious))
    ensures var r' := Step(cfg, r, Produce(p, spurious));
            var x := r.prod[p];
            && p < |r.prod| && |r'.prod| == |r.prod| && r'.prod == r.prod[p := r'.prod[p]]
            && r'.cons == r.cons && r'.taken == r.taken && PoppedNodes(r'.m.log) == PoppedNodes(r.m.log)
            && r'.val == (if x.SetVal? then r.val[x.node := Item(p, x.i)] else r.val)
            && if x.InPush? && r'.prod[p].BumpPush? then
                 PushedNodes(r'.m.log) == PushedNodes(r.m.log) + [x.node]
                 && Landed(r'.prod[p]) == Landed(x) + 1 && ValueOf(r.val, x.node) == Item(p, Landed(x))
               else
                 PushedNodes(r'.m.log) == PushedNodes(r.m.log) && Landed(r'.prod[p]) == Landed(x)
  {
    hide Inv, Do, Logged, MemAfter, PushedNodes, PoppedNodes;
    var mv := Produce(p, spurious);
    StepEvents(cfg, r, mv);
    StepFrame(cfg, r, mv);
    assert ProducerOk(cfg, r, p);
    var events := EventsOf(cfg, r, mv);
    if events != [] {
      NodesSnoc(r.m.log, events[0]);
      assert events == [events[0]];
    } else {
      assert r.m.log + events == r.m.log;
    }
  }

  lemma StepValuesProducer(cfg: Config, r: Run, p: nat, spurious: bool)
    requires Shape(cfg, r) && PoppedStayOut(cfg, r) && Values(r)
    requires Can(r, Produce(p, spurious)) && AccessOk(cfg, r, Produce(p, spurious))
    ensures Values(Step(cfg, r, Produce(p, spurious)))
  {
    hide Step, AccessOk, PushedNodes, PoppedNodes, Settled, Published, Inv, PoppedStayOut;
    ProducerEffect(cfg, r, p, spurious);
    var r', x := Step(cfg, r, Produce(p, spurious)), r.prod[p];
    var pushed := PushedNodes(r.m.log);
    if x.SetVal? {
      HeldNodeIsUnpublished(cfg, r, p);
      PublishedFrame(pushed, r.prod, r.val, p, r'.prod[p], x.node, Item(p, x.i));
      SettledFrame(PoppedNodes(r.m.log), r.taken, r.cons, r.val, x.node, Item(p, x.i));
    } else if x.InPush? && r'.prod[p].BumpPush? {
      PublishedAfterPush(pushed, r.prod, r.val, p, r'.prod[p], x.node);
    } else {
      PublishedSame(pushed, r.prod, r.val, p, r'.prod[p]);
    }
  }

  lemma ValuesSnoc(s: seq<nat>, n: nat, val: map<nat, int>)
    ensures ValuesOf(s + [n], val) == ValuesOf(s, val) + [ValueOf(val, n)]
    ensures multiset(ValuesOf(s + [n], val)) == multiset(ValuesOf(s, val)) + multiset{ValueOf(val, n)}
  {
    assert ValuesOf(s + [n], val) == ValuesOf(s, val) + [ValueOf(val, n)];
  }

  lemma SettlePopped(popped: multiset<int>, taken: multiset<int>, pending: multiset<int>, pending': multiset<int>,
                     v: int)
    requires popped == taken + pending && pending' + multiset{} == pending + multiset{v}
    ensures popped + multiset{v} == taken + pending'
  {
    assert pending' == pending + multiset{v};
  }

  lemma SettleTaken(popped: multiset<int>, taken: multiset<int>, pending: multiset<int>, pending': multiset<int>,
                    v: int)
    requires popped == taken + pending && pending' + multiset{v} == pending + multiset{}
    ensures popped == (taken + multiset{v}) + pending'
  {
    assert pending == pending' + multiset{v};
  }

  lemma SettledAfterPop(popped: seq<nat>, taken: seq<int>, cons: seq<Consumer>, val: map<nat, int>, c: nat, n: nat)
    requires Settled(popped, taken, cons, val) && c < |cons| && !cons[c].GetVal?
    ensures Settled(popped + [n], taken, cons[c := GetVal(n)], val)
  {
    hide ValuesOf, Pending;
    PendingUpdate(cons, c, GetVal(n), val);
    ValuesSnoc(popped, n, val);
    SettlePopped(multiset(ValuesOf(popped, val)), multiset(taken), Pending(cons, val),
                 Pending(cons[c := GetVal(n)], val), ValueOf(val, n));
  }

  lemma SettledAfterRead(popped: seq<nat>, taken: seq<int>, cons: seq<Consumer>, val: map<nat, int>, c: nat)
    requires Settled(popped, taken, cons, val) && c < |cons| && cons[c].GetVal?
    ensures Settled(popped, taken + [ValueOf(val, cons[c].node)], cons[c := BumpPop], val)
  {
    hide ValuesOf, Pending;
    PendingUpdate(cons, c, BumpPop, val);
    SettleTaken(multiset(ValuesOf(popped, val)), multiset(taken), Pending(cons, val),
                Pending(cons[c := BumpPop], val), ValueOf(val, cons[c].node));
  }

  lemma SettledAfterOther(popped: seq<nat>, taken: seq<int>, cons: seq<Consumer>, val: map<nat, int>, c: nat,
                          x: Consumer)
    requires Settled(popped, taken, cons, val) && c < |cons| && !cons[c].GetVal? && !x.GetVal?
    ensures Settled(popped, taken, cons[c := x], val)
  {
    hide ValuesOf, Pending;
    PendingUpdate(cons, c, x, val);
    assert Pending(cons[c := x], val) + multiset{} == Pending(cons[c := x], val);
    assert Pending(cons, val) + multiset{} == Pending(cons, val);
  }

  /** The three kinds of consumer move, as far as values are concerned. */
  lemma ConsumerEffect(cfg: Config, r: Run, c: nat, spurious: bool)
    requires Shape(cfg, r) && Can(r, Consume(c, spurious)) && AccessOk(cfg, r, Consume(c, spurious))
    ensures var r' := Step(cfg, r, Consume(c, spurious));
            var popped, popped' := PoppedNodes(r.m.log), PoppedNodes(r'.m.log);
            && c < |r.cons| && |r'.cons| == |r.cons| && r'.cons == r.cons[c := r'.cons[c]]
            && r'.val == r.val && r'.prod == r.prod && PushedNodes(r'.m.log) == PushedNodes(r.m.log)
            && if r.cons[c].GetVal? then
                 popped' == popped && r'.cons[c] == BumpPop
                 && r'.taken == r.taken + [ValueOf(r.val, r.cons[c].node)]
               else
                 r'.taken == r.taken
                 && popped' == if r'.cons[c].GetVal? then popped + [r'.cons[c].node] else popped
  {
    hide Inv, Do, Logged, MemAfter, PushedNodes, PoppedNodes;
    var mv := Consume(c, spurious);
    StepEvents(cfg, r, mv);
    StepFrame(cfg, r, mv);
    var events := EventsOf(cfg, r, mv);
    if events != [] {
      NodesSnoc(r.m.log, events[0]);
      assert events == [events[0]];
    } else {
      assert r.m.log + events == r.m.log;
    }
  }

  lemma StepValuesConsumer(cfg: Config, r: Run, c: nat, spurious: bool)
    requires Shape(cfg, r) && Values(r)
    requires Can(r, Consume(c, spurious)) && AccessOk(cfg, r, Consume(c, spurious))
    ensures Values(Step(cfg, r, Consume(c, spurious)))
  {
    hide Step, Shape, AccessOk, PushedNodes, PoppedNodes, Settled, Published;
    ConsumerEffect(cfg, r, c, spurious);
    var r' := Step(cfg, r, Consume(c, spurious));
    var popped := PoppedNodes(r.m.log);
    if r.cons[c].GetVal? {
      SettledAfterRead(popped, r.taken, r.cons, r.val, c);
    } else if r'.cons[c].GetVal? {
      SettledAfterPop(popped, r.taken, r.cons, r.val, c, r'.cons[c].node);
    } else {
      SettledAfterOther(popped, r.taken, r.cons, r.val, c, r'.cons[c]);
    }
  }

  lemma StepValues(cfg: Config, r: Run, mv: Move)
    requires Shape(cfg, r) && PoppedStayOut(cfg, r) && Values(r) && Can(r, mv) && AccessOk(cfg, r, mv)
    ensures Values(Step(cfg, r, mv))
  {
    match mv {
      case Produce(p, spurious) => StepValuesProducer(cfg, r, p, spurious);
      case Consume(c, spurious) => StepValuesConsumer(cfg, r, c, spurious);
      case MainStep =>
    }
  }

  lemma {:induction false} NothingPending(cons: seq<Consumer>, val: map<nat, int>)
    requires forall c :: 0 <= c < |cons| ==> !cons[c].GetVal?
    ensures Pending(cons, val) == multiset{}
  {
    if cons != [] {
      NothingPending(cons[..|cons| - 1], val);
    }
  }

  lemma BeginValues(cfg: Config)
    ensures Values(Begin(cfg))
  {
    var r := Begin(cfg);
    AllItemsNone(LandedCounts(r.prod));
    NothingPending(r.cons, r.val);
  }

  // ---------------------------------------------------------------- done

  ghost predicate Phases(r: Run) {
    && (r.done <==> !r.main.JoinProducers?)
    && (r.done ==> AllReturned(r.prod))
    && (r.main.Finished? ==> AllExited(r.cons))
    && (forall c :: 0 <= c < |r.cons| && r.cons[c].Exited? ==> r.done)
    && r.doneAt <= |r.m.log|
    && Replay(r.m.log).Some?
    && (r.done && (exists k :: r.doneAt <= k < |r.m.log| && r.m.log[k].SawEmpty?) ==> Replay(r.m.log).value == [])
  }

  /** After cas_done nothing is pushed, so once the stack is seen empty it stays empty. */
  lemma StepPhases(cfg: Config, r: Run, mv: Move)
    requires Shape(cfg, r) && Phases(r) && Can(r, mv) && AccessOk(cfg, r, mv) && Inv(MemAfter(cfg, r, mv))
    ensures Phases(Step(cfg, r, mv))
  {
    StepEvents(cfg, r, mv);
    StepFrame(cfg, r, mv);
    hide Inv, Do, Logged, MemAfter;
    var r' := Step(cfg, r, mv);
    InvFacts(r'.m);
    assert mv.Consume? && r'.cons[mv.c].Exited? ==> r.done;
    var events := EventsOf(cfg, r, mv);
    if events == [] {
      assert r'.m.log == r.m.log;
    } else {
      assert events == [events[0]];
      ReplaySnoc(r.m.log, events[0]);
      if r.done {
        assert mv.Consume?;
        if k :| r'.doneAt <= k < |r'.m.log| && r'.m.log[k].SawEmpty? {
          assert k < |r.m.log| ==> r.m.log[k].SawEmpty?;
        }
      }
    }
  }

  /** The CAS of a push publishes the node if top is current, unless the scheduler lets it fail all the same. */
  lemma PushCasStep(cfg: Config, r: Run, p: nat, spurious: bool)
    requires Shape(cfg, r) && p < cfg.producers && r.prod[p].InPush? && r.m.pc[p].PushCas?
    ensures var mv, n := Produce(p, spurious), r.prod[p].node;
            && Can(r, mv) && AccessOk(cfg, r, mv)
            && var r' := Step(cfg, r, mv);
               if r.m.top == r.m.pc[p].seen && !spurious then
                 r'.m.top == At(n) && r'.m.log == r.m.log + [Pushed(p, n)] && r'.prod[p].BumpPush?
               else
                 r'.m.top == r.m.top && r'.m.log == r.m.log && r'.m.pc[p] == PushLoad(n) && r'.prod == r.prod
  {
    assert ProducerOk(cfg, r, p);
    hide Inv, ConsumerOk;
  }

  /** The CAS of a pop, likewise. */
  lemma PopCasStep(cfg: Config, r: Run, c: nat, spurious: bool)
    requires Shape(cfg, r) && c < cfg.consumers && r.cons[c].InPop? && r.m.pc[cfg.producers + c].PopCas?
    ensures var mv, t := Consume(c, spurious), cfg.producers + c;
            && Can(r, mv) && AccessOk(cfg, r, mv)
            && var r', n := Step(cfg, r, mv), r.m.pc[t].loaded;
               if r.m.top == At(n) && !spurious then
                 r'.m.top == r.m.pc[t].next && r'.m.log == r.m.log + [Popped(t, n)] && r'.cons[c] == GetVal(n)
               else
                 r'.m.top == r.m.top && r'.m.log == r.m.log && r'.m.pc[t].PopLoad? && r'.cons == r.cons
  {
    assert ConsumerOk(cfg, r, c);
    hide Inv, ProducerOk;
  }

  /** A consumer leaves exactly by looking at cas_done after a load of an empty top and finding it set. */
  lemma LeavesIff(cfg: Config, r: Run, mv: Move, c: nat)
    requires Shape(cfg, r) && Can(r, mv) && AccessOk(cfg, r, mv) && c < |r.cons|
    ensures var r' := Step(cfg, r, mv);
            && |r'.cons| == |r.cons|
            && (r'.cons[c].Exited? && !r.cons[c].Exited? <==>
                  mv.Consume? && mv.c == c && r.cons[c].CheckDone? && r.done)
            && (r'.cons[c].Start? && r.cons[c].CheckDone? <==>
                  mv.Consume? && mv.c == c && r.cons[c].CheckDone? && !r.done)
  {
    StepFrame(cfg, r, mv);
    hide Inv, MemAfter, EventsOf, AccessOk, ProducerOk, ConsumerOk;
  }

  // ---------------------------------------------------------------- whole runs

  ghost predicate Good(cfg: Config, r: Run) {
    Shape(cfg, r) && PoppedStayOut(cfg, r) && Counts(r) && Values(r) && Phases(r) && Linked(r.m)
  }

  lemma BeginGood(cfg: Config)
    ensures Good(cfg, Begin(cfg))
  {
    BeginShape(cfg);
    BeginCounts(cfg);
    BeginValues(cfg);
  }

  lemma StepGood(cfg: Config, r: Run, mv: Move)
    requires Good(cfg, r) && Can(r, mv)
    ensures AccessOk(cfg, r, mv) && Good(cfg, Step(cfg, r, mv))
  {
    hide Shape, PoppedStayOut, Counts, Values, Phases, Linked, Step, AccessOk;
    AccessIsCareful(cfg, r, mv);
    StepShape(cfg, r, mv);
    StepPoppedStayOut(cfg, r, mv);
    StepCounts(cfg, r, mv);
    StepValues(cfg, r, mv);
    StepPhases(cfg, r, mv);
    StepKeepsLinks(cfg, r, mv);
  }

  lemma StepKeepsLinks(cfg: Config, r: Run, mv: Move)
    requires Shape(cfg, r) && Linked(r.m) && Can(r, mv) && AccessOk(cfg, r, mv)
    ensures Linked(Step(cfg, r, mv).m)
  {
    hide Inv, Linked, Do, Step, ProducerOk, ConsumerOk;
    StepFrame(cfg, r, mv);
    if Access(cfg, r, mv).Some? {
      StepLinked(r.m, Access(cfg, r, mv).value);
    }
  }

  /** r' is reached from r by the given moves, each possible when it is made. */
  ghost predicate Leads(cfg: Config, r: Run, moves: seq<Move>, r': Run)
    decreases |moves|
  {
    if moves == [] then r' == r
    else Can(r, moves[0]) && AccessOk(cfg, r, moves[0]) && Leads(cfg, Step(cfg, r, moves[0]), moves[1..], r')
  }

  lemma {:induction false} RunGood(cfg: Config, r: Run, moves: seq<Move>, r': Run)
    requires Good(cfg, r) && Leads(cfg, r, moves, r')
    ensures Good(cfg, r')
    decreases |moves|
  {
    if moves != [] {
      StepGood(cfg, r, moves[0]);
      RunGood(cfg, Step(cfg, r, moves[0]), moves[1..], r');
    }
  }

  function Chained(r: Run): seq<nat>
    requires Replay(r.m.log).Some?
  {
    Replay(r.m.log).value
  }

  lemma AllReturnedCounts(cfg: Config, prod: seq<Producer>)
    requires |prod| == cfg.producers && forall p :: 0 <= p < |prod| ==> prod[p] == Returned(cfg.items)
    ensures Sum(prod, Took) == Sum(prod, LandedInt) == Sum(prod, Bumped) == cfg.producers * cfg.items
    ensures AllItems(LandedCounts(prod)) == AllProduced(cfg.producers, cfg.items)
  {
    SumBounds(prod, Took, cfg.items, cfg.items);
    SumBounds(prod, LandedInt, cfg.items, cfg.items);
    SumBounds(prod, Bumped, cfg.items, cfg.items);
    assert LandedCounts(prod) == seq(cfg.producers, _ => cfg.items);
  }

  lemma AllExitedOwesNothing(cons: seq<Consumer>, val: map<nat, int>)
    requires AllExited(cons)
    ensures Sum(cons, Owing) == 0 && Pending(cons, val) == multiset{}
  {
    SumBounds(cons, Owing, 0, 0);
    NothingPending(cons, val);
  }

  lemma EndCounts(cfg: Config, r: Run)
    requires Shape(cfg, r) && Counts(r) && AllReturned(r.prod) && AllExited(r.cons)
    ensures Replay(r.m.log).Some? && Chain(r.m.top, r.m.next, Chained(r))
    ensures r.m.brk == r.pushCount == |PushedNodes(r.m.log)| == cfg.producers * cfg.items
    ensures r.popCount == |PoppedNodes(r.m.log)| == Sum<nat>(r.consumed, Value)
    ensures Sum<nat>(r.consumed, Value) + |Chained(r)| == cfg.producers * cfg.items
    ensures Chained(r) == [] <==> Sum<nat>(r.consumed, Value) == cfg.producers * cfg.items
    ensures AllItems(LandedCounts(r.prod)) == AllProduced(cfg.producers, cfg.items)
    ensures Pending(r.cons, r.val) == multiset{}
  {
    forall p | 0 <= p < |r.prod| ensures r.prod[p] == Returned(cfg.items) {
      assert ProducerOk(cfg, r, p);
    }
    hide AllItems, Pending, ConsumerOk, ProducerOk;
    AllReturnedCounts(cfg, r.prod);
    AllExitedOwesNothing(r.cons, r.val);
    NodesConserved(r.m.log);
  }

  lemma AllValuesAccounted(cfg: Config, r: Run)
    requires Values(r) && Replay(r.m.log).Some?
    requires AllItems(LandedCounts(r.prod)) == AllProduced(cfg.producers, cfg.items)
    requires Pending(r.cons, r.val) == multiset{}
    ensures multiset(r.taken) + multiset(ValuesOf(Chained(r), r.val)) == AllProduced(cfg.producers, cfg.items)
  {
    hide ValuesOf, AllItems, PushedNodes, PoppedNodes, Replay;
    ValuesConserved(r.m.log, r.val);
    assert multiset(ValuesOf(PoppedNodes(r.m.log), r.val)) == multiset(r.taken);
  }

  /**
   The end of every run_cas: the counters are exact, the pool gave out one node per item, and the
   items consumed plus the items left on the chain are exactly the items produced, so the printed
   total falls short exactly when the chain is not empty.  It is empty whenever some consumer loaded
   an empty top after cas_done was stored; RunDrain says exactly when.
   */
  lemma EndOfRun(cfg: Config, moves: seq<Move>, r: Run)
    requires Leads(cfg, Begin(cfg), moves, r) && r.main.Finished?
    ensures Replay(r.m.log).Some? && Chain(r.m.top, r.m.next, Chained(r))
    ensures r.m.brk == cfg.producers * cfg.items < PoolSize(cfg)
    ensures r.pushCount == |PushedNodes(r.m.log)| == cfg.producers * cfg.items
    ensures r.popCount == |PoppedNodes(r.m.log)| == Sum<nat>(r.consumed, Value)
    ensures multiset(r.taken) + multiset(ValuesOf(Chained(r), r.val)) == AllProduced(cfg.producers, cfg.items)
    ensures forall v :: v in r.taken || v in ValuesOf(Chained(r), r.val) <==> IsMade(v, cfg.producers, cfg.items)
    ensures Sum<nat>(r.consumed, Value) + |Chained(r)| == cfg.producers * cfg.items
    ensures Chained(r) == [] <==> Sum<nat>(r.consumed, Value) == cfg.producers * cfg.items
    ensures (exists k :: r.doneAt <= k < |r.m.log| && r.m.log[k].SawEmpty?) ==> Chained(r) == []
  {
    hide Leads, Values, Counts, Shape, Replay, Chain, PushedNodes, PoppedNodes;
    BeginGood(cfg);
    RunGood(cfg, Begin(cfg), moves, r);
    EndCounts(cfg, r);
    AllValuesAccounted(cfg, r);
    MembersOfBoth(r.taken, ValuesOf(Chained(r), r.val), cfg.producers, cfg.items);
  }

  // ---------------------------------------------------------------- retries

  lemma {:induction false} RunRetries(cfg: Config, r: Run, moves: seq<Move>, r': Run)
    requires RetryInv(r.m) && Leads(cfg, r, moves, r')
    ensures RetryInv(r'.m) && |r'.m.pc| == |r.m.pc|
    decreases |moves|
  {
    if moves != [] {
      hide RetryInv;
      StepFrame(cfg, r, moves[0]);
      StepThreads(cfg, r, moves[0]);
      if Access(cfg, r, moves[0]).Some? {
        StepRetryInv(r.m, Access(cfg, r, moves[0]).value);
      }
      hide Step, MemAfter;
      RunRetries(cfg, Step(cfg, r, moves[0]), moves[1..], r');
    }
  }

  lemma {:induction false} WinsAreMoves(log: seq<Event>)
    ensures Wins(log) == |PushedNodes(log)| + |PoppedNodes(log)|
  {
    if log != [] {
      WinsAreMoves(log[..|log| - 1]);
    }
  }

  /** At the end of run_cas, the genuine CAS failures are at most (threads - 1) for each item pushed or popped. */
  lemma RetriesAreBounded(cfg: Config, moves: seq<Move>, r: Run)
    requires Leads(cfg, Begin(cfg), moves, r) && r.main.Finished? && 0 < cfg.producers + cfg.consumers
    ensures Sum<nat>(r.m.fails, Value) <= (cfg.producers + cfg.consumers - 1) * (r.pushCount + r.popCount)
  {
    hide Leads, RetryInv, PushedNodes, PoppedNodes, Begin;
    EndOfRun(cfg, moves, r);
    BeginRetryInv(cfg);
    RunRetries(cfg, Begin(cfg), moves, r);
    TotalFailures(r.m);
    WinsAreMoves(r.m.log);
  }

  lemma BeginRetryInv(cfg: Config)
    ensures RetryInv(Begin(cfg).m) && |Begin(cfg).m.pc| == cfg.producers + cfg.consumers
  {
  }

  // ---------------------------------------------------------------- what never changes

  lemma {:induction false} PrefixNodes(log: seq<Event>, log': seq<Event>)
    requires log <= log'
    ensures PushedNodes(log) <= PushedNodes(log') && PoppedNodes(log) <= PoppedNodes(log')
    decreases |log'|
  {
    if log != log' {
      PrefixNodes(log, log'[..|log'| - 1]);
    }
  }

  /** No producer holds a published node. */
  lemma PublishedNodesAreNotHeld(cfg: Config, r: Run, n: nat)
    requires Good(cfg, r) && n in PushedNodes(r.m.log)
    ensures n in r.m.owner ==> r.m.owner[n] >= cfg.producers
  {
    NodesConserved(r.m.log);
    if n in PoppedNodes(r.m.log) {
      PoppedNodesAreInLog(r.m.log, n);
    }
  }

  /** No access of a consumer writes any `next`. */
  lemma ConsumersWriteNoNext(cfg: Config, r: Run, c: nat, spurious: bool)
    requires Shape(cfg, r) && Can(r, Consume(c, spurious)) && AccessOk(cfg, r, Consume(c, spurious))
    ensures MemAfter(cfg, r, Consume(c, spurious)).next == r.m.next
  {
    assert ConsumerOk(cfg, r, c);
  }

  /** A published node keeps its `next` and its `val`. */
  lemma StepKeepsPublished(cfg: Config, r: Run, mv: Move, n: nat)
    requires Good(cfg, r) && Can(r, mv) && AccessOk(cfg, r, mv) && n in PushedNodes(r.m.log)
    ensures var r' := Step(cfg, r, mv);
            && r.m.log <= r'.m.log && n in PushedNodes(r'.m.log)
            && ValueOf(r'.val, n) == ValueOf(r.val, n)
            && n in r.m.next && n in r'.m.next && r'.m.next[n] == r.m.next[n]
  {
    hide Inv, Do, Step, Logged, PushedNodes, PoppedNodes, Counts, Values, Phases, PoppedStayOut;
    StepEvents(cfg, r, mv);
    StepFrame(cfg, r, mv);
    PrefixNodes(r.m.log, Step(cfg, r, mv).m.log);
    PublishedNodesAreNotHeld(cfg, r, n);
    match mv {
      case Produce(p, _) =>
        assert ProducerOk(cfg, r, p);
        if Access(cfg, r, mv).Some? {
          StepKeepsNext(r.m, Access(cfg, r, mv).value, n);
        }
      case Consume(c, spurious) => ConsumersWriteNoNext(cfg, r, c, spurious);
      case MainStep =>
    }
  }

  lemma {:induction false} PublishedNodesNeverChange(cfg: Config, r: Run, moves: seq<Move>, r': Run, n: nat)
    requires Good(cfg, r) && Leads(cfg, r, moves, r') && n in PushedNodes(r.m.log)
    ensures r.m.log <= r'.m.log && ValueOf(r'.val, n) == ValueOf(r.val, n)
    ensures n in r.m.next && n in r'.m.next && r'.m.next[n] == r.m.next[n]
    decreases |moves|
  {
    assert n in r.m.next;
    if moves != [] {
      StepGood(cfg, r, moves[0]);
      StepKeepsPublished(cfg, r, moves[0], n);
      PublishedNodesNeverChange(cfg, Step(cfg, r, moves[0]), moves[1..], r', n);
    }
  }

  lemma {:induction false} LogGrows(cfg: Config, r: Run, moves: seq<Move>, r': Run)
    requires Good(cfg, r) && Leads(cfg, r, moves, r')
    ensures r.m.log <= r'.m.log
    decreases |moves|
  {
    if moves != [] {
      StepGood(cfg, r, moves[0]);
      StepEvents(cfg, r, moves[0]);
      StepFrame(cfg, r, moves[0]);
      LogGrows(cfg, Step(cfg, r, moves[0]), moves[1..], r');
    }
  }

  /** A popped node never becomes top again, and never returns to the chain. */
  lemma PoppedNodesNeverReturn(cfg: Config, r: Run, moves: seq<Move>, r': Run, n: nat)
    requires Good(cfg, r) && Leads(cfg, r, moves, r') && n in PoppedNodes(r.m.log)
    ensures Replay(r'.m.log).Some? && n !in Chained(r') && r'.m.top != At(n)
  {
    RunGood(cfg, r, moves, r');
    LogGrows(cfg, r, moves, r');
    PrefixNodes(r.m.log, r'.m.log);
    PoppedNodesAreInLog(r'.m.log, n);
    assert Chained(r') != [] ==> Chained(r')[0] in Chained(r');
  }

  // ---------------------------------------------------------------- the race at the end

  const ONE_EACH := Config(1, 1, 1)

  /** A state of that program before its producer has counted its push. */
  function Early(next: map<nat, Ptr>, held: map<nat, nat>, brk: nat, pc: seq<Pc>, log: seq<Event>,
                 val: map<nat, int>, x: Producer, y: Consumer): Run
  {
    Run(Mem(Null, next, held, brk, pc, [0, 0], log), val, [x], [y], [0], [], 0, 0, false, 0, JoinProducers)
  }

  /** A state after the push CAS. */
  function Late(x: Producer, y: Consumer, pushCount: nat, main: Main): Run {
    var m := Mem(At(0), map[0 := Null], map[], 1, [Idle, Idle], [0, 0], [SawEmpty(1), Pushed(0, 0)]);
    var done := !main.JoinProducers?;
    Run(m, map[0 := 0], [x], [y], [0], [], pushCount, 0, done, if done then 2 else 0, main)
  }

  /** The run of one producer, one consumer and one item in which the item is left behind. */
  function Undrained(i: nat): Run {
    var look, mine, v := [SawEmpty(1)], map[0 := 0], map[0 := 0];
    match i
    case 0 => Early(map[], map[], 0, [Idle, Idle], [], map[], Allocate(0), Start)
    case 1 => Early(map[], map[], 0, [Idle, PopLoad], [], map[], Allocate(0), InPop)
    case 2 => Early(map[], map[], 0, [Idle, Idle], look, map[], Allocate(0), CheckDone)
    case 3 => Early(map[], mine, 1, [Idle, Idle], look, map[], SetVal(0, 0), CheckDone)
    case 4 => Early(map[], mine, 1, [PushLoad(0), Idle], look, v, InPush(0, 0), CheckDone)
    case 5 => Early(map[], mine, 1, [PushLink(0, Null), Idle], look, v, InPush(0, 0), CheckDone)
    case 6 => Early(map[0 := Null], mine, 1, [PushCas(0, Null), Idle], look, v, InPush(0, 0), CheckDone)
    case 7 => Late(BumpPush(0), CheckDone, 0, JoinProducers)
    case 8 => Late(Allocate(1), CheckDone, 1, JoinProducers)
    case 9 => Late(Returned(1), CheckDone, 1, JoinProducers)
    case 10 => Late(Returned(1), CheckDone, 1, JoinConsumers)
    case 11 => Late(Returned(1), Exited, 1, JoinConsumers)
    case _ => Late(Returned(1), Exited, 1, Finished)
  }

  function UndrainedMove(i: nat): Move {
    if i <= 1 || i == 10 then Consume(0, false) else if i == 9 || i == 11 then MainStep else Produce(0, false)
  }

  function MovesFrom(i: nat): seq<Move>
    requires i <= 12
    decreases 12 - i
  {
    if i == 12 then [] else [UndrainedMove(i)] + MovesFrom(i + 1)
  }

  ghost predicate StepsOn(i: nat)
    requires i < 12
  {
    && Can(Undrained(i), UndrainedMove(i)) && AccessOk(ONE_EACH, Undrained(i), UndrainedMove(i))
    && Step(ONE_EACH, Undrained(i), UndrainedMove(i)) == Undrained(i + 1)
  }

  lemma StartAccess()
    ensures var r, mv := Undrained(0), Consume(0, false);
            && Can(r, mv) && AccessOk(ONE_EACH, r, mv) && MemAfter(ONE_EACH, r, mv) == Undrained(1).m
  {
    hide Step, Logged;
    assert [Idle, Idle][1 := PopLoad] == [Idle, PopLoad];
  }

  lemma LookAccess()
    ensures var r, mv := Undrained(1), Consume(0, false);
            && Can(r, mv) && AccessOk(ONE_EACH, r, mv) && MemAfter(ONE_EACH, r, mv) == Undrained(2).m
            && EventsOf(ONE_EACH, r, mv) == [SawEmpty(1)]
  {
    hide Step;
    assert [Idle, PopLoad][1 := Idle] == [Idle, Idle] && [] + [SawEmpty(1)] == [SawEmpty(1)];
  }

  lemma LeaveAccess()
    ensures var r, mv := Undrained(10), Consume(0, false);
            && Can(r, mv) && AccessOk(ONE_EACH, r, mv) && MemAfter(ONE_EACH, r, mv) == Undrained(11).m
  {
    hide Step;
  }

  /** The consumer's moves: into the pop, the look at an empty stack, and the look at cas_done. */
  lemma UndrainedConsumer(i: nat)
    requires i == 0 || i == 1 || i == 10
    ensures StepsOn(i)
  {
    hide Enabled, Do, MemAfter, Logged, EventsOf, AccessOk;
    match i {
      case 0 =>
        StartAccess();
        assert [Start][0 := InPop] == [InPop];
      case 1 =>
        LookAccess();
        assert [InPop][0 := CheckDone] == [CheckDone];
      case _ =>
        LeaveAccess();
        assert [CheckDone][0 := Exited] == [Exited];
    }
  }

  /** The producer takes its node and fills it. */
  lemma UndrainedNode(i: nat)
    requires i == 2 || i == 3
    ensures StepsOn(i)
  {
    match i {
      case 2 =>
      case _ =>
    }
  }

  /** The producer's push loop up to its CAS. */
  lemma UndrainedLoop(i: nat)
    requires i == 4 || i == 5
    ensures StepsOn(i)
  {
    match i {
      case 4 =>
      case _ =>
    }
  }

  lemma UndrainedCas()
    ensures StepsOn(6)
  {
    assert map[0 := 0] - {0} == map[];
  }

  /** The producer's return and the main thread. */
  lemma UndrainedReturn(i: nat)
    requires i == 7 || i == 8 || i == 9 || i == 11
    ensures StepsOn(i)
  {
    match i {
      case 7 =>
      case 8 =>
      case 9 =>
      case _ =>
    }
  }

  lemma UndrainedStep(i: nat)
    requires i < 12
    ensures StepsOn(i)
  {
    hide StepsOn;
    if i <= 1 || i == 10 {
      UndrainedConsumer(i);
    } else if i < 4 {
      UndrainedNode(i);
    } else if i < 6 {
      UndrainedLoop(i);
    } else if i == 6 {
      UndrainedCas();
    } else {
      UndrainedReturn(i);
    }
  }

  lemma {:induction false} UndrainedLeads(i: nat)
    requires i <= 12
    ensures Leads(ONE_EACH, Undrained(i), MovesFrom(i), Undrained(12))
    decreases 12 - i
  {
    hide Undrained, UndrainedMove, Step, Can, AccessOk;
    if i < 12 {
      UndrainedStep(i);
      UndrainedLeads(i + 1);
      assert MovesFrom(i)[1..] == MovesFrom(i + 1);
    }
  }

  lemma UndrainedEnds()
    ensures Undrained(0) == Begin(ONE_EACH)
    ensures var r := Undrained(12); r.main.Finished? && Replay(r.m.log) == Some([0])
  {
    var r := Begin(ONE_EACH);
    assert r.m.pc == [Idle, Idle] && r.m.fails == [0, 0];
    assert r.prod == [Allocate(0)] && r.cons == [Start] && r.consumed == [0];
    assert [SawEmpty(1), Pushed(0, 0)] == [SawEmpty(1)] + [Pushed(0, 0)];
    assert [SawEmpty(1)] == [] + [SawEmpty(1)];
    ReplaySnoc([], SawEmpty(1));
    ReplaySnoc([SawEmpty(1)], Pushed(0, 0));
    assert Replay(Undrained(12).m.log).value == [0];
  }

  /**
   The stack need not be drained: one producer, one consumer, one item.  The consumer finds the stack
   empty before the push and looks at cas_done after the store, so it leaves the item behind.
   */
  lemma TheStackNeedNotBeDrained()
    ensures exists moves, r :: Leads(ONE_EACH, Begin(ONE_EACH), moves, r)
              && r.main.Finished? && Replay(r.m.log).Some? && Chained(r) == [0]
  {
    hide Undrained, Leads, Begin, Replay;
    UndrainedLeads(0);
    UndrainedEnds();
  }
}
