/**
 How long run_cas takes: the number of steps of a finished run is a function of its pushes, its
 pops, its looks at an empty stack and its CAS failures, and the genuine failures are bounded.
 */
module RunWork {
  import opened Tally
  import opened CasStack
  import opened RunCas

  function Same(x: int): int { x }

  /** A weak CAS that fails although `top` is what it expects. */
  function SpuriousFailure(m: Mem, c: Choice): nat
    requires Enabled(m, c)
  {
    if c.action != Advance(true) then 0
    else
      match m.pc[c.thread]
      case PushCas(_, seen) => if m.top == seen then 1 else 0
      case PopCas(n, _) => if m.top == At(n) then 1 else 0
      case _ => 0
  }

  function Spurious(cfg: Config, r: Run, mv: Move): nat
    requires Can(r, mv) && AccessOk(cfg, r, mv)
  {
    match Access(cfg, r, mv)
    case None => 0
    case Some(c) => SpuriousFailure(r.m, c)
  }

  /** The spurious failures of a run. */
  function SpuriousFailures(cfg: Config, r: Run, moves: seq<Move>): nat
    decreases |moves|
  {
    if moves == [] || !Can(r, moves[0]) || !AccessOk(cfg, r, moves[0]) then 0
    else Spurious(cfg, r, moves[0]) + SpuriousFailures(cfg, Step(cfg, r, moves[0]), moves[1..])
  }

  /** How often a pop found the stack empty. */
  function Looks(log: seq<Event>): nat {
    if log == [] then 0
    else Looks(log[..|log| - 1]) + if log[|log| - 1].SawEmpty? then 1 else 0
  }

  lemma LooksSnoc(log: seq<Event>, e: Event)
    ensures Looks(log + [e]) == Looks(log) + if e.SawEmpty? then 1 else 0
  {
    assert (log + [e])[..|log|] == log;
  }

  function Failures(m: Mem): int { Sum<nat>(m.fails, Value) }

  // ---------------------------------------------------------------- steps made so far

  /** Steps of the current turn of a push or pop loop. */
  function Turn(pc: Pc): int {
    match pc
    case PushLink(_, _) => 1
    case PushCas(_, _) => 2
    case PopNext(_) => 1
    case PopCas(_, _) => 2
    case _ => 0
  }

  /** A producer's steps, its failed turns apart: six for each item, one to return. */
  function ProducerSteps(x: Producer, pc: Pc): int {
    match x
    case Allocate(i) => 6 * i
    case SetVal(i, _) => 6 * i + 1
    case InPush(i, _) => 6 * i + 2 + Turn(pc)
    case BumpPush(i) => 6 * i + 5
    case Returned(i) => 6 * i + 1
  }

  /** A consumer's steps since its last counted pop; a look at an empty stack is paid with three. */
  function ConsumerSteps(x: Consumer, pc: Pc): int {
    match x
    case Start => 0
    case InPop => 1 + Turn(pc)
    case GetVal(_) => 4
    case BumpPop => 5
    case CheckDone => -1
    case Exited => 0
  }

  function MainSteps(x: Main): int {
    match x case JoinProducers => 0 case JoinConsumers => 1 case Finished => 2
  }

  function StepsOf(r: Run, t: nat): int
    requires |r.m.pc| == |r.prod| + |r.cons| && t < |r.m.pc|
  {
    if t < |r.prod| then ProducerSteps(r.prod[t], r.m.pc[t]) else ConsumerSteps(r.cons[t - |r.prod|], r.m.pc[t])
  }

  function ThreadSteps(r: Run): seq<int>
    requires |r.m.pc| == |r.prod| + |r.cons|
  {
    seq(|r.m.pc|, t requires 0 <= t < |r.m.pc| => StepsOf(r, t))
  }

  /** What a run has cost outside the threads' current places. */
  function Paid(r: Run): int {
    6 * r.popCount + 3 * Looks(r.m.log) + 3 * Failures(r.m)
  }

  function StepsMade(r: Run): int
    requires |r.m.pc| == |r.prod| + |r.cons|
  {
    Sum(ThreadSteps(r), Same) + Paid(r) + MainSteps(r.main)
  }

  // ---------------------------------------------------------------- one step

  /** One access inside a loop: one more step of its turn, or a failed turn, or the loop's end. */
  lemma TurnGoesOn(m: Mem, t: nat, spurious: bool)
    requires Enabled(m, Choice(t, Advance(spurious)))
    ensures var c := Choice(t, Advance(spurious));
            var m' := Do(m, c);
            && |m'.pc| == |m.pc|
            && if Logged(m, c) == [] then
                 Turn(m'.pc[t]) + 3 * (Failures(m') - Failures(m)) + 3 * SpuriousFailure(m, c) == Turn(m.pc[t]) + 1
               else
                 && Failures(m') == Failures(m) && SpuriousFailure(m, c) == 0
                 && Turn(m.pc[t]) == if Logged(m, c)[0].SawEmpty? then 0 else 2
  {
    hide Sum;
    SumUpdate<nat>(m.fails, t, m.fails[t] + 1, Value);
  }

  lemma ShapeSizes(cfg: Config, r: Run)
    requires Shape(cfg, r)
    ensures |r.m.pc| == |r.prod| + |r.cons| && |r.prod| == cfg.producers && |r.cons| == cfg.consumers
  {
    hide Inv, ProducerOk, ConsumerOk;
  }

  /** The log a move leaves, as far as looks at an empty stack are concerned. */
  lemma MoveLooks(cfg: Config, r: Run, mv: Move)
    requires Shape(cfg, r) && Can(r, mv) && AccessOk(cfg, r, mv)
    ensures var events := EventsOf(cfg, r, mv);
            Looks(Step(cfg, r, mv).m.log) == Looks(r.m.log) + if events != [] && events[0].SawEmpty? then 1 else 0
  {
    StepEvents(cfg, r, mv);
    StepFrame(cfg, r, mv);
    hide Inv, Step, AccessOk, MemAfter, EventsOf, ProducerOk, ConsumerOk, Looks;
    var events := EventsOf(cfg, r, mv);
    if events == [] {
      assert r.m.log + events == r.m.log;
    } else {
      assert events == [events[0]];
      LooksSnoc(r.m.log, events[0]);
    }
  }

  /** An access that is not inside a loop. */
  lemma LoopBegins(m: Mem, c: Choice)
    requires Enabled(m, c) && !c.action.Advance?
    ensures var m' := Do(m, c);
            && |m'.pc| == |m.pc| && Turn(m'.pc[c.thread]) == 0 && m'.fails == m.fails
            && SpuriousFailure(m, c) == 0
  {
  }

  /** How a move changes what has been paid. */
  lemma MovePays(cfg: Config, r: Run, mv: Move)
    requires Shape(cfg, r) && Can(r, mv) && AccessOk(cfg, r, mv)
    ensures var r', events := Step(cfg, r, mv), EventsOf(cfg, r, mv);
            Paid(r') == Paid(r)
              + (if mv.Consume? && r.cons[mv.c].BumpPop? then 6 else 0)
              + (if events != [] && events[0].SawEmpty? then 3 else 0)
              + 3 * (Failures(MemAfter(cfg, r, mv)) - Failures(r.m))
  {
    MoveLooks(cfg, r, mv);
    StepFrame(cfg, r, mv);
    hide Inv, AccessOk, MemAfter, EventsOf, ProducerOk, ConsumerOk, Looks, Failures;
  }

  /** A producer's move outside its push loop. */
  lemma ProducerPaysOutside(cfg: Config, r: Run, p: nat, spurious: bool)
    requires Shape(cfg, r) && Can(r, Produce(p, spurious)) && AccessOk(cfg, r, Produce(p, spurious))
    requires !r.prod[p].InPush?
    ensures var mv := Produce(p, spurious);
            var r' := Step(cfg, r, mv);
            && |r'.prod| == |r.prod| && |r'.m.pc| == |r.m.pc| && r'.main == r.main && Spurious(cfg, r, mv) == 0
            && ProducerSteps(r'.prod[p], r'.m.pc[p]) + Paid(r') == ProducerSteps(r.prod[p], r.m.pc[p]) + Paid(r) + 1
  {
    var mv := Produce(p, spurious);
    MovePays(cfg, r, mv);
    StepEvents(cfg, r, mv);
    assert ProducerOk(cfg, r, p);
    hide Inv, Paid, Failures, Do, Logged, SpuriousFailure, Turn, AccessOk, ConsumerOk, ProducerOk;
    if Access(cfg, r, mv).Some? {
      LoopBegins(r.m, Access(cfg, r, mv).value);
    }
  }

  /** What Step does in the middle of the push loop. */
  lemma PushLoopStep(cfg: Config, r: Run, p: nat, spurious: bool)
    requires Shape(cfg, r) && Can(r, Produce(p, spurious)) && AccessOk(cfg, r, Produce(p, spurious))
    requires r.prod[p].InPush?
    ensures var mv, access := Produce(p, spurious), Choice(p, Advance(spurious));
            var r' := Step(cfg, r, mv);
            && Enabled(r.m, access)
            && r'.m == Do(r.m, access) == MemAfter(cfg, r, mv)
            && |r'.prod| == |r.prod| && r'.main == r.main
            && Spurious(cfg, r, mv) == SpuriousFailure(r.m, access)
            && EventsOf(cfg, r, mv) == Logged(r.m, access)
            && if Logged(r.m, access) == [] then r'.prod[p] == r.prod[p]
               else Logged(r.m, access)[0].Pushed? && r'.prod[p] == BumpPush(r.prod[p].i)
  {
    StepEvents(cfg, r, Produce(p, spurious));
    hide Inv, Do, Logged, SpuriousFailure, ProducerOk, ConsumerOk;
  }

  /** A producer's move inside its push loop. */
  lemma ProducerPaysInside(cfg: Config, r: Run, p: nat, spurious: bool)
    requires Shape(cfg, r) && Can(r, Produce(p, spurious)) && AccessOk(cfg, r, Produce(p, spurious))
    requires r.prod[p].InPush?
    ensures var mv := Produce(p, spurious);
            var r' := Step(cfg, r, mv);
            && |r'.prod| == |r.prod| && |r'.m.pc| == |r.m.pc| && r'.main == r.main
            && ProducerSteps(r'.prod[p], r'.m.pc[p]) + Paid(r') + 3 * Spurious(cfg, r, mv)
               == ProducerSteps(r.prod[p], r.m.pc[p]) + Paid(r) + 1
  {
    var mv := Produce(p, spurious);
    hide Shape, Paid, Failures, Do, Logged, Spurious, SpuriousFailure, Turn, AccessOk, Access, Step, MemAfter, EventsOf;
    MovePays(cfg, r, mv);
    PushLoopStep(cfg, r, p, spurious);
    ShapeSizes(cfg, r);
    TurnGoesOn(r.m, p, spurious);
  }

  lemma ProducerPays(cfg: Config, r: Run, p: nat, spurious: bool)
    requires Shape(cfg, r) && Can(r, Produce(p, spurious)) && AccessOk(cfg, r, Produce(p, spurious))
    ensures var mv := Produce(p, spurious);
            var r' := Step(cfg, r, mv);
            && |r'.prod| == |r.prod| && |r'.m.pc| == |r.m.pc| && r'.main == r.main
            && ProducerSteps(r'.prod[p], r'.m.pc[p]) + Paid(r') + 3 * Spurious(cfg, r, mv)
               == ProducerSteps(r.prod[p], r.m.pc[p]) + Paid(r) + 1
  {
    hide Step, Paid, ProducerSteps, Spurious, AccessOk;
    if r.prod[p].InPush? {
      ProducerPaysInside(cfg, r, p, spurious);
    } else {
      ProducerPaysOutside(cfg, r, p, spurious);
    }
  }

  /** A consumer's move outside its pop loop. */
  lemma ConsumerPaysOutside(cfg: Config, r: Run, c: nat, spurious: bool)
    requires Shape(cfg, r) && Can(r, Consume(c, spurious)) && AccessOk(cfg, r, Consume(c, spurious))
    requires !r.cons[c].InPop?
    ensures var mv, t := Consume(c, spurious), cfg.producers + c;
            var r' := Step(cfg, r, mv);
            && |r'.cons| == |r.cons| && |r'.m.pc| == |r.m.pc| && r'.main == r.main && Spurious(cfg, r, mv) == 0
            && ConsumerSteps(r'.cons[c], r'.m.pc[t]) + Paid(r') == ConsumerSteps(r.cons[c], r.m.pc[t]) + Paid(r) + 1
  {
    var mv := Consume(c, spurious);
    MovePays(cfg, r, mv);
    StepEvents(cfg, r, mv);
    assert ConsumerOk(cfg, r, c);
    hide Inv, Paid, Failures, Do, Logged, SpuriousFailure, Turn, AccessOk, ProducerOk;
    if r.cons[c].Start? {
      LoopBegins(r.m, Access(cfg, r, mv).value);
    }
  }

  /** What Step does in the middle of the pop loop. */
  lemma PopLoopStep(cfg: Config, r: Run, c: nat, spurious: bool)
    requires Shape(cfg, r) && Can(r, Consume(c, spurious)) && AccessOk(cfg, r, Consume(c, spurious))
    requires r.cons[c].InPop?
    ensures var mv, access := Consume(c, spurious), Choice(cfg.producers + c, Advance(spurious));
            var r' := Step(cfg, r, mv);
            && Enabled(r.m, access)
            && r'.m == Do(r.m, access) == MemAfter(cfg, r, mv)
            && |r'.cons| == |r.cons| && r'.main == r.main
            && Spurious(cfg, r, mv) == SpuriousFailure(r.m, access)
            && EventsOf(cfg, r, mv) == Logged(r.m, access)
            && if Logged(r.m, access) == [] then r'.cons[c].InPop?
               else if Logged(r.m, access)[0].SawEmpty? then r'.cons[c].CheckDone?
               else r'.cons[c].GetVal?
  {
    StepEvents(cfg, r, Consume(c, spurious));
    hide Inv, Do, Logged, SpuriousFailure, ProducerOk, ConsumerOk;
  }

  /** A consumer's move inside its pop loop. */
  lemma ConsumerPaysInside(cfg: Config, r: Run, c: nat, spurious: bool)
    requires Shape(cfg, r) && Can(r, Consume(c, spurious)) && AccessOk(cfg, r, Consume(c, spurious))
    requires r.cons[c].InPop?
    ensures var mv, t := Consume(c, spurious), cfg.producers + c;
            var r' := Step(cfg, r, mv);
            && |r'.cons| == |r.cons| && |r'.m.pc| == |r.m.pc| && r'.main == r.main
            && ConsumerSteps(r'.cons[c], r'.m.pc[t]) + Paid(r') + 3 * Spurious(cfg, r, mv)
               == ConsumerSteps(r.cons[c], r.m.pc[t]) + Paid(r) + 1
  {
    var mv := Consume(c, spurious);
    hide Shape, Paid, Failures, Do, Logged, Spurious, SpuriousFailure, Turn, AccessOk, Access, Step, MemAfter, EventsOf;
    MovePays(cfg, r, mv);
    PopLoopStep(cfg, r, c, spurious);
    ShapeSizes(cfg, r);
    TurnGoesOn(r.m, cfg.producers + c, spurious);
  }

  lemma ConsumerPays(cfg: Config, r: Run, c: nat, spurious: bool)
    requires Shape(cfg, r) && Can(r, Consume(c, spurious)) && AccessOk(cfg, r, Consume(c, spurious))
    ensures var mv, t := Consume(c, spurious), cfg.producers + c;
            var r' := Step(cfg, r, mv);
            && |r'.cons| == |r.cons| && |r'.m.pc| == |r.m.pc| && r'.main == r.main
            && ConsumerSteps(r'.cons[c], r'.m.pc[t]) + Paid(r') + 3 * Spurious(cfg, r, mv)
               == ConsumerSteps(r.cons[c], r.m.pc[t]) + Paid(r) + 1
  {
    hide Step, Paid, ConsumerSteps, Spurious, AccessOk;
    if r.cons[c].InPop? {
      ConsumerPaysInside(cfg, r, c, spurious);
    } else {
      ConsumerPaysOutside(cfg, r, c, spurious);
    }
  }

  lemma OtherStaysPut(cfg: Config, r: Run, mv: Move, u: nat)
    requires Shape(cfg, r) && Can(r, mv) && AccessOk(cfg, r, mv)
    requires u < |r.m.pc| && u != Mover(cfg, mv)
    ensures var r' := Step(cfg, r, mv);
            && |r'.prod| == |r.prod| && |r'.cons| == |r.cons| && |r'.m.pc| == |r.m.pc| == |r.prod| + |r.cons|
            && StepsOf(r', u) == StepsOf(r, u)
  {
    ShapeSizes(cfg, r);
    StepFrame(cfg, r, mv);
    StepThreads(cfg, r, mv);
    hide Shape, Step, Do, Enabled, ProducerSteps, ConsumerSteps;
    if Access(cfg, r, mv).Some? { StepLeavesOthers(r.m, Access(cfg, r, mv).value, u); }
  }

  /** Only the moving thread's place changes. */
  lemma OthersStayPut(cfg: Config, r: Run, mv: Move)
    requires Shape(cfg, r) && Can(r, mv) && AccessOk(cfg, r, mv) && !mv.MainStep?
    ensures var r', t := Step(cfg, r, mv), Mover(cfg, mv);
            && |r'.prod| == |r.prod| && |r'.cons| == |r.cons| && |r'.m.pc| == |r.m.pc| == |r.prod| + |r.cons|
            && 0 <= t < |r.m.pc|
            && ThreadSteps(r') == ThreadSteps(r)[t := StepsOf(r', t)]
  {
    ShapeSizes(cfg, r);
    StepFrame(cfg, r, mv);
    StepThreads(cfg, r, mv);
    hide Shape, Step, AccessOk, MemAfter, StepsOf;
    var r', t := Step(cfg, r, mv), Mover(cfg, mv);
    forall u | 0 <= u < |r.m.pc| && u != t ensures StepsOf(r', u) == StepsOf(r, u) {
      OtherStaysPut(cfg, r, mv, u);
    }
  }

  lemma StepsMadeIs(r: Run)
    requires |r.m.pc| == |r.prod| + |r.cons|
    ensures StepsMade(r) == Sum(ThreadSteps(r), Same) + Paid(r) + MainSteps(r.main)
  {
  }

  lemma ProducerIsCounted(cfg: Config, r: Run, p: nat, spurious: bool)
    requires Shape(cfg, r) && Can(r, Produce(p, spurious)) && AccessOk(cfg, r, Produce(p, spurious))
    ensures var mv := Produce(p, spurious);
            var r' := Step(cfg, r, mv);
            && |r.m.pc| == |r.prod| + |r.cons| && |r'.m.pc| == |r'.prod| + |r'.cons|
            && StepsMade(r') + 3 * Spurious(cfg, r, mv) == StepsMade(r) + 1
  {
    hide *;
    ShapeSizes(cfg, r);
    CanMove(r, Produce(p, spurious));
    var mv := Produce(p, spurious);
    var r' := Step(cfg, r, mv);
    OthersStayPut(cfg, r, mv);
    ProducerPays(cfg, r, p, spurious);
    MoverIs(cfg, mv);
    ProducerPlace(r, p);
    ProducerPlace(r', p);
    Recount(r, r', p);
    StepsMadeIs(r);
    StepsMadeIs(r');
  }

  lemma ConsumerIsCounted(cfg: Config, r: Run, c: nat, spurious: bool)
    requires Shape(cfg, r) && Can(r, Consume(c, spurious)) && AccessOk(cfg, r, Consume(c, spurious))
    ensures var mv := Consume(c, spurious);
            var r' := Step(cfg, r, mv);
            && |r.m.pc| == |r.prod| + |r.cons| && |r'.m.pc| == |r'.prod| + |r'.cons|
            && StepsMade(r') + 3 * Spurious(cfg, r, mv) == StepsMade(r) + 1
  {
    hide *;
    ShapeSizes(cfg, r);
    CanMove(r, Consume(c, spurious));
    var mv := Consume(c, spurious);
    var r' := Step(cfg, r, mv);
    OthersStayPut(cfg, r, mv);
    ConsumerPays(cfg, r, c, spurious);
    MoverIs(cfg, mv);
    ConsumerPlace(cfg, r, c);
    ConsumerPlace(cfg, r', c);
    Recount(r, r', cfg.producers + c);
    StepsMadeIs(r);
    StepsMadeIs(r');
  }

  lemma MoverIs(cfg: Config, mv: Move)
    ensures mv.Produce? ==> Mover(cfg, mv) == mv.p
    ensures mv.Consume? ==> Mover(cfg, mv) == cfg.producers + mv.c
  {
  }

  lemma ProducerPlace(r: Run, p: nat)
    requires |r.m.pc| == |r.prod| + |r.cons| && p < |r.prod|
    ensures StepsOf(r, p) == ProducerSteps(r.prod[p], r.m.pc[p])
  {
  }

  lemma ConsumerPlace(cfg: Config, r: Run, c: nat)
    requires |r.m.pc| == |r.prod| + |r.cons| && |r.prod| == cfg.producers && c < |r.cons|
    ensures StepsOf(r, cfg.producers + c) == ConsumerSteps(r.cons[c], r.m.pc[cfg.producers + c])
  {
  }

  lemma Recount(r: Run, r': Run, t: nat)
    requires |r.m.pc| == |r.prod| + |r.cons| && |r'.m.pc| == |r'.prod| + |r'.cons| && t < |r.m.pc| == |r'.m.pc|
    requires ThreadSteps(r') == ThreadSteps(r)[t := StepsOf(r', t)]
    ensures Sum(ThreadSteps(r'), Same) == Sum(ThreadSteps(r), Same) - StepsOf(r, t) + StepsOf(r', t)
  {
    hide Sum, StepsOf;
    SumUpdate(ThreadSteps(r), t, StepsOf(r', t), Same);
  }

  lemma MainIsCounted(cfg: Config, r: Run)
    requires Shape(cfg, r) && Can(r, MainStep) && AccessOk(cfg, r, MainStep)
    ensures var r' := Step(cfg, r, MainStep);
            && |r.m.pc| == |r.prod| + |r.cons| && |r'.m.pc| == |r'.prod| + |r'.cons|
            && StepsMade(r') + 3 * Spurious(cfg, r, MainStep) == StepsMade(r) + 1
  {
    ShapeSizes(cfg, r);
    hide Shape, ProducerSteps, ConsumerSteps, Sum, Looks, Failures;
    assert ThreadSteps(Step(cfg, r, MainStep)) == ThreadSteps(r);
  }

  /** Every move is one step more, a spurious failure apart. */
  lemma StepIsCounted(cfg: Config, r: Run, mv: Move)
    requires Shape(cfg, r) && Can(r, mv) && AccessOk(cfg, r, mv)
    ensures var r' := Step(cfg, r, mv);
            && |r.m.pc| == |r.prod| + |r.cons| && |r'.m.pc| == |r'.prod| + |r'.cons|
            && StepsMade(r') + 3 * Spurious(cfg, r, mv) == StepsMade(r) + 1
  {
    match mv {
      case Produce(p, spurious) =>
        hide Step, StepsMade, Spurious, Shape, AccessOk;
        ProducerIsCounted(cfg, r, p, spurious);
      case Consume(c, spurious) =>
        hide Step, StepsMade, Spurious, Shape, AccessOk;
        ConsumerIsCounted(cfg, r, c, spurious);
      case MainStep =>
        hide Step, StepsMade, Spurious, Shape, AccessOk;
        MainIsCounted(cfg, r);
    }
  }

  // ---------------------------------------------------------------- whole runs

  lemma {:induction false} RunIsCounted(cfg: Config, r: Run, moves: seq<Move>, r': Run)
    requires Shape(cfg, r) && Leads(cfg, r, moves, r')
    ensures |r.m.pc| == |r.prod| + |r.cons| && |r'.m.pc| == |r'.prod| + |r'.cons|
    ensures StepsMade(r') + 3 * SpuriousFailures(cfg, r, moves) == StepsMade(r) + |moves|
    decreases |moves|
  {
    if moves != [] {
      hide Inv, Step, ProducerOk, ConsumerOk, StepsMade, Spurious;
      StepShape(cfg, r, moves[0]);
      StepIsCounted(cfg, r, moves[0]);
      RunIsCounted(cfg, Step(cfg, r, moves[0]), moves[1..], r');
    }
  }

  lemma BeginSteps(cfg: Config)
    ensures |Begin(cfg).m.pc| == |Begin(cfg).prod| + |Begin(cfg).cons| && StepsMade(Begin(cfg)) == 0
  {
    var r := Begin(cfg);
    SumBounds(ThreadSteps(r), Same, 0, 0);
    SumBounds<nat>(r.m.fails, Value, 0, 0);
  }

  lemma {:induction false} SumSplit(a: seq<int>, b: seq<int>)
    ensures Sum(a + b, Same) == Sum(a, Same) + Sum(b, Same)
  {
    if b == [] {
      assert a + b == a;
    } else {
      SumSplit(a, b[..|b| - 1]);
      assert (a + b)[..|a + b| - 1] == a + b[..|b| - 1];
    }
  }

  /** When everybody has returned, the threads' places are worth 6 K + 1 for each producer. */
  lemma EndSteps(cfg: Config, r: Run)
    requires |r.m.pc| == |r.prod| + |r.cons| && |r.prod| == cfg.producers
    requires AllExited(r.cons) && forall p :: 0 <= p < |r.prod| ==> r.prod[p] == Returned(cfg.items)
    ensures Sum(ThreadSteps(r), Same) == (6 * cfg.items + 1) * cfg.producers
  {
    hide Sum;
    var each := 6 * cfg.items + 1;
    var a, b := seq(|r.prod|, _ => each), seq(|r.cons|, _ => 0);
    SumBounds(a, Same, each, each);
    SumBounds(b, Same, 0, 0);
    SumSplit(a, b);
    assert ThreadSteps(r) == a + b;
  }

  lemma EndPlaces(cfg: Config, r: Run)
    requires Good(cfg, r) && r.main.Finished?
    ensures |r.prod| == cfg.producers && AllExited(r.cons)
    ensures forall p :: 0 <= p < |r.prod| ==> r.prod[p] == Returned(cfg.items)
  {
    hide Inv, Counts, Values, PoppedStayOut, Linked, ConsumerOk;
    forall p | 0 <= p < |r.prod| ensures r.prod[p] == Returned(cfg.items) {
      assert ProducerOk(cfg, r, p);
    }
  }

  /**
   The length of every finished run_cas: 6 steps for each item pushed and 1 to return for each
   producer, 6 for each item popped, 3 for each look at an empty stack, 3 for each failed CAS, and
   the two joins of the main thread.
   */
  lemma LengthOfRun(cfg: Config, moves: seq<Move>, r: Run)
    requires Leads(cfg, Begin(cfg), moves, r) && r.main.Finished?
    ensures |moves| == (6 * cfg.items + 1) * cfg.producers + 6 * r.popCount + 3 * Looks(r.m.log)
                       + 3 * (Failures(r.m) + SpuriousFailures(cfg, Begin(cfg), moves)) + 2
  {
    hide Leads, Begin, Good, Shape, Looks, Failures, SpuriousFailures, Sum, ThreadSteps, AllExited;
    BeginGood(cfg);
    RunGood(cfg, Begin(cfg), moves, r);
    GoodIsShaped(cfg, Begin(cfg));
    RunIsCounted(cfg, Begin(cfg), moves, r);
    BeginSteps(cfg);
    EndPlaces(cfg, r);
    EndSteps(cfg, r);
  }

  lemma GoodIsShaped(cfg: Config, r: Run)
    requires Good(cfg, r)
    ensures Shape(cfg, r) && Counts(r)
  {
    hide Shape, Counts;
  }

  lemma PlacesAreBounded(cfg: Config, r: Run)
    requires Shape(cfg, r)
    ensures |r.m.pc| == |r.prod| + |r.cons|
    ensures Sum(ThreadSteps(r), Same) <= (6 * cfg.items + 1) * cfg.producers + 5 * cfg.consumers
  {
    hide Inv, Sum;
    var steps, n := ThreadSteps(r), cfg.producers;
    forall p | 0 <= p < n ensures 0 <= Same(steps[..n][p]) <= 6 * cfg.items + 1 {
      assert ProducerOk(cfg, r, p);
    }
    SumBounds(steps[..n], Same, 0, 6 * cfg.items + 1);
    SumBounds(steps[n..], Same, -1, 5);
    SumSplit(steps[..n], steps[n..]);
    assert steps == steps[..n] + steps[n..];
  }

  /** No more is pushed than there are items, and no more popped than was pushed. */
  lemma SuccessesAreBounded(cfg: Config, r: Run)
    requires Shape(cfg, r) && Counts(r)
    ensures r.popCount <= cfg.producers * cfg.items && Wins(r.m.log) <= 2 * (cfg.producers * cfg.items)
  {
    InvFacts(r.m);
    hide Inv, Sum, Wins, PushedNodes, PoppedNodes, Replay;
    forall p | 0 <= p < |r.prod| ensures 0 <= LandedInt(r.prod[p]) <= cfg.items {
      assert ProducerOk(cfg, r, p);
    }
    SumBounds(r.prod, LandedInt, 0, cfg.items);
    SumBounds(r.cons, Owing, 0, 1);
    NodesConserved(r.m.log);
    WinsAreMoves(r.m.log);
  }

  /** The genuine failures in terms of the items alone. */
  lemma FewFailures(cfg: Config, moves: seq<Move>, r: Run)
    requires Leads(cfg, Begin(cfg), moves, r) && 0 < cfg.producers + cfg.consumers
    requires Wins(r.m.log) <= 2 * (cfg.producers * cfg.items)
    ensures Failures(r.m) <= 2 * ((cfg.producers + cfg.consumers - 1) * (cfg.producers * cfg.items))
  {
    hide Leads, Begin, Sum, Wins, RetryInv;
    BeginRetryInv(cfg);
    RunRetries(cfg, Begin(cfg), moves, r);
    TotalFailures(r.m);
    Scale(cfg.producers + cfg.consumers - 1, Wins(r.m.log), cfg.producers * cfg.items);
  }

  lemma Scale(others: nat, wins: nat, items: nat)
    requires wins <= 2 * items
    ensures others * wins <= 2 * (others * items)
  {
    assert others * wins <= others * (2 * items);
  }

  lemma PerProducer(items: nat, producers: nat)
    ensures (6 * items + 1) * producers == 6 * (producers * items) + producers
  {
  }

  /**
   Only busy waiting and spurious failures can make run_cas long: with P producers, K items each
   and C consumers any run, finished or not, has at most 12 P K + P + 5 C + 6 (P + C - 1) P K + 2
   steps, plus three for each look at an empty stack and each spurious failure.
   */
  lemma RunsAreBounded(cfg: Config, moves: seq<Move>, r: Run)
    requires Leads(cfg, Begin(cfg), moves, r) && 0 < cfg.producers + cfg.consumers
    ensures var items := cfg.producers * cfg.items;
            |moves| <= 12 * items + cfg.producers + 5 * cfg.consumers
                       + 6 * ((cfg.producers + cfg.consumers - 1) * items) + 2
                       + 3 * (Looks(r.m.log) + SpuriousFailures(cfg, Begin(cfg), moves))
  {
    hide Leads, Begin, Good, Shape, Counts, Sum, ThreadSteps, Wins, Looks, Failures, SpuriousFailures;
    BeginGood(cfg);
    RunGood(cfg, Begin(cfg), moves, r);
    GoodIsShaped(cfg, Begin(cfg));
    GoodIsShaped(cfg, r);
    RunIsCounted(cfg, Begin(cfg), moves, r);
    BeginSteps(cfg);
    PlacesAreBounded(cfg, r);
    SuccessesAreBounded(cfg, r);
    FewFailures(cfg, moves, r);
    PerProducer(cfg.items, cfg.producers);
  }
}
