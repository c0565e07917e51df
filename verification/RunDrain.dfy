/**
 What run_cas leaves on the stack.  A consumer exits only after a pop that found the stack empty,
 so everything before the last such look has been popped, and everything pushed after it is left.
 */
module RunDrain {
  import opened CasStack
  import opened RunCas

  /** The last thing thread `t` did to the stack was to load an empty top. */
  ghost predicate EmptyLast(log: seq<Event>, t: nat) {
    exists e :: 0 <= e < |log| && log[e] == SawEmpty(t) && forall k :: e < k < |log| ==> log[k].thread != t
  }

  predicate LooksAtDone(x: Consumer) { x.CheckDone? || x.Exited? }

  /** A consumer that looks at cas_done, or has exited, saw an empty top after all else it did. */
  ghost predicate ExitsLook(cfg: Config, cons: seq<Consumer>, log: seq<Event>) {
    forall c :: 0 <= c < |cons| && LooksAtDone(cons[c]) ==> EmptyLast(log, cfg.producers + c)
  }

  predicate PopsAreByConsumers(cfg: Config, threads: nat, log: seq<Event>) {
    forall k :: 0 <= k < |log| && !log[k].Pushed? ==> cfg.producers <= log[k].thread < cfg.producers + threads
  }

  ghost predicate Looked(cfg: Config, r: Run) {
    ExitsLook(cfg, r.cons, r.m.log) && PopsAreByConsumers(cfg, |r.cons|, r.m.log)
  }

  lemma EmptyLastStays(log: seq<Event>, e: Event, t: nat)
    requires EmptyLast(log, t) && e.thread != t
    ensures EmptyLast(log + [e], t)
  {
    var k :| 0 <= k < |log| && log[k] == SawEmpty(t) && forall i :: k < i < |log| ==> log[i].thread != t;
    assert (log + [e])[k] == SawEmpty(t);
  }

  lemma EmptyLastNow(log: seq<Event>, t: nat)
    ensures EmptyLast(log + [SawEmpty(t)], t)
  {
    assert (log + [SawEmpty(t)])[|log|] == SawEmpty(t);
  }

  /** A consumer comes to look at cas_done only from a load of an empty top. */
  lemma LooksAfterEmpty(cfg: Config, r: Run, c: nat, spurious: bool)
    requires Shape(cfg, r) && Can(r, Consume(c, spurious)) && AccessOk(cfg, r, Consume(c, spurious))
    ensures var mv := Consume(c, spurious);
            var r' := Step(cfg, r, mv);
            LooksAtDone(r'.cons[c]) ==>
              EventsOf(cfg, r, mv) == [SawEmpty(cfg.producers + c)]
              || (EventsOf(cfg, r, mv) == [] && LooksAtDone(r.cons[c]))
  {
    StepEvents(cfg, r, Consume(c, spurious));
    hide Inv, Do, Logged, MemAfter, ProducerOk, ConsumerOk;
  }

  /** A move logs nothing, or one event of its own thread. */
  lemma OneEvent(cfg: Config, r: Run, mv: Move)
    requires Shape(cfg, r) && Can(r, mv) && AccessOk(cfg, r, mv)
    ensures var events, log' := EventsOf(cfg, r, mv), Step(cfg, r, mv).m.log;
            if events == [] then log' == r.m.log
            else
              && log' == r.m.log + [events[0]]
              && events[0].thread == Mover(cfg, mv)
              && (mv.Consume? ==> mv.c < |r.cons| && !events[0].Pushed?)
              && (!mv.Consume? ==> mv.Produce? && mv.p < cfg.producers && events[0].Pushed?)
  {
    StepEvents(cfg, r, mv);
    StepFrame(cfg, r, mv);
    hide Inv, Step, AccessOk, MemAfter, EventsOf, ProducerOk, ConsumerOk;
    assert EventsOf(cfg, r, mv) != [] ==> EventsOf(cfg, r, mv) == [EventsOf(cfg, r, mv)[0]];
  }

  lemma PopsSnoc(cfg: Config, threads: nat, log: seq<Event>, e: Event)
    requires PopsAreByConsumers(cfg, threads, log)
    requires e.Pushed? || cfg.producers <= e.thread < cfg.producers + threads
    ensures PopsAreByConsumers(cfg, threads, log + [e])
  {
  }

  lemma ExitsSnoc(cfg: Config, cons: seq<Consumer>, cons': seq<Consumer>, log: seq<Event>, e: Event)
    requires ExitsLook(cfg, cons, log) && |cons'| == |cons|
    requires forall c :: 0 <= c < |cons| && LooksAtDone(cons'[c]) ==>
               if e.thread == cfg.producers + c then e.SawEmpty? else LooksAtDone(cons[c])
    ensures ExitsLook(cfg, cons', log + [e])
  {
    hide EmptyLast, LooksAtDone;
    forall c | 0 <= c < |cons'| && LooksAtDone(cons'[c]) ensures EmptyLast(log + [e], cfg.producers + c) {
      if e.thread == cfg.producers + c {
        EmptyLastNow(log, cfg.producers + c);
      } else {
        EmptyLastStays(log, e, cfg.producers + c);
      }
    }
  }

  lemma ExitsStay(cfg: Config, cons: seq<Consumer>, cons': seq<Consumer>, log: seq<Event>)
    requires ExitsLook(cfg, cons, log) && |cons'| == |cons|
    requires forall c :: 0 <= c < |cons| && LooksAtDone(cons'[c]) ==> LooksAtDone(cons[c])
    ensures ExitsLook(cfg, cons', log)
  {
    hide EmptyLast, LooksAtDone;
  }

  lemma StepLooked(cfg: Config, r: Run, mv: Move)
    requires Shape(cfg, r) && Looked(cfg, r) && Can(r, mv) && AccessOk(cfg, r, mv)
    ensures Looked(cfg, Step(cfg, r, mv))
  {
    OneEvent(cfg, r, mv);
    StepFrame(cfg, r, mv);
    if mv.Consume? { LooksAfterEmpty(cfg, r, mv.c, mv.spurious); }
    hide Shape, Step, Can, AccessOk, MemAfter, EventsOf, Access, EmptyLast, ExitsLook, PopsAreByConsumers, LooksAtDone;
    var r', events := Step(cfg, r, mv), EventsOf(cfg, r, mv);
    if events != [] {
      PopsSnoc(cfg, |r.cons|, r.m.log, events[0]);
      ExitsSnoc(cfg, r.cons, r'.cons, r.m.log, events[0]);
    } else {
      ExitsStay(cfg, r.cons, r'.cons, r.m.log);
    }
  }

  lemma {:induction false} RunLooked(cfg: Config, r: Run, moves: seq<Move>, r': Run)
    requires Good(cfg, r) && Looked(cfg, r) && Leads(cfg, r, moves, r')
    ensures Looked(cfg, r')
    decreases |moves|
  {
    hide Looked, Step, Shape, PoppedStayOut, Counts, Values, Phases, Linked;
    if moves != [] {
      StepGood(cfg, r, moves[0]);
      StepLooked(cfg, r, moves[0]);
      RunLooked(cfg, Step(cfg, r, moves[0]), moves[1..], r');
    }
  }

  /** The last load of an empty top in a log, or -1. */
  function LastEmpty(log: seq<Event>): (e: int)
    ensures -1 <= e < |log|
    ensures 0 <= e ==> log[e].SawEmpty?
    ensures forall k :: e < k < |log| ==> !log[k].SawEmpty?
  {
    if log == [] then -1
    else if log[|log| - 1].SawEmpty? then |log| - 1
    else LastEmpty(log[..|log| - 1])
  }

  /** When only pushes follow a look at an empty stack, they are what is on it, the newest on top. */
  lemma {:induction false} OnlyPushesSince(log: seq<Event>, e: int)
    requires Replay(log).Some? && -1 <= e < |log| && (0 <= e ==> log[e].SawEmpty?)
    requires forall k :: e < k < |log| ==> log[k].Pushed?
    ensures |Replay(log).value| == |log| - e - 1
    ensures forall j :: 0 <= j < |Replay(log).value| ==> Replay(log).value[j] == log[|log| - 1 - j].node
    decreases |log|
  {
    var last := |log| - 1;
    if e < last {
      OnlyPushesSince(log[..last], e);
    }
  }

  /** Nothing a consumer that has exited did comes after the last load of an empty top. */
  lemma ConsumersLookLast(cfg: Config, r: Run, k: nat)
    requires Looked(cfg, r) && AllExited(r.cons) && k < |r.m.log| && !r.m.log[k].Pushed?
    ensures k <= LastEmpty(r.m.log)
  {
    hide LastEmpty;
    var log, t := r.m.log, r.m.log[k].thread;
    assert LooksAtDone(r.cons[t - cfg.producers]);
    var e :| 0 <= e < |log| && log[e] == SawEmpty(t) && forall i :: e < i < |log| ==> log[i].thread != t;
    assert k <= e <= LastEmpty(log);
  }

  lemma SomebodyLooked(cfg: Config, r: Run)
    requires Looked(cfg, r) && AllExited(r.cons) && r.cons != []
    ensures 0 <= LastEmpty(r.m.log)
  {
    hide LastEmpty;
    assert LooksAtDone(r.cons[0]) && EmptyLast(r.m.log, cfg.producers + 0);
  }

  /** Once every consumer has exited, the successes after the last look at an empty stack are all pushes. */
  lemma OnlyPushesAfterLastEmpty(cfg: Config, r: Run)
    requires Looked(cfg, r) && AllExited(r.cons)
    ensures forall k :: LastEmpty(r.m.log) < k < |r.m.log| ==> r.m.log[k].Pushed?
  {
    hide Looked, AllExited, LastEmpty;
    forall k | LastEmpty(r.m.log) < k < |r.m.log| ensures r.m.log[k].Pushed? {
      if !r.m.log[k].Pushed? { ConsumersLookLast(cfg, r, k); }
    }
  }

  lemma BeginLooked(cfg: Config)
    ensures Looked(cfg, Begin(cfg))
  {
  }

  lemma EndShape(cfg: Config, r: Run)
    requires Good(cfg, r) && r.main.Finished?
    ensures Replay(r.m.log).Some? && AllExited(r.cons) && |r.cons| == cfg.consumers
  {
    hide Inv, Counts, Values, PoppedStayOut, Linked, ProducerOk, ConsumerOk;
  }

  lemma NobodyPops(cfg: Config, moves: seq<Move>, r: Run)
    requires Leads(cfg, Begin(cfg), moves, r) && r.main.Finished? && cfg.consumers == 0
    ensures Replay(r.m.log).Some? && |Chained(r)| == cfg.producers * cfg.items
  {
    EndOfRun(cfg, moves, r);
    hide Leads;
    BeginGood(cfg);
    RunGood(cfg, Begin(cfg), moves, r);
    NodesConserved(r.m.log);
    assert r.consumed == [];
  }

  /**
   What is left at the end of every run_cas: exactly the nodes whose push succeeded after the last
   load of an empty top, the newest on top.  So the stack is drained if and only if no push CAS
   succeeded after that load, that is, unless the last success of all is a push.  With consumers
   there is such a load; without any, every item is left.
   */
  lemma WhatIsLeft(cfg: Config, moves: seq<Move>, r: Run)
    requires Leads(cfg, Begin(cfg), moves, r) && r.main.Finished?
    ensures Replay(r.m.log).Some?
    ensures var log, e := r.m.log, LastEmpty(r.m.log);
            && (forall k :: e < k < |log| ==> log[k].Pushed?)
            && |Chained(r)| == |log| - e - 1
            && (forall j :: 0 <= j < |Chained(r)| ==> Chained(r)[j] == log[|log| - 1 - j].node)
            && (Chained(r) == [] <==> log == [] || log[|log| - 1].SawEmpty?)
    ensures 0 < cfg.consumers ==> 0 <= LastEmpty(r.m.log)
    ensures cfg.consumers == 0 ==> |Chained(r)| == cfg.producers * cfg.items
  {
    hide Leads, Begin, Good, Looked, LastEmpty, Replay, AllExited;
    BeginGood(cfg);
    BeginLooked(cfg);
    RunGood(cfg, Begin(cfg), moves, r);
    RunLooked(cfg, Begin(cfg), moves, r);
    EndShape(cfg, r);
    OnlyPushesAfterLastEmpty(cfg, r);
    OnlyPushesSince(r.m.log, LastEmpty(r.m.log));
    if cfg.consumers == 0 { NobodyPops(cfg, moves, r); } else { SomebodyLooked(cfg, r); }
  }

  // ---------------------------------------------------------------- after cas_done

  /** Since `from`, no consumer has found the stack empty twice, and those that have are on their way out. */
  ghost predicate LookedOnce(cfg: Config, cons: seq<Consumer>, log: seq<Event>, from: nat) {
    && (forall k :: from <= k < |log| && log[k].SawEmpty? ==> OnWayOut(cfg, cons, log[k].thread))
    && (forall j, k :: from <= j < k < |log| && log[j].SawEmpty? && log[k].SawEmpty? ==>
          log[j].thread != log[k].thread)
  }

  predicate OnWayOut(cfg: Config, cons: seq<Consumer>, t: nat) {
    cfg.producers <= t < cfg.producers + |cons| && LooksAtDone(cons[t - cfg.producers])
  }

  lemma LookedOnceSnoc(cfg: Config, cons: seq<Consumer>, cons': seq<Consumer>, log: seq<Event>, from: nat, e: Event)
    requires LookedOnce(cfg, cons, log, from)
    requires forall t :: OnWayOut(cfg, cons, t) ==> OnWayOut(cfg, cons', t)
    requires e.SawEmpty? ==> OnWayOut(cfg, cons', e.thread) && !OnWayOut(cfg, cons, e.thread)
    ensures LookedOnce(cfg, cons', log + [e], from)
  {
    hide OnWayOut;
  }

  lemma LookedOnceStays(cfg: Config, cons: seq<Consumer>, cons': seq<Consumer>, log: seq<Event>, from: nat)
    requires LookedOnce(cfg, cons, log, from)
    requires forall t :: OnWayOut(cfg, cons, t) ==> OnWayOut(cfg, cons', t)
    ensures LookedOnce(cfg, cons', log, from)
  {
    hide OnWayOut;
  }

  /** With cas_done set, a consumer on its way out stays there. */
  lemma WayOutIsOneWay(cfg: Config, r: Run, mv: Move, t: nat)
    requires Shape(cfg, r) && Can(r, mv) && AccessOk(cfg, r, mv) && r.done && OnWayOut(cfg, r.cons, t)
    ensures OnWayOut(cfg, Step(cfg, r, mv).cons, t)
  {
    StepFrame(cfg, r, mv);
    hide Inv, MemAfter, EventsOf, AccessOk, ProducerOk, ConsumerOk;
  }

  /** Only a consumer inside its pop finds the stack empty, and then it is on its way out. */
  lemma EmptyStartsWayOut(cfg: Config, r: Run, mv: Move)
    requires Shape(cfg, r) && Can(r, mv) && AccessOk(cfg, r, mv) && EventsOf(cfg, r, mv) != []
    ensures var e := EventsOf(cfg, r, mv)[0];
            e.SawEmpty? ==> OnWayOut(cfg, Step(cfg, r, mv).cons, e.thread) && !OnWayOut(cfg, r.cons, e.thread)
  {
    StepEvents(cfg, r, mv);
    hide Inv, MemAfter, EventsOf, AccessOk, ProducerOk, ConsumerOk;
  }

  ghost predicate Prompt(cfg: Config, r: Run) {
    r.done ==> LookedOnce(cfg, r.cons, r.m.log, r.doneAt)
  }

  lemma StepPrompt(cfg: Config, r: Run, mv: Move)
    requires Shape(cfg, r) && Prompt(cfg, r) && Can(r, mv) && AccessOk(cfg, r, mv)
    ensures Prompt(cfg, Step(cfg, r, mv))
  {
    var r', events := Step(cfg, r, mv), EventsOf(cfg, r, mv);
    if r.done {
      OneEvent(cfg, r, mv);
      DoneStays(cfg, r, mv);
      hide Shape, Step, Can, AccessOk, MemAfter, EventsOf, OnWayOut, LookedOnce;
      forall t | OnWayOut(cfg, r.cons, t) ensures OnWayOut(cfg, r'.cons, t) { WayOutIsOneWay(cfg, r, mv, t); }
      if events != [] {
        EmptyStartsWayOut(cfg, r, mv);
        LookedOnceSnoc(cfg, r.cons, r'.cons, r.m.log, r.doneAt, events[0]);
      } else {
        LookedOnceStays(cfg, r.cons, r'.cons, r.m.log, r.doneAt);
      }
    } else {
      StartsAtDone(cfg, r, mv);
    }
  }

  lemma DoneStays(cfg: Config, r: Run, mv: Move)
    requires Can(r, mv) && AccessOk(cfg, r, mv) && r.done
    ensures Step(cfg, r, mv).doneAt == r.doneAt || mv.MainStep?
    ensures Step(cfg, r, mv).done
  {
    hide MemAfter, EventsOf, AccessOk;
  }

  lemma StartsAtDone(cfg: Config, r: Run, mv: Move)
    requires Can(r, mv) && AccessOk(cfg, r, mv) && !r.done
    ensures var r' := Step(cfg, r, mv); r'.done ==> r'.doneAt == |r'.m.log|
  {
    hide EventsOf, AccessOk, Do, Enabled;
  }

  lemma {:induction false} RunPrompt(cfg: Config, r: Run, moves: seq<Move>, r': Run)
    requires Good(cfg, r) && Prompt(cfg, r) && Leads(cfg, r, moves, r')
    ensures Prompt(cfg, r')
    decreases |moves|
  {
    hide Prompt, Step, Shape, PoppedStayOut, Counts, Values, Phases, Linked;
    if moves != [] {
      StepGood(cfg, r, moves[0]);
      StepPrompt(cfg, r, moves[0]);
      RunPrompt(cfg, Step(cfg, r, moves[0]), moves[1..], r');
    }
  }

  /** In every run, no consumer is gone before cas_done is stored, and none finds the stack empty twice after. */
  lemma ConsumersLeavePromptly(cfg: Config, moves: seq<Move>, r: Run)
    requires Leads(cfg, Begin(cfg), moves, r)
    ensures forall c :: 0 <= c < |r.cons| && r.cons[c].Exited? ==> r.done
    ensures r.done ==> forall j, k :: r.doneAt <= j < k < |r.m.log| && r.m.log[j].SawEmpty? && r.m.log[k].SawEmpty? ==>
              r.m.log[j].thread != r.m.log[k].thread
  {
    hide Leads, Begin, Shape, PoppedStayOut, Counts, Values, Linked;
    BeginGood(cfg);
    BeginPrompt(cfg);
    RunGood(cfg, Begin(cfg), moves, r);
    RunPrompt(cfg, Begin(cfg), moves, r);
  }

  lemma BeginPrompt(cfg: Config)
    ensures Prompt(cfg, Begin(cfg))
  {
  }
}
