/**
 The retry loops of cas_push and cas_pop (bench.c) and of push, pop and pop2 (aba.c), as code over
 shared fields.  `Interfere` stands for whatever the other threads do before an access; the
 loops are proved against the step function of CasStack, so every access is one of its steps.
 */
module CasCode {
  import opened CasStack

  /**
   What thread `t` may rely on when others have moved `m` to `m'`: its own place, its nodes and its
   place in the log are untouched, and the log only grows.
   */
  ghost predicate Rely(m: Mem, m': Mem, t: nat) {
    && Inv(m') && t < |m.pc| == |m'.pc| && |m.fails| == |m'.fails|
    && m'.pc[t] == m.pc[t]
    && m.brk <= m'.brk
    && (forall n :: (n in m.owner && m.owner[n] == t) <==> (n in m'.owner && m'.owner[n] == t))
    && (forall n, u :: n in m.owner && m.owner[n] == t && 0 <= u < |m.pc| && InWindow(m'.pc[u], n) ==>
          InWindow(m.pc[u], n))
    && m.log <= m'.log
    && (forall k :: |m.log| <= k < |m'.log| ==> m'.log[k].thread != t)
    && (m'.top != m.top ==> Wins(m.log) < Wins(m'.log))
    && Wins(m.log) <= Wins(m'.log)
  }

  predicate OnlyOthers(sched: seq<Choice>, t: nat) {
    forall k :: 0 <= k < |sched| ==> sched[k].thread != t
  }

  lemma StepGrowsLog(m: Mem, c: Choice, t: nat)
    requires Enabled(m, c) && t < |m.pc| && c.thread != t
    ensures var m' := Do(m, c);
            && m.log <= m'.log && Wins(m.log) <= Wins(m'.log)
            && (forall k :: |m.log| <= k < |m'.log| ==> m'.log[k].thread != t)
            && (m'.top != m.top ==> Wins(m.log) < Wins(m'.log))
  {
    StepLogs(m, c);
    if Logged(m, c) == [] {
      assert Do(m, c).log == m.log;
    } else {
      WinsSnoc(m.log, Logged(m, c)[0], t);
      assert Do(m, c).log == m.log + [Logged(m, c)[0]];
    }
  }

  lemma StepIsRelied(m: Mem, c: Choice, t: nat)
    requires Inv(m) && Enabled(m, c) && Careful(m, c) && t < |m.pc| && c.thread != t
    ensures Rely(m, Do(m, c), t)
  {
    hide Inv;
    StepInv(m, c);
    StepLeavesOthers(m, c, t);
    StepGrowsLog(m, c, t);
    forall n ensures (n in m.owner && m.owner[n] == t) <==> (n in Do(m, c).owner && Do(m, c).owner[n] == t) {
      StepKeepsOwned(m, c, t, n);
    }
    forall n, u | n in m.owner && m.owner[n] == t && 0 <= u < |m.pc| && InWindow(Do(m, c).pc[u], n)
      ensures InWindow(m.pc[u], n)
    {
      StepOpensNoWindow(m, c, t, n, u);
    }
    assert m.brk <= Do(m, c).brk;
    hide Do;
  }

  /** Any careful schedule of the other threads is something `t` may rely on. */
  lemma {:induction false} OthersAreRelied(m: Mem, sched: seq<Choice>, t: nat)
    requires Inv(m) && Runs(m, sched) && CarefulRun(m, sched) && t < |m.pc| && OnlyOthers(sched, t)
    ensures Rely(m, After(m, sched), t)
    decreases |sched|
  {
    if sched != [] {
      assert sched[0].thread != t;
      StepIsRelied(m, sched[0], t);
      OthersAreRelied(Do(m, sched[0]), sched[1..], t);
    }
  }

  lemma RelyOnNothing(m: Mem, t: nat)
    requires Inv(m) && t < |m.pc|
    ensures Rely(m, m, t)
  {
    hide Inv;
  }

  /** In the part of the log since `log0`, thread `t` has done nothing. */
  ghost predicate Quiet(log0: seq<Event>, log: seq<Event>, t: nat) {
    log0 <= log && forall k :: |log0| <= k < |log| ==> log[k].thread != t
  }

  /** In the part of the log since `log0`, thread `t` has done exactly one thing: `e`. */
  ghost predicate DidOnce(log0: seq<Event>, log: seq<Event>, t: nat, e: Event) {
    exists mid, rest :: Quiet(log0, mid, t) && mid + [e] <= log && Quiet(mid + [e], log, t) && log == mid + [e] + rest
  }

  /** The log entry that goes with a result of pop. */
  function PopEvent(t: nat, node: Ptr): Event {
    if node.Null? then SawEmpty(t) else Popped(t, node.node)
  }

  lemma QuietThenQuiet(a: seq<Event>, b: seq<Event>, c: seq<Event>, t: nat)
    requires Quiet(a, b, t) && Quiet(b, c, t)
    ensures Quiet(a, c, t)
  {
  }

  /** After a quiet stretch, one event of the thread's own. */
  lemma ThenOnce(log0: seq<Event>, log: seq<Event>, t: nat, e: Event)
    requires Quiet(log0, log, t)
    ensures DidOnce(log0, log + [e], t, e)
  {
    assert log + [e] == log + [e] + [];
  }

  lemma QuietThenOnce(log0: seq<Event>, mid: seq<Event>, log: seq<Event>, t: nat, e: Event)
    requires Quiet(log0, mid, t) && DidOnce(mid, log, t, e)
    ensures DidOnce(log0, log, t, e)
  {
    var m, rest :| Quiet(mid, m, t) && m + [e] <= log && Quiet(m + [e], log, t) && log == m + [e] + rest;
    assert Quiet(log0, m, t);
  }

  /** What happens between two accesses of a thread, and whether its next weak CAS fails spuriously. */
  datatype Pause = Pause(others: seq<Choice>, spurious: bool)

  class Stack {
    // bench.c: CASStack.top, Node.next, pool_idx
    var top: Ptr
    var next: map<nat, Ptr>
    var poolIdx: nat
    // who holds which node, where every thread is, and the history
    var owner: map<nat, nat>
    var pc: seq<Pc>
    var fails: seq<nat>
    var log: seq<Event>
    // the interruptions still to come; when they are used up the caller runs alone
    var tape: seq<Pause>

    function State(): Mem
      reads this
    {
      Mem(top, next, owner, poolIdx, pc, fails, log)
    }

    constructor (threads: nat, tape: seq<Pause>)
      ensures State() == Init(threads) && Inv(State()) && this.tape == tape
    {
      top, next, poolIdx, owner := Null, map[], 0, map[];
      pc, fails, log := seq(threads, _ => Idle), seq(threads, _ => 0), [];
      this.tape := tape;
    }

    /** The other threads run for a while. */
    method Interfere(t: nat)
      requires Inv(State()) && t < |pc|
      modifies this
      ensures Rely(old(State()), State(), t)
      ensures Inv(State()) && |pc| == old(|pc|) && pc[t] == old(pc)[t] && Quiet(old(log), log, t)
      ensures old(tape) == [] ==> State() == old(State()) && tape == []
      ensures old(tape) != [] ==> tape == old(tape)[1..]
    {
      hide Inv, Runs, After, CarefulRun, OnlyOthers;
      RelyOnNothing(State(), t);
      if tape != [] {
        var others := tape[0].others;
        tape := tape[1..];
        if Runs(State(), others) && CarefulRun(State(), others) && OnlyOthers(others, t) {
          OthersAreRelied(State(), others, t);
          var m := After(State(), others);
          top, next, owner, poolIdx, pc, fails, log := m.top, m.next, m.owner, m.brk, m.pc, m.fails, m.log;
        }
      }
    }

    /** atomic_load(&s->top) at the head of a retry loop. */
    method LoadTop(t: nat) returns (seen: Ptr)
      requires Inv(State()) && t < |pc| && (pc[t].PushLoad? || pc[t].PopLoad?)
      modifies this
      ensures State() == Do(old(State()), Choice(t, Advance(false)))
      ensures seen == old(top) == top && tape == old(tape)
      ensures Inv(State()) && |pc| == old(|pc|)
      ensures old(pc)[t].PushLoad? ==> pc[t] == PushLink(old(pc)[t].node, seen)
      ensures old(pc)[t].PopLoad? && seen.At? ==> pc[t] == PopNext(seen.node)
      ensures old(pc)[t].PopLoad? && seen.Null? ==> pc[t].Idle?
      ensures log == if old(pc)[t].PopLoad? && seen.Null? then old(log) + [SawEmpty(t)] else old(log)
    {
      hide Inv;
      InvFacts(State());
      StepInv(State(), Choice(t, Advance(false)));
      seen := top;
      if pc[t].PushLoad? {
        pc := pc[t := PushLink(pc[t].node, seen)];
      } else if seen.Null? {
        pc, log := pc[t := Idle], log + [SawEmpty(t)];
      } else {
        pc := pc[t := PopNext(seen.node)];
      }
    }

    /** node->next = old */
    method StoreNext(t: nat, node: nat, seen: Ptr)
      requires Inv(State()) && t < |pc| && pc[t] == PushLink(node, seen)
      modifies this
      ensures State() == Do(old(State()), Choice(t, Advance(false)))
      ensures tape == old(tape) && top == old(top)
      ensures Inv(State()) && |pc| == old(|pc|) && log == old(log) && pc[t] == PushCas(node, seen)
    {
      StepInv(State(), Choice(t, Advance(false)));
      next := next[node := seen];
      pc := pc[t := PushCas(node, seen)];
    }

    /** next = old->next */
    method LoadNext(t: nat, node: nat) returns (p: Ptr)
      requires Inv(State()) && t < |pc| && pc[t] == PopNext(node)
      modifies this
      ensures State() == Do(old(State()), Choice(t, Advance(false)))
      ensures tape == old(tape) && top == old(top)
      ensures Inv(State()) && |pc| == old(|pc|) && log == old(log) && pc[t] == PopCas(node, p)
    {
      StepInv(State(), Choice(t, Advance(false)));
      assert ThreadOk(State(), t);
      p := next[node];
      pc := pc[t := PopCas(node, p)];
    }

    /** atomic_compare_exchange_weak(&s->top, &old, desired) */
    method CompareExchange(t: nat, expected: Ptr, desired: Ptr) returns (ok: bool)
      requires Inv(State()) && t < |pc|
      requires pc[t].PushCas? ==> expected == pc[t].seen && desired == At(pc[t].node)
      requires !pc[t].PushCas? ==> pc[t].PopCas? && expected == At(pc[t].loaded) && desired == pc[t].next
      modifies this
      ensures exists spurious :: ok == (old(top) == expected && !spurious)
                && State() == Do(old(State()), Choice(t, Advance(spurious)))
      ensures tape == old(tape) && (tape == [] && old(top) == expected ==> ok)
      ensures Inv(State()) && |pc| == old(|pc|)
      ensures ok ==> pc[t].Idle?
      ensures ok && old(pc)[t].PopCas? ==> old(pc)[t].loaded in owner && owner[old(pc)[t].loaded] == t
      ensures !ok ==> pc[t] == (if old(pc)[t].PushCas? then PushLoad(old(pc)[t].node) else PopLoad)
      ensures log == if !ok then old(log)
                     else if old(pc)[t].PushCas? then old(log) + [Pushed(t, old(pc)[t].node)]
                     else old(log) + [Popped(t, old(pc)[t].loaded)]
    {
      hide Inv;
      InvFacts(State());
      var spurious := tape != [] && tape[0].spurious;
      StepInv(State(), Choice(t, Advance(spurious)));
      ok := top == expected && !spurious;
      ghost var before := State();
      if ok {
        top := desired;
        if pc[t].PushCas? {
          owner, log := owner - {pc[t].node}, log + [Pushed(t, pc[t].node)];
        } else {
          owner, log := owner[pc[t].loaded := t], log + [Popped(t, pc[t].loaded)];
        }
        pc := pc[t := Idle];
      } else {
        fails := if top == expected then fails else fails[t := fails[t] + 1];
        pc := pc[t := if pc[t].PushCas? then PushLoad(pc[t].node) else PopLoad];
      }
      assert State() == Do(before, Choice(t, Advance(spurious)));
    }

    /** One turn of the push loop. */
    method TryPush(t: nat, node: nat) returns (ok: bool)
      requires Inv(State()) && t < |pc| && pc[t] == PushLoad(node)
      modifies this
      ensures Inv(State()) && t < |pc|
      ensures !ok ==> pc[t] == PushLoad(node) && Quiet(old(log), log, t) && |tape| < |old(tape)|
      ensures ok ==> pc[t].Idle? && DidOnce(old(log), log, t, Pushed(t, node))
    {
      hide Inv, Do, Rely, Quiet, DidOnce;
      ghost var log0 := log;
      Interfere(t);
      var seen := LoadTop(t);
      ghost var log1 := log;
      Interfere(t);
      StoreNext(t, node, seen);
      ghost var log2 := log;
      Interfere(t);
      ghost var log3 := log;
      QuietThenQuiet(log0, log1, log2, t);
      QuietThenQuiet(log0, log2, log3, t);
      ok := CompareExchange(t, seen, At(node));
      ThenOnce(log0, log3, t, Pushed(t, node));
    }

    /** `push` of aba.c, and the loop of cas_push: a node the thread holds goes on the stack. */
    method Push(t: nat, node: nat)
      requires Inv(State()) && t < |pc| && pc[t].Idle? && node in owner && owner[node] == t
      requires Careful(State(), Choice(t, BeginPush(node)))
      modifies this
      ensures Inv(State()) && t < |pc| && pc[t].Idle?
      ensures DidOnce(old(log), log, t, Pushed(t, node))
    {
      StepInv(State(), Choice(t, BeginPush(node)));
      pc := pc[t := PushLoad(node)];
      var ok := false;
      while !ok
        invariant Inv(State()) && t < |pc|
        invariant !ok ==> pc[t] == PushLoad(node) && Quiet(old(log), log, t)
        invariant ok ==> pc[t].Idle? && DidOnce(old(log), log, t, Pushed(t, node))
        decreases !ok, |tape|
      {
        ghost var mid := log;
        ok := TryPush(t, node);
        if ok {
          QuietThenOnce(old(log), mid, log, t, Pushed(t, node));
        }
      }
    }

    /** cas_push: a node fresh from the pool, then the loop. */
    method CasPush(t: nat) returns (node: nat)
      requires Inv(State()) && t < |pc| && pc[t].Idle?
      modifies this
      ensures Inv(State()) && t < |pc| && pc[t].Idle? && node == old(poolIdx)
      ensures DidOnce(old(log), log, t, Pushed(t, node))
    {
      StepInv(State(), Choice(t, Alloc));
      NewNodeUnseen(State(), t);
      node := poolIdx;
      owner, poolIdx := owner[node := t], poolIdx + 1;
      ghost var mid := log;
      Interfere(t);
      ghost var mid' := log;
      Push(t, node);
      QuietThenOnce(old(log), mid', log, t, Pushed(t, node));
    }

    /** One turn of the pop loop; `done` with NULL means that the stack was seen empty. */
    method TryPop(t: nat) returns (done: bool, node: Ptr)
      requires Inv(State()) && t < |pc| && pc[t].PopLoad?
      modifies this
      ensures Inv(State()) && t < |pc|
      ensures !done ==> pc[t].PopLoad? && Quiet(old(log), log, t) && |tape| < |old(tape)|
      ensures done ==> pc[t].Idle? && DidOnce(old(log), log, t, PopEvent(t, node))
      ensures done && node.At? ==> node.node in owner && owner[node.node] == t
    {
      hide Inv, Do, Rely, Quiet, DidOnce;
      ghost var log0 := log;
      Interfere(t);
      ghost var log1 := log;
      var seen := LoadTop(t);
      if seen.Null? {
        ThenOnce(log0, log1, t, SawEmpty(t));
        return true, Null;
      }
      Interfere(t);
      var p := LoadNext(t, seen.node);
      ghost var log2 := log;
      Interfere(t);
      ghost var log3 := log;
      QuietThenQuiet(log0, log1, log2, t);
      QuietThenQuiet(log0, log2, log3, t);
      done := CompareExchange(t, seen, p);
      node := seen;
      ThenOnce(log0, log3, t, Popped(t, seen.node));
    }

    /** cas_pop, and `pop`/`pop2` of aba.c: NULL when the stack was seen empty. */
    method Pop(t: nat) returns (node: Ptr)
      requires Inv(State()) && t < |pc| && pc[t].Idle?
      modifies this
      ensures Inv(State()) && t < |pc| && pc[t].Idle?
      ensures DidOnce(old(log), log, t, PopEvent(t, node))
      ensures node.At? ==> node.node in owner && owner[node.node] == t
    {
      StepInv(State(), Choice(t, BeginPop));
      pc := pc[t := PopLoad];
      var done := false;
      node := Null;
      while !done
        invariant Inv(State()) && t < |pc|
        invariant !done ==> pc[t].PopLoad? && Quiet(old(log), log, t)
        invariant done ==> pc[t].Idle? && DidOnce(old(log), log, t, PopEvent(t, node))
        invariant done && node.At? ==> node.node in owner && owner[node.node] == t
        decreases !done, |tape|
      {
        ghost var mid := log;
        done, node := TryPop(t);
        if done {
          QuietThenOnce(old(log), mid, log, t, PopEvent(t, node));
        }
      }
    }
  }
}
