/**
 Node reuse on the stack of CasStack, as in aba.c: `thread2` pops a node, pushes others and pushes
 the first one back while `thread1` sits between its load of `top` and its CAS.
 */
module Aba {
  import opened CasStack
  import opened Wrappers

  // ---------------------------------------------------------------- operations run without interruption

  function Advances(t: nat, k: nat): seq<Choice> {
    seq(k, _ => Choice(t, Advance(false)))
  }

  function PushAlone(t: nat, n: nat): seq<Choice> {
    [Choice(t, BeginPush(n))] + Advances(t, 3)
  }

  function PopAlone(t: nat): seq<Choice> {
    [Choice(t, BeginPop)] + Advances(t, 3)
  }

  /** Thread `t` allocates and pushes k nodes, first, first + 1, ... */
  function PushFresh(t: nat, first: nat, k: nat): seq<Choice> {
    if k == 0 then []
    else PushFresh(t, first, k - 1) + AllocPush(t, first + k - 1)
  }

  /** first + k - 1, ..., first + 1, first: the newest node on top. */
  function Down(first: nat, k: nat): seq<nat> {
    seq(k, i requires 0 <= i < k => first + k - 1 - i)
  }

  /** While t1 is about to CAS, t2 pushes k new nodes and then the popped node `a` again. */
  function Attack(t1: nat, t2: nat, a: nat, first: nat, k: nat): seq<Choice> {
    PushFresh(t2, first, k) + (PushAlone(t2, a) + [Choice(t1, Advance(false))])
  }

  /** t1 loads the top and its next, t2 pops the same node: the opening of the scenario. */
  function OpenWindow(t1: nat, t2: nat): seq<Choice> {
    ([Choice(t1, BeginPop)] + Advances(t1, 2)) + PopAlone(t2)
  }

  lemma {:induction false} RunsConcat(m: Mem, a: seq<Choice>, b: seq<Choice>)
    requires Runs(m, a) && Runs(After(m, a), b)
    ensures Runs(m, a + b) && After(m, a + b) == After(After(m, a), b)
    decreases |a|
  {
    hide Do, Enabled;
    if a == [] {
      assert a + b == b;
    } else {
      RunsConcat(Do(m, a[0]), a[1..], b);
      assert (a + b)[0] == a[0] && (a + b)[1..] == a[1..] + b;
    }
  }

  lemma RunNone(m: Mem)
    ensures Runs(m, []) && After(m, []) == m
  {
  }

  lemma RunOne(m: Mem, c: Choice)
    requires Enabled(m, c)
    ensures Runs(m, [c]) && After(m, [c]) == Do(m, c)
  {
    assert [c][1..] == [];
    assert Runs(Do(m, c), []);
  }

  lemma RunMore(m: Mem, c: Choice, rest: seq<Choice>)
    requires Enabled(m, c) && Runs(Do(m, c), rest)
    ensures Runs(m, [c] + rest) && After(m, [c] + rest) == After(Do(m, c), rest)
  {
    assert ([c] + rest)[1..] == rest;
  }

  lemma AdvanceMore(m: Mem, t: nat, k: nat)
    requires k > 0 && Enabled(m, Choice(t, Advance(false)))
    requires Runs(Do(m, Choice(t, Advance(false))), Advances(t, k - 1))
    ensures Runs(m, Advances(t, k))
    ensures After(m, Advances(t, k)) == After(Do(m, Choice(t, Advance(false))), Advances(t, k - 1))
  {
    assert Advances(t, k) == [Choice(t, Advance(false))] + Advances(t, k - 1);
    RunMore(m, Choice(t, Advance(false)), Advances(t, k - 1));
  }

  /** A push that nobody interrupts. */
  lemma PushAloneRuns(m: Mem, t: nat, n: nat)
    requires t < |m.pc| == |m.fails| && m.pc[t].Idle? && n in m.owner && m.owner[n] == t
    ensures Runs(m, PushAlone(t, n))
    ensures After(m, PushAlone(t, n))
         == m.(top := At(n), next := m.next[n := m.top], owner := m.owner - {n}, log := m.log + [Pushed(t, n)])
    ensures Inv(m) && Careful(m, Choice(t, BeginPush(n))) ==> Inv(After(m, PushAlone(t, n)))
  {
    hide Inv;
    var adv := Choice(t, Advance(false));
    var m1 := Do(m, Choice(t, BeginPush(n)));
    var m2 := Do(m1, adv);
    var m3 := Do(m2, adv);
    var m4 := Do(m3, adv);
    assert m4.pc == m.pc;
    AdvanceMore(m3, t, 1);
    AdvanceMore(m2, t, 2);
    AdvanceMore(m1, t, 3);
    RunMore(m, Choice(t, BeginPush(n)), Advances(t, 3));
    if Inv(m) && Careful(m, Choice(t, BeginPush(n))) {
      StepInv(m, Choice(t, BeginPush(n)));
      StepInv(m1, adv);
      StepInv(m2, adv);
      StepInv(m3, adv);
    }
  }

  /** A pop that nobody interrupts. */
  lemma PopAloneRuns(m: Mem, t: nat)
    requires t < |m.pc| == |m.fails| && m.pc[t].Idle? && m.top.At? && m.top.node in m.next
    ensures Runs(m, PopAlone(t))
    ensures var n := m.top.node;
            After(m, PopAlone(t)) == m.(top := m.next[n], owner := m.owner[n := t], log := m.log + [Popped(t, n)])
    ensures Inv(m) ==> Inv(After(m, PopAlone(t)))
  {
    hide Inv;
    var adv := Choice(t, Advance(false));
    var m1 := Do(m, Choice(t, BeginPop));
    var m2 := Do(m1, adv);
    var m3 := Do(m2, adv);
    var m4 := Do(m3, adv);
    assert m4.pc == m.pc;
    AdvanceMore(m3, t, 1);
    AdvanceMore(m2, t, 2);
    AdvanceMore(m1, t, 3);
    RunMore(m, Choice(t, BeginPop), Advances(t, 3));
    if Inv(m) {
      StepInv(m, Choice(t, BeginPop));
      StepInv(m1, adv);
      StepInv(m2, adv);
      StepInv(m3, adv);
    }
  }

  function AllocPush(t: nat, n: nat): seq<Choice> {
    [Choice(t, Alloc)] + PushAlone(t, n)
  }

  function WithNewTop(m: Mem, t: nat): Mem {
    m.(top := At(m.brk), next := m.next[m.brk := m.top], brk := m.brk + 1, log := m.log + [Pushed(t, m.brk)])
  }

  /** A node that was never allocated can be pushed: nobody has loaded it. */
  lemma NewNodesAreCareful(m: Mem, t: nat)
    requires Inv(m) && t < |m.pc| && m.pc[t].Idle?
    ensures var m1 := Do(m, Choice(t, Alloc)); Inv(m1) && Careful(m1, Choice(t, BeginPush(m.brk)))
  {
    var m1 := Do(m, Choice(t, Alloc));
    StepInv(m, Choice(t, Alloc));
    forall u | 0 <= u < |m1.pc| ensures !InWindow(m1.pc[u], m.brk) {
      assert ThreadOk(m, u);
    }
  }

  /** Allocating and pushing one node keeps everything else in place. */
  lemma AllocPushRuns(m: Mem, t: nat)
    requires Inv(m) && t < |m.pc| && m.pc[t].Idle?
    ensures Runs(m, AllocPush(t, m.brk))
    ensures After(m, AllocPush(t, m.brk)) == WithNewTop(m, t)
    ensures Inv(WithNewTop(m, t))
  {
    hide Runs, After, Inv;
    InvFacts(m);
    NewNodesAreCareful(m, t);
    var m1 := Do(m, Choice(t, Alloc));
    PushAloneRuns(m1, t, m.brk);
    assert m1.owner - {m.brk} == m.owner;
    RunMore(m, Choice(t, Alloc), PushAlone(t, m.brk));
  }

  lemma {:induction false} PushFreshRuns(m: Mem, t: nat, k: nat)
    requires Inv(m) && t < |m.pc| && m.pc[t].Idle?
    ensures Runs(m, PushFresh(t, m.brk, k))
    ensures var g := After(m, PushFresh(t, m.brk, k));
            && Inv(g)
            && g.pc == m.pc && g.fails == m.fails && g.owner == m.owner && g.brk == m.brk + k
            && Replay(g.log) == Some(Down(m.brk, k) + Replay(m.log).value)
            && (forall n :: n in m.next && n < m.brk ==> n in g.next && g.next[n] == m.next[n])
            && (k == 0 ==> g == m)
            && (k > 0 ==> g.top == At(m.brk + k - 1))
  {
    hide Runs, After, Do, Enabled, Inv, Replay;
    InvFacts(m);
    var s := Replay(m.log).value;
    if k == 0 {
      RunNone(m);
      assert Down(m.brk, 0) + s == s;
    } else {
      PushFreshRuns(m, t, k - 1);
      var g := After(m, PushFresh(t, m.brk, k - 1));
      AllocPushRuns(g, t);
      RunsConcat(m, PushFresh(t, m.brk, k - 1), AllocPush(t, m.brk + k - 1));
      ReplaySnoc(g.log, Pushed(t, g.brk));
      assert Down(m.brk, k) == [m.brk + k - 1] + Down(m.brk, k - 1);
      assert Down(m.brk, k) + s == [m.brk + k - 1] + (Down(m.brk, k - 1) + s);
    }
  }

  ghost predicate AfterAttack(m: Mem, f: Mem, t1: nat, a: nat, k: nat)
    requires t1 < |m.pc| && m.pc[t1].PopCas? && Replay(m.log).Some?
  {
    && f.top == m.pc[t1].next
    && f.owner == m.owner[a := t1]
    && (exists log :: f.log == log + [Popped(t1, a)])
    && Replay(f.log) == Some(Down(m.brk, k) + Replay(m.log).value)
    && (forall n :: n in m.next && n < m.brk && n != a ==> n in f.next && f.next[n] == m.next[n])
  }

  /** A thread before its CAS has allocated what it loaded. */
  lemma AboutToCas(m: Mem, t: nat)
    requires Inv(m) && t < |m.pc| && m.pc[t].PopCas?
    ensures m.pc[t].loaded < m.brk
  {
    assert ThreadOk(m, t);
  }

  lemma CasSucceeds(m: Mem, t: nat)
    requires t < |m.pc| == |m.fails| && m.pc[t].PopCas? && m.top == At(m.pc[t].loaded)
    ensures var cas, n := Choice(t, Advance(false)), m.pc[t].loaded;
            && Enabled(m, cas)
            && Do(m, cas) == m.(top := m.pc[t].next, owner := m.owner[n := t], pc := m.pc[t := Idle],
                                log := m.log + [Popped(t, n)])
  {
  }

  lemma PushedAndPopped(log: seq<Event>, t2: nat, n: nat, t1: nat)
    requires Replay(log).Some?
    ensures Replay(log + [Pushed(t2, n)] + [Popped(t1, n)]) == Replay(log)
  {
    hide Replay;
    ReplaySnoc(log, Pushed(t2, n));
    ReplaySnoc(log + [Pushed(t2, n)], Popped(t1, n));
    assert ([n] + Replay(log).value)[1..] == Replay(log).value;
  }

  /**
   Reuse inside the window: from any state in which t1 is about to CAS from `a` to the pointer it
   read, and t2 holds `a`, the attack runs, t1's CAS succeeds, and `top` is what t1 read, whatever
   has been pushed meanwhile.  A LIFO stack would hold the k new nodes on top of the old chain.
   */
  lemma ReuseInWindow(m: Mem, t1: nat, t2: nat, k: nat)
    requires Inv(m) && t1 < |m.pc| && t2 < |m.pc| && t1 != t2
    requires m.pc[t1].PopCas? && m.pc[t2].Idle?
    requires m.pc[t1].loaded in m.owner && m.owner[m.pc[t1].loaded] == t2
    ensures var a := m.pc[t1].loaded;
            var attack := Attack(t1, t2, a, m.brk, k);
            Runs(m, attack) && AfterAttack(m, After(m, attack), t1, a, k)
  {
    hide Runs, After, Replay, Do, Enabled, Inv, PushFresh, PushAlone;
    var a := m.pc[t1].loaded;
    InvFacts(m);
    AboutToCas(m, t1);
    PushFreshRuns(m, t2, k);
    var g := After(m, PushFresh(t2, m.brk, k));
    PushAloneRuns(g, t2, a);
    var h := After(g, PushAlone(t2, a));
    var cas := Choice(t1, Advance(false));
    CasSucceeds(h, t1);
    RunOne(h, cas);
    RunsConcat(g, PushAlone(t2, a), [cas]);
    RunsConcat(m, PushFresh(t2, m.brk, k), PushAlone(t2, a) + [cas]);
    PushedAndPopped(g.log, t2, a, t1);
    assert (m.owner - {a})[a := t1] == m.owner[a := t1];
  }

  /** Memory is no longer the stack that the successful CASes of the log would leave. */
  ghost predicate Broken(m: Mem) {
    Replay(m.log).Some? && !Chain(m.top, m.next, Replay(m.log).value)
  }

  /** A careless push after t1 has read `next`. */
  lemma CarelessPushBeforeCas(m: Mem, t1: nat, t2: nat, k: nat)
    requires Inv(m) && t1 < |m.pc| && t2 < |m.pc| && t1 != t2 && k > 0
    requires m.pc[t1].PopCas? && m.pc[t2].Idle?
    requires m.pc[t1].loaded in m.owner && m.owner[m.pc[t1].loaded] == t2
    ensures var attack := Attack(t1, t2, m.pc[t1].loaded, m.brk, k);
            Runs(m, attack) && Broken(After(m, attack))
  {
    ReuseInWindow(m, t1, t2, k);
    var f := After(m, Attack(t1, t2, m.pc[t1].loaded, m.brk, k));
    assert Replay(f.log).value[0] == m.brk + k - 1;
    assert ThreadOk(m, t1);
    assert Allocated(m, m.next[m.pc[t1].loaded]);
  }

  /** The attack on a window in either phase: a victim that has not read `next` yet reads it first. */
  function AttackOn(m: Mem, t1: nat, t2: nat, n: nat, k: nat): seq<Choice>
    requires t1 < |m.pc|
  {
    (if m.pc[t1].PopNext? then [Choice(t1, Advance(false))] else []) + Attack(t1, t2, n, m.brk, k)
  }

  lemma PushIsInAttack(t1: nat, t2: nat, a: nat, first: nat, k: nat)
    ensures Choice(t2, BeginPush(a)) in Attack(t1, t2, a, first, k)
  {
    assert PushAlone(t2, a)[0] == Choice(t2, BeginPush(a));
  }

  /**
   A careless push puts a broken stack within reach: wherever a thread t2 could push a node n that
   another thread t1 has loaded in an unfinished pop, the push is one Careful forbids, and pushing new
   nodes first and then n leads to a broken stack.  Module Reuse says exactly which runs break it.
   */
  lemma CarelessPushBreaksTheStack(m: Mem, t1: nat, t2: nat, n: nat, k: nat)
    requires Inv(m) && t1 < |m.pc| && t2 < |m.pc| && t1 != t2 && k > 0
    requires InWindow(m.pc[t1], n) && Enabled(m, Choice(t2, BeginPush(n)))
    ensures !Careful(m, Choice(t2, BeginPush(n)))
    ensures Choice(t2, BeginPush(n)) in AttackOn(m, t1, t2, n, k)
    ensures Runs(m, AttackOn(m, t1, t2, n, k)) && Broken(After(m, AttackOn(m, t1, t2, n, k)))
  {
    hide Runs, After, Broken, Replay;
    PushIsInAttack(t1, t2, n, m.brk, k);
    var attack := Attack(t1, t2, n, m.brk, k);
    if m.pc[t1].PopNext? {
      var read := Choice(t1, Advance(false));
      StepInv(m, read);
      CarelessPushBeforeCas(Do(m, read), t1, t2, k);
      RunMore(m, read, attack);
    } else {
      CarelessPushBeforeCas(m, t1, t2, k);
      assert AttackOn(m, t1, t2, n, k) == attack;
    }
  }

  /**
   The scenario of aba.c for a stack of any height and any number k of other nodes: t1 stops between
   its load and its CAS, t2 pops the same node `a`, pushes k new nodes and pushes `a` back.  t1's CAS
   succeeds although the stack has changed; memory is back to the chain below `a`, and the stack is
   right if and only if k is 0.  The k nodes are on no chain and in no thread's hands.
   */
  lemma AbaUnlinksTheNewNodes(m: Mem, t1: nat, t2: nat, k: nat)
    requires Inv(m) && t1 < |m.pc| && t2 < |m.pc| && t1 != t2
    requires m.pc[t1].Idle? && m.pc[t2].Idle? && m.top.At?
    ensures var a, rest := m.top.node, Replay(m.log).value[1..];
            var sched := OpenWindow(t1, t2) + Attack(t1, t2, a, m.brk, k);
            && Replay(m.log).value[0] == a
            && Runs(m, sched)
            && var f := After(m, sched);
               (&& (exists log :: f.log == log + [Popped(t1, a)])
                && Replay(f.log) == Some(Down(m.brk, k) + rest)
                && Chain(f.top, f.next, rest)
                && (Chain(f.top, f.next, Replay(f.log).value) <==> k == 0)
                && (forall n :: n in Down(m.brk, k) ==> n !in rest && n !in f.owner)
                && a in f.owner && a !in rest)
  {
    hide Runs, After, Do, Enabled, Inv, Replay, OpenWindow, Attack;
    InvFacts(m);
    var a, s := m.top.node, Replay(m.log).value;
    OpenWindowRuns(m, t1, t2);
    var w := After(m, OpenWindow(t1, t2));
    ReuseInWindow(w, t1, t2, k);
    RunsConcat(m, OpenWindow(t1, t2), Attack(t1, t2, a, m.brk, k));
    var f := After(w, Attack(t1, t2, a, m.brk, k));
    RestIsChained(m);
    ChainAgrees(w.top, w.next, f.next, s[1..], a, m.brk);
    InvHolds(m);
    NewOnTop(f.top, f.next, m.brk, k, s[1..]);
  }

  /** The chain below the top node: allocated nodes, held by nobody, the top not among them. */
  lemma RestIsChained(m: Mem)
    requires Inv(m) && m.top.At?
    ensures var s := Replay(m.log).value;
            && s != [] && m.top.node in m.next && Chain(m.next[m.top.node], m.next, s[1..])
            && m.top.node !in s[1..] && m.top.node < m.brk
            && forall n :: n in s[1..] ==> n < m.brk && n !in m.owner
  {
    hide Replay;
    var s := Replay(m.log).value;
    assert forall n :: n in s[1..] ==> n in s;
    assert s[0] in s;
  }

  /** A stack whose newest nodes are k new ones is not the chain of the old rest, unless k is 0. */
  lemma NewOnTop(top: Ptr, next: map<nat, Ptr>, brk: nat, k: nat, rest: seq<nat>)
    requires Chain(top, next, rest) && forall n :: n in rest ==> n < brk
    ensures Chain(top, next, Down(brk, k) + rest) <==> k == 0
    ensures forall n :: n in Down(brk, k) ==> brk <= n && n !in rest
  {
    if k == 0 {
      assert Down(brk, k) + rest == rest;
    } else {
      assert (Down(brk, k) + rest)[0] == brk + k - 1;
      assert rest != [] ==> rest[0] in rest;
    }
  }

  lemma {:induction false} ChainAgrees(p: Ptr, next: map<nat, Ptr>, next': map<nat, Ptr>, s: seq<nat>, a: nat, brk: nat)
    requires Chain(p, next, s) && a !in s && forall n :: n in s ==> n < brk
    requires forall n :: n in next && n < brk && n != a ==> n in next' && next'[n] == next[n]
    ensures Chain(p, next', s)
    decreases |s|
  {
    if s != [] {
      assert s[0] in s;
      assert forall n :: n in s[1..] ==> n in s;
      ChainAgrees(next[s[0]], next, next', s[1..], a, brk);
    }
  }

  /** A pop stopped just before its CAS. */
  lemma HalfPopRuns(m: Mem, t: nat)
    requires Inv(m) && t < |m.pc| && m.pc[t].Idle? && m.top.At?
    ensures var sched := [Choice(t, BeginPop)] + Advances(t, 2);
            && m.top.node in m.next
            && Runs(m, sched)
            && After(m, sched) == Goto(m, t, PopCas(m.top.node, m.next[m.top.node]))
            && Inv(After(m, sched))
  {
    var adv := Choice(t, Advance(false));
    var m1 := Do(m, Choice(t, BeginPop));
    StepInv(m, Choice(t, BeginPop));
    var m2 := Do(m1, adv);
    StepInv(m1, adv);
    var m3 := Do(m2, adv);
    StepInv(m2, adv);
    assert ThreadOk(m2, t);
    AdvanceMore(m2, t, 1);
    AdvanceMore(m1, t, 2);
    RunMore(m, Choice(t, BeginPop), Advances(t, 2));
    assert m3 == Goto(m, t, PopCas(m.top.node, m.next[m.top.node]));
  }

  /** t1 holds its pair, t2 owns the popped top: a state that careful runs do reach. */
  lemma OpenWindowRuns(m: Mem, t1: nat, t2: nat)
    requires Inv(m) && t1 < |m.pc| && t2 < |m.pc| && t1 != t2
    requires m.pc[t1].Idle? && m.pc[t2].Idle? && m.top.At?
    ensures var a, s := m.top.node, Replay(m.log).value;
            && s != [] && s[0] == a && a in m.next
            && Runs(m, OpenWindow(t1, t2))
            && var w := After(m, OpenWindow(t1, t2));
               (&& Inv(w) && |w.pc| == |m.pc|
                && w.pc[t1] == PopCas(a, m.next[a]) && w.pc[t2].Idle?
                && w.top == m.next[a] && w.next == m.next && w.brk == m.brk
                && w.owner == m.owner[a := t2]
                && Replay(w.log) == Some(s[1..]))
  {
    HalfPopRuns(m, t1);
    var m3 := Goto(m, t1, PopCas(m.top.node, m.next[m.top.node]));
    PopAloneRuns(m3, t2);
    ReplaySnoc(m3.log, Popped(t2, m.top.node));
    assert |m.pc| == |m.fails| && Replay(m.log).value != [];
    hide Runs, After, Inv;
    RunsConcat(m, [Choice(t1, BeginPop)] + Advances(t1, 2), PopAlone(t2));
  }
}
