/**
 The linked stack whose `top` is moved by compare-and-swap, as in bench.c (cas_push, cas_pop)
 and aba.c (push, pop, pop2).  Any number of threads; every load, store and CAS is one step.
 A node is a number: the index into the node pool, or the name of a malloc'ed cell.
 */
module CasStack {
  import opened Permute
  import opened Tally
  import opened Wrappers

  datatype Ptr = Null | At(node: nat)

  /** Where a thread is inside push or pop, with its local variables. */
  datatype Pc =
    | Idle
    | PushLoad(node: nat)
    | PushLink(node: nat, seen: Ptr)
    | PushCas(node: nat, seen: Ptr)
    | PopLoad
    | PopNext(loaded: nat)
    | PopCas(loaded: nat, next: Ptr)

  /** What happened at `top`, in order: the linearization points. */
  datatype Event =
    | Pushed(thread: nat, node: nat)
    | Popped(thread: nat, node: nat)
    | SawEmpty(thread: nat)

  /** Shared memory, the threads, and two history variables: `fails` and `log`. */
  datatype Mem = Mem(
    top: Ptr,
    next: map<nat, Ptr>,
    owner: map<nat, nat>,  // nodes outside the stack, and the thread that holds each
    brk: nat,            // nodes brk, brk + 1, ... have never been allocated
    pc: seq<Pc>,
    fails: seq<nat>,       // genuine CAS failures of each thread
    log: seq<Event>)

  datatype Action = Alloc | BeginPush(node: nat) | BeginPop | Advance(spurious: bool)

  datatype Choice = Choice(thread: nat, action: Action)

  function Init(threads: nat): Mem {
    Mem(Null, map[], map[], 0, seq(threads, _ => Idle), seq(threads, _ => 0), [])
  }

  // ---------------------------------------------------------------- the steps

  predicate Enabled(m: Mem, c: Choice) {
    && c.thread < |m.pc| == |m.fails|
    && match c.action
       case Alloc => m.pc[c.thread].Idle?
       case BeginPush(n) => m.pc[c.thread].Idle? && n in m.owner && m.owner[n] == c.thread
       case BeginPop => m.pc[c.thread].Idle?
       case Advance(_) => !m.pc[c.thread].Idle?
  }

  function Goto(m: Mem, t: nat, pc: Pc): Mem
    requires t < |m.pc|
  {
    m.(pc := m.pc[t := pc])
  }

  /** A CAS that did not happen: counted as genuine when `top` really was different. */
  function CasFailed(m: Mem, t: nat, expected: Ptr, retry: Pc): Mem
    requires t < |m.pc| == |m.fails|
  {
    Goto(m, t, retry).(fails := if m.top == expected then m.fails else m.fails[t := m.fails[t] + 1])
  }

  function Do(m: Mem, c: Choice): Mem
    requires Enabled(m, c)
  {
    var t := c.thread;
    match c.action
    case Alloc => m.(owner := m.owner[m.brk := t], brk := m.brk + 1)
    case BeginPush(n) => Goto(m, t, PushLoad(n))
    case BeginPop => Goto(m, t, PopLoad)
    case Advance(spurious) =>
      match m.pc[t]
      case PushLoad(n) => Goto(m, t, PushLink(n, m.top))
      case PushLink(n, seen) => Goto(m, t, PushCas(n, seen)).(next := m.next[n := seen])
      case PushCas(n, seen) =>
        if m.top == seen && !spurious then
          Goto(m, t, Idle).(top := At(n), owner := m.owner - {n}, log := m.log + [Pushed(t, n)])
        else
          CasFailed(m, t, seen, PushLoad(n))
      case PopLoad =>
        if m.top.Null? then
          Goto(m, t, Idle).(log := m.log + [SawEmpty(t)])
        else
          Goto(m, t, PopNext(m.top.node))
      case PopNext(seen) => Goto(m, t, PopCas(seen, if seen in m.next then m.next[seen] else Null))
      case PopCas(seen, next) =>
        if m.top == At(seen) && !spurious then
          Goto(m, t, Idle).(top := next, owner := m.owner[seen := t], log := m.log + [Popped(t, seen)])
        else
          CasFailed(m, t, At(seen), PopLoad)
  }

  /** The linearization point this step is, if it is one. */
  function Logged(m: Mem, c: Choice): seq<Event>
    requires Enabled(m, c)
  {
    var t := c.thread;
    if !c.action.Advance? then []
    else
      match m.pc[t]
      case PushCas(n, seen) => if m.top == seen && !c.action.spurious then [Pushed(t, n)] else []
      case PopLoad => if m.top.Null? then [SawEmpty(t)] else []
      case PopCas(n, _) => if m.top == At(n) && !c.action.spurious then [Popped(t, n)] else []
      case _ => []
  }

  /** A schedule: who steps, in order. */
  predicate Runs(m: Mem, sched: seq<Choice>)
    decreases |sched|
  {
    sched == [] || (Enabled(m, sched[0]) && Runs(Do(m, sched[0]), sched[1..]))
  }

  function After(m: Mem, sched: seq<Choice>): Mem
    requires Runs(m, sched)
    decreases |sched|
  {
    if sched == [] then m else After(Do(m, sched[0]), sched[1..])
  }

  // ---------------------------------------------------------------- the sequential stack

  function Apply(s: seq<nat>, e: Event): Option<seq<nat>> {
    match e
    case Pushed(_, n) => Some([n] + s)
    case Popped(_, n) => if s != [] && s[0] == n then Some(s[1..]) else None
    case SawEmpty(_) => if s == [] then Some(s) else None
  }

  /** The stack left by a log, or None when the log is not one a LIFO stack could produce. */
  function Replay(log: seq<Event>): Option<seq<nat>> {
    if log == [] then Some([])
    else
      match Replay(log[..|log| - 1])
      case None => None
      case Some(s) => Apply(s, log[|log| - 1])
  }

  lemma ReplaySnoc(log: seq<Event>, e: Event)
    ensures Replay(log + [e]) == (match Replay(log) case None => None case Some(s) => Apply(s, e))
  {
    assert (log + [e])[..|log|] == log;
  }

  /** In a log that replays, each pop took what was then the top, and each "empty" was true. */
  lemma {:induction false} LegalLog(log: seq<Event>, k: nat)
    requires Replay(log).Some? && k < |log|
    ensures Replay(log[..k]).Some?
    ensures var s := Replay(log[..k]).value;
            && (log[k].Popped? ==> s != [] && s[0] == log[k].node && Replay(log[..k + 1]) == Some(s[1..]))
            && (log[k].SawEmpty? ==> s == [])
            && (log[k].Pushed? ==> Replay(log[..k + 1]) == Some([log[k].node] + s))
  {
    var last := |log| - 1;
    if k == last {
      assert log[..k + 1] == log;
    } else {
      LegalLog(log[..last], k);
      assert log[..last][..k] == log[..k];
      assert log[..last][..k + 1] == log[..k + 1];
    }
  }

  function PushedNodes(log: seq<Event>): seq<nat> {
    if log == [] then []
    else
      var init := PushedNodes(log[..|log| - 1]);
      if log[|log| - 1].Pushed? then init + [log[|log| - 1].node] else init
  }

  function PoppedNodes(log: seq<Event>): seq<nat> {
    if log == [] then []
    else
      var init := PoppedNodes(log[..|log| - 1]);
      if log[|log| - 1].Popped? then init + [log[|log| - 1].node] else init
  }

  lemma NodesSnoc(log: seq<Event>, e: Event)
    ensures PushedNodes(log + [e]) == if e.Pushed? then PushedNodes(log) + [e.node] else PushedNodes(log)
    ensures PoppedNodes(log + [e]) == if e.Popped? then PoppedNodes(log) + [e.node] else PoppedNodes(log)
  {
    assert (log + [e])[..|log|] == log;
  }

  function ValueOf(val: map<nat, int>, n: nat): int { if n in val then val[n] else 0 }

  function ValuesOf(s: seq<nat>, val: map<nat, int>): seq<int> {
    seq(|s|, i requires 0 <= i < |s| => ValueOf(val, s[i]))
  }

  lemma ValuesFrame(s: seq<nat>, val: map<nat, int>, n: nat, v: int)
    requires n !in s
    ensures ValuesOf(s, val[n := v]) == ValuesOf(s, val)
  {
  }

  lemma {:induction false} NodesConserved(log: seq<Event>)
    requires Replay(log).Some?
    ensures |PushedNodes(log)| == |PoppedNodes(log)| + |Replay(log).value|
    ensures forall n :: n in PushedNodes(log) ==> n in PoppedNodes(log) || n in Replay(log).value
  {
    if log != [] {
      NodesConserved(log[..|log| - 1]);
    }
  }

  lemma PushBalances(pushed: seq<int>, popped: seq<int>, s: seq<int>, v: int)
    requires multiset(pushed) == multiset(popped) + multiset(s)
    ensures multiset(pushed + [v]) == multiset(popped) + multiset([v] + s)
  {
    assert multiset([v] + s) == multiset{v} + multiset(s);
  }

  lemma PopBalances(pushed: seq<int>, popped: seq<int>, s: seq<int>, v: int)
    requires multiset(pushed) == multiset(popped) + multiset([v] + s)
    ensures multiset(pushed) == multiset(popped + [v]) + multiset(s)
  {
    assert multiset([v] + s) == multiset{v} + multiset(s);
  }

  ghost predicate Balanced(pushed: seq<nat>, popped: seq<nat>, s: seq<nat>, val: map<nat, int>) {
    multiset(ValuesOf(pushed, val)) == multiset(ValuesOf(popped, val)) + multiset(ValuesOf(s, val))
  }

  lemma BalancedAfterPush(pushed: seq<nat>, popped: seq<nat>, s: seq<nat>, val: map<nat, int>, n: nat)
    requires Balanced(pushed, popped, s, val)
    ensures Balanced(pushed + [n], popped, [n] + s, val)
  {
    PushBalances(ValuesOf(pushed, val), ValuesOf(popped, val), ValuesOf(s, val), ValueOf(val, n));
    assert ValuesOf([n] + s, val) == [ValueOf(val, n)] + ValuesOf(s, val);
    assert ValuesOf(pushed + [n], val) == ValuesOf(pushed, val) + [ValueOf(val, n)];
  }

  lemma BalancedAfterPop(pushed: seq<nat>, popped: seq<nat>, s: seq<nat>, val: map<nat, int>)
    requires Balanced(pushed, popped, s, val) && s != []
    ensures Balanced(pushed, popped + [s[0]], s[1..], val)
  {
    var v := ValueOf(val, s[0]);
    assert ValuesOf(s, val) == [v] + ValuesOf(s[1..], val);
    PopBalances(ValuesOf(pushed, val), ValuesOf(popped, val), ValuesOf(s[1..], val), v);
    assert ValuesOf(popped + [s[0]], val) == ValuesOf(popped, val) + [v];
  }

  /** Conservation: what was pushed is what was popped plus what is on the stack, as multisets. */
  lemma {:induction false} ValuesConserved(log: seq<Event>, val: map<nat, int>)
    requires Replay(log).Some?
    ensures multiset(ValuesOf(PushedNodes(log), val))
         == multiset(ValuesOf(PoppedNodes(log), val)) + multiset(ValuesOf(Replay(log).value, val))
  {
    if log == [] {
    } else {
      var init, e := log[..|log| - 1], log[|log| - 1];
      ValuesConserved(init, val);
      var s := Replay(init).value;
      assert Balanced(PushedNodes(init), PoppedNodes(init), s, val);
      if e.Pushed? {
        BalancedAfterPush(PushedNodes(init), PoppedNodes(init), s, val, e.node);
      } else if e.Popped? {
        BalancedAfterPop(PushedNodes(init), PoppedNodes(init), s, val);
      }
      assert Balanced(PushedNodes(log), PoppedNodes(log), Replay(log).value, val) by { hide Balanced; }
    }
  }

  // ---------------------------------------------------------------- the invariant

  /** Following `next` from `p` visits exactly the nodes of `s` and ends in NULL. */
  ghost predicate Chain(p: Ptr, next: map<nat, Ptr>, s: seq<nat>)
    decreases |s|
  {
    if s == [] then p == Null
    else p == At(s[0]) && s[0] in next && Chain(next[s[0]], next, s[1..])
  }

  /** A thread is between its load of `top` and its CAS, inside a pop that loaded `n`. */
  predicate InWindow(pc: Pc, n: nat) {
    (pc.PopNext? || pc.PopCas?) && pc.loaded == n
  }

  predicate Pushing(pc: Pc, n: nat) {
    (pc.PushLoad? || pc.PushLink? || pc.PushCas?) && pc.node == n
  }

  /** The discipline: a node is not pushed again while a pop that loaded it is unfinished. */
  predicate Careful(m: Mem, c: Choice) {
    c.action.BeginPush? ==> forall u :: 0 <= u < |m.pc| ==> !InWindow(m.pc[u], c.action.node)
  }

  ghost predicate Allocated(m: Mem, p: Ptr) {
    p.At? ==> p.node < m.brk
  }

  ghost predicate ThreadOk(m: Mem, t: nat)
    requires t < |m.pc|
  {
    match m.pc[t]
    case Idle => true
    case PushLoad(n) => n in m.owner && m.owner[n] == t
    case PushLink(n, seen) => n in m.owner && m.owner[n] == t && Allocated(m, seen)
    case PushCas(n, seen) => n in m.owner && m.owner[n] == t && n in m.next && m.next[n] == seen
    case PopLoad => true
    case PopNext(seen) => seen in m.next && seen < m.brk
    case PopCas(seen, next) => seen in m.next && seen < m.brk && m.next[seen] == next
  }

  /** `s` is exactly the chain from `top`: acyclic, and disjoint from the nodes threads hold. */
  ghost predicate Holds(m: Mem, s: seq<nat>) {
    && Chain(m.top, m.next, s)
    && NoDup(s)
    && (forall n :: n in s ==> n < m.brk && n !in m.owner)
    && (forall n :: n in m.owner ==> n < m.brk)
    && (forall n :: 0 <= n < m.brk ==> n in s || n in m.owner)
    && (forall n :: n in m.next ==> Allocated(m, m.next[n]))
  }

  ghost predicate Inv(m: Mem) {
    && |m.pc| == |m.fails|
    && Replay(m.log).Some?
    && Holds(m, Replay(m.log).value)
    && (forall t :: 0 <= t < |m.pc| ==> ThreadOk(m, t))
    && (forall t, u, n :: 0 <= t < |m.pc| && 0 <= u < |m.pc| && Pushing(m.pc[t], n) ==> !InWindow(m.pc[u], n))
  }

  /** A thread's locals, without the claim that the `next` a pop has read is still the node's `next`. */
  ghost predicate LooseThread(m: Mem, t: nat)
    requires t < |m.pc|
  {
    var pc := m.pc[t];
    if pc.PopCas? then pc.loaded in m.next && pc.loaded < m.brk && Allocated(m, pc.next) else ThreadOk(m, t)
  }

  /** What is true of memory with or without the discipline, as long as no pop has gone wrong. */
  ghost predicate Sound(m: Mem) {
    && |m.pc| == |m.fails|
    && Replay(m.log).Some?
    && Holds(m, Replay(m.log).value)
    && (forall t :: 0 <= t < |m.pc| ==> LooseThread(m, t))
  }

  /** A pop CAS about to succeed and to install a `next` that is no longer the node's `next`. */
  predicate StalePop(m: Mem, c: Choice) {
    && c.action == Advance(false) && c.thread < |m.pc| && m.pc[c.thread].PopCas?
    && var n := m.pc[c.thread].loaded;
       m.top == At(n) && n in m.next && m.next[n] != m.pc[c.thread].next
  }

  /** The invariant rules stale pops out. */
  lemma InvIsSound(m: Mem)
    requires Inv(m)
    ensures Sound(m) && forall c :: !StalePop(m, c)
  {
    hide Replay, Chain, NoDup;
    forall t | 0 <= t < |m.pc| ensures LooseThread(m, t) {
      assert ThreadOk(m, t);
    }
    forall c ensures !StalePop(m, c) {
      assert c.thread < |m.pc| ==> ThreadOk(m, c.thread);
    }
  }

  lemma SoundFacts(m: Mem)
    requires Sound(m)
    ensures |m.pc| == |m.fails| && Replay(m.log).Some? && Holds(m, Replay(m.log).value)
  {
  }

  lemma {:induction false} ChainFrame(p: Ptr, next: map<nat, Ptr>, s: seq<nat>, n: nat, v: Ptr)
    requires Chain(p, next, s) && n !in s
    ensures Chain(p, next[n := v], s)
    decreases |s|
  {
    if s != [] {
      ChainFrame(next[s[0]], next, s[1..], n, v);
    }
  }

  lemma InvFacts(m: Mem)
    requires Inv(m)
    ensures |m.pc| == |m.fails| && Replay(m.log).Some? && forall n :: n in m.owner ==> n < m.brk
  {
  }

  lemma InvHolds(m: Mem)
    requires Inv(m)
    ensures Replay(m.log).Some? && Holds(m, Replay(m.log).value)
  {
  }

  lemma InitInv(threads: nat)
    ensures Inv(Init(threads))
  {
  }

  /** `Holds` is about shared memory alone. */
  lemma HoldsFrame(m: Mem, m': Mem, s: seq<nat>)
    requires Holds(m, s) && m'.top == m.top && m'.next == m.next && m'.owner == m.owner && m'.brk == m.brk
    ensures Holds(m', s)
  {
    hide Chain, NoDup;
  }

  lemma PushCasKeepsStack(m: Mem, t: nat)
    requires Sound(m) && t < |m.pc| && m.pc[t].PushCas? && m.top == m.pc[t].seen
    ensures var m' := Do(m, Choice(t, Advance(false)));
            Replay(m'.log) == Some([m.pc[t].node] + Replay(m.log).value) && Holds(m', Replay(m'.log).value)
  {
    var s, n := Replay(m.log).value, m.pc[t].node;
    assert LooseThread(m, t);
    ReplaySnoc(m.log, Pushed(t, n));
    HoldsAfterPush(m, n);
    hide Holds, Replay;
    HoldsFrame(m.(top := At(n), owner := m.owner - {n}), Do(m, Choice(t, Advance(false))), [n] + s);
  }

  lemma HoldsAfterPush(m: Mem, n: nat)
    requires Sound(m) && n in m.owner && n in m.next && m.next[n] == m.top
    ensures Holds(m.(top := At(n), owner := m.owner - {n}), [n] + Replay(m.log).value)
  {
    hide Replay;
    var s := Replay(m.log).value;
    assert ([n] + s)[1..] == s;
    assert forall k :: k in [n] + s <==> k == n || k in s;
  }

  lemma PopCasKeepsStack(m: Mem, t: nat)
    requires Sound(m) && t < |m.pc| && m.pc[t].PopCas? && m.top == At(m.pc[t].loaded)
    requires !StalePop(m, Choice(t, Advance(false)))
    ensures var m' := Do(m, Choice(t, Advance(false)));
            var s := Replay(m.log).value;
            && s != [] && s[0] == m.pc[t].loaded
            && Replay(m'.log) == Some(s[1..]) && Holds(m', s[1..])
  {
    var s, n := Replay(m.log).value, m.pc[t].loaded;
    assert LooseThread(m, t);
    ReplaySnoc(m.log, Popped(t, n));
    assert Chain(m.next[n], m.next, s[1..]);
    assert forall k :: k in s[1..] ==> k in s && k != n;
    assert forall k :: k in s ==> k == n || k in s[1..];
  }

  lemma LinkKeepsStack(m: Mem, t: nat)
    requires Sound(m) && t < |m.pc| && m.pc[t].PushLink?
    ensures var m' := Do(m, Choice(t, Advance(false)));
            m' == Do(m, Choice(t, Advance(true))) && m'.log == m.log && Holds(m', Replay(m.log).value)
  {
    assert LooseThread(m, t);
    ChainFrame(m.top, m.next, Replay(m.log).value, m.pc[t].node, m.pc[t].seen);
  }

  predicate WritesShared(m: Mem, c: Choice)
    requires c.thread < |m.pc|
  {
    var pc := m.pc[c.thread];
    c.action.Advance? && (pc.PushLink? || pc.PushCas? || pc.PopCas? || pc.PopLoad?)
  }

  lemma QuietStepKeepsStack(m: Mem, c: Choice)
    requires Sound(m) && Enabled(m, c) && !WritesShared(m, c)
    ensures Do(m, c).log == m.log && Holds(Do(m, c), Replay(m.log).value)
  {
    hide Chain, Replay;
  }

  lemma NullTopIsEmpty(m: Mem)
    requires Sound(m) && m.top.Null?
    ensures Replay(m.log).value == []
  {
  }

  lemma EmptyPopKeepsStack(m: Mem, t: nat, spurious: bool)
    requires Sound(m) && t < |m.pc| && m.pc[t].PopLoad?
    ensures var m' := Do(m, Choice(t, Advance(spurious)));
            Replay(m'.log) == Replay(m.log) && Holds(m', Replay(m.log).value)
  {
    hide Sound, Holds, Replay;
    SoundFacts(m);
    if m.top.Null? { NullTopIsEmpty(m); }
    ReplaySnoc(m.log, SawEmpty(t));
    HoldsFrame(m, Do(m, Choice(t, Advance(spurious))), Replay(m.log).value);
  }

  lemma FailedCasKeepsStack(m: Mem, c: Choice)
    requires Sound(m) && Enabled(m, c) && c.action.Advance? && (m.pc[c.thread].PushCas? || m.pc[c.thread].PopCas?)
    requires Logged(m, c) == []
    ensures Do(m, c).log == m.log && Holds(Do(m, c), Replay(m.log).value)
  {
    hide Chain, Replay;
  }

  /** Each step but a stale pop leaves the log legal and memory equal to the stack it replays to. */
  lemma StepStack(m: Mem, c: Choice)
    requires Sound(m) && Enabled(m, c) && !StalePop(m, c)
    ensures Replay(Do(m, c).log).Some? && Holds(Do(m, c), Replay(Do(m, c).log).value)
  {
    SoundFacts(m);
    hide Sound, Do, Holds, Replay;
    var t := c.thread;
    if !WritesShared(m, c) {
      QuietStepKeepsStack(m, c);
    } else if m.pc[t].PushLink? {
      LinkKeepsStack(m, t);
    } else if m.pc[t].PopLoad? {
      EmptyPopKeepsStack(m, t, c.action.spurious);
    } else if Logged(m, c) == [] {
      FailedCasKeepsStack(m, c);
    } else if m.pc[t].PushCas? {
      PushCasKeepsStack(m, t);
    } else {
      PopCasKeepsStack(m, t);
    }
  }

  /** What the moving thread knows about its locals is true after its step. */
  lemma StepOwnThread(m: Mem, c: Choice)
    requires Inv(m) && Enabled(m, c)
    ensures ThreadOk(Do(m, c), c.thread)
  {
    assert ThreadOk(m, c.thread);
    var s := Replay(m.log).value;
    assert s != [] ==> s[0] in s;
  }

  /** The top node is held by nobody. */
  lemma TopIsFree(m: Mem)
    requires Inv(m)
    ensures m.top.At? ==> m.top.node in m.next && m.top.node < m.brk && m.top.node !in m.owner
    ensures forall n :: n in m.owner ==> n < m.brk
  {
    hide Replay, ThreadOk;
    var s := Replay(m.log).value;
    assert s != [] ==> s[0] in s;
  }

  /** No step disturbs what another thread knows. */
  lemma StepOtherThread(m: Mem, c: Choice, u: nat)
    requires Inv(m) && Enabled(m, c) && u < |m.pc| && u != c.thread
    ensures ThreadOk(Do(m, c), u)
  {
    StepLeavesOthers(m, c, u);
    assert ThreadOk(m, u) && ThreadOk(m, c.thread);
    TopIsFree(m);
    if c.action.Advance? && m.pc[c.thread].PushLink? {
      assert Pushing(m.pc[c.thread], m.pc[c.thread].node);
      assert !InWindow(m.pc[u], m.pc[c.thread].node);
    } else {
      OnlyLinksWriteNext(m, c);
    }
    hide Inv;
  }

  lemma OnlyLinksWriteNext(m: Mem, c: Choice)
    requires Enabled(m, c) && !(c.action.Advance? && m.pc[c.thread].PushLink?)
    ensures Do(m, c).next == m.next && m.brk <= Do(m, c).brk
  {
  }

  lemma StepLeavesOthers(m: Mem, c: Choice, u: nat)
    requires Enabled(m, c) && u < |m.pc| && u != c.thread
    ensures |Do(m, c).pc| == |Do(m, c).fails| == |m.pc|
    ensures Do(m, c).pc[u] == m.pc[u] && Do(m, c).fails[u] == m.fails[u]
  {
    match c.action {
      case Alloc =>
      case BeginPush(_) =>
      case BeginPop =>
      case Advance(_) => assert !m.pc[c.thread].Idle?;
    }
  }

  lemma OwnStepPhase(m: Mem, c: Choice, n: nat)
    requires Enabled(m, c)
    ensures |Do(m, c).pc| == |m.pc|
    ensures var t := c.thread;
            && (Pushing(Do(m, c).pc[t], n) ==> Pushing(m.pc[t], n) || c.action == BeginPush(n))
            && (InWindow(Do(m, c).pc[t], n) ==> InWindow(m.pc[t], n) || (m.pc[t].PopLoad? && m.top == At(n)))
  {
    match c.action {
      case Alloc =>
      case BeginPush(_) =>
      case BeginPop =>
      case Advance(_) => assert !m.pc[c.thread].Idle?;
    }
  }

  /** A window opens only on a node in the stack, and a careful push starts only outside windows. */
  lemma StepWindows(m: Mem, c: Choice, t: nat, u: nat, n: nat)
    requires Inv(m) && Enabled(m, c) && Careful(m, c)
    requires t < |m.pc| && u < |m.pc| && |Do(m, c).pc| == |m.pc| && Pushing(Do(m, c).pc[t], n)
    ensures !InWindow(Do(m, c).pc[u], n)
  {
    OwnStepPhase(m, c, n);
    if u != c.thread { StepLeavesOthers(m, c, u); }
    if t != c.thread {
      StepLeavesOthers(m, c, t);
      assert ThreadOk(m, t);
      assert !InWindow(m.pc[u], n);
      assert Replay(m.log).value != [] ==> Replay(m.log).value[0] in Replay(m.log).value;
    } else if Pushing(m.pc[t], n) {
      assert !InWindow(m.pc[u], n);
    }
  }

  /** Every step of every thread keeps the invariant, as long as pushes are careful. */
  lemma StepInv(m: Mem, c: Choice)
    requires Inv(m) && Enabled(m, c) && Careful(m, c)
    ensures Inv(Do(m, c))
  {
    var m' := Do(m, c);
    assert |m'.pc| == |m'.fails| == |m.pc|;
    InvIsSound(m);
    StepStack(m, c);
    forall u | 0 <= u < |m.pc| ensures ThreadOk(m', u) {
      if u == c.thread { StepOwnThread(m, c); } else { StepOtherThread(m, c, u); }
    }
    forall t, u, n | 0 <= t < |m.pc| && 0 <= u < |m.pc| && Pushing(m'.pc[t], n)
      ensures !InWindow(m'.pc[u], n)
    {
      StepWindows(m, c, t, u, n);
    }
  }

  /** A step of one thread leaves alone what another thread owns. */
  lemma StepKeepsOwned(m: Mem, c: Choice, t: nat, n: nat)
    requires Inv(m) && Enabled(m, c) && t < |m.pc| && c.thread != t
    ensures (n in m.owner && m.owner[n] == t) <==> (n in Do(m, c).owner && Do(m, c).owner[n] == t)
  {
    assert ThreadOk(m, c.thread);
    assert Replay(m.log).value != [] ==> Replay(m.log).value[0] in Replay(m.log).value;
  }

  /** Only the thread that holds a node writes its `next`. */
  lemma StepKeepsNext(m: Mem, c: Choice, n: nat)
    requires Inv(m) && Enabled(m, c) && n in m.next && !(n in m.owner && m.owner[n] == c.thread)
    ensures n in Do(m, c).next && Do(m, c).next[n] == m.next[n]
  {
    assert ThreadOk(m, c.thread);
  }

  lemma StepOpensNoWindow(m: Mem, c: Choice, t: nat, n: nat, u: nat)
    requires Inv(m) && Enabled(m, c) && t < |m.pc| && u < |m.pc| == |Do(m, c).pc|
    requires n in m.owner && InWindow(Do(m, c).pc[u], n)
    ensures InWindow(m.pc[u], n)
  {
    if u == c.thread {
      OwnStepPhase(m, c, n);
      assert Replay(m.log).value != [] ==> Replay(m.log).value[0] in Replay(m.log).value;
    } else {
      StepLeavesOthers(m, c, u);
    }
  }

  /** Nobody has loaded a node that was never allocated. */
  lemma NewNodeUnseen(m: Mem, t: nat)
    requires Inv(m) && t < |m.pc| && m.pc[t].Idle?
    ensures Careful(Do(m, Choice(t, Alloc)), Choice(t, BeginPush(m.brk)))
  {
    forall u | 0 <= u < |m.pc| ensures !InWindow(m.pc[u], m.brk) {
      assert ThreadOk(m, u);
    }
  }

  /** Every node ever published has a `next`, popped or not. */
  ghost predicate Linked(m: Mem) {
    forall n :: n in PushedNodes(m.log) ==> n in m.next
  }

  lemma StepLinked(m: Mem, c: Choice)
    requires Inv(m) && Linked(m) && Enabled(m, c)
    ensures Linked(Do(m, c))
  {
    assert ThreadOk(m, c.thread);
    StepLogs(m, c);
    hide Inv, Holds, Replay, PushedNodes;
    if Logged(m, c) == [] {
      assert Do(m, c).log == m.log;
    } else {
      assert Logged(m, c) == [Logged(m, c)[0]];
      NodesSnoc(m.log, Logged(m, c)[0]);
    }
  }

  predicate CarefulRun(m: Mem, sched: seq<Choice>)
    requires Runs(m, sched)
    decreases |sched|
  {
    sched == [] || (Careful(m, sched[0]) && CarefulRun(Do(m, sched[0]), sched[1..]))
  }

  /**
   Linearizability: after any careful schedule of any number of threads, the successful CASes
   replay as a LIFO stack, and that stack is exactly the acyclic chain in memory.
   */
  lemma {:induction false} CarefulRunsAreLifo(m: Mem, sched: seq<Choice>)
    requires Inv(m) && Runs(m, sched) && CarefulRun(m, sched)
    ensures Inv(After(m, sched))
    decreases |sched|
  {
    if sched != [] {
      StepInv(m, sched[0]);
      CarefulRunsAreLifo(Do(m, sched[0]), sched[1..]);
    }
  }

  // ---------------------------------------------------------------- retries

  function Wins(log: seq<Event>): nat {
    if log == [] then 0
    else Wins(log[..|log| - 1]) + if log[|log| - 1].SawEmpty? then 0 else 1
  }

  function WinsBy(log: seq<Event>, t: nat): nat {
    if log == [] then 0
    else
      var e := log[|log| - 1];
      WinsBy(log[..|log| - 1], t) + if !e.SawEmpty? && e.thread == t then 1 else 0
  }

  lemma WinsSnoc(log: seq<Event>, e: Event, t: nat)
    ensures Wins(log + [e]) == Wins(log) + if e.SawEmpty? then 0 else 1
    ensures WinsBy(log + [e], t) == WinsBy(log, t) + if !e.SawEmpty? && e.thread == t then 1 else 0
  {
    assert (log + [e])[..|log|] == log;
  }

  /** The thread's next CAS is bound to fail: `top` is not what it loaded. */
  function Stale(m: Mem, t: nat): nat
    requires t < |m.pc|
  {
    match m.pc[t]
    case PushLink(_, seen) => if seen == m.top then 0 else 1
    case PushCas(_, seen) => if seen == m.top then 0 else 1
    case PopNext(seen) => if At(seen) == m.top then 0 else 1
    case PopCas(seen, _) => if At(seen) == m.top then 0 else 1
    case _ => 0
  }

  ghost predicate RetryInv(m: Mem) {
    && |m.pc| == |m.fails|
    && (forall k :: 0 <= k < |m.log| ==> m.log[k].thread < |m.pc|)
    && (forall t :: 0 <= t < |m.pc| ==> m.fails[t] + Stale(m, t) <= Wins(m.log) - WinsBy(m.log, t))
  }

  lemma StepLogs(m: Mem, c: Choice)
    requires Enabled(m, c)
    ensures Do(m, c).log == m.log + Logged(m, c)
    ensures Do(m, c).top != m.top ==> Logged(m, c) != [] && !Logged(m, c)[0].SawEmpty?
  {
  }

  /** A step inside push: still pushing the same node, or done and logged. */
  lemma AdvancePush(m: Mem, t: nat, spurious: bool, n: nat)
    requires Enabled(m, Choice(t, Advance(spurious))) && Pushing(m.pc[t], n)
    ensures var c := Choice(t, Advance(spurious));
            && |Do(m, c).pc| == |m.pc|
            && if Logged(m, c) == [] then Pushing(Do(m, c).pc[t], n)
               else Logged(m, c) == [Pushed(t, n)] && Do(m, c).pc[t].Idle?
  {
  }

  predicate Popping(pc: Pc) {
    pc.PopLoad? || pc.PopNext? || pc.PopCas?
  }

  lemma BeginPopStarts(m: Mem, t: nat)
    requires Enabled(m, Choice(t, BeginPop))
    ensures |Do(m, Choice(t, BeginPop)).pc| == |m.pc| && Popping(Do(m, Choice(t, BeginPop)).pc[t])
  {
  }

  lemma AdvancePop(m: Mem, t: nat, spurious: bool)
    requires Enabled(m, Choice(t, Advance(spurious))) && Popping(m.pc[t])
    ensures var c := Choice(t, Advance(spurious));
            && |Do(m, c).pc| == |m.pc|
            && if Logged(m, c) == [] then Popping(Do(m, c).pc[t])
               else if m.pc[t].PopLoad? then Logged(m, c) == [SawEmpty(t)] && Do(m, c).pc[t].Idle?
               else m.pc[t].PopCas? && Logged(m, c) == [Popped(t, m.pc[t].loaded)] && Do(m, c).pc[t].Idle?
  {
  }

  lemma GapGrows(m: Mem, c: Choice, t: nat)
    requires Enabled(m, c)
    ensures var log' := Do(m, c).log;
            Wins(log') - WinsBy(log', t) == Wins(m.log) - WinsBy(m.log, t)
              + if Logged(m, c) != [] && !Logged(m, c)[0].SawEmpty? && c.thread != t then 1 else 0
  {
    StepLogs(m, c);
    if Logged(m, c) == [] {
      assert Do(m, c).log == m.log;
    } else {
      WinsSnoc(m.log, Logged(m, c)[0], t);
      assert Logged(m, c) == [Logged(m, c)[0]];
    }
  }

  /** A thread's own step: its success needs a current `top`, its failure a stale one. */
  lemma OwnStepPays(m: Mem, t: nat, a: Action)
    requires Enabled(m, Choice(t, a))
    ensures var m' := Do(m, Choice(t, a));
            t < |m'.pc| == |m'.fails| && m'.fails[t] + Stale(m', t) <= m.fails[t] + Stale(m, t)
  {
    match a {
      case Alloc =>
      case BeginPush(_) =>
      case BeginPop =>
      case Advance(_) => assert !m.pc[t].Idle?;
    }
  }

  /** Another thread's step makes `t` stale only by a success of its own. */
  lemma OtherStepPays(m: Mem, c: Choice, t: nat)
    requires Enabled(m, c) && t < |m.pc| && t != c.thread
    ensures t < |Do(m, c).pc|
    ensures Stale(Do(m, c), t) - Stale(m, t) <= if Logged(m, c) != [] && !Logged(m, c)[0].SawEmpty? then 1 else 0
  {
    StepLeavesOthers(m, c, t);
    StepLogs(m, c);
  }

  /** Each genuine failure is paid for by a success of another thread since the load. */
  lemma StepRetryInv(m: Mem, c: Choice)
    requires RetryInv(m) && Enabled(m, c)
    ensures RetryInv(Do(m, c))
  {
    var m' := Do(m, c);
    assert |m'.pc| == |m'.fails| == |m.pc|;
    assert forall k :: 0 <= k < |m'.log| ==> m'.log[k].thread < |m.pc| by { StepLogs(m, c); }
    forall t | 0 <= t < |m.pc|
      ensures m'.fails[t] + Stale(m', t) <= Wins(m'.log) - WinsBy(m'.log, t)
    {
      GapGrows(m, c, t);
      if t == c.thread { OwnStepPays(m, t, c.action); } else { OtherStepPays(m, c, t); StepLeavesOthers(m, c, t); }
    }
  }

  lemma {:induction false} RunRetryInv(m: Mem, sched: seq<Choice>)
    requires RetryInv(m) && Runs(m, sched)
    ensures RetryInv(After(m, sched))
    decreases |sched|
  {
    if sched != [] {
      StepRetryInv(m, sched[0]);
      RunRetryInv(Do(m, sched[0]), sched[1..]);
    }
  }

  function WinsEach(log: seq<Event>, threads: nat): seq<nat> {
    seq(threads, t requires t >= 0 => WinsBy(log, t))
  }

  lemma {:induction false} WinsAreShared(log: seq<Event>, threads: nat)
    requires forall k :: 0 <= k < |log| ==> log[k].thread < threads
    ensures Sum<nat>(WinsEach(log, threads), Value) == Wins(log)
  {
    var ws := WinsEach(log, threads);
    if log == [] {
      assert forall i :: 0 <= i < |ws| ==> Value(ws[i]) == 0;
      SumBounds<nat>(ws, Value, 0, 0);
    } else {
      var e := log[|log| - 1];
      var ws0 := WinsEach(log[..|log| - 1], threads);
      WinsAreShared(log[..|log| - 1], threads);
      if e.SawEmpty? {
        assert ws == ws0;
      } else {
        SumUpdate<nat>(ws0, e.thread, ws0[e.thread] + 1, Value);
        assert ws == ws0[e.thread := ws0[e.thread] + 1];
      }
    }
  }

  lemma {:induction false} SumGap(fails: seq<nat>, ws: seq<nat>, w: nat)
    requires |fails| == |ws|
    requires forall t :: 0 <= t < |ws| ==> fails[t] <= w - ws[t]
    ensures Sum<nat>(fails, Value) <= |ws| * w - Sum<nat>(ws, Value)
  {
    if ws != [] {
      SumGap(fails[..|ws| - 1], ws[..|ws| - 1], w);
      assert |ws| * w == (|ws| - 1) * w + w;
    }
  }

  /** What RetryInv says, in the shape SumGap and WinsAreShared ask for. */
  lemma GapsAreWide(m: Mem)
    requires RetryInv(m)
    ensures |m.fails| == |m.pc| == |WinsEach(m.log, |m.pc|)|
    ensures forall k :: 0 <= k < |m.log| ==> m.log[k].thread < |m.pc|
    ensures forall t :: 0 <= t < |m.pc| ==> m.fails[t] <= Wins(m.log) - WinsEach(m.log, |m.pc|)[t]
  {
    hide Wins, WinsBy, Stale;
  }

  lemma TotalFailures(m: Mem)
    requires RetryInv(m) && 0 < |m.pc|
    ensures Sum<nat>(m.fails, Value) <= (|m.pc| - 1) * Wins(m.log)
  {
    hide Wins, WinsBy, WinsEach;
    var threads := |m.pc|;
    GapsAreWide(m);
    hide RetryInv;
    WinsAreShared(m.log, threads);
    SumGap(m.fails, WinsEach(m.log, threads), Wins(m.log));
    OneFewer(threads, Wins(m.log));
  }

  lemma OneFewer(n: nat, w: nat)
    ensures n * w - w == (n - 1) * w
  {
  }

  /**
   Retry bound: in any run at all, the genuine CAS failures of all threads together are at most
   (threads - 1) times the number of successful CASes.
   */
  lemma FailuresAreBounded(threads: nat, sched: seq<Choice>)
    requires threads > 0 && Runs(Init(threads), sched)
    ensures var m := After(Init(threads), sched);
            && |m.fails| == threads
            && Sum<nat>(m.fails, Value) <= (threads - 1) * Wins(m.log)
            && forall t :: 0 <= t < threads ==> m.fails[t] <= Wins(m.log) - WinsBy(m.log, t)
  {
    RunRetryInv(Init(threads), sched);
    RunKeepsThreads(Init(threads), sched);
    TotalFailures(After(Init(threads), sched));
  }

  lemma {:induction false} RunKeepsThreads(m: Mem, sched: seq<Choice>)
    requires Runs(m, sched)
    ensures |After(m, sched).pc| == |m.pc| && |After(m, sched).fails| == |m.fails|
    decreases |sched|
  {
    if sched != [] {
      RunKeepsThreads(Do(m, sched[0]), sched[1..]);
    }
  }
}
