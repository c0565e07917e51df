/**
 Which runs with node reuse stay right.  A node may be popped, pushed again and popped by a thread
 that read its `next` long ago; memory stays the stack of the log exactly as long as no pop CAS
 succeeds with a `next` that is out of date.
 */
module Reuse {
  import opened CasStack

  /** The log replays as a LIFO stack, and memory is that stack. */
  ghost predicate Right(m: Mem) {
    Replay(m.log).Some? && Chain(m.top, m.next, Replay(m.log).value)
  }

  ghost predicate AlwaysRight(m: Mem, sched: seq<Choice>)
    requires Runs(m, sched)
    decreases |sched|
  {
    Right(m) && (sched != [] ==> AlwaysRight(Do(m, sched[0]), sched[1..]))
  }

  predicate NoStalePop(m: Mem, sched: seq<Choice>)
    requires Runs(m, sched)
    decreases |sched|
  {
    sched != [] ==> !StalePop(m, sched[0]) && NoStalePop(Do(m, sched[0]), sched[1..])
  }

  // ---------------------------------------------------------------- one step

  /** What the moving thread knows after its step. */
  lemma OwnThreadStaysLoose(m: Mem, c: Choice)
    requires Sound(m) && Enabled(m, c)
    ensures LooseThread(Do(m, c), c.thread)
  {
    assert LooseThread(m, c.thread);
    SoundTop(m);
    hide Sound, Holds;
  }

  lemma SoundTop(m: Mem)
    requires Sound(m)
    ensures m.top.At? ==> m.top.node in m.next && m.top.node < m.brk && m.top.node !in m.owner
    ensures forall n :: n in m.owner ==> n < m.brk
    ensures forall n :: n in m.next ==> Allocated(m, m.next[n])
  {
    hide Replay, LooseThread;
    var s := Replay(m.log).value;
    assert s != [] ==> s[0] in s;
  }

  lemma OtherThreadStaysLoose(m: Mem, c: Choice, u: nat)
    requires Sound(m) && Enabled(m, c) && u < |m.pc| && u != c.thread
    ensures u < |Do(m, c).pc| && LooseThread(Do(m, c), u)
  {
    StepLeavesOthers(m, c, u);
    assert LooseThread(m, u) && LooseThread(m, c.thread);
    SoundTop(m);
    if !(c.action.Advance? && m.pc[c.thread].PushLink?) {
      OnlyLinksWriteNext(m, c);
    }
    hide Sound, Holds;
  }

  lemma StepSound(m: Mem, c: Choice)
    requires Sound(m) && Enabled(m, c) && !StalePop(m, c)
    ensures Sound(Do(m, c))
  {
    var m' := Do(m, c);
    assert |m'.pc| == |m'.fails| == |m.pc|;
    StepStack(m, c);
    hide Do, Holds, Replay, LooseThread, StalePop;
    forall u | 0 <= u < |m.pc| ensures LooseThread(m', u) {
      if u == c.thread { OwnThreadStaysLoose(m, c); } else { OtherThreadStaysLoose(m, c, u); }
    }
  }

  lemma ChainStartsOnce(p: Ptr, q: Ptr, next: map<nat, Ptr>, s: seq<nat>)
    requires Chain(p, next, s) && Chain(q, next, s)
    ensures p == q
  {
  }

  /** A stale pop leaves the wrong stack. */
  lemma StalePopBreaks(m: Mem, c: Choice)
    requires Sound(m) && Enabled(m, c) && StalePop(m, c)
    ensures !Right(Do(m, c))
  {
    var t, s, m' := c.thread, Replay(m.log).value, Do(m, c);
    var n := m.pc[t].loaded;
    ReplaySnoc(m.log, Popped(t, n));
    assert Chain(m.next[n], m.next, s[1..]);
    if Right(m') {
      ChainStartsOnce(m'.top, m.next[n], m.next, s[1..]);
    }
  }

  lemma SoundIsRight(m: Mem)
    requires Sound(m)
    ensures Right(m)
  {
    hide Replay, LooseThread;
  }

  /** One step keeps memory right if and only if it is no stale pop. */
  lemma StepExact(m: Mem, c: Choice)
    requires Sound(m) && Enabled(m, c)
    ensures Right(Do(m, c)) <==> !StalePop(m, c)
    ensures !StalePop(m, c) ==> Sound(Do(m, c))
  {
    hide Sound, Right, Do, StalePop;
    if StalePop(m, c) {
      StalePopBreaks(m, c);
    } else {
      StepSound(m, c);
      SoundIsRight(Do(m, c));
    }
  }

  // ---------------------------------------------------------------- whole runs

  /**
   Node reuse, exactly: in any run at all, careless or not, memory is at every moment the stack that
   the successful CASes replay to if and only if no pop CAS succeeds with a `next` out of date.
   */
  lemma {:induction false} RightIffNoStalePop(m: Mem, sched: seq<Choice>)
    requires Sound(m) && Runs(m, sched)
    ensures AlwaysRight(m, sched) <==> NoStalePop(m, sched)
    decreases |sched|
  {
    hide Sound, Right, Do, Enabled, StalePop;
    SoundIsRight(m);
    if sched != [] {
      var m' := Do(m, sched[0]);
      StepExact(m, sched[0]);
      if StalePop(m, sched[0]) {
        WrongAtOnce(m', sched[1..]);
      } else {
        RightIffNoStalePop(m', sched[1..]);
      }
    }
  }

  lemma WrongAtOnce(m: Mem, sched: seq<Choice>)
    requires Runs(m, sched) && !Right(m)
    ensures !AlwaysRight(m, sched)
  {
  }

  /** The theorem from the empty stack. */
  lemma ReuseIsRightIff(threads: nat, sched: seq<Choice>)
    requires Runs(Init(threads), sched)
    ensures AlwaysRight(Init(threads), sched) <==> NoStalePop(Init(threads), sched)
  {
    hide AlwaysRight, NoStalePop, Runs;
    InitInv(threads);
    InvIsSound(Init(threads));
    RightIffNoStalePop(Init(threads), sched);
  }

  /** The discipline is one way to avoid stale pops. */
  lemma {:induction false} CarefulRunsHaveNoStalePop(m: Mem, sched: seq<Choice>)
    requires Inv(m) && Runs(m, sched) && CarefulRun(m, sched)
    ensures NoStalePop(m, sched) && AlwaysRight(m, sched)
    decreases |sched|
  {
    hide Inv, Do, Enabled, StalePop, Right;
    InvIsSound(m);
    SoundIsRight(m);
    if sched != [] {
      StepInv(m, sched[0]);
      CarefulRunsHaveNoStalePop(Do(m, sched[0]), sched[1..]);
    }
  }
}
