/** The buffer pool of lib_app/BufPool.cpp as interleaved steps of its threads.

    Between two steps of one thread any other thread may run. The semaphore, the mutex and the auto-reset event
    have the semantics of lib_rtos/lib_rtos.c: taking the semaphore or the mutex is possible only when it is free,
    a successful wait consumes the event, and a timed wait may fail at any time. */
module BufPool {
  import opened AppFifos

  type Tid = nat
  type Buf = nat

  datatype Pc =
    | Idle
    // Fifo_Queue
    | QueueSem(buf: Buf)                 // about to take a space token
    | QueueLock(buf: Buf)
    | QueueStore(buf: Buf)               // owns the mutex from here ...
    | QueueSignal
    | QueueUnlock                        // ... to here
    // Fifo_Dequeue
    | DequeueLock(timed: bool, failed: bool)
    | DequeueCheck(timed: bool, failed: bool)   // owns the mutex
    | DequeueUnlockWait(timed: bool)            // owns the mutex, found nothing
    | DequeueWait(timed: bool)                  // waiting for the event
    | DequeueTake                               // owns the mutex, found something
    | DequeueUnlock(buf: Buf)                   // owns the mutex
    | DequeueRelease(buf: Buf)                  // about to give the space token back
    | DequeueUnlockNull                         // owns the mutex, about to return NULL
    // Fifo_Decommit and Fifo_Commit
    | FlagLock(value: bool)
    | FlagStore(value: bool)                    // owns the mutex
    | FlagSignal                                // owns the mutex
    | FlagUnlock                                // owns the mutex

  datatype State = State(
    ring: Ring<Buf>, decommitted: bool, mutex: set<Tid>, event: bool, sem: nat,
    held: set<Buf>,             // with a client, or not yet added by the pool's Init
    threads: map<Tid, Pc>,      // threads that are inside an operation
    all: set<Buf>, consumers: set<Tid>)

  function PcOf(s: State, t: Tid): Pc
  {
    if t in s.threads then s.threads[t] else Idle
  }

  predicate OwnsMutex(pc: Pc)
  {
    || pc.QueueStore? || pc.QueueSignal? || pc.QueueUnlock?
    || pc.DequeueCheck? || pc.DequeueUnlockWait? || pc.DequeueTake? || pc.DequeueUnlock? || pc.DequeueUnlockNull?
    || pc.FlagStore? || pc.FlagSignal? || pc.FlagUnlock?
  }

  /** The buffer in transit inside Queue or Dequeue, if any. */
  predicate Carries(pc: Pc, b: Buf)
  {
    match pc
    case QueueLock(x) => x == b
    case QueueStore(x) => x == b
    case DequeueUnlock(x) => x == b
    case DequeueRelease(x) => x == b
    case _ => false
  }

  datatype Step =
    | StartQueue(t: Tid, buf: Buf) | TakeToken(t: Tid)
    | StartDequeue(t: Tid, timed: bool) | Check(t: Tid) | Wake(t: Tid) | Timeout(t: Tid)
    | TakeBuf(t: Tid) | GiveToken(t: Tid)
    | StartFlag(t: Tid, value: bool) | StoreFlag(t: Tid)
    | StoreBuf(t: Tid) | Signal(t: Tid) | Lock(t: Tid) | Unlock(t: Tid)

  /** What Lock and Unlock lead to. */
  function AfterLock(pc: Pc): Pc
  {
    match pc
    case QueueLock(b) => QueueStore(b)
    case DequeueLock(timed, failed) => DequeueCheck(timed, failed)
    case FlagLock(v) => FlagStore(v)
    case _ => pc
  }

  function AfterUnlock(pc: Pc): Pc
  {
    match pc
    case DequeueUnlockWait(timed) => DequeueWait(timed)
    case DequeueUnlock(b) => DequeueRelease(b)
    case _ => Idle
  }

  predicate CanLock(pc: Pc) { pc.QueueLock? || pc.DequeueLock? || pc.FlagLock? }
  predicate CanUnlock(pc: Pc)
  {
    pc.QueueUnlock? || pc.DequeueUnlockWait? || pc.DequeueUnlock? || pc.DequeueUnlockNull? || pc.FlagUnlock?
  }

  ghost predicate Enabled(s: State, step: Step)
  {
    var pc := PcOf(s, step.t);
    match step
    case StartQueue(t, b) => pc.Idle? && b in s.held && forall u :: PcOf(s, u) != QueueSem(b)
    case TakeToken(t) => pc.QueueSem? && s.sem > 0
    case StartDequeue(t, _) => pc.Idle? && t in s.consumers
    case Check(t) => pc.DequeueCheck?
    case Wake(t) => pc.DequeueWait? && s.event
    case Timeout(t) => pc.DequeueWait? && pc.timed
    case TakeBuf(t) => pc.DequeueTake? && s.ring.Valid() && s.ring.number > 0
    case GiveToken(t) => pc.DequeueRelease?
    case StartFlag(t, _) => pc.Idle?
    case StoreFlag(t) => pc.FlagStore?
    case StoreBuf(t) => pc.QueueStore? && s.ring.Valid()
    case Signal(t) => pc.QueueSignal? || pc.FlagSignal?
    case Lock(t) => CanLock(pc) && s.mutex == {}
    case Unlock(t) => CanUnlock(pc)
  }

  function Goto(s: State, t: Tid, pc: Pc): State { s.(threads := s.threads[t := pc]) }

  ghost function Apply(s: State, step: Step): State
    requires Enabled(s, step)
  {
    var t := step.t;
    var pc := PcOf(s, t);
    match step
    case StartQueue(_, b) => Goto(s, t, QueueSem(b))
    case TakeToken(_) => Goto(s, t, QueueLock(pc.buf)).(sem := s.sem - 1, held := s.held - {pc.buf})
    case StartDequeue(_, timed) => Goto(s, t, DequeueLock(timed, false))
    case Check(_) =>
      if s.ring.number > 0 then Goto(s, t, DequeueTake)
      else if pc.failed || s.decommitted then Goto(s, t, DequeueUnlockNull)
      else Goto(s, t, DequeueUnlockWait(pc.timed))
    case Wake(_) => Goto(s, t, DequeueLock(pc.timed, false)).(event := false)
    case Timeout(_) => Goto(s, t, DequeueLock(pc.timed, true))
    case TakeBuf(_) => Goto(s, t, DequeueUnlock(s.ring.Pop().0)).(ring := s.ring.Pop().1)
    case GiveToken(_) => Goto(s, t, Idle).(sem := s.sem + 1, held := s.held + {pc.buf})
    case StartFlag(_, v) => Goto(s, t, FlagLock(v))
    case StoreFlag(_) => Goto(s, t, if pc.value then FlagSignal else FlagUnlock).(decommitted := pc.value)
    case StoreBuf(_) => Goto(s, t, QueueSignal).(ring := s.ring.Push(pc.buf))
    case Signal(_) => Goto(s, t, if pc.QueueSignal? then QueueUnlock else FlagUnlock).(event := true)
    case Lock(_) => Goto(s, t, AfterLock(pc)).(mutex := {t})
    case Unlock(_) => Goto(s, t, AfterUnlock(pc)).(mutex := {})
  }

  /** Right after Fifo_Init: nothing queued, one token per buffer, every buffer still to be added. */
  ghost predicate Initial(s: State)
  {
    && s.ring.Valid() && s.ring.maxElem == |s.all| + 1 && s.ring.number == 0
    && !s.decommitted && s.mutex == {} && !s.event && s.sem == |s.all| && s.held == s.all && s.threads == map[]
  }

  // ---- Conservation ----

  ghost predicate Exclusive(s: State)
  {
    && s.ring.Valid() && s.ring.maxElem == |s.all| + 1
    && (forall t :: OwnsMutex(PcOf(s, t)) <==> t in s.mutex)
    && |s.mutex| <= 1
  }

  ghost predicate Queued(s: State, b: Buf)
    requires s.ring.Valid()
  {
    b in s.ring.Items()
  }

  /** Every buffer is in exactly one of: the queue, a client's hands, the inside of one operation. */
  ghost predicate Conserved(s: State)
    requires s.ring.Valid()
  {
    && (forall i, j :: 0 <= i < j < s.ring.number ==> s.ring.Items()[i] != s.ring.Items()[j])
    && (forall b :: Queued(s, b) ==> b in s.all && b !in s.held)
    && s.held <= s.all
    && (forall t, b :: Carries(PcOf(s, t), b) ==> b in s.all && b !in s.held && !Queued(s, b))
    && (forall t, u, b :: Carries(PcOf(s, t), b) && Carries(PcOf(s, u), b) ==> t == u)
    && (forall b :: b in s.all ==> b in s.held || Queued(s, b) || exists t :: Carries(PcOf(s, t), b))
    && (forall t :: PcOf(s, t).QueueSem? ==> PcOf(s, t).buf in s.held)
    && (forall t, u :: PcOf(s, t).QueueSem? && PcOf(s, t) == PcOf(s, u) ==> t == u)
  }

  /** One space token per buffer that is out of the pool. */
  ghost predicate TokensMatch(s: State) { s.sem == |s.held| }

  /** What a consumer learnt under the mutex still holds while it owns it. */
  ghost predicate Informed(s: State)
  {
    forall t ::
      && (PcOf(s, t).DequeueTake? ==> s.ring.number > 0)
      && (PcOf(s, t).DequeueUnlockWait? ==> s.ring.number == 0 && !s.decommitted)
      && (PcOf(s, t).DequeueUnlockNull? ==> s.ring.number == 0)
  }

  ghost predicate Inv(s: State)
  {
    Exclusive(s) && Conserved(s) && TokensMatch(s) && Informed(s)
  }

  // ---- Wake-ups ----

  /** There is something for a waiting consumer to do. */
  predicate Wanted(s: State) { s.ring.number > 0 || s.decommitted }

  ghost predicate AboutToSignal(s: State) { exists t :: PcOf(s, t).QueueSignal? || PcOf(s, t).FlagSignal? }

  /** Nobody sleeps through a wake-up: with something to do, the event is set or about to be. */
  ghost predicate NoLostWakeup(s: State)
  {
    forall c :: PcOf(s, c).DequeueWait? && Wanted(s) ==> s.event || AboutToSignal(s)
  }

  ghost predicate OnlyConsumersDequeue(s: State)
  {
    forall t :: InDequeue(PcOf(s, t)) ==> t in s.consumers
  }

  predicate InDequeue(pc: Pc)
  {
    || pc.DequeueLock? || pc.DequeueCheck? || pc.DequeueUnlockWait? || pc.DequeueWait? || pc.DequeueTake?
    || pc.DequeueUnlock? || pc.DequeueRelease? || pc.DequeueUnlockNull?
  }

  // ---- Every step keeps the invariant ----

  lemma StepExclusive(s: State, step: Step)
    requires Inv(s) && Enabled(s, step)
    ensures Exclusive(Apply(s, step))
  {
    hide Conserved, TokensMatch, Informed;
    var t, s' := step.t, Apply(s, step);
    if step.TakeBuf? {
      s.ring.PopTakesOldest();
    }
    if step.StoreBuf? {
      RoomToStore(s, t);
      s.ring.PushAppends(PcOf(s, t).buf);
    }
    if OwnsMutex(PcOf(s, t)) {
      OnlyOwner(s, t);
    }
    forall u ensures OwnsMutex(PcOf(s', u)) <==> u in s'.mutex {
      assert u != t ==> PcOf(s', u) == PcOf(s, u);
    }
  }

  lemma OnlyOwner(s: State, t: Tid)
    requires Exclusive(s) && OwnsMutex(PcOf(s, t))
    ensures s.mutex == {t}
  {
    assert t in s.mutex;
    if u :| u in s.mutex && u != t {
      TwoMembers(s.mutex, t, u);
    }
  }

  lemma TwoMembers<T>(s: set<T>, x: T, y: T)
    requires x in s && y in s && x != y
    ensures |s| >= 2
  {
    SubsetSize({x, y}, s);
  }

  lemma SubsetSize<T>(a: set<T>, b: set<T>)
    requires a <= b
    ensures |a| <= |b|
  {
    var c := b - a;
    assert b == a + c;
  }

  /** Distinct elements of a set are no more than the set has. */
  lemma {:induction false} DistinctAtMost(q: seq<Buf>, all: set<Buf>)
    requires (forall i, j :: 0 <= i < j < |q| ==> q[i] != q[j]) && forall i :: 0 <= i < |q| ==> q[i] in all
    ensures |q| <= |all|
  {
    if q != [] {
      var n := |q| - 1;
      assert forall i :: 0 <= i < n ==> q[..n][i] in all - {q[n]};
      DistinctAtMost(q[..n], all - {q[n]});
    }
  }

  /** The ring never overwrites: a buffer that is about to be stored is not queued yet. */
  lemma RoomToStore(s: State, t: Tid)
    requires Inv(s) && PcOf(s, t).QueueStore?
    ensures s.ring.number + 1 < s.ring.maxElem
  {
    var b := PcOf(s, t).buf;
    var q := s.ring.Items();
    assert Carries(PcOf(s, t), b);
    forall i | 0 <= i < |q| ensures q[i] in s.all - {b} {
      assert Queued(s, q[i]);
    }
    DistinctAtMost(q, s.all - {b});
  }

  lemma StepConserved(s: State, step: Step)
    requires Inv(s) && Enabled(s, step)
    ensures Apply(s, step).ring.Valid() && Conserved(Apply(s, step))
  {
    StepExclusive(s, step);
    match step
    case TakeToken(_) => TakeTokenConserves(s, step);
    case GiveToken(_) => GiveTokenConserves(s, step);
    case TakeBuf(_) => TakeBufConserves(s, step);
    case StoreBuf(_) => StoreBufConserves(s, step);
    case _ => MoveConserves(s, step);
  }

  predicate MovesNoBuffer(step: Step)
  {
    !step.TakeToken? && !step.GiveToken? && !step.TakeBuf? && !step.StoreBuf?
  }

  lemma MoveConserves(s: State, step: Step)
    requires Inv(s) && Enabled(s, step) && MovesNoBuffer(step)
    ensures Conserved(Apply(s, step))
  {
    var s' := Apply(s, step);
    MoveCarries(s, step);
    MoveWaits(s, step);
    hide Informed, TokensMatch, Enabled, Apply, MovesNoBuffer, Carries, PcOf;
    forall b ensures Queued(s', b) <==> Queued(s, b) {
    }
    StillSomewhere(s, s');
  }

  lemma MoveCarries(s: State, step: Step)
    requires Enabled(s, step) && MovesNoBuffer(step)
    ensures var s' := Apply(s, step);
      && s'.ring == s.ring && s'.held == s.held && s'.all == s.all
      && forall t, b :: Carries(PcOf(s', t), b) <==> Carries(PcOf(s, t), b)
  {
  }

  /** A buffer that a thread is about to return stays with the client, and with that thread only. */
  lemma MoveWaits(s: State, step: Step)
    requires Inv(s) && Enabled(s, step) && MovesNoBuffer(step)
    ensures var s' := Apply(s, step);
      && (forall t :: PcOf(s', t).QueueSem? ==> PcOf(s', t).buf in s.held)
      && (forall t, u :: PcOf(s', t).QueueSem? && PcOf(s', t) == PcOf(s', u) ==> t == u)
  {
    hide Informed, TokensMatch, Exclusive;
    var s' := Apply(s, step);
    forall t | t != step.t || !step.StartQueue? ensures PcOf(s', t).QueueSem? ==> PcOf(s', t) == PcOf(s, t) {
    }
  }

  lemma StillSomewhere(s: State, s': State)
    requires s.ring.Valid() && s'.ring.Valid() && Conserved(s)
    requires s'.all == s.all && s'.held == s.held
    requires forall b :: Queued(s', b) <==> Queued(s, b)
    requires forall t, b :: Carries(PcOf(s', t), b) <==> Carries(PcOf(s, t), b)
    ensures forall b :: b in s'.all ==> b in s'.held || Queued(s', b) || exists t :: Carries(PcOf(s', t), b)
  {
    forall b | b in s'.all ensures b in s'.held || Queued(s', b) || exists t :: Carries(PcOf(s', t), b) {
      if b !in s.held && !Queued(s, b) {
        var t :| Carries(PcOf(s, t), b);
        assert Carries(PcOf(s', t), b);
      }
    }
  }

  lemma TakeTokenConserves(s: State, step: Step)
    requires Inv(s) && Enabled(s, step) && step.TakeToken?
    ensures Conserved(Apply(s, step))
  {
    var s' := Apply(s, step);
    var x := PcOf(s, step.t).buf;
    forall b ensures Queued(s', b) <==> Queued(s, b) {
    }
    forall t, b ensures Carries(PcOf(s', t), b) <==> Carries(PcOf(s, t), b) || (t == step.t && b == x) {
    }
    EverythingSomewhere(s, s', step.t, x);
  }

  lemma GiveTokenConserves(s: State, step: Step)
    requires Inv(s) && Enabled(s, step) && step.GiveToken?
    ensures Conserved(Apply(s, step))
  {
    hide Informed, TokensMatch;
    var s' := Apply(s, step);
    var x := PcOf(s, step.t).buf;
    assert Carries(PcOf(s, step.t), x);
    assert s'.ring == s.ring;
    forall b ensures Queued(s', b) <==> Queued(s, b) {
    }
    forall t, b ensures Carries(PcOf(s', t), b) <==> Carries(PcOf(s, t), b) && t != step.t {
    }
    EverythingSomewhere(s, s', step.t, x);
  }

  lemma TakeBufConserves(s: State, step: Step)
    requires Inv(s) && Enabled(s, step) && step.TakeBuf?
    ensures Apply(s, step).ring.Valid() && Conserved(Apply(s, step))
  {
    s.ring.PopTakesOldest();
    var s' := Apply(s, step);
    var x := s.ring.Pop().0;
    assert s.ring.Items()[0] == x;
    forall i | 0 <= i < s'.ring.number ensures s'.ring.Items()[i] == s.ring.Items()[i + 1] {
    }
    forall b ensures Queued(s', b) <==> Queued(s, b) && b != x {
    }
    forall t, b ensures Carries(PcOf(s', t), b) <==> Carries(PcOf(s, t), b) || (t == step.t && b == x) {
    }
    assert Queued(s, x);
    EverythingSomewhere(s, s', step.t, x);
  }

  lemma StoreBufConserves(s: State, step: Step)
    requires Inv(s) && Enabled(s, step) && step.StoreBuf?
    ensures Apply(s, step).ring.Valid() && Conserved(Apply(s, step))
  {
    var x := PcOf(s, step.t).buf;
    RoomToStore(s, step.t);
    s.ring.PushAppends(x);
    var s' := Apply(s, step);
    assert Carries(PcOf(s, step.t), x);
    forall b ensures Queued(s', b) <==> Queued(s, b) || b == x {
    }
    forall t, b ensures Carries(PcOf(s', t), b) <==> Carries(PcOf(s, t), b) && t != step.t {
    }
    assert forall i :: 0 <= i < s.ring.number ==> Queued(s, s.ring.Items()[i]);
    EverythingSomewhere(s, s', step.t, x);
  }

  /** A step that moves only buffer `x`, on behalf of thread `t`, loses nothing. */
  lemma EverythingSomewhere(s: State, s': State, t: Tid, x: Buf)
    requires s.ring.Valid() && s'.ring.Valid() && Conserved(s) && s'.all == s.all
    requires forall u :: u != t ==> PcOf(s', u) == PcOf(s, u)
    requires forall b :: b != x ==> (b in s'.held <==> b in s.held)
    requires forall b :: b != x ==> (Queued(s', b) <==> Queued(s, b))
    requires forall b :: Carries(PcOf(s, t), b) ==> b == x
    requires x in s'.held || Queued(s', x) || Carries(PcOf(s', t), x)
    ensures forall b :: b in s'.all ==> b in s'.held || Queued(s', b) || exists u :: Carries(PcOf(s', u), b)
  {
    forall b | b in s'.all ensures b in s'.held || Queued(s', b) || exists u :: Carries(PcOf(s', u), b) {
      if b != x && b !in s.held && !Queued(s, b) {
        var u :| Carries(PcOf(s, u), b);
        assert Carries(PcOf(s', u), b);
      }
    }
  }

  lemma StepTokens(s: State, step: Step)
    requires Inv(s) && Enabled(s, step)
    ensures TokensMatch(Apply(s, step))
  {
    var pc := PcOf(s, step.t);
    match step
    case TakeToken(_) => assert s.held == (s.held - {pc.buf}) + {pc.buf};
    case GiveToken(_) => assert Carries(pc, pc.buf);
    case _ =>
  }

  lemma StepInformed(s: State, step: Step)
    requires Inv(s) && Enabled(s, step)
    ensures Informed(Apply(s, step))
  {
    hide Conserved, TokensMatch;
    var s' := Apply(s, step);
    if OwnsMutex(PcOf(s, step.t)) {
      OnlyOwner(s, step.t);
    }
    forall t
      ensures PcOf(s', t).DequeueTake? ==> s'.ring.number > 0
      ensures PcOf(s', t).DequeueUnlockWait? ==> s'.ring.number == 0 && !s'.decommitted
      ensures PcOf(s', t).DequeueUnlockNull? ==> s'.ring.number == 0
    {
      if t != step.t {
        assert PcOf(s', t) == PcOf(s, t);
        assert OwnsMutex(PcOf(s, t)) <==> t in s.mutex;
      }
    }
  }

  lemma StepKeepsInv(s: State, step: Step)
    requires Inv(s) && Enabled(s, step)
    ensures Inv(Apply(s, step))
  {
    StepExclusive(s, step);
    StepConserved(s, step);
    StepTokens(s, step);
    StepInformed(s, step);
  }

  /** Fifo_Init establishes all of it. */
  lemma InitialInv(s: State)
    requires Initial(s)
    ensures Inv(s) && NoLostWakeup(s) && OnlyConsumersDequeue(s)
  {
  }

  // ---- Whole runs ----

  /** `states` is a run: it starts right after Fifo_Init and each state follows from the one before. */
  ghost predicate Run(states: seq<State>, steps: seq<Step>)
  {
    && |states| == |steps| + 1 && Initial(states[0])
    && forall i :: 0 <= i < |steps| ==> Enabled(states[i], steps[i]) && states[i + 1] == Apply(states[i], steps[i])
  }

  /** Over every interleaving: each buffer is in exactly one place, the ring is the abstract queue, and there are
      as many space tokens as buffers outside the pool. */
  lemma {:induction false} AlwaysConserved(states: seq<State>, steps: seq<Step>, i: nat)
    requires Run(states, steps) && i < |states|
    ensures Inv(states[i])
    ensures states[i].all == states[0].all && states[i].consumers == states[0].consumers
  {
    if i == 0 {
      InitialInv(states[0]);
    } else {
      AlwaysConserved(states, steps, i - 1);
      StepKeepsInv(states[i - 1], steps[i - 1]);
    }
  }

  /** Returning a buffer never blocks on the space semaphore. */
  lemma QueueNeverBlocks(s: State, t: Tid)
    requires Inv(s) && PcOf(s, t).QueueSem?
    ensures Enabled(s, TakeToken(t))
  {
    assert PcOf(s, t).buf in s.held;
  }

  /** Whoever owns the mutex can take a step, and no step of another thread takes that away: no deadlock. */
  lemma OwnerCanProceed(s: State, t: Tid)
    requires Inv(s) && t in s.mutex
    ensures exists step: Step :: step.t == t && Enabled(s, step)
  {
    var pc := PcOf(s, t);
    assert OwnsMutex(pc);
    var step := match pc
      case QueueStore(_) => StoreBuf(t)
      case QueueSignal => Signal(t)
      case DequeueCheck(_, _) => Check(t)
      case DequeueTake => TakeBuf(t)
      case FlagStore(_) => StoreFlag(t)
      case FlagSignal => Signal(t)
      case _ => Unlock(t);
    assert step.t == t && Enabled(s, step);
  }

  /** NULL is returned only when the queue was seen empty, after a decommit or a timed-out wait. */
  lemma NullOnlyWhenEmpty(s: State, step: Step)
    requires Inv(s) && Enabled(s, step)
    requires PcOf(Apply(s, step), step.t).DequeueUnlockNull?
    ensures s.ring.Items() == [] && (s.decommitted || PcOf(s, step.t).failed)
  {
  }

  /** Steps of other threads than `t`. */
  ghost predicate OfOthers(s: State, steps: seq<Step>, t: Tid)
    decreases |steps|
  {
    steps == [] || (steps[0].t != t && Enabled(s, steps[0]) && OfOthers(Apply(s, steps[0]), steps[1..], t))
  }

  ghost function After(s: State, steps: seq<Step>, t: Tid): State
    requires OfOthers(s, steps, t)
    decreases |steps|
  {
    if steps == [] then s else After(Apply(s, steps[0]), steps[1..], t)
  }

  /** They leave it where it is. */
  lemma {:induction false} OthersLeaveAlone(s: State, steps: seq<Step>, t: Tid)
    requires OfOthers(s, steps, t) && Inv(s)
    ensures PcOf(After(s, steps, t), t) == PcOf(s, t) && Inv(After(s, steps, t))
    decreases |steps|
  {
    hide Inv;
    if steps != [] {
      StepKeepsInv(s, steps[0]);
      assert PcOf(Apply(s, steps[0]), t) == PcOf(s, t) by { hide *; OtherStep(s, steps[0], t); }
      OthersLeaveAlone(Apply(s, steps[0]), steps[1..], t);
    }
  }

  lemma OtherStep(s: State, step: Step, t: Tid)
    requires Enabled(s, step) && step.t != t
    ensures PcOf(Apply(s, step), t) == PcOf(s, t)
  {
  }

  /** How a wait ends, whatever the other threads do meanwhile: the consumer has the mutex as its only next step, and
      then looks at the queue. It takes a buffer if there is one. Otherwise it gives up if its wait has timed out or
      the pool is decommitted by then, and waits again if it was woken for nothing. */
  lemma WaitEndsIn(s: State, t: Tid, last: Step, p: seq<Step>, q: seq<Step>, check: Step)
    requires Inv(s) && PcOf(s, t).DequeueWait? && (last == Timeout(t) || last == Wake(t)) && Enabled(s, last)
    requires OfOthers(Apply(s, last), p, t)
    ensures var s1 := After(Apply(s, last), p, t);
      && (forall step: Step :: step.t == t && Enabled(s1, step) ==> step == Lock(t))
      && (Enabled(s1, Lock(t)) && OfOthers(Apply(s1, Lock(t)), q, t) ==>
            var s2 := After(Apply(s1, Lock(t)), q, t);
            check.t == t && Enabled(s2, check) ==>
              var pc := PcOf(Apply(s2, check), t);
              s2.ring.Valid()
              && if s2.ring.Items() != [] then pc.DequeueTake?
                 else if last == Timeout(t) || s2.decommitted then pc.DequeueUnlockNull?
                 else pc.DequeueUnlockWait?)
  {
    hide *;
    var s0 := Apply(s, last);
    StepKeepsInv(s, last);
    AfterWaiting(s, t, last);
    OthersLeaveAlone(s0, p, t);
    var s1 := After(s0, p, t);
    forall step: Step | step.t == t && Enabled(s1, step) ensures step == Lock(t) {
      AtLock(s1, t, step);
    }
    if Enabled(s1, Lock(t)) && OfOthers(Apply(s1, Lock(t)), q, t) {
      StepKeepsInv(s1, Lock(t));
      AtLock(s1, t, Lock(t));
      OthersLeaveAlone(Apply(s1, Lock(t)), q, t);
      var s2 := After(Apply(s1, Lock(t)), q, t);
      if check.t == t && Enabled(s2, check) {
        AtCheck(s2, t, check);
      }
    }
  }

  lemma AfterWaiting(s: State, t: Tid, last: Step)
    requires PcOf(s, t).DequeueWait? && (last == Timeout(t) || last == Wake(t)) && Enabled(s, last)
    ensures var pc := PcOf(Apply(s, last), t); pc.DequeueLock? && (pc.failed <==> last == Timeout(t))
  {
  }

  lemma AtLock(s: State, t: Tid, step: Step)
    requires PcOf(s, t).DequeueLock? && step.t == t && Enabled(s, step)
    ensures step == Lock(t) && PcOf(Apply(s, step), t) == DequeueCheck(PcOf(s, t).timed, PcOf(s, t).failed)
  {
  }

  lemma AtCheck(s: State, t: Tid, step: Step)
    requires Inv(s) && PcOf(s, t).DequeueCheck? && step.t == t && Enabled(s, step)
    ensures s.ring.Valid()
    ensures var pc := PcOf(Apply(s, step), t);
      if s.ring.Items() != [] then pc.DequeueTake?
      else if PcOf(s, t).failed || s.decommitted then pc.DequeueUnlockNull?
      else pc.DequeueUnlockWait?
  {
    hide Conserved, TokensMatch, Informed;
  }

  // ---- One consumer never misses a wake-up; two can ----

  lemma StepKeepsWakeups(s: State, step: Step)
    requires Inv(s) && Enabled(s, step) && NoLostWakeup(s) && OnlyConsumersDequeue(s) && |s.consumers| <= 1
    ensures NoLostWakeup(Apply(s, step)) && OnlyConsumersDequeue(Apply(s, step))
  {
    hide Conserved, TokensMatch;
    var s' := Apply(s, step);
    var t := step.t;
    forall c | PcOf(s', c).DequeueWait? && Wanted(s') ensures s'.event || AboutToSignal(s') {
      match step
      case StoreBuf(_) => assert PcOf(s', t).QueueSignal?;
      case StoreFlag(_) =>
        if PcOf(s, t).value { assert PcOf(s', t).FlagSignal?; } else { SignalKept(s, s', t); }
      case Wake(_) =>
        if c != t {
          TwoMembers(s.consumers, c, t);
        }
      case Signal(_) =>
      case TakeBuf(_) =>
        if c != t {
          TwoMembers(s.consumers, c, t);
        }
      case _ => SignalKept(s, s', t);
    }
  }

  lemma SignalKept(s: State, s': State, t: Tid)
    requires forall u :: u != t ==> PcOf(s', u) == PcOf(s, u)
    requires !PcOf(s, t).QueueSignal? && !PcOf(s, t).FlagSignal?
    ensures AboutToSignal(s) ==> AboutToSignal(s')
  {
    if AboutToSignal(s) {
      var u :| PcOf(s, u).QueueSignal? || PcOf(s, u).FlagSignal?;
      assert PcOf(s', u) == PcOf(s, u);
    }
  }

  lemma {:induction false} OneConsumerNeverMisses(states: seq<State>, steps: seq<Step>, i: nat)
    requires Run(states, steps) && i < |states| && |states[0].consumers| <= 1
    ensures NoLostWakeup(states[i]) && OnlyConsumersDequeue(states[i])
    ensures forall c ::
      PcOf(states[i], c).DequeueWait? && Wanted(states[i]) && states[i].mutex == {} ==> states[i].event
  {
    AlwaysConserved(states, steps, i);
    if i == 0 {
      InitialInv(states[0]);
    } else {
      OneConsumerNeverMisses(states, steps, i - 1);
      AlwaysConserved(states, steps, i - 1);
      StepKeepsWakeups(states[i - 1], steps[i - 1]);
    }
  }

  lemma RunExtend(states: seq<State>, steps: seq<Step>, step: Step)
    requires Run(states, steps) && Enabled(states[|states| - 1], step)
    ensures Run(states + [Apply(states[|states| - 1], step)], steps + [step])
  {
    var states', steps' := states + [Apply(states[|states| - 1], step)], steps + [step];
    forall i | 0 <= i < |steps'|
      ensures Enabled(states'[i], steps'[i]) && states'[i + 1] == Apply(states'[i], steps'[i])
    {
      if i < |steps| {
        assert states'[i] == states[i] && steps'[i] == steps[i] && states'[i + 1] == states[i + 1];
      }
    }
  }

  /** A consumer that calls Dequeue while nothing is queued ends up waiting. */
  lemma GoesToWait(states: seq<State>, steps: seq<Step>, c: Tid) returns (states': seq<State>, steps': seq<Step>)
    requires Run(states, steps)
    requires var s := states[|states| - 1];
             c in s.consumers && PcOf(s, c).Idle? && s.mutex == {} && s.ring.number == 0 && !s.decommitted
    ensures Run(states', steps') && states'[0] == states[0]
    ensures var s, s' := states[|states| - 1], states'[|states'| - 1];
            s' == s.(threads := s.threads[c := DequeueWait(false)])
  {
    hide Run;
    RunNotEmpty(states, steps);
    var s := states[|states| - 1];
    RunExtend(states, steps, StartDequeue(c, false));
    var s1 := Apply(s, StartDequeue(c, false));
    RunExtend(states + [s1], steps + [StartDequeue(c, false)], Lock(c));
    var s2 := Apply(s1, Lock(c));
    RunExtend(states + [s1] + [s2], steps + [StartDequeue(c, false)] + [Lock(c)], Check(c));
    var s3 := Apply(s2, Check(c));
    RunExtend(states + [s1] + [s2] + [s3], steps + [StartDequeue(c, false)] + [Lock(c)] + [Check(c)], Unlock(c));
    var s4 := Apply(s3, Unlock(c));
    states' := states + [s1] + [s2] + [s3] + [s4];
    steps' := steps + [StartDequeue(c, false)] + [Lock(c)] + [Check(c)] + [Unlock(c)];
    assert s4.threads == s.threads[c := DequeueWait(false)];
  }

  lemma RunNotEmpty(states: seq<State>, steps: seq<Step>)
    requires Run(states, steps)
    ensures |states| > 0
  {
  }

  /** Fifo_Decommit by an idle thread, undisturbed: the flag and the event end up set. */
  lemma Decommits(states: seq<State>, steps: seq<Step>, d: Tid) returns (states': seq<State>, steps': seq<Step>)
    requires Run(states, steps)
    requires var s := states[|states| - 1];
             PcOf(s, d).Idle? && s.mutex == {}
    ensures Run(states', steps') && states'[0] == states[0]
    ensures var s, s' := states[|states| - 1], states'[|states'| - 1];
            s' == s.(threads := s.threads[d := Idle], decommitted := true, event := true)
  {
    hide Run;
    RunNotEmpty(states, steps);
    var s := states[|states| - 1];
    var a := StartFlag(d, true);
    RunExtend(states, steps, a);
    var s1 := Apply(s, a);
    RunExtend(states + [s1], steps + [a], Lock(d));
    var s2 := Apply(s1, Lock(d));
    RunExtend(states + [s1] + [s2], steps + [a] + [Lock(d)], StoreFlag(d));
    var s3 := Apply(s2, StoreFlag(d));
    RunExtend(states + [s1] + [s2] + [s3], steps + [a] + [Lock(d)] + [StoreFlag(d)], Signal(d));
    var s4 := Apply(s3, Signal(d));
    RunExtend(states + [s1] + [s2] + [s3] + [s4], steps + [a] + [Lock(d)] + [StoreFlag(d)] + [Signal(d)], Unlock(d));
    var s5 := Apply(s4, Unlock(d));
    states' := states + [s1] + [s2] + [s3] + [s4] + [s5];
    steps' := steps + [a] + [Lock(d)] + [StoreFlag(d)] + [Signal(d)] + [Unlock(d)];
    assert s5.threads == s.threads[d := Idle];
  }

  /** One more step of a run. */
  lemma Go(states: seq<State>, steps: seq<Step>, s: State, step: Step)
    returns (states': seq<State>, steps': seq<Step>, s': State)
    requires Run(states, steps) && s == states[|states| - 1] && Enabled(s, step)
    ensures Run(states', steps') && states'[0] == states[0] && s' == states'[|states'| - 1] == Apply(s, step)
  {
    s' := Apply(s, step);
    states', steps' := states + [s'], steps + [step];
    RunExtend(states, steps, step);
  }

  /** Fifo_Queue by an idle thread, undisturbed. */
  lemma Queues(states: seq<State>, steps: seq<Step>, d: Tid, b: Buf) returns (states': seq<State>, steps': seq<Step>)
    requires Run(states, steps)
    requires var s := states[|states| - 1];
             PcOf(s, d).Idle? && s.mutex == {} && b in s.held && s.sem > 0 && s.ring.Valid()
             && forall u :: !PcOf(s, u).QueueSem?
    ensures Run(states', steps') && states'[0] == states[0]
    ensures var s, s' := states[|states| - 1], states'[|states'| - 1];
            s' == s.(threads := s.threads[d := Idle], ring := s.ring.Push(b), sem := s.sem - 1,
                     held := s.held - {b}, event := true)
  {
    hide Run, Ring.Push, Ring.Valid;
    RunNotEmpty(states, steps);
    var s := states[|states| - 1];
    var x;
    states', steps', x := Go(states, steps, s, StartQueue(d, b));
    states', steps', x := Go(states', steps', x, TakeToken(d));
    states', steps', x := Go(states', steps', x, Lock(d));
    states', steps', x := Go(states', steps', x, StoreBuf(d));
    states', steps', x := Go(states', steps', x, Signal(d));
    states', steps', x := Go(states', steps', x, Unlock(d));
    assert x.threads == s.threads[d := Idle];
  }

  function Elements(q: seq<Buf>): set<Buf> { set b | b in q }

  predicate NoRepeats(q: seq<Buf>) { forall i, j :: 0 <= i < j < |q| ==> q[i] != q[j] }

  /** What the pool's Init leaves when it has queued these buffers. */
  ghost predicate Holds(s: State, initial: State, q: seq<Buf>)
  {
    && s.ring.Valid() && s.ring.Items() == q && s.ring.maxElem == initial.ring.maxElem
    && s.held == initial.all - Elements(q) && s.sem + |q| == |initial.all|
    && s.mutex == {} && (forall t :: PcOf(s, t).Idle?) && (q != [] ==> s.event)
    && s.all == initial.all && s.consumers == initial.consumers && !s.decommitted
  }

  /** The pool's Init queues its buffers one by one: they lie in the ring in that order, whatever their number. */
  lemma {:induction false} InitFills(s: State, d: Tid, q: seq<Buf>) returns (states: seq<State>, steps: seq<Step>)
    requires Initial(s) && NoRepeats(q) && forall b :: b in q ==> b in s.all
    ensures Run(states, steps) && states[0] == s && Holds(states[|states| - 1], s, q)
    ensures Elements(q) == s.all ==> states[|states| - 1].held == {} && states[|states| - 1].sem == 0
    decreases |q|
  {
    if q == [] {
      states, steps := [s], [];
    } else {
      var n: nat := |q| - 1;
      var p, b := q[..n], q[n];
      states, steps := InitFills(s, d, p);
      var x := states[|states| - 1];
      hide Run;
      RunNotEmpty(states, steps);
      RoomForOneMore(s.all, p, b);
      states, steps := Queues(states, steps, d, b);
      HoldsOneMore(s, x, d, p, b);
      assert q == p + [b];
    }
    CountElements(q);
  }

  lemma HoldsOneMore(initial: State, s: State, d: Tid, p: seq<Buf>, b: Buf)
    requires Holds(s, initial, p) && |p| < |initial.all| && initial.ring.maxElem == |initial.all| + 1
    ensures Holds(s.(threads := s.threads[d := Idle], ring := s.ring.Push(b), sem := s.sem - 1,
                     held := s.held - {b}, event := true), initial, p + [b])
  {
    s.ring.PushAppends(b);
    var s' := s.(threads := s.threads[d := Idle], ring := s.ring.Push(b), sem := s.sem - 1, held := s.held - {b},
                 event := true);
    assert s'.ring.Valid() && s'.ring.Items() == p + [b];
    forall t ensures PcOf(s', t).Idle? { assert PcOf(s, t).Idle?; }
    assert Elements(p + [b]) == Elements(p) + {b};
    assert initial.all - (Elements(p) + {b}) == initial.all - Elements(p) - {b};
  }

  lemma {:induction false} CountElements(q: seq<Buf>)
    requires NoRepeats(q)
    ensures |Elements(q)| == |q|
  {
    if q != [] {
      var n: nat := |q| - 1;
      CountElements(q[..n]);
      assert q == q[..n] + [q[n]];
      assert Elements(q) == Elements(q[..n]) + {q[n]};
    }
  }

  lemma RoomForOneMore(all: set<Buf>, p: seq<Buf>, b: Buf)
    requires NoRepeats(p) && b in all && b !in p && Elements(p) <= all
    ensures |p| < |all| && b in all - Elements(p)
  {
    CountElements(p);
    assert |all| == |all - Elements(p)| + |Elements(p)|;
    assert b in all - Elements(p);
  }

  /** A consumer that waits while the event is set uses it up and comes to own the mutex. */
  lemma Wakes(states: seq<State>, steps: seq<Step>, c: Tid)
    returns (states': seq<State>, steps': seq<Step>, s': State)
    requires Run(states, steps)
    requires var s := states[|states| - 1];
             PcOf(s, c) == DequeueWait(false) && s.event && s.mutex == {}
    ensures Run(states', steps') && states'[0] == states[0] && s' == states'[|states'| - 1]
    ensures s' == Goto(states[|states| - 1], c, DequeueCheck(false, false)).(mutex := {c}, event := false)
  {
    hide Run;
    RunNotEmpty(states, steps);
    states', steps', s' := Go(states, steps, states[|states| - 1], Wake(c));
    states', steps', s' := Go(states', steps', s', Lock(c));
    assert s'.threads == Goto(states[|states| - 1], c, DequeueCheck(false, false)).threads;
  }

  /** One that waits while the event is set and something is queued takes the oldest buffer. */
  lemma WakesAndTakes(states: seq<State>, steps: seq<Step>, c: Tid) returns (states': seq<State>, steps': seq<Step>)
    requires Run(states, steps)
    requires var s := states[|states| - 1];
             PcOf(s, c) == DequeueWait(false) && s.event && s.mutex == {} && s.ring.Valid() && s.ring.number > 0
    ensures Run(states', steps') && states'[0] == states[0]
    ensures var s, s' := states[|states| - 1], states'[|states'| - 1];
            s' == s.(threads := s.threads[c := Idle], ring := s.ring.Pop().1, sem := s.sem + 1,
                     held := s.held + {s.ring.Pop().0}, event := false)
  {
    hide Run, Ring.Pop, Ring.Valid;
    RunNotEmpty(states, steps);
    var s := states[|states| - 1];
    var x;
    states', steps', x := Wakes(states, steps, c);
    states', steps', x := Go(states', steps', x, Check(c));
    states', steps', x := Go(states', steps', x, TakeBuf(c));
    states', steps', x := Go(states', steps', x, Unlock(c));
    states', steps', x := Go(states', steps', x, GiveToken(c));
    assert x.threads == s.threads[c := Idle];
  }

  /** One that finds nothing after a decommit gives up. */
  lemma WakesInVain(states: seq<State>, steps: seq<Step>, c: Tid) returns (states': seq<State>, steps': seq<Step>)
    requires Run(states, steps)
    requires var s := states[|states| - 1];
             PcOf(s, c) == DequeueWait(false) && s.event && s.mutex == {} && s.ring.number == 0 && s.decommitted
    ensures Run(states', steps') && states'[0] == states[0]
    ensures var s, s' := states[|states| - 1], states'[|states'| - 1];
            s' == s.(threads := s.threads[c := Idle], event := false)
  {
    hide Run;
    RunNotEmpty(states, steps);
    var s := states[|states| - 1];
    var x;
    states', steps', x := Wakes(states, steps, c);
    states', steps', x := Go(states', steps', x, Check(c));
    states', steps', x := Go(states', steps', x, Unlock(c));
    assert x.threads == s.threads[c := Idle];
  }

  /** A consumer sleeps without a time limit although there is something for it to do, and nobody is
      under way to wake it: the event is not set and every other thread is outside or asleep itself. */
  ghost predicate Stuck(s: State, c: Tid)
  {
    && PcOf(s, c) == DequeueWait(false) && Wanted(s) && !s.event && s.mutex == {}
    && forall u :: PcOf(s, u).Idle? || PcOf(s, u).DequeueWait?
  }

  /** From there only a new operation or a time limit leads on. */
  lemma StuckStays(s: State, c: Tid, step: Step)
    requires Stuck(s, c) && Enabled(s, step)
    ensures step.StartQueue? || step.StartDequeue? || step.StartFlag? || (step.Timeout? && step.t != c)
    ensures PcOf(Apply(s, step), c) == PcOf(s, c) || step.t == c
    ensures step.t != c
  {
    assert PcOf(s, step.t).Idle? || PcOf(s, step.t).DequeueWait?;
  }

  /** With two consumers a decommit may wake only one: it uses the event up and the other one sleeps on. */
  lemma StuckAfterDecommit(s: State, c1: Tid, c2: Tid) returns (states: seq<State>, steps: seq<Step>)
    requires Initial(s) && c1 in s.consumers && c2 in s.consumers && c1 != c2
    ensures Run(states, steps) && states[0] == s && Stuck(states[|states| - 1], c2)
    ensures states[|states| - 1].decommitted && states[|states| - 1].ring == s.ring
  {
    states, steps := [s], [];
    assert Run(states, steps);
    states, steps := GoesToWait(states, steps, c1);
    states, steps := GoesToWait(states, steps, c2);
    states, steps := Decommits(states, steps, c1 + c2 + 1);
    states, steps := WakesInVain(states, steps, c1);
  }

  /** Two buffers queued before the first consumer runs set the event once: it takes one buffer, and the
      other consumer sleeps on with the second one in the queue. */
  lemma StuckAfterTwoQueues(s: State, c1: Tid, c2: Tid, b1: Buf, b2: Buf)
    returns (states: seq<State>, steps: seq<Step>)
    requires Initial(s) && c1 in s.consumers && c2 in s.consumers && c1 != c2
    requires b1 in s.all && b2 in s.all && b1 != b2
    ensures Run(states, steps) && states[0] == s && Stuck(states[|states| - 1], c2)
    ensures states[|states| - 1].ring.Valid() && states[|states| - 1].ring.Items() == [b2]
  {
    hide Ring.Items;
    var d := c1 + c2 + 1;
    states, steps := [s], [];
    assert Run(states, steps);
    hide Run;
    states, steps := GoesToWait(states, steps, c1);
    states, steps := GoesToWait(states, steps, c2);
    TwoOutside(s.all, b1, b2);
    states, steps := Queues(states, steps, d, b1);
    PushTwo(s.ring, b1, b2);
    states, steps := Queues(states, steps, d, b2);
    states, steps := WakesAndTakes(states, steps, c1);
  }

  lemma TwoOutside(all: set<Buf>, b1: Buf, b2: Buf)
    requires b1 in all && b2 in all && b1 != b2
    ensures |all| >= 2
  {
    assert |all - {b1} - {b2}| == |all| - 2;
  }

  lemma PushTwo(r: Ring<Buf>, b1: Buf, b2: Buf)
    requires r.Valid() && r.number == 0 && r.maxElem >= 3
    ensures var r2 := r.Push(b1).Push(b2);
      r.Push(b1).Valid() && r2.Valid() && r2.number == 2 && r2.Pop().1.Valid() && r2.Pop().1.Items() == [b2]
      && r2.Pop().1.number == 1
  {
    r.PushAppends(b1);
    r.Push(b1).PushAppends(b2);
    var r2 := r.Push(b1).Push(b2);
    r2.PopTakesOldest();
    assert r.Items() == [];
    assert r2.Items() == [b1, b2];
    assert r2.Items()[1..] == r2.Pop().1.Items();
  }

  /** No consumer ever gets stuck, in any run, if and only if at most one thread dequeues. */
  lemma NoLostWakeupIffOneConsumer(s: State)
    requires Initial(s)
    ensures (forall states: seq<State>, steps: seq<Step>, i: nat, c: Tid ::
               Run(states, steps) && states[0] == s && i < |states| ==> !Stuck(states[i], c))
       <==> |s.consumers| <= 1
  {
    if |s.consumers| <= 1 {
      forall states: seq<State>, steps: seq<Step>, i: nat, c: Tid
        | Run(states, steps) && states[0] == s && i < |states|
        ensures !Stuck(states[i], c)
      {
        OneConsumerNeverMisses(states, steps, i);
      }
    } else {
      var c1 :| c1 in s.consumers;
      assert |s.consumers - {c1}| > 0;
      var c2 :| c2 in s.consumers - {c1};
      var states, steps := StuckAfterDecommit(s, c1, c2);
      var last: nat := |states| - 1;
      assert Run(states, steps) && states[0] == s && last < |states| && Stuck(states[last], c2);
    }
  }
}
