/** The bounded queue between the event loop and the writer thread, at the grain
    of single lock, wait, signal and queue operations. */
module EventQueue {
  import BatchWriter

  const MAX_QUEUE_EVENTS: nat := 200000

  datatype Owner = Nobody | Producer | Writer

  /** Where the event loop is. Waiting is inside a condition wait, without the
      lock; woken must get the lock back. */
  datatype ProducerAt<E> =
    | Idle
    | WantsPeek | Peeking              // reading the error counters
    | WantsPush(ev: E) | Checking(ev: E) | Waiting(ev: E) | Woken(ev: E) | Pushing(ev: E) | Signalling | Leaving
    | WantsStop | Stopping | WakingWriter | WakingSelf | LeavingStop | Joining | Done

  datatype WriterAt =
    | Wants | Examining | Asleep | Roused | Swapping | Announcing | Releasing
    | Applying | WantsResult | Recording  // one event at a time; its outcome is counted under the lock
    | WantsSize | Publishing              // the database size for progress reports
    | LeavingLoop | Committing | Finished

  datatype System<E> = System(
    queue: seq<E>, local: seq<E>, applied: seq<E>, enqueued: seq<E>,
    lock: Owner, stop: bool, producer: ProducerAt<E>, writer: WriterAt)

  function Initial<E>(): System<E> {
    System([], [], [], [], Nobody, false, Idle, Wants)
  }

  ghost predicate ProducerStep<E(!new)>(s: System<E>, t: System<E>) {
    match s.producer
    case Idle =>
      t == s.(producer := WantsPeek) || t == s.(producer := WantsStop)
      || exists ev :: t == s.(producer := WantsPush(ev))
    case WantsPeek => s.lock == Nobody && t == s.(lock := Producer, producer := Peeking)
    case Peeking => t == s.(lock := Nobody, producer := Idle)
    case WantsPush(ev) => s.lock == Nobody && t == s.(lock := Producer, producer := Checking(ev))
    case Checking(ev) =>
      if |s.queue| >= MAX_QUEUE_EVENTS && !s.stop then t == s.(lock := Nobody, producer := Waiting(ev))
      else t == s.(producer := Pushing(ev))
    case Waiting(_) => false
    case Woken(ev) => s.lock == Nobody && t == s.(lock := Producer, producer := Checking(ev))
    case Pushing(ev) => t == s.(queue := s.queue + [ev], enqueued := s.enqueued + [ev], producer := Signalling)
    case Signalling => t == Rouse(s).(producer := Leaving)
    case Leaving => t == s.(lock := Nobody, producer := Idle)
    case WantsStop => s.lock == Nobody && t == s.(lock := Producer, producer := Stopping)
    case Stopping => t == s.(stop := true, producer := WakingWriter)
    case WakingWriter => t == Rouse(s).(producer := WakingSelf)
    case WakingSelf => t == s.(producer := LeavingStop)
    case LeavingStop => t == s.(lock := Nobody, producer := Joining)
    case Joining => s.writer == Finished && t == s.(producer := Done)
    case Done => false
  }

  function Rouse<E>(s: System<E>): System<E> {
    if s.writer == Asleep then s.(writer := Roused) else s
  }

  function WakeProducer<E>(s: System<E>): System<E> {
    if s.producer.Waiting? then s.(producer := Woken(s.producer.ev)) else s
  }

  ghost predicate WriterStep<E(!new)>(s: System<E>, t: System<E>) {
    match s.writer
    case Wants => s.lock == Nobody && t == s.(lock := Writer, writer := Examining)
    case Examining =>
      if s.queue == [] && !s.stop then t == s.(lock := Nobody, writer := Asleep)
      else if s.queue == [] then t == s.(writer := LeavingLoop)
      else t == s.(writer := Swapping)
    case Asleep => false
    case Roused => s.lock == Nobody && t == s.(lock := Writer, writer := Examining)
    case Swapping => t == s.(queue := s.local, local := s.queue, writer := Announcing)
    case Announcing => t == WakeProducer(s).(writer := Releasing)
    case Releasing => t == s.(lock := Nobody, writer := Applying)
    case Applying =>
      if s.local == [] then t == s.(writer := Wants) || t == s.(writer := WantsSize)
      else t == s.(writer := WantsResult) || t == ApplyNext(s)
    case WantsResult => s.lock == Nobody && t == s.(lock := Writer, writer := Recording)
    case Recording => s.local != [] && t == ApplyNext(s.(lock := Nobody))
    case WantsSize => s.lock == Nobody && t == s.(lock := Writer, writer := Publishing)
    case Publishing => t == s.(lock := Nobody, writer := Wants)
    case LeavingLoop => t == s.(lock := Nobody, writer := Committing)
    case Committing => t == s.(writer := Finished)
    case Finished => false
  }

  function ApplyNext<E>(s: System<E>): System<E>
    requires s.local != []
  {
    s.(applied := s.applied + [s.local[0]], local := s.local[1..], writer := Applying)
  }

  /** A condition wait may also return without being signalled. */
  ghost predicate SpuriousWake<E(!new)>(s: System<E>, t: System<E>) {
    (s.producer.Waiting? && t == WakeProducer(s)) || (s.writer == Asleep && t == Rouse(s))
  }

  ghost predicate Next<E(!new)>(s: System<E>, t: System<E>) {
    ProducerStep(s, t) || WriterStep(s, t) || SpuriousWake(s, t)
  }

  ghost predicate IsRun<E(!new)>(states: seq<System<E>>) {
    && |states| > 0 && states[0] == Initial()
    && (forall i :: 0 <= i < |states| - 1 ==> Next(states[i], states[i + 1]))
  }

  // ---- What every step keeps ----

  predicate ProducerHolds<E>(p: ProducerAt<E>) {
    p.Peeking? || p.Checking? || p.Pushing? || p.Signalling? || p.Leaving?
    || p.Stopping? || p.WakingWriter? || p.WakingSelf? || p.LeavingStop?
  }

  predicate WriterHolds(w: WriterAt) {
    w.Examining? || w.Swapping? || w.Announcing? || w.Releasing? || w.Recording? || w.Publishing? || w.LeavingLoop?
  }

  predicate AfterStop<E>(p: ProducerAt<E>) {
    p.WakingWriter? || p.WakingSelf? || p.LeavingStop? || p.Joining? || p.Done?
  }

  predicate Batched(w: WriterAt) {
    w.Announcing? || w.Releasing? || w.Applying? || w.WantsResult? || w.Recording?
  }

  /** Nothing is lost, duplicated or reordered. */
  predicate Conserved<E(==)>(s: System<E>) {
    s.applied + s.local + s.queue == s.enqueued
  }

  /** Mutual exclusion, the bound, and no lost wake-up. */
  predicate Coordinated<E(==)>(s: System<E>) {
    && |s.queue| <= MAX_QUEUE_EVENTS
    && (s.producer.Pushing? ==> |s.queue| < MAX_QUEUE_EVENTS)
    && (s.lock == Producer <==> ProducerHolds(s.producer))
    && (s.lock == Writer <==> WriterHolds(s.writer))
    && (s.stop <==> AfterStop(s.producer))
    && (s.writer.Asleep? ==> (|s.queue| == 0 || s.producer.Signalling?) && (s.stop ==> s.producer.WakingWriter?))
    && (s.producer.Waiting? ==> |s.queue| == MAX_QUEUE_EVENTS || s.writer.Announcing?)
    // the local batch lives between two swaps
    && (!Batched(s.writer) ==> |s.local| == 0)
    && (Batched(s.writer) && !s.writer.Applying? ==> |s.local| > 0)
    && (s.writer.Swapping? ==> |s.queue| > 0)
    && (s.writer.LeavingLoop? || s.writer.Committing? || s.writer.Finished? ==> s.stop && |s.queue| == 0)
    && (s.producer.Done? ==> s.writer.Finished?)
  }

  predicate Invariant<E(==)>(s: System<E>) {
    Conserved(s) && Coordinated(s)
  }

  lemma ProducerConserves<E(!new)>(s: System<E>, t: System<E>)
    requires Conserved(s) && ProducerStep(s, t)
    ensures Conserved(t)
  {
    if s.producer.Pushing? {
      var ev := s.producer.ev;
      assert s.applied + s.local + (s.queue + [ev]) == s.enqueued + [ev];
    }
  }

  lemma WriterConserves<E(!new)>(s: System<E>, t: System<E>)
    requires Conserved(s) && Coordinated(s) && WriterStep(s, t)
    ensures Conserved(t)
  {
    if s.writer.Swapping? {
      assert s.applied + s.queue + [] == s.applied + [] + s.queue;
    }
    if s.local != [] {
      assert s.applied + [s.local[0]] + s.local[1..] == s.applied + s.local;
    }
  }

  lemma EnqueueCoordinates<E(!new)>(s: System<E>, t: System<E>)
    requires Coordinated(s) && ProducerStep(s, t)
    requires s.producer.Idle? || s.producer.WantsPeek? || s.producer.Peeking? || s.producer.WantsPush?
      || s.producer.Checking? || s.producer.Woken? || s.producer.Pushing? || s.producer.Signalling? || s.producer.Leaving?
    ensures Coordinated(t)
  {
  }

  lemma StopCoordinates<E(!new)>(s: System<E>, t: System<E>)
    requires Coordinated(s) && ProducerStep(s, t)
    requires s.producer.WantsStop? || s.producer.Stopping? || s.producer.WakingWriter? || s.producer.WakingSelf?
      || s.producer.LeavingStop? || s.producer.Joining?
    ensures Coordinated(t)
  {
  }

  lemma ProducerCoordinates<E(!new)>(s: System<E>, t: System<E>)
    requires Coordinated(s) && ProducerStep(s, t)
    ensures Coordinated(t)
  {
    assert !s.producer.Waiting? && !s.producer.Done?;
    hide Coordinated, ProducerStep;
    if s.producer.WantsStop? || s.producer.Stopping? || s.producer.WakingWriter? || s.producer.WakingSelf?
      || s.producer.LeavingStop? || s.producer.Joining? {
      StopCoordinates(s, t);
    } else {
      EnqueueCoordinates(s, t);
    }
  }

  lemma FetchCoordinates<E(!new)>(s: System<E>, t: System<E>)
    requires Coordinated(s) && WriterStep(s, t) && !Batched(s.writer)
    ensures Coordinated(t)
  {
  }

  lemma ApplyCoordinates<E(!new)>(s: System<E>, t: System<E>)
    requires Coordinated(s) && WriterStep(s, t) && Batched(s.writer)
    ensures Coordinated(t)
  {
  }

  lemma WriterCoordinates<E(!new)>(s: System<E>, t: System<E>)
    requires Coordinated(s) && WriterStep(s, t)
    ensures Coordinated(t)
  {
    hide Coordinated, WriterStep;
    if Batched(s.writer) {
      ApplyCoordinates(s, t);
    } else {
      FetchCoordinates(s, t);
    }
  }

  lemma WakeKeeps<E(!new)>(s: System<E>, t: System<E>)
    requires Invariant(s) && SpuriousWake(s, t)
    ensures Invariant(t)
  {
  }

  lemma StepKeeps<E(!new)>(s: System<E>, t: System<E>)
    requires Invariant(s) && Next(s, t)
    ensures Invariant(t)
  {
    hide ProducerStep, WriterStep, SpuriousWake, Conserved, Coordinated;
    if ProducerStep(s, t) {
      ProducerConserves(s, t);
      ProducerCoordinates(s, t);
    } else if WriterStep(s, t) {
      WriterConserves(s, t);
      WriterCoordinates(s, t);
    } else {
      WakeKeeps(s, t);
    }
  }

  /** In every state of every interleaving, what has been applied, what the writer
      still holds and what is queued are together exactly what was enqueued. */
  lemma {:induction false} RunKeepsInvariant<E(!new)>(states: seq<System<E>>, i: nat)
    requires IsRun(states) && i < |states|
    ensures Invariant(states[i])
  {
    if i > 0 {
      RunKeepsInvariant(states, i - 1);
      assert Next(states[i - 1], states[i - 1 + 1]);
      StepKeeps(states[i - 1], states[i]);
    } else {
      assert Invariant<E>(Initial());
    }
  }

  // ---- No deadlock, and stopping ends ----

  /** In every state of every interleaving: applied, held and queued events are
      the enqueued ones in order, the queue keeps its bound, at most one thread
      is inside the lock, and the two are never both in a condition wait. */
  lemma RunIsSafe<E(!new)>(states: seq<System<E>>, i: nat)
    requires IsRun(states) && i < |states|
    ensures var s := states[i];
      && s.applied + s.local + s.queue == s.enqueued
      && |s.queue| <= 200000
      && !(ProducerHolds(s.producer) && WriterHolds(s.writer))
      && !(s.producer.Waiting? && s.writer.Asleep?)
  {
    RunKeepsInvariant(states, i);
  }

  lemma WriterCanStep<E(!new)>(s: System<E>) returns (t: System<E>)
    requires Coordinated(s) && s.lock != Producer && !s.writer.Asleep? && !s.writer.Finished?
    ensures WriterStep(s, t)
  {
    match s.writer
    case Wants => t := s.(lock := Writer, writer := Examining);
    case Examining =>
      if s.queue == [] && !s.stop {
        t := s.(lock := Nobody, writer := Asleep);
      } else if s.queue == [] {
        t := s.(writer := LeavingLoop);
      } else {
        t := s.(writer := Swapping);
      }
    case Roused => t := s.(lock := Writer, writer := Examining);
    case Swapping => t := s.(queue := s.local, local := s.queue, writer := Announcing);
    case Announcing => t := WakeProducer(s).(writer := Releasing);
    case Releasing => t := s.(lock := Nobody, writer := Applying);
    case Applying =>
      if s.local == [] {
        t := s.(writer := Wants);
      } else {
        t := ApplyNext(s);
      }
    case WantsResult => t := s.(lock := Writer, writer := Recording);
    case Recording => t := ApplyNext(s.(lock := Nobody));
    case WantsSize => t := s.(lock := Writer, writer := Publishing);
    case Publishing => t := s.(lock := Nobody, writer := Wants);
    case LeavingLoop => t := s.(lock := Nobody, writer := Committing);
    case Committing => t := s.(writer := Finished);
  }

  lemma ProducerCanStep<E(!new)>(s: System<E>) returns (t: System<E>)
    requires Coordinated(s) && s.lock != Writer && !s.producer.Waiting? && !s.producer.Done?
    requires s.producer.Joining? ==> s.writer.Finished?
    ensures ProducerStep(s, t)
  {
    match s.producer
    case Idle => t := s.(producer := WantsPeek);
    case WantsPeek => t := s.(lock := Producer, producer := Peeking);
    case Peeking => t := s.(lock := Nobody, producer := Idle);
    case WantsPush(ev) => t := s.(lock := Producer, producer := Checking(ev));
    case Checking(ev) =>
      if |s.queue| >= MAX_QUEUE_EVENTS && !s.stop {
        t := s.(lock := Nobody, producer := Waiting(ev));
      } else {
        t := s.(producer := Pushing(ev));
      }
    case Woken(ev) => t := s.(lock := Producer, producer := Checking(ev));
    case Pushing(ev) => t := s.(queue := s.queue + [ev], enqueued := s.enqueued + [ev], producer := Signalling);
    case Signalling => t := Rouse(s).(producer := Leaving);
    case Leaving => t := s.(lock := Nobody, producer := Idle);
    case WantsStop => t := s.(lock := Producer, producer := Stopping);
    case Stopping => t := s.(stop := true, producer := WakingWriter);
    case WakingWriter => t := Rouse(s).(producer := WakingSelf);
    case WakingSelf => t := s.(producer := LeavingStop);
    case LeavingStop => t := s.(lock := Nobody, producer := Joining);
    case Joining => t := s.(producer := Done);
  }

  /** Unless everything is finished, some thread can take a step of its own,
      without the help of a spurious wake-up. */
  lemma SomeoneCanStep<E(!new)>(s: System<E>) returns (t: System<E>)
    requires Invariant(s) && !s.producer.Done?
    ensures ProducerStep(s, t) || WriterStep(s, t)
  {
    hide ProducerStep, WriterStep;
    if s.lock == Writer || s.producer.Waiting? || (s.producer.Joining? && !s.writer.Finished?) {
      t := WriterCanStep(s);
    } else {
      t := ProducerCanStep(s);
    }
  }

  /** How far the writer is from finishing once a stop was requested. */
  function StepsLeft<E>(s: System<E>): nat {
    14 * (|s.queue| + |s.local|) +
    match s.writer
    case Applying => if s.local == [] then 13 else 5
    case WantsSize => 12
    case Publishing => 11
    case Wants => 10
    case Roused => 10
    case Asleep => 10
    case Examining => 9
    case Swapping => 8
    case Announcing => 7
    case Releasing => 6
    case WantsResult => 4
    case Recording => 3
    case LeavingLoop => 2
    case Committing => 1
    case Finished => 0
  }

  /** While the event loop waits for the writer to end, every step is the writer's
      and brings the end nearer. */
  lemma StopAdvances<E(!new)>(s: System<E>, t: System<E>)
    requires Invariant(s) && s.producer.Joining? && Next(s, t)
    ensures t.producer.Done? || (t.producer.Joining? && StepsLeft(t) < StepsLeft(s))
  {
  }

  lemma DoneIsFinal<E(!new)>(s: System<E>, t: System<E>)
    requires Invariant(s) && s.producer.Done?
    ensures !Next(s, t)
  {
  }

  /** From the moment it joins, the event loop is done after a bounded number of
      steps, whatever the interleaving. */
  lemma {:induction false} JoinReturns<E(!new)>(states: seq<System<E>>, i: nat, j: nat)
    requires IsRun(states) && i <= j < |states| && states[i].producer.Joining?
    ensures states[j].producer.Done? ||
      (states[j].producer.Joining? && StepsLeft(states[j]) + (j - i) <= StepsLeft(states[i]))
    decreases j
  {
    hide Invariant, Next, StepsLeft;
    if i < j {
      JoinReturns(states, i, j - 1);
      RunKeepsInvariant(states, j - 1);
      assert Next(states[j - 1], states[j - 1 + 1]);
      if states[j - 1].producer.Joining? {
        StopAdvances(states[j - 1], states[j]);
      } else {
        DoneIsFinal(states[j - 1], states[j]);
      }
    }
  }

  // ---- What was offered ----

  /** The events the loop set out to enqueue, in order. */
  ghost function Offered<E>(states: seq<System<E>>): seq<E> {
    if |states| <= 1 then []
    else
      var p, q := states[|states| - 2].producer, states[|states| - 1].producer;
      Offered(states[..|states| - 1]) + if p.Idle? && q.WantsPush? then [q.ev] else []
  }

  /** The event on its way into the queue. */
  function InHand<E>(p: ProducerAt<E>): seq<E> {
    if p.WantsPush? || p.Checking? || p.Waiting? || p.Woken? || p.Pushing? then [p.ev] else []
  }

  lemma OfferStep<E(!new)>(s: System<E>, t: System<E>)
    requires Next(s, t)
    ensures t.enqueued + InHand(t.producer) ==
      s.enqueued + InHand(s.producer) + if s.producer.Idle? && t.producer.WantsPush? then [t.producer.ev] else []
  {
    assert s.enqueued + [] == s.enqueued && t.enqueued + [] == t.enqueued;
  }

  /** In every state of every interleaving: what has been applied, what the writer
      holds, what is queued and what is on its way into the queue are together
      exactly the events offered so far, in order. */
  lemma {:induction false} OfferedIsKept<E(!new)>(states: seq<System<E>>)
    requires IsRun(states)
    ensures var s := states[|states| - 1];
      s.applied + s.local + s.queue + InHand(s.producer) == Offered(states)
  {
    var n := |states| - 1;
    RunKeepsInvariant(states, n);
    if n > 0 {
      var front := states[..n];
      assert IsRun(front) by {
        assert forall i :: 0 <= i < n - 1 ==> Next(states[i], states[i + 1]);
      }
      OfferedIsKept(front);
      RunKeepsInvariant(states, n - 1);
      assert Next(states[n - 1], states[n - 1 + 1]);
      hide Next, IsRun;
      OfferStep(states[n - 1], states[n]);
    }
  }

  /** Once the event loop is done, the writer has applied exactly what was
      offered, so the commits are those of writing every event at once. */
  lemma DoneEqualsSynchronous<E(!new)>(states: seq<System<E>>, i: nat, ok: nat -> bool)
    requires IsRun(states) && i < |states| && states[i].producer.Done?
    ensures states[i].applied == states[i].enqueued == Offered(states[..i + 1])
    ensures var w := BatchWriter.Closed(BatchWriter.Run(states[i].applied, ok));
      && w == BatchWriter.Closed(BatchWriter.Run(states[i].enqueued, ok))
      && BatchWriter.Flat(w.committed) == BatchWriter.Written(states[i].enqueued, ok)
      && (forall k :: 0 <= k < |w.committed| - 1 ==> |w.committed[k]| == 5000)
  {
    RunKeepsInvariant(states, i);
    assert states[i].applied + [] + [] == states[i].applied;
    OfferedIsKept(states[..i + 1]);
    assert states[i].applied + [] + [] + [] == states[i].applied;
    BatchWriter.ClosedCommits(states[i].enqueued, ok);
  }
}
