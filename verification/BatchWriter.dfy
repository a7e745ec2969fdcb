/** Writing events to the database in transactions of a fixed size. */
module BatchWriter {

  const BATCH_SIZE: nat := 5000
  const WAL_CHECKPOINT_INTERVAL: nat := 50000
  const FATAL_ERRORS: nat := 50

  /** What has reached the database: the events of each commit, and those of the
      transaction that is still open. */
  datatype Progress<E> = Progress(
    inTransaction: bool, eventCount: nat, consecutiveErrors: nat, errors: nat, totalEvents: nat,
    committed: seq<seq<E>>, open: seq<E>, checkpoints: nat)

  function Start<E>(): Progress<E> {
    Progress(false, 0, 0, 0, 0, [], [], 0)
  }

  /** One event handed to the writer; `ok` is whether the statement succeeded. */
  function Applied<E>(w: Progress<E>, ev: E, ok: bool): Progress<E> {
    if w.consecutiveErrors >= FATAL_ERRORS then w
    else
      var v := w.(inTransaction := true, open := w.open + [ev], eventCount := w.eventCount + 1,
                  consecutiveErrors := if ok then 0 else w.consecutiveErrors + 1,
                  errors := if ok then w.errors else w.errors + 1);
      if v.eventCount < BATCH_SIZE then v
      else
        var total := v.totalEvents + v.eventCount;
        v.(inTransaction := false, eventCount := 0, totalEvents := total, committed := v.committed + [v.open],
           open := [], checkpoints := v.checkpoints + if total % WAL_CHECKPOINT_INTERVAL == 0 then 1 else 0)
  }

  function Closed<E>(w: Progress<E>): Progress<E> {
    if w.inTransaction then w.(inTransaction := false, committed := w.committed + [w.open], open := []) else w
  }

  class Writer<E> {
    var inTransaction: bool
    var eventCount: nat
    var consecutiveErrors: nat
    var writeErrors: nat
    var totalEventCount: nat
    var committed: seq<seq<E>>
    var open: seq<E>
    var checkpoints: nat

    constructor ()
      ensures Current() == Start()
    {
      inTransaction, eventCount, consecutiveErrors, writeErrors, totalEventCount := false, 0, 0, 0, 0;
      committed, open, checkpoints := [], [], 0;
    }

    function Current(): Progress<E>
      reads this
    {
      Progress(inTransaction, eventCount, consecutiveErrors, writeErrors, totalEventCount, committed, open, checkpoints)
    }

    method CommitTransaction()
      modifies `committed, `open
      ensures committed == old(committed) + [old(open)] && open == []
    {
      committed := committed + [open];
      open := [];
    }

    method CheckWriteResult(ok: bool)
      modifies `consecutiveErrors, `writeErrors
      ensures consecutiveErrors == if ok then 0 else old(consecutiveErrors) + 1
      ensures writeErrors == if ok then old(writeErrors) else old(writeErrors) + 1
    {
      if ok {
        consecutiveErrors := 0;
      } else {
        writeErrors := writeErrors + 1;
        consecutiveErrors := consecutiveErrors + 1;
      }
    }

    method MaybeCommit()
      modifies this
      ensures eventCount < BATCH_SIZE
      ensures old(eventCount) < BATCH_SIZE ==> Current() == old(Current())
      ensures old(eventCount) >= BATCH_SIZE ==>
        var total := old(totalEventCount) + old(eventCount);
        Current() == old(Current()).(inTransaction := false, eventCount := 0, totalEvents := total,
          committed := old(committed) + [old(open)], open := [],
          checkpoints := old(checkpoints) + if total % WAL_CHECKPOINT_INTERVAL == 0 then 1 else 0)
    {
      if eventCount >= BATCH_SIZE {
        CommitTransaction();
        inTransaction := false;
        totalEventCount := totalEventCount + eventCount;
        eventCount := 0;
        if totalEventCount % WAL_CHECKPOINT_INTERVAL == 0 {
          checkpoints := checkpoints + 1;
        }
      }
    }

    method ApplyEvent(ev: E, ok: bool)
      modifies this
      ensures Current() == Applied(old(Current()), ev, ok)
    {
      if consecutiveErrors >= FATAL_ERRORS {
        return;
      }
      if !inTransaction {
        inTransaction := true;
      }
      open := open + [ev];
      CheckWriteResult(ok);
      eventCount := eventCount + 1;
      MaybeCommit();
    }

    /** The last commit, when the writer stops or the session is finalized. */
    method Close()
      modifies this
      ensures Current() == Closed(old(Current()))
    {
      if inTransaction {
        CommitTransaction();
        inTransaction := false;
      }
    }
  }

  // ---- Whole sequences ----

  /** `ok(i)` is the outcome of the i-th event's statement. */
  function Run<E>(evs: seq<E>, ok: nat -> bool): Progress<E> {
    if evs == [] then Start()
    else Applied(Run(evs[..|evs| - 1], ok), evs[|evs| - 1], ok(|evs| - 1))
  }

  /** How many failures in a row precede position `n`. */
  function FailuresBefore(ok: nat -> bool, n: nat): nat {
    if n == 0 || ok(n - 1) then 0 else 1 + FailuresBefore(ok, n - 1)
  }

  /** Fifty failures in a row end somewhere up to position `n`. */
  predicate GivesUpBy(ok: nat -> bool, n: nat) {
    FailuresBefore(ok, n) >= 50 || (n > 0 && GivesUpBy(ok, n - 1))
  }

  /** The events written before giving up: all, or those up to the fiftieth failure. */
  function Written<E>(evs: seq<E>, ok: nat -> bool): seq<E> {
    if evs == [] then []
    else
      var front := evs[..|evs| - 1];
      if GivesUpBy(ok, |front|) then Written(front, ok) else evs
  }

  /** The failures among the first `n` outcomes. */
  function Failures(ok: nat -> bool, n: nat): nat {
    if n == 0 then 0 else Failures(ok, n - 1) + if ok(n - 1) then 0 else 1
  }

  /** Every failure of an event written is counted. */
  lemma {:induction false} ErrorsCount<E>(evs: seq<E>, ok: nat -> bool)
    ensures Run(evs, ok).errors == Failures(ok, |Written(evs, ok)|)
  {
    if evs != [] {
      ErrorsCount(evs[..|evs| - 1], ok);
      GivingUp(evs[..|evs| - 1], ok);
      if !GivesUpBy(ok, |evs| - 1) {
        WrittenAll(evs[..|evs| - 1], ok);
      }
    }
  }

  function Flat<E>(batches: seq<seq<E>>): seq<E> {
    if batches == [] then [] else Flat(batches[..|batches| - 1]) + batches[|batches| - 1]
  }

  lemma FlatSnoc<E>(batches: seq<seq<E>>, last: seq<E>)
    ensures Flat(batches + [last]) == Flat(batches) + last
  {
    assert (batches + [last])[..|batches|] == batches;
  }

  /** The bookkeeping agrees with what was written. */
  predicate Consistent<E>(w: Progress<E>) {
    && w.eventCount == |w.open| < 5000
    && (w.inTransaction <==> w.open != [])
    && (forall i :: 0 <= i < |w.committed| ==> |w.committed[i]| == 5000)
    && w.totalEvents == 5000 * |w.committed|
    && w.checkpoints == |w.committed| / 10
  }

  lemma AppliedConsistent<E>(w: Progress<E>, ev: E, ok: bool)
    requires Consistent(w)
    ensures Consistent(Applied(w, ev, ok))
    ensures var v := Applied(w, ev, ok);
      Flat(v.committed) + v.open == Flat(w.committed) + w.open + if w.consecutiveErrors >= FATAL_ERRORS then [] else [ev]
  {
    var n := |w.committed|;
    FlatSnoc(w.committed, w.open + [ev]);
    assert Flat(w.committed) + (w.open + [ev]) == Flat(w.committed) + w.open + [ev];
    assert BATCH_SIZE * (n + 1) % WAL_CHECKPOINT_INTERVAL == 0 <==> (n + 1) % 10 == 0;
    assert (n + 1) / 10 == n / 10 + if (n + 1) % 10 == 0 then 1 else 0;
  }

  /** The `k` statements before position `n` all failed. */
  ghost predicate FailedLast(ok: nat -> bool, n: nat, k: nat) {
    k <= n && forall i :: n - k <= i < n ==> !ok(i)
  }

  lemma {:induction false} FailuresInARow(ok: nat -> bool, n: nat, k: nat)
    ensures FailuresBefore(ok, n) >= k <==> FailedLast(ok, n, k)
  {
    if k > 0 && n > 0 {
      FailuresInARow(ok, n - 1, k - 1);
      assert FailedLast(ok, n, k) <==> FailedLast(ok, n - 1, k - 1) && !ok(n - 1);
    }
  }

  /** Giving up means that somewhere fifty consecutive statements failed. */
  lemma {:induction false} FiftyInARow(ok: nat -> bool, n: nat)
    ensures GivesUpBy(ok, n) <==> exists m: nat :: m <= n && FailedLast(ok, m, 50)
  {
    FailuresInARow(ok, n, 50);
    if n > 0 {
      FiftyInARow(ok, n - 1);
    }
  }

  /** The events written are those before giving up. */
  lemma {:induction false} WrittenMeans<E>(evs: seq<E>, ok: nat -> bool)
    ensures Written(evs, ok) <= evs
    ensures forall k: nat :: k < |evs| ==> (k < |Written(evs, ok)| <==> !GivesUpBy(ok, k))
  {
    if evs != [] {
      var n := |evs| - 1;
      WrittenMeans(evs[..n], ok);
      if !GivesUpBy(ok, n) {
        EarlierNeither(ok, n);
      }
    }
  }

  lemma {:induction false} EarlierNeither(ok: nat -> bool, n: nat)
    requires !GivesUpBy(ok, n)
    ensures forall k: nat :: k <= n ==> !GivesUpBy(ok, k)
  {
    if n > 0 {
      EarlierNeither(ok, n - 1);
    }
  }

  lemma {:induction false} GivingUp<E>(evs: seq<E>, ok: nat -> bool)
    ensures GivesUpBy(ok, |evs|) <==> Run(evs, ok).consecutiveErrors >= 50
    ensures !GivesUpBy(ok, |evs|) ==> Run(evs, ok).consecutiveErrors == FailuresBefore(ok, |evs|)
  {
    if evs != [] {
      GivingUp(evs[..|evs| - 1], ok);
    }
  }

  /** Every commit so far covers exactly one full batch, a checkpoint follows
      every tenth, and commits and open transaction together are the events
      written, in order. */
  lemma {:induction false} RunWrites<E>(evs: seq<E>, ok: nat -> bool)
    ensures Consistent(Run(evs, ok))
    ensures Flat(Run(evs, ok).committed) + Run(evs, ok).open == Written(evs, ok)
  {
    if evs != [] {
      var front, last := evs[..|evs| - 1], evs[|evs| - 1];
      RunWrites(front, ok);
      assert front + [last] == evs;
      RunSnoc(front, last, ok);
      WrittenSnoc(front, last, ok);
      hide Consistent, Applied, Flat, Run, Written;
      AppliedConsistent(Run(front, ok), last, ok(|front|));
      GivingUp(front, ok);
    }
  }

  lemma RunSnoc<E>(evs: seq<E>, ev: E, ok: nat -> bool)
    ensures Run(evs + [ev], ok) == Applied(Run(evs, ok), ev, ok(|evs|))
  {
    assert (evs + [ev])[..|evs|] == evs;
  }

  lemma WrittenSnoc<E>(evs: seq<E>, ev: E, ok: nat -> bool)
    ensures Written(evs + [ev], ok) == Written(evs, ok) + if GivesUpBy(ok, |evs|) then [] else [ev]
  {
    assert (evs + [ev])[..|evs|] == evs;
    assert Written(evs, ok) + [] == Written(evs, ok);
    if !GivesUpBy(ok, |evs|) {
      WrittenAll(evs, ok);
    }
  }

  lemma {:induction false} WrittenAll<E>(evs: seq<E>, ok: nat -> bool)
    requires !GivesUpBy(ok, |evs|)
    ensures Written(evs, ok) == evs
  {
    if evs != [] {
      assert !GivesUpBy(ok, |evs| - 1);
    }
  }

  /** After closing, the commits are the events written; all but the last hold
      exactly 5000 events. */
  lemma ClosedCommits<E>(evs: seq<E>, ok: nat -> bool)
    ensures var w := Closed(Run(evs, ok));
      && !w.inTransaction && w.open == []
      && Flat(w.committed) == Written(evs, ok)
      && (forall i :: 0 <= i < |w.committed| - 1 ==> |w.committed[i]| == 5000)
      && (!GivesUpBy(ok, |evs|) ==> Flat(w.committed) == evs)
  {
    RunWrites(evs, ok);
    var w := Run(evs, ok);
    FlatSnoc(w.committed, w.open);
    if !GivesUpBy(ok, |evs|) {
      WrittenAll(evs, ok);
    }
  }
}
