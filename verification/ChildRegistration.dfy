/** Registering new children: the parent's fork event and the child's initial
    SIGSTOP may be reported in either order. */
module ChildRegistration {
  import opened Processes

  datatype Signal = SigStop | OtherSignal(number: int)

  /** A report from waiting for any tracee. Event stops carry no signal for the tracee. */
  datatype Report =
    | ForkEvent(pid: Pid, child: Pid)
    | EventStop(pid: Pid)               // exec, exit, seccomp and system call stops, plain SIGTRAP
    | SignalStop(pid: Pid, sig: Signal)
    | Died(pid: Pid)

  datatype Entry = Entry(ppid: Pid, traced: bool)

  datatype Action =
    | Continue(pid: Pid)
    | Swallow(pid: Pid)
    | Reinject(pid: Pid, sig: Signal)
    | StartProcess(child: Pid, parent: Pid)
    | EndProcess(pid: Pid)

  type Table = map<Pid, Entry>

  // ---- The handler ----

  function Known(procs: Table, pid: Pid): Table {
    if pid in procs then procs else procs[pid := Entry(0, false)]
  }

  function AfterFork(procs: Table, pid: Pid, child: Pid): Table {
    if child == 0 then procs
    else if child in procs && procs[child].ppid == 0 then procs[child := procs[child].(ppid := pid)]
    else procs[child := Entry(pid, false)]
  }

  function AfterReport(procs: Table, r: Report): Table {
    var known := Known(procs, r.pid);
    match r
    case ForkEvent(pid, child) => AfterFork(known, pid, child)
    case EventStop(_) => known
    case SignalStop(pid, sig) => if sig.SigStop? && !known[pid].traced then known[pid := known[pid].(traced := true)] else known
    case Died(pid) => known - {pid}
  }

  function ActionsFor(procs: Table, r: Report): seq<Action> {
    match r
    case ForkEvent(pid, child) => (if child == 0 then [] else [StartProcess(child, pid)]) + [Continue(pid)]
    case EventStop(pid) => [Continue(pid)]
    case SignalStop(pid, sig) =>
      if sig.SigStop? && !Known(procs, pid)[pid].traced then [Swallow(pid)] else [Reinject(pid, sig)]
    case Died(pid) => [EndProcess(pid)]
  }

  class Backend {
    var procs: Table
    var log: seq<Action>

    /** The root is registered after its SIGSTOP was consumed, but not as traced. */
    constructor (root: Pid, tracer: Pid)
      ensures procs == map[root := Entry(tracer, false)] && log == [StartProcess(root, tracer), Continue(root)]
    {
      procs := map[root := Entry(tracer, false)];
      log := [StartProcess(root, tracer), Continue(root)];
    }

    method HandleForkEvent(pid: Pid, child: Pid)
      modifies this
      ensures procs == AfterFork(old(procs), pid, child)
      ensures log == old(log) + if child == 0 then [] else [StartProcess(child, pid)]
    {
      if child == 0 {
        return;
      }
      var present := child in procs;
      if present && procs[child].ppid != 0 {
        // leftovers of an earlier owner of the pid
        procs := procs - {child};
        present := false;
      }
      if present {
        procs := procs[child := procs[child].(ppid := pid)];
      } else {
        procs := procs[child := Entry(pid, false)];
      }
      log := log + [StartProcess(child, pid)];
    }

    method HandleReport(r: Report)
      modifies this
      ensures procs == AfterReport(old(procs), r) && log == old(log) + ActionsFor(old(procs), r)
    {
      if r.pid !in procs {
        procs := procs[r.pid := Entry(0, false)];
      }
      match r {
        case Died(pid) =>
          log := log + [EndProcess(pid)];
          procs := procs - {pid};
        case ForkEvent(pid, child) =>
          HandleForkEvent(pid, child);
          log := log + [Continue(pid)];
        case EventStop(pid) =>
          log := log + [Continue(pid)];
        case SignalStop(pid, sig) =>
          if sig.SigStop? && !procs[pid].traced {
            procs := procs[pid := procs[pid].(traced := true)];
            log := log + [Swallow(pid)];
          } else {
            log := log + [Reinject(pid, sig)];
          }
      }
    }
  }

  // ---- What the kernel may do ----

  /** The life of a pid as the kernel sees it. A pid not listed is free and the
      tracer knows nothing of it. The last three are reached only through a lost
      exit report: the pid is free, but its entry is left over. */
  datatype Life =
    | Root(parent: Pid, stoppedOnce: bool)
    | Forked(parent: Pid)              // the fork was reported, the initial stop is due
    | Stopped                          // the initial stop was reported, the fork is due
    | Alive(parent: Pid)               // both were reported
    | Gone(parent: Pid, traced: bool)  // free, with the entry of its last owner
    | StoppedOver(parent: Pid)         // reused, stop reported on top of that entry, the fork is due
    | Astray(parent: Pid)              // reused, the fork was reported after the stop

  type Lives = map<Pid, Life>

  datatype Happening = Reported(report: Report) | LostExit(pid: Pid)

  predicate Running(lives: Lives, pid: Pid) {
    pid in lives && (lives[pid].Root? || lives[pid].Alive? || lives[pid].Astray?)
  }

  /** The next SIGSTOP of `pid` is the initial stop of a new child. */
  predicate StopIsDue(lives: Lives, pid: Pid) {
    pid !in lives || lives[pid].Forked? || lives[pid].Gone?
  }

  /** The fork of `child` may still be reported. */
  predicate ForkIsDue(lives: Lives, child: Pid) {
    child !in lives || lives[child].Stopped? || lives[child].Gone? || lives[child].StoppedOver?
  }

  /** Until both a child's fork and its initial stop were reported nothing else of
      the child is. Any running process may die without a report. */
  predicate MayHappen(lives: Lives, h: Happening) {
    match h
    case LostExit(pid) => Running(lives, pid)
    case Reported(r) =>
      r.pid != 0 &&
      match r
      case ForkEvent(pid, child) => Running(lives, pid) && child != 0 && child != pid && ForkIsDue(lives, child)
      case EventStop(pid) => Running(lives, pid)
      case SignalStop(pid, sig) => Running(lives, pid) || (sig.SigStop? && StopIsDue(lives, pid))
      case Died(pid) => Running(lives, pid)
  }

  function AfterReported(lives: Lives, r: Report): Lives {
    match r
    case ForkEvent(pid, child) =>
      lives[child :=
        if child in lives && lives[child].Stopped? then Alive(pid)
        else if child in lives && lives[child].StoppedOver? then Astray(pid)
        else Forked(pid)]
    case EventStop(_) => lives
    case SignalStop(pid, sig) =>
      if pid !in lives then lives[pid := Stopped]
      else if lives[pid].Forked? then lives[pid := Alive(lives[pid].parent)]
      else if lives[pid].Gone? then lives[pid := StoppedOver(lives[pid].parent)]
      else if lives[pid].Root? && sig.SigStop? then lives[pid := lives[pid].(stoppedOnce := true)]
      else if lives[pid].Astray? && sig.SigStop? then lives[pid := Alive(lives[pid].parent)]
      else lives
    case Died(pid) => lives - {pid}
  }

  function AfterHappening(lives: Lives, h: Happening): Lives
    requires h.LostExit? ==> Running(lives, h.pid)
  {
    match h
    case Reported(r) => AfterReported(lives, r)
    case LostExit(pid) =>
      var life := lives[pid];
      lives[pid := Gone(life.parent, if life.Root? then life.stoppedOnce else life.Alive?)]
  }

  /** The initial stop is taken for a signal: the entry left over says it was seen. */
  predicate Mistaken(lives: Lives, pid: Pid) {
    pid in lives && lives[pid].Gone? && lives[pid].traced
  }

  /** What happens, told by the lives alone: an initial stop is swallowed unless
      it is mistaken, any other signal reaches the tracee, a fork starts the child
      under its true parent. The first SIGSTOP of the root, and of a child gone
      astray, is treated like an initial stop. */
  function Expected(lives: Lives, r: Report): seq<Action> {
    match r
    case ForkEvent(pid, child) => [StartProcess(child, pid), Continue(pid)]
    case EventStop(pid) => [Continue(pid)]
    case SignalStop(pid, sig) =>
      if sig.SigStop? && !Mistaken(lives, pid) &&
         (StopIsDue(lives, pid) || (lives[pid].Root? && !lives[pid].stoppedOnce) || lives[pid].Astray?) then
        [Swallow(pid)]
      else [Reinject(pid, sig)]
    case Died(pid) => [EndProcess(pid)]
  }

  // ---- Whole runs ----

  datatype Run = Run(root: Pid, tracer: Pid, happenings: seq<Happening>)

  function Prefix(run: Run): Run
    requires run.happenings != []
  {
    run.(happenings := run.happenings[..|run.happenings| - 1])
  }

  function Last(run: Run): Happening
    requires run.happenings != []
  {
    run.happenings[|run.happenings| - 1]
  }

  function LivesOf(run: Run): Lives
    requires Possible(run)
    decreases |run.happenings|, 1
  {
    if run.happenings == [] then map[run.root := Root(run.tracer, false)]
    else AfterHappening(LivesOf(Prefix(run)), Last(run))
  }

  predicate Possible(run: Run)
    decreases |run.happenings|, 0
  {
    && run.root != 0 && run.tracer != 0
    && (run.happenings != [] ==> Possible(Prefix(run)) && MayHappen(LivesOf(Prefix(run)), Last(run)))
  }

  function ProcsOf(run: Run): Table
    decreases |run.happenings|
  {
    if run.happenings == [] then map[run.root := Entry(run.tracer, false)]
    else if Last(run).LostExit? then ProcsOf(Prefix(run))
    else AfterReport(ProcsOf(Prefix(run)), Last(run).report)
  }

  function LogOf(run: Run): seq<Action>
    decreases |run.happenings|
  {
    if run.happenings == [] then []
    else if Last(run).LostExit? then LogOf(Prefix(run))
    else LogOf(Prefix(run)) + ActionsFor(ProcsOf(Prefix(run)), Last(run).report)
  }

  function ExpectedLog(run: Run): seq<Action>
    requires Possible(run)
    decreases |run.happenings|
  {
    if run.happenings == [] then []
    else if Last(run).LostExit? then ExpectedLog(Prefix(run))
    else ExpectedLog(Prefix(run)) + Expected(LivesOf(Prefix(run)), Last(run).report)
  }

  predicate Mirrors(entry: Entry, life: Life) {
    match life
    case Root(parent, stoppedOnce) => entry == Entry(parent, stoppedOnce)
    case Forked(parent) => entry == Entry(parent, false)
    case Stopped => entry == Entry(0, true)
    case Alive(parent) => entry == Entry(parent, true)
    case Gone(parent, traced) => entry == Entry(parent, traced)
    case StoppedOver(parent) => entry == Entry(parent, true)
    case Astray(parent) => entry == Entry(parent, false)
  }

  /** The table knows every live pid, its true parent and whether its stop is done. */
  ghost predicate InStep(procs: Table, lives: Lives) {
    && procs.Keys == lives.Keys
    && (forall pid :: pid in lives ==> pid != 0 && Mirrors(procs[pid], lives[pid]))
    && (forall pid :: pid in lives && !lives[pid].Stopped? ==> lives[pid].parent != 0)
  }

  lemma ReportKeepsStep(procs: Table, lives: Lives, r: Report)
    requires InStep(procs, lives) && MayHappen(lives, Reported(r))
    ensures InStep(AfterReport(procs, r), AfterReported(lives, r))
    ensures ActionsFor(procs, r) == Expected(lives, r)
  {
    assert forall pid :: pid in procs <==> pid in lives;
  }

  /** In every possible run, with the two reports of every child in either order
      and any exits lost: the log is the expected one, and the table holds each
      live child with its true parent and whether its stop was seen. */
  lemma {:induction false} RunInStep(run: Run)
    requires Possible(run)
    ensures InStep(ProcsOf(run), LivesOf(run))
    ensures LogOf(run) == ExpectedLog(run)
    decreases |run.happenings|
  {
    if run.happenings != [] {
      RunInStep(Prefix(run));
      if Last(run).Reported? {
        ReportKeepsStep(ProcsOf(Prefix(run)), LivesOf(Prefix(run)), Last(run).report);
      }
    }
  }

  /** Every possible report but a SIGSTOP has its one answer, whatever the tracer
      went through before: the child starts under the reporting parent, a signal is
      passed on unchanged, an exit ends the process. */
  lemma Answered(run: Run, r: Report)
    requires Possible(run) && MayHappen(LivesOf(run), Reported(r))
    ensures var log, more := LogOf(run), LogOf(Then(run, Reported(r)));
      && (r.ForkEvent? ==> more == log + [StartProcess(r.child, r.pid), Continue(r.pid)])
      && (r.EventStop? ==> more == log + [Continue(r.pid)])
      && (r.SignalStop? && r.sig.OtherSignal? ==> more == log + [Reinject(r.pid, r.sig)])
      && (r.Died? ==> more == log + [EndProcess(r.pid)])
  {
    assert Prefix(Then(run, Reported(r))) == run && Last(Then(run, Reported(r))) == Reported(r);
  }

  /** A child whose fork event and initial stop are both in has later SIGSTOPs
      passed on, too. */
  lemma LaterStopPassedOn(run: Run, c: Pid)
    requires Possible(run) && c in LivesOf(run) && LivesOf(run)[c].Alive? && c != 0
    ensures LogOf(Then(run, Reported(SignalStop(c, SigStop)))) == LogOf(run) + [Reinject(c, SigStop)]
  {
    var r := SignalStop(c, SigStop);
    assert Prefix(Then(run, Reported(r))) == run && Last(Then(run, Reported(r))) == Reported(r);
    RunInStep(run);
    ReportKeepsStep(ProcsOf(run), LivesOf(run), r);
  }

  // ---- A pid reused after its exit report was lost ----

  predicate ForkOf(h: Happening, c: Pid) {
    h.Reported? && h.report.ForkEvent? && h.report.child == c
  }

  /** The exit of the last owner of `c` was lost, and neither a fork event nor a
      stop of a new owner has been reported since. */
  predicate LeftOver(happenings: seq<Happening>, c: Pid) {
    happenings != [] &&
    var front, h := happenings[..|happenings| - 1], happenings[|happenings| - 1];
    h == LostExit(c) || (LeftOver(front, c) && !ForkOf(h, c) && !(h.Reported? && h.report.pid == c))
  }

  lemma {:induction false} LeftOverIsGone(run: Run, c: Pid)
    requires Possible(run)
    ensures LeftOver(run.happenings, c) <==> c in LivesOf(run) && LivesOf(run)[c].Gone?
    decreases |run.happenings|
  {
    if run.happenings != [] {
      LeftOverIsGone(Prefix(run), c);
    }
  }

  /** Whether the tracer had seen the initial stop of the last owner of `c`. */
  predicate SeenBefore(run: Run, c: Pid) {
    c in ProcsOf(run) && ProcsOf(run)[c].traced
  }

  /** After every run, with exits lost or not: the initial stop of a new child is
      swallowed, unless its pid has an entry left over that says seen. In that case
      it is swallowed exactly when the fork event comes first, since that drops the
      entry; reported first, it is re-injected. */
  lemma InitialStopSwallowed(run: Run, c: Pid)
    requires Possible(run) && c != 0 && StopIsDue(LivesOf(run), c)
    ensures ActionsFor(ProcsOf(run), SignalStop(c, SigStop)) ==
      if LeftOver(run.happenings, c) && SeenBefore(run, c) then [Reinject(c, SigStop)] else [Swallow(c)]
  {
    RunInStep(run);
    LeftOverIsGone(run, c);
    ReportKeepsStep(ProcsOf(run), LivesOf(run), SignalStop(c, SigStop));
  }

  function Then(run: Run, h: Happening): Run {
    run.(happenings := run.happenings + [h])
  }

  lemma AndThen(run: Run, h: Happening)
    requires Possible(run) && MayHappen(LivesOf(run), h)
    ensures Possible(Then(run, h)) && LivesOf(Then(run, h)) == AfterHappening(LivesOf(run), h)
  {
    assert Prefix(Then(run, h)) == run && Last(Then(run, h)) == h;
  }

  lemma EntryOf(run: Run, c: Pid)
    requires Possible(run) && c in LivesOf(run)
    ensures c in ProcsOf(run) && Mirrors(ProcsOf(run)[c], LivesOf(run)[c])
  {
    RunInStep(run);
  }

  /** Once both reports of a reused pid are in, the child is known as traced
      exactly when the fork event came first. */
  lemma TracedIffForkFirst(run: Run, parent: Pid, c: Pid)
    requires Possible(run) && LeftOver(run.happenings, c) && c != 0
    requires Running(LivesOf(run), parent) && parent != 0
    ensures var fork, stop := Reported(ForkEvent(parent, c)), Reported(SignalStop(c, SigStop));
      && Possible(Then(Then(run, fork), stop)) && Possible(Then(Then(run, stop), fork))
      && c in ProcsOf(Then(Then(run, fork), stop)) && ProcsOf(Then(Then(run, fork), stop))[c] == Entry(parent, true)
      && c in ProcsOf(Then(Then(run, stop), fork)) && ProcsOf(Then(Then(run, stop), fork))[c] == Entry(parent, false)
  {
    LeftOverIsGone(run, c);
    hide LeftOver, ProcsOf;
    ForkThenStop(run, parent, c);
    StopThenFork(run, parent, c);
  }

  lemma ForkThenStop(run: Run, parent: Pid, c: Pid)
    requires Possible(run) && c in LivesOf(run) && LivesOf(run)[c].Gone? && c != 0
    requires Running(LivesOf(run), parent) && parent != 0
    ensures var end := Then(Then(run, Reported(ForkEvent(parent, c))), Reported(SignalStop(c, SigStop)));
      Possible(end) && c in ProcsOf(end) && ProcsOf(end)[c] == Entry(parent, true)
  {
    hide Possible, LivesOf, ProcsOf, Then;
    var fork, stop := Reported(ForkEvent(parent, c)), Reported(SignalStop(c, SigStop));
    AndThen(run, fork);
    AndThen(Then(run, fork), stop);
    EntryOf(Then(Then(run, fork), stop), c);
  }

  lemma StopThenFork(run: Run, parent: Pid, c: Pid)
    requires Possible(run) && c in LivesOf(run) && LivesOf(run)[c].Gone? && c != 0
    requires Running(LivesOf(run), parent) && parent != 0
    ensures var end := Then(Then(run, Reported(SignalStop(c, SigStop))), Reported(ForkEvent(parent, c)));
      Possible(end) && c in ProcsOf(end) && ProcsOf(end)[c] == Entry(parent, false)
  {
    hide Possible, LivesOf, ProcsOf, Then;
    var fork, stop := Reported(ForkEvent(parent, c)), Reported(SignalStop(c, SigStop));
    AndThen(run, stop);
    AndThen(Then(run, stop), fork);
    EntryOf(Then(Then(run, stop), fork), c);
  }

  // ---- Each child is started once and its initial stop swallowed once ----

  function Starts(log: seq<Action>, c: Pid): nat {
    if log == [] then 0
    else
      var last := log[|log| - 1];
      Starts(log[..|log| - 1], c) + if last.StartProcess? && last.child == c then 1 else 0
  }

  function Swallows(log: seq<Action>, c: Pid): nat {
    if log == [] then 0
    else Swallows(log[..|log| - 1], c) + if log[|log| - 1] == Swallow(c) then 1 else 0
  }

  function ForksSeen(happenings: seq<Happening>, c: Pid): nat {
    if happenings == [] then 0
    else ForksSeen(happenings[..|happenings| - 1], c) + if ForkOf(happenings[|happenings| - 1], c) then 1 else 0
  }

  lemma CountsSnoc(log: seq<Action>, a: Action, c: Pid)
    ensures Starts(log + [a], c) == Starts(log, c) + if a.StartProcess? && a.child == c then 1 else 0
    ensures Swallows(log + [a], c) == Swallows(log, c) + if a == Swallow(c) then 1 else 0
  {
    assert (log + [a])[..|log|] == log;
  }

  lemma CountsGrow(log: seq<Action>, lives: Lives, r: Report, c: Pid)
    ensures Starts(log + Expected(lives, r), c) == Starts(log, c) + if r.ForkEvent? && r.child == c then 1 else 0
    ensures Swallows(log + Expected(lives, r), c) == Swallows(log, c) + if Expected(lives, r) == [Swallow(c)] then 1 else 0
  {
    if r.ForkEvent? {
      CountsSnoc(log, StartProcess(r.child, r.pid), c);
      CountsSnoc(log + [StartProcess(r.child, r.pid)], Continue(r.pid), c);
      assert log + Expected(lives, r) == log + [StartProcess(r.child, r.pid)] + [Continue(r.pid)];
    } else {
      CountsSnoc(log, Expected(lives, r)[0], c);
    }
  }

  /** Stops swallowed ahead of their start, or starts ahead of their stop. */
  function Ahead(lives: Lives, c: Pid): int {
    if c !in lives then 0 else if lives[c].Stopped? then 1 else if lives[c].Forked? then -1 else 0
  }

  /** Neither the root nor a pid whose exit was lost. */
  predicate Ordinary(lives: Lives, c: Pid) {
    c in lives ==> lives[c].Forked? || lives[c].Stopped? || lives[c].Alive?
  }

  lemma AheadChanges(lives: Lives, r: Report, c: Pid)
    requires MayHappen(lives, Reported(r)) && Ordinary(lives, c)
    ensures Ordinary(AfterReported(lives, r), c)
    ensures Ahead(AfterReported(lives, r), c) == Ahead(lives, c)
      + (if Expected(lives, r) == [Swallow(c)] then 1 else 0)
      - (if r.ForkEvent? && r.child == c then 1 else 0)
  {
  }

  /** One start per fork event, whatever is lost. */
  lemma {:induction false} StartedOncePerFork(run: Run, c: Pid)
    requires Possible(run)
    ensures Starts(LogOf(run), c) == ForksSeen(run.happenings, c)
    decreases |run.happenings|
  {
    if run.happenings != [] {
      var front := Prefix(run);
      StartedOncePerFork(front, c);
      if Last(run).Reported? {
        RunInStep(front);
        ReportKeepsStep(ProcsOf(front), LivesOf(front), Last(run).report);
        CountsGrow(LogOf(front), LivesOf(front), Last(run).report, c);
      }
    }
  }

  /** For a descendant whose pid loses no exit: one swallowed stop per start as soon
      as both reports of the child are in. */
  lemma {:induction false} OncePerChild(run: Run, c: Pid)
    requires Possible(run) && c != run.root && LostExit(c) !in run.happenings
    ensures Swallows(LogOf(run), c) == ForksSeen(run.happenings, c) + Ahead(LivesOf(run), c)
    ensures Ordinary(LivesOf(run), c)
    decreases |run.happenings|
  {
    if run.happenings != [] {
      var front := Prefix(run);
      assert Last(run) in run.happenings;
      OncePerChild(front, c);
      if Last(run).Reported? {
        var r := Last(run).report;
        RunInStep(front);
        hide InStep, AfterReported, Expected, ActionsFor, AfterReport, MayHappen;
        ReportKeepsStep(ProcsOf(front), LivesOf(front), r);
        CountsGrow(LogOf(front), LivesOf(front), r, c);
        AheadChanges(LivesOf(front), r, c);
      }
    }
  }
}
