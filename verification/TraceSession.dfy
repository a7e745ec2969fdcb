/** Process incarnations: recycled pids get synthetic ids, an exec keeps its id,
    and repeated accesses of one process image are dropped. */
module TraceSession {
  import opened Processes
  import opened FileModes

  // ---- Synthetic ids ----

  const PID_GEN_STRIDE := 10000000

  function Synth(gen: nat, pid: Pid): int {
    if gen == 0 then pid else gen * PID_GEN_STRIDE + pid
  }

  predicate RealPid(pid: Pid) {
    0 <= pid < PID_GEN_STRIDE
  }

  lemma SynthInjective(g: nat, p: Pid, h: nat, q: Pid)
    requires RealPid(p) && RealPid(q)
    ensures Synth(g, p) == Synth(h, q) <==> g == h && p == q
  {
    if g < h {
      assert (h - g) * PID_GEN_STRIDE >= PID_GEN_STRIDE;
    } else if h < g {
      assert (g - h) * PID_GEN_STRIDE >= PID_GEN_STRIDE;
    }
  }

  /** With pids below 2^22, ids fit a signed 32-bit integer exactly up to generation 214. */
  lemma SynthFitsInt32(g: nat)
    ensures (forall p :: 0 <= p < 0x40_0000 ==> Synth(g, p) < 0x8000_0000) <==> g <= 214
  {
    if g > 214 {
      assert Synth(g, 0) >= 215 * PID_GEN_STRIDE;
    }
  }

  // ---- Calls, events and the processes table ----

  datatype ExitInfo = ExitInfo(endTime: int, exitCode: int, userTime: int, sysTime: int, peakRss: int,
                               ioRead: int, ioWrite: int)

  type Errno = e: int | 0 <= e < 0x40_0000

  datatype Touched = Opened(file: File, mode: Mode) | Failed(file: File, mode: Mode, errno: Errno)

  function ModeNumber(m: Mode): (n: int)
    ensures 0 <= n <= 20
  {
    match m
    case Read => 0 case Write => 1 case ReadWrite => 2 case Stat => 3 case Access => 4
    case Exec => 5 case Unlink => 6 case RenameSrc => 7 case RenameDst => 8 case ReadLink => 9
    case MkDir => 10 case LinkSrc => 11 case LinkDst => 12 case SymlinkTarget => 13 case SymlinkLink => 14
    case ChMod => 15 case ChOwn => 16 case Truncate => 17 case MkNod => 18 case UtimeNs => 19 case ChDir => 20
  }

  type AccessKey = (int, File)

  /** The number an access is remembered under: the mode, or for a failure a flag
      bit, the error number and the mode side by side. */
  function KeyOf(what: Touched): AccessKey {
    match what
    case Opened(file, mode) => (ModeNumber(mode), file)
    case Failed(file, mode, errno) => (0x4000_0000 + errno * 0x100 + ModeNumber(mode), file)
  }

  lemma ModeNumberInjective(m: Mode, n: Mode)
    ensures ModeNumber(m) == ModeNumber(n) <==> m == n
  {
  }

  /** Flag, error number and mode share no bit, so adding them is joining them. */
  lemma KeyIsFields(file: File, mode: Mode, errno: Errno)
    ensures var key := KeyOf(Failed(file, mode, errno)).0;
      key / 0x4000_0000 == 1 && key / 0x100 % 0x40_0000 == errno && key % 0x100 == ModeNumber(mode)
  {
    hide ModeNumber;
  }

  /** Different accesses are remembered under different keys. */
  lemma KeyInjective(a: Touched, b: Touched)
    ensures KeyOf(a) == KeyOf(b) <==> a == b
  {
    ModeNumberInjective(a.mode, b.mode);
    hide ModeNumber;
    if a.Failed? && b.Failed? && a.errno != b.errno {
      var lo, hi := if a.errno < b.errno then a.errno else b.errno, if a.errno < b.errno then b.errno else a.errno;
      assert (hi - lo) * 0x100 >= 0x100;
    }
  }

  datatype Call =
    | Start(row: Process)
    | Exit(pid: Pid, info: ExitInfo)
    | Touch(pid: Pid, what: Touched)
    | Delete(pid: Pid)

  function PidOf(c: Call): Pid {
    if c.Start? then c.row.pid else c.pid
  }

  /** What is queued for the database; `id` is a synthetic id. */
  datatype Event =
    | InsertRow(id: int, row: Process)
    | UpdateExit(id: int, info: ExitInfo)
    | InsertAccess(id: int, what: Touched)
    | DeleteRow(id: int)

  datatype Books = Books(gen: map<Pid, nat>, reinsert: set<Pid>, live: set<Pid>, seen: map<Pid, set<AccessKey>>,
                         dropped: nat, recycles: nat, lostExits: nat)

  const EMPTY := Books(map[], {}, {}, map[], 0, 0, 0)

  function CurrentId(b: Books, pid: Pid): int {
    Synth(if pid in b.gen then b.gen[pid] else 0, pid)
  }

  function Seen(b: Books, pid: Pid): set<AccessKey> {
    if pid in b.seen then b.seen[pid] else {}
  }

  function AfterStart(b: Books, pid: Pid): Books {
    var c := b.(seen := b.seen - {pid}, live := b.live + {pid});
    if pid !in b.gen then c.(gen := b.gen[pid := 0])
    else if pid in b.reinsert then c.(reinsert := b.reinsert - {pid})
    else c.(gen := b.gen[pid := b.gen[pid] + 1], recycles := b.recycles + 1,
            lostExits := b.lostExits + if pid in b.live then 1 else 0)
  }

  function AfterCall(b: Books, c: Call): Books {
    match c
    case Start(row) => AfterStart(b, row.pid)
    case Exit(pid, _) => b.(seen := b.seen - {pid}, live := b.live - {pid}, reinsert := b.reinsert - {pid})
    case Touch(pid, what) =>
      if KeyOf(what) in Seen(b, pid) then b.(dropped := b.dropped + 1)
      else b.(seen := b.seen[pid := Seen(b, pid) + {KeyOf(what)}])
    case Delete(pid) => b.(reinsert := b.reinsert + {pid})
  }

  function EventsOf(b: Books, c: Call): seq<Event> {
    match c
    case Start(row) =>
      var after := AfterStart(b, row.pid);
      [InsertRow(CurrentId(after, row.pid), row.(pid := CurrentId(after, row.pid), ppid := CurrentId(after, row.ppid)))]
    case Exit(pid, info) => [UpdateExit(CurrentId(b, pid), info)]
    case Touch(pid, what) => if KeyOf(what) in Seen(b, pid) then [] else [InsertAccess(CurrentId(b, pid), what)]
    case Delete(pid) => [DeleteRow(CurrentId(b, pid))]
  }

  // ---- The session object ----

  class Session {
    var pidGen: map<Pid, nat>
    var expectReinsert: set<Pid>
    var livePids: set<Pid>
    var seen: map<Pid, set<AccessKey>>
    var dedupDropped: nat
    var pidRecycles: nat
    var lostExitStarts: nat
    var queue: seq<Event>

    constructor ()
      ensures Current() == EMPTY && queue == []
    {
      pidGen, expectReinsert, livePids, seen := map[], {}, {}, map[];
      dedupDropped, pidRecycles, lostExitStarts := 0, 0, 0;
      queue := [];
    }

    function Current(): Books
      reads this
    {
      Books(pidGen, expectReinsert, livePids, seen, dedupDropped, pidRecycles, lostExitStarts)
    }

    method CurrentSynth(pid: Pid) returns (id: int)
      ensures id == CurrentId(Current(), pid)
    {
      if pid !in pidGen || pidGen[pid] == 0 {
        return pid;
      }
      return pidGen[pid] * PID_GEN_STRIDE + pid;
    }

    method AlreadySeen(pid: Pid, key: AccessKey) returns (already: bool)
      modifies `seen, `dedupDropped
      ensures already == (key in Seen(old(Current()), pid))
      ensures already ==> Current() == old(Current()).(dropped := old(dedupDropped) + 1)
      ensures !already ==>
        Current() == old(Current()).(seen := old(seen)[pid := Seen(old(Current()), pid) + {key}])
    {
      if pid in seen && key in seen[pid] {
        dedupDropped := dedupDropped + 1;
        return true;
      }
      seen := seen[pid := (if pid in seen then seen[pid] else {}) + {key}];
      return false;
    }

    method Enqueue(ev: Event)
      modifies `queue
      ensures queue == old(queue) + [ev]
    {
      queue := queue + [ev];
    }

    /** `fatal` is what the writer reports; after it nothing is recorded any more. */
    method OnProcessStart(row: Process, fatal: bool)
      modifies this
      ensures fatal ==> Current() == old(Current()) && queue == old(queue)
      ensures !fatal ==> Current() == AfterCall(old(Current()), Start(row))
      ensures !fatal ==> queue == old(queue) + EventsOf(old(Current()), Start(row))
    {
      if fatal {
        return;
      }
      seen := seen - {row.pid};
      if row.pid !in pidGen {
        pidGen := pidGen[row.pid := 0];
      } else if row.pid in expectReinsert {
        expectReinsert := expectReinsert - {row.pid};
      } else {
        if row.pid in livePids {
          lostExitStarts := lostExitStarts + 1;
        }
        pidGen := pidGen[row.pid := pidGen[row.pid] + 1];
        pidRecycles := pidRecycles + 1;
      }
      livePids := livePids + {row.pid};
      var id := CurrentSynth(row.pid);
      var parent := CurrentSynth(row.ppid);
      Enqueue(InsertRow(id, row.(pid := id, ppid := parent)));
    }

    method OnProcessExit(pid: Pid, info: ExitInfo, fatal: bool)
      modifies this
      ensures fatal ==> Current() == old(Current()) && queue == old(queue)
      ensures !fatal ==> Current() == AfterCall(old(Current()), Exit(pid, info))
      ensures !fatal ==> queue == old(queue) + EventsOf(old(Current()), Exit(pid, info))
    {
      if fatal {
        return;
      }
      seen := seen - {pid};
      var id := CurrentSynth(pid);
      livePids := livePids - {pid};
      expectReinsert := expectReinsert - {pid};
      Enqueue(UpdateExit(id, info));
    }

    method OnAccess(pid: Pid, what: Touched, fatal: bool)
      modifies this
      ensures fatal ==> Current() == old(Current()) && queue == old(queue)
      ensures !fatal ==> Current() == AfterCall(old(Current()), Touch(pid, what))
      ensures !fatal ==> queue == old(queue) + EventsOf(old(Current()), Touch(pid, what))
    {
      if fatal {
        return;
      }
      var already := AlreadySeen(pid, KeyOf(what));
      if already {
        return;
      }
      var id := CurrentSynth(pid);
      Enqueue(InsertAccess(id, what));
    }

    method DeleteProcess(pid: Pid, fatal: bool)
      modifies this
      ensures fatal ==> Current() == old(Current()) && queue == old(queue)
      ensures !fatal ==> Current() == AfterCall(old(Current()), Delete(pid))
      ensures !fatal ==> queue == old(queue) + EventsOf(old(Current()), Delete(pid))
    {
      if fatal {
        return;
      }
      var id := CurrentSynth(pid);
      expectReinsert := expectReinsert + {pid};
      Enqueue(DeleteRow(id));
    }
  }

  // ---- Whole runs ----

  function BooksAfter(calls: seq<Call>): Books {
    if calls == [] then EMPTY else AfterCall(BooksAfter(calls[..|calls| - 1]), calls[|calls| - 1])
  }

  /** The events of the call at position `k`. */
  function EventsAt(calls: seq<Call>, k: nat): seq<Event>
    requires k < |calls|
  {
    EventsOf(BooksAfter(calls[..k]), calls[k])
  }

  function Ended(row: Process, info: ExitInfo): Process {
    row.(end := info.endTime, exitCode := info.exitCode, userTime := info.userTime, sysTime := info.sysTime,
         peakRss := info.peakRss, ioRead := info.ioRead, ioWrite := info.ioWrite)
  }

  /** The table keyed by id; an insert of a present key is refused. */
  function ApplyEvent(table: map<int, Process>, ev: Event): map<int, Process> {
    match ev
    case InsertRow(id, row) => if id in table then table else table[id := row]
    case UpdateExit(id, info) =>
      if id in table then table[id := Ended(table[id], info)] else table
    case InsertAccess(_, _) => table
    case DeleteRow(id) => table - {id}
  }

  function ApplyAll(table: map<int, Process>, evs: seq<Event>): map<int, Process> {
    if evs == [] then table else ApplyEvent(ApplyAll(table, evs[..|evs| - 1]), evs[|evs| - 1])
  }

  function TableAfter(calls: seq<Call>): map<int, Process> {
    if calls == [] then map[]
    else
      var front := calls[..|calls| - 1];
      ApplyAll(TableAfter(front), EventsOf(BooksAfter(front), calls[|calls| - 1]))
  }

  /** The call at `k` inserts a key the table already holds. */
  ghost predicate CollidesAt(calls: seq<Call>, k: nat)
    requires k < |calls|
  {
    calls[k].Start? && CurrentId(BooksAfter(calls[..k + 1]), calls[k].row.pid) in TableAfter(calls[..k])
  }

  // ---- What the caller did to a pid ----

  predicate Started(calls: seq<Call>, p: Pid) {
    calls != [] && (Started(calls[..|calls| - 1], p) || (calls[|calls| - 1].Start? && PidOf(calls[|calls| - 1]) == p))
  }

  /** The last start, exit or delete of the pid was a delete. */
  predicate DeletePending(calls: seq<Call>, p: Pid) {
    calls != [] &&
    var c := calls[|calls| - 1];
    if PidOf(c) != p || c.Touch? then DeletePending(calls[..|calls| - 1], p) else c.Delete?
  }

  /** The pid was deleted before its first start, and since that start it has
      neither exited nor been deleted nor started again. */
  predicate StaleDelete(calls: seq<Call>, p: Pid) {
    calls != [] &&
    var front, c := calls[..|calls| - 1], calls[|calls| - 1];
    if PidOf(c) != p || c.Touch? then StaleDelete(front, p)
    else c.Start? && !Started(front, p) && DeletePending(front, p)
  }

  /** The last start, exit or delete of the pid is at position `j`. */
  ghost predicate LastAt(calls: seq<Call>, p: Pid, j: nat) {
    && j < |calls| && PidOf(calls[j]) == p && !calls[j].Touch?
    && (forall i :: j < i < |calls| && PidOf(calls[i]) == p ==> calls[i].Touch?)
  }

  lemma LastGrows(calls: seq<Call>, p: Pid, j: nat)
    requires calls != []
    ensures var n := |calls| - 1;
      LastAt(calls, p, j) <==>
        if PidOf(calls[n]) == p && !calls[n].Touch? then j == n else j < n && LastAt(calls[..n], p, j)
  {
    var front := calls[..|calls| - 1];
    assert forall i :: 0 <= i < |front| ==> front[i] == calls[i];
  }

  /** In terms of positions. */
  lemma {:induction false} DeletePendingMeans(calls: seq<Call>, p: Pid)
    ensures DeletePending(calls, p) <==> exists j: nat :: LastAt(calls, p, j) && calls[j].Delete?
  {
    if calls != [] {
      var n := |calls| - 1;
      var front := calls[..n];
      DeletePendingMeans(front, p);
      LastGrows(calls, p, n);
      if j: nat :| LastAt(front, p, j) && front[j].Delete? {
        LastGrows(calls, p, j);
      }
      if j: nat :| LastAt(calls, p, j) && calls[j].Delete? {
        LastGrows(calls, p, j);
      }
    }
  }

  lemma {:induction false} StartedMeans(calls: seq<Call>, p: Pid)
    ensures Started(calls, p) <==> exists j: nat :: j < |calls| && calls[j].Start? && PidOf(calls[j]) == p
  {
    if calls != [] {
      StartedMeans(calls[..|calls| - 1], p);
    }
  }

  /** Never started, and the last exit or delete was a delete. */
  ghost predicate StartPending(calls: seq<Call>, p: Pid) {
    !Started(calls, p) && DeletePending(calls, p)
  }

  /** The last of a pid's starts, exits and deletes is its first start, and a delete
      was the last before it. */
  lemma {:induction false} StaleDeleteMeans(calls: seq<Call>, p: Pid)
    ensures StaleDelete(calls, p) <==>
      exists j: nat :: LastAt(calls, p, j) && calls[j].Start? && StartPending(calls[..j], p)
  {
    if calls != [] {
      var n := |calls| - 1;
      var front := calls[..n];
      StaleDeleteMeans(front, p);
      LastGrows(calls, p, n);
      assert forall j :: 0 <= j < n ==> front[..j] == calls[..j];
      hide LastAt, StartPending;
      if j: nat :| LastAt(front, p, j) && j < n && front[j].Start? && StartPending(front[..j], p) {
        LastGrows(calls, p, j);
      }
      if j: nat :| j < |calls| && LastAt(calls, p, j) && calls[j].Start? && StartPending(calls[..j], p) {
        LastGrows(calls, p, j);
      }
    }
  }

  /** No pid is started while such a delete is outstanding. */
  ghost predicate Disciplined(calls: seq<Call>) {
    forall k :: 0 <= k < |calls| && calls[k].Start? ==> !StaleDelete(calls[..k], PidOf(calls[k]))
  }

  /** How many incarnations of the pid have begun: a start that follows a delete
      is an exec of the one at hand, any other start is a new one. */
  function Incarnations(calls: seq<Call>, p: Pid): nat {
    if calls == [] then 0
    else
      var front, c := calls[..|calls| - 1], calls[|calls| - 1];
      Incarnations(front, p) +
        if c.Start? && PidOf(c) == p && !(Started(front, p) && DeletePending(front, p)) then 1 else 0
  }

  ghost predicate RealPids(calls: seq<Call>) {
    forall k :: 0 <= k < |calls| ==> RealPid(PidOf(calls[k]))
  }

  // ---- The books reflect what the caller did ----

  lemma {:induction false} BooksFollow(calls: seq<Call>, p: Pid)
    ensures var b := BooksAfter(calls);
      && (p in b.gen <==> Started(calls, p))
      && (p in b.reinsert <==> DeletePending(calls, p) || StaleDelete(calls, p))
      && (StaleDelete(calls, p) ==> Started(calls, p) && !DeletePending(calls, p))
  {
    if calls != [] {
      BooksFollow(calls[..|calls| - 1], p);
    }
  }

  /** Under discipline the generation counts the incarnations. */
  lemma {:induction false} GenerationCounts(calls: seq<Call>, p: Pid)
    requires Disciplined(calls)
    ensures Started(calls, p) <==> Incarnations(calls, p) > 0
    ensures Started(calls, p) ==>
      p in BooksAfter(calls).gen && BooksAfter(calls).gen[p] + 1 == Incarnations(calls, p)
  {
    if calls != [] {
      var front, c := calls[..|calls| - 1], calls[|calls| - 1];
      assert forall k :: 0 <= k < |front| ==> front[..k] == calls[..k];
      GenerationCounts(front, p);
      BooksFollow(front, p);
      assert calls[..|calls| - 1] == front;
    }
  }

  // ---- The table refines a table of incarnations ----

  /** The number of the incarnation at hand. */
  function Now(calls: seq<Call>, p: Pid): nat {
    if Incarnations(calls, p) == 0 then 0 else Incarnations(calls, p) - 1
  }

  /** What is known of one incarnation: its row and its parent's incarnation. */
  datatype Life = Life(row: Process, parent: nat)

  type LifeKey = (Pid, nat)

  function LivesAfter(calls: seq<Call>): map<LifeKey, Life> {
    if calls == [] then map[]
    else
      var front, c := calls[..|calls| - 1], calls[|calls| - 1];
      var lives := LivesAfter(front);
      match c
      case Start(row) => lives[(row.pid, Now(calls, row.pid)) := Life(row, Now(calls, row.ppid))]
      case Exit(p, info) =>
        var key := (p, Now(front, p));
        if key in lives then lives[key := lives[key].(row := Ended(lives[key].row, info))] else lives
      case Touch(_, _) => lives
      case Delete(p) => lives - {(p, Now(front, p))}
  }

  function Stored(key: LifeKey, life: Life): Process {
    life.row.(pid := Synth(key.1, key.0), ppid := Synth(life.parent, life.row.ppid))
  }

  ghost predicate Represents(table: map<int, Process>, lives: map<LifeKey, Life>) {
    && (forall key :: key in lives ==> RealPid(key.0))
    && (forall key :: key in lives ==>
          Synth(key.1, key.0) in table && table[Synth(key.1, key.0)] == Stored(key, lives[key]))
    && (forall id :: id in table ==> exists key :: key in lives && Synth(key.1, key.0) == id)
  }

  lemma {:induction false} StartedHasIncarnation(calls: seq<Call>, p: Pid)
    ensures Started(calls, p) <==> Incarnations(calls, p) > 0
  {
    if calls != [] {
      StartedHasIncarnation(calls[..|calls| - 1], p);
    }
  }

  lemma {:induction false} LivesUpToNow(calls: seq<Call>, p: Pid, g: nat)
    requires (p, g) in LivesAfter(calls)
    ensures Started(calls, p) && g <= Now(calls, p) && Incarnations(calls, p) > 0
    ensures g == Now(calls, p) ==> !DeletePending(calls, p)
  {
    var front, c := calls[..|calls| - 1], calls[|calls| - 1];
    StartedHasIncarnation(calls, p);
    if (p, g) in LivesAfter(front) {
      LivesUpToNow(front, p, g);
    }
  }

  /** A start never meets a row of the incarnation it begins or re-images. */
  lemma StartIsNew(calls: seq<Call>, c: Call)
    requires c.Start?
    ensures (c.row.pid, Now(calls + [c], c.row.pid)) !in LivesAfter(calls)
  {
    var p := c.row.pid;
    assert (calls + [c])[..|calls|] == calls;
    var g := Now(calls + [c], p);
    if (p, g) in LivesAfter(calls) {
      LivesUpToNow(calls, p, g);
    }
  }

  lemma CurrentIsNow(calls: seq<Call>, p: Pid)
    requires Disciplined(calls)
    ensures CurrentId(BooksAfter(calls), p) == Synth(Now(calls, p), p)
  {
    GenerationCounts(calls, p);
    BooksFollow(calls, p);
  }

  lemma DisciplinedPrefix(calls: seq<Call>, k: nat)
    requires Disciplined(calls) && k <= |calls|
    ensures Disciplined(calls[..k])
  {
    var front := calls[..k];
    assert forall i :: 0 <= i < k ==> front[..i] == calls[..i] && front[i] == calls[i];
  }

  lemma InsertRepresents(table: map<int, Process>, lives: map<LifeKey, Life>, key: LifeKey, life: Life)
    requires Represents(table, lives) && key !in lives && RealPid(key.0)
    ensures Synth(key.1, key.0) !in table
    ensures Represents(table[Synth(key.1, key.0) := Stored(key, life)], lives[key := life])
  {
    var id := Synth(key.1, key.0);
    forall k | k in lives ensures Synth(k.1, k.0) != id {
      SynthInjective(k.1, k.0, key.1, key.0);
    }
    hide Synth;
    var after, more := table[id := Stored(key, life)], lives[key := life];
    forall i | i in after ensures exists k :: k in more && Synth(k.1, k.0) == i {
      if i == id {
        assert key in more;
      } else {
        var k :| k in lives && Synth(k.1, k.0) == i;
        assert k in more;
      }
    }
  }

  lemma UpdateRepresents(table: map<int, Process>, lives: map<LifeKey, Life>, key: LifeKey, info: ExitInfo)
    requires Represents(table, lives) && RealPid(key.0)
    ensures Represents(ApplyEvent(table, UpdateExit(Synth(key.1, key.0), info)),
      if key in lives then lives[key := lives[key].(row := Ended(lives[key].row, info))] else lives)
  {
    var id := Synth(key.1, key.0);
    forall k | k in lives ensures Synth(k.1, k.0) == id <==> k == key {
      SynthInjective(k.1, k.0, key.1, key.0);
    }
    hide Synth;
    var after := ApplyEvent(table, UpdateExit(id, info));
    var more := if key in lives then lives[key := lives[key].(row := Ended(lives[key].row, info))] else lives;
    forall i | i in after ensures exists k :: k in more && Synth(k.1, k.0) == i {
      assert i in table;
      var k :| k in lives && Synth(k.1, k.0) == i;
      assert k in more;
    }
  }

  lemma DeleteRepresents(table: map<int, Process>, lives: map<LifeKey, Life>, key: LifeKey)
    requires Represents(table, lives) && RealPid(key.0)
    ensures Represents(table - {Synth(key.1, key.0)}, lives - {key})
  {
    var id := Synth(key.1, key.0);
    forall k | k in lives ensures Synth(k.1, k.0) == id <==> k == key {
      SynthInjective(k.1, k.0, key.1, key.0);
    }
    hide Synth;
    var after, fewer := table - {id}, lives - {key};
    forall i | i in after ensures exists k :: k in fewer && Synth(k.1, k.0) == i {
      var k :| k in lives && Synth(k.1, k.0) == i;
      assert k in fewer;
    }
  }

  /** For a disciplined caller the table holds exactly one row per incarnation
      that is not deleted, under its synthetic id. */
  lemma {:induction false} TableIsLives(calls: seq<Call>)
    requires Disciplined(calls) && RealPids(calls)
    ensures Represents(TableAfter(calls), LivesAfter(calls))
  {
    if calls != [] {
      var front, c := calls[..|calls| - 1], calls[|calls| - 1];
      var p := PidOf(c);
      DisciplinedPrefix(calls, |calls| - 1);
      TableIsLives(front);
      CurrentIsNow(front, p);
      assert calls == front + [c];
      var table, lives := TableAfter(front), LivesAfter(front);
      assert BooksAfter(calls) == AfterCall(BooksAfter(front), c);
      ApplyOne(table, BooksAfter(front), c);
      match c
      case Start(row) =>
        StartIsNew(front, c);
        CurrentIsNow(calls, p);
        CurrentIsNow(calls, row.ppid);
        InsertRepresents(table, lives, (p, Now(calls, p)), Life(row, Now(calls, row.ppid)));
      case Exit(_, info) => UpdateRepresents(table, lives, (p, Now(front, p)), info);
      case Touch(_, _) =>
      case Delete(_) => DeleteRepresents(table, lives, (p, Now(front, p)));
    }
  }

  /** An exit fills in its incarnation's row, field by field, and no other row. */
  lemma ExitFillsRow(calls: seq<Call>, p: Pid, info: ExitInfo)
    requires Disciplined(calls)
    ensures var id := 10000000 * Now(calls, p) + p;
      var before, after := TableAfter(calls), TableAfter(calls + [Exit(p, info)]);
      && after.Keys == before.Keys
      && (forall other :: other in before && other != id ==> after[other] == before[other])
      && (id in before ==>
            var b, a := before[id], after[id];
            && a.end == info.endTime && a.exitCode == info.exitCode && a.peakRss == info.peakRss
            && a.userTime == info.userTime && a.sysTime == info.sysTime
            && a.ioRead == info.ioRead && a.ioWrite == info.ioWrite
            && a.pid == b.pid && a.ppid == b.ppid && a.cmdline == b.cmdline && a.cwd == b.cwd && a.start == b.start
            && a.fileCount == b.fileCount && a.failCount == b.failCount)
  {
    var more := calls + [Exit(p, info)];
    assert more[..|calls|] == calls;
    CurrentIsNow(calls, p);
    ApplyOne(TableAfter(calls), BooksAfter(calls), Exit(p, info));
  }

  lemma ApplyOne(table: map<int, Process>, b: Books, c: Call)
    ensures ApplyAll(table, EventsOf(b, c)) ==
      if EventsOf(b, c) == [] then table else ApplyEvent(table, EventsOf(b, c)[0])
    ensures c.Touch? ==> ApplyAll(table, EventsOf(b, c)) == table
  {
    var evs := EventsOf(b, c);
    if evs != [] {
      assert |evs| == 1 && evs[..0] == [];
      assert ApplyAll(table, []) == table;
    }
  }

  // ---- No insert is refused, exactly for disciplined callers ----

  ghost predicate CollisionFree(calls: seq<Call>) {
    forall k :: 0 <= k < |calls| ==> !CollidesAt(calls, k)
  }

  lemma DisciplinedDoesNotCollide(calls: seq<Call>, k: nat)
    requires Disciplined(calls) && RealPids(calls) && k < |calls|
    ensures !CollidesAt(calls, k)
  {
    if calls[k].Start? {
      var front, c := calls[..k], calls[k];
      assert calls[..k + 1] == front + [c];
      DisciplinedPrefix(calls, k);
      DisciplinedPrefix(calls, k + 1);
      TableIsLives(front);
      StartIsNew(front, c);
      CurrentIsNow(calls[..k + 1], c.row.pid);
      InsertRepresents(TableAfter(front), LivesAfter(front), (c.row.pid, Now(calls[..k + 1], c.row.pid)),
        Life(c.row, 0));
    }
  }

  /** While a stale delete is outstanding the row is there. */
  lemma {:induction false} StaleKeepsRow(calls: seq<Call>, p: Pid)
    requires StaleDelete(calls, p)
    ensures (p, Now(calls, p)) in LivesAfter(calls)
  {
    var front, c := calls[..|calls| - 1], calls[|calls| - 1];
    if PidOf(c) != p || c.Touch? {
      StaleKeepsRow(front, p);
      assert Now(calls, p) == Now(front, p);
    }
  }

  lemma StaleStartCollides(calls: seq<Call>, k: nat)
    requires k < |calls| && RealPids(calls) && Disciplined(calls[..k])
    requires calls[k].Start? && StaleDelete(calls[..k], PidOf(calls[k]))
    ensures CollidesAt(calls, k)
  {
    var front, p := calls[..k], PidOf(calls[k]);
    assert calls[..k + 1][..k] == front;
    assert RealPids(front);
    StaleKeepsRow(front, p);
    TableIsLives(front);
    BooksFollow(front, p);
    CurrentIsNow(front, p);
    assert Synth(Now(front, p), p) in TableAfter(front);
  }

  /** A start adds the row as it was given, under the ids of its own incarnation and
      of its parent's; a delete takes away its incarnation's row; neither touches
      any other row. */
  lemma StartAddsRow(calls: seq<Call>, row: Process)
    requires Disciplined(calls + [Start(row)]) && RealPids(calls + [Start(row)])
    ensures var more := calls + [Start(row)];
      var id, parent := 10000000 * Now(more, row.pid) + row.pid, 10000000 * Now(more, row.ppid) + row.ppid;
      && id !in TableAfter(calls)
      && TableAfter(more) == TableAfter(calls)[id := row.(pid := id, ppid := parent)]
  {
    var more := calls + [Start(row)];
    assert more[..|calls|] == calls && more[..|calls| + 1] == more;
    CurrentIsNow(more, row.pid);
    CurrentIsNow(more, row.ppid);
    DisciplinedDoesNotCollide(more, |calls|);
    ApplyOne(TableAfter(calls), BooksAfter(calls), Start(row));
  }

  lemma DeleteRemovesRow(calls: seq<Call>, p: Pid)
    requires Disciplined(calls)
    ensures TableAfter(calls + [Delete(p)]) == TableAfter(calls) - {10000000 * Now(calls, p) + p}
  {
    assert (calls + [Delete(p)])[..|calls|] == calls;
    CurrentIsNow(calls, p);
    ApplyOne(TableAfter(calls), BooksAfter(calls), Delete(p));
  }

  /** No insert meets an existing key, exactly when no pid is started again while
      a delete from before its first start is outstanding. */
  lemma {:induction false} CollisionFreeIffDisciplined(calls: seq<Call>)
    requires RealPids(calls)
    ensures CollisionFree(calls) <==> Disciplined(calls)
  {
    if Disciplined(calls) {
      forall k | 0 <= k < |calls| ensures !CollidesAt(calls, k) {
        DisciplinedDoesNotCollide(calls, k);
      }
    } else {
      var k := FirstUndisciplined(calls);
      StaleStartCollides(calls, k);
    }
  }

  lemma {:induction false} FirstUndisciplined(calls: seq<Call>) returns (k: nat)
    requires !Disciplined(calls)
    ensures k < |calls| && Disciplined(calls[..k])
    ensures calls[k].Start? && StaleDelete(calls[..k], PidOf(calls[k]))
  {
    k := 0;
    while calls[k].Start? ==> !StaleDelete(calls[..k], PidOf(calls[k]))
      invariant k < |calls|
      invariant forall j :: 0 <= j < k && calls[j].Start? ==> !StaleDelete(calls[..j], PidOf(calls[j]))
      decreases |calls| - k
    {
      k := k + 1;
    }
    var front := calls[..k];
    assert forall j :: 0 <= j < k ==> front[..j] == calls[..j] && front[j] == calls[j];
  }

  /** A caller that starts every pid before deleting it is disciplined. */
  lemma {:induction false} StartFirstIsDisciplined(calls: seq<Call>)
    requires forall k :: 0 <= k < |calls| && calls[k].Delete? ==> Started(calls[..k], PidOf(calls[k]))
    ensures Disciplined(calls)
    ensures forall p :: DeletePending(calls, p) ==> Started(calls, p)
    ensures forall p :: !StaleDelete(calls, p)
  {
    if calls != [] {
      var front := calls[..|calls| - 1];
      assert forall k :: 0 <= k < |front| ==> front[..k] == calls[..k] && front[k] == calls[k];
      StartFirstIsDisciplined(front);
      forall k | 0 <= k < |calls| && calls[k].Start? ensures !StaleDelete(calls[..k], PidOf(calls[k])) {
        if k < |front| {
          assert front[k].Start?;
        }
      }
    }
  }

  // ---- Where events land, and which accesses are kept ----

  /** Every event carries the id of the incarnation current at its call; an exec
      (a start after a delete) keeps the id. */
  lemma EventsLandOnCurrent(calls: seq<Call>, k: nat, ev: Event)
    requires k < |calls| && Disciplined(calls) && ev in EventsAt(calls, k)
    ensures var p := PidOf(calls[k]);
      && ev.id == 10000000 * Now(calls[..k + 1], p) + p
      && (!calls[k].Start? ==> Now(calls[..k + 1], p) == Now(calls[..k], p))
      && (calls[k].Start? && Started(calls[..k], p) ==>
            Now(calls[..k + 1], p) == Now(calls[..k], p) + if DeletePending(calls[..k], p) then 0 else 1)
  {
    var p := PidOf(calls[k]);
    assert calls[..k + 1][..k] == calls[..k];
    DisciplinedPrefix(calls, k);
    DisciplinedPrefix(calls, k + 1);
    CurrentIsNow(calls[..k], p);
    CurrentIsNow(calls[..k + 1], p);
    GenerationCounts(calls[..k], p);
    assert BooksAfter(calls[..k + 1]) == AfterCall(BooksAfter(calls[..k]), calls[k]);
  }

  /** The same access was made before by the same process image. */
  predicate AccessedInImage(calls: seq<Call>, p: Pid, what: Touched) {
    calls != [] &&
    var front, c := calls[..|calls| - 1], calls[|calls| - 1];
    if PidOf(c) != p || c.Delete? then AccessedInImage(front, p, what)
    else c.Touch? && (c.what == what || AccessedInImage(front, p, what))
  }

  /** Neither a start nor an exit of the pid from position `j` on. */
  ghost predicate SameImage(calls: seq<Call>, p: Pid, j: nat) {
    forall i :: j <= i < |calls| && PidOf(calls[i]) == p ==> calls[i].Touch? || calls[i].Delete?
  }

  /** In terms of positions: there is such an access, and no start or exit since. */
  lemma {:induction false} AccessedInImageMeans(calls: seq<Call>, p: Pid, what: Touched)
    ensures AccessedInImage(calls, p, what) <==>
      exists j: nat :: j < |calls| && calls[j] == Touch(p, what) && SameImage(calls, p, j)
  {
    if calls != [] {
      var n := |calls| - 1;
      var front := calls[..n];
      AccessedInImageMeans(front, p, what);
      if j: nat :| j < n && front[j] == Touch(p, what) && SameImage(front, p, j) {
        assert calls[j] == Touch(p, what);
        assert SameImage(calls, p, j) <==> (PidOf(calls[n]) == p ==> calls[n].Touch? || calls[n].Delete?);
      }
      if j: nat :| j < |calls| && calls[j] == Touch(p, what) && SameImage(calls, p, j) {
        assert j < n ==> front[j] == Touch(p, what) && SameImage(front, p, j);
      }
      if calls[n] == Touch(p, what) {
        assert SameImage(calls, p, n);
      }
    }
  }

  lemma {:induction false} SeenIsAccessed(calls: seq<Call>, p: Pid, what: Touched)
    ensures KeyOf(what) in Seen(BooksAfter(calls), p) <==> AccessedInImage(calls, p, what)
  {
    if calls != [] {
      SeenIsAccessed(calls[..|calls| - 1], p, what);
      var c := calls[|calls| - 1];
      if c.Touch? {
        KeyInjective(what, c.what);
      }
      hide KeyOf;
    }
  }

  /** An access is queued exactly when its process image makes it for the first
      time: not if the same access was made before with no start or exit of the
      process in between. */
  lemma AccessKeptOnce(calls: seq<Call>, k: nat)
    requires k < |calls| && calls[k].Touch?
    ensures EventsAt(calls, k) ==
      if exists j: nat :: j < k && calls[..k][j] == calls[k] && SameImage(calls[..k], calls[k].pid, j) then []
      else [InsertAccess(CurrentId(BooksAfter(calls[..k]), calls[k].pid), calls[k].what)]
  {
    SeenIsAccessed(calls[..k], calls[k].pid, calls[k].what);
    AccessedInImageMeans(calls[..k], calls[k].pid, calls[k].what);
  }

  // ---- What the counters count ----

  /** The last start or exit of the pid was a start. */
  predicate Running(calls: seq<Call>, p: Pid) {
    calls != [] &&
    var c := calls[|calls| - 1];
    if PidOf(c) == p && (c.Start? || c.Exit?) then c.Start? else Running(calls[..|calls| - 1], p)
  }

  /** Accesses made before by the same process image. */
  function Repeats(calls: seq<Call>): nat {
    if calls == [] then 0
    else
      var front, c := calls[..|calls| - 1], calls[|calls| - 1];
      Repeats(front) + if c.Touch? && AccessedInImage(front, c.pid, c.what) then 1 else 0
  }

  /** Starts of a pid that was started before and not just deleted. */
  function Restarts(calls: seq<Call>, running: bool): nat {
    if calls == [] then 0
    else
      var front, c := calls[..|calls| - 1], calls[|calls| - 1];
      Restarts(front, running) +
        if c.Start? && Started(front, PidOf(c)) && !DeletePending(front, PidOf(c))
           && (running ==> Running(front, PidOf(c))) then 1 else 0
  }

  lemma {:induction false} LiveIsRunning(calls: seq<Call>, p: Pid)
    ensures p in BooksAfter(calls).live <==> Running(calls, p)
  {
    if calls != [] {
      LiveIsRunning(calls[..|calls| - 1], p);
    }
  }

  /** The three counters reported at the end: repeated accesses, recycled pids, and
      those among them whose previous incarnation was never seen to exit. */
  lemma {:induction false} CountersCount(calls: seq<Call>)
    requires Disciplined(calls)
    ensures BooksAfter(calls).dropped == Repeats(calls)
    ensures BooksAfter(calls).recycles == Restarts(calls, false)
    ensures BooksAfter(calls).lostExits == Restarts(calls, true)
  {
    if calls != [] {
      var front, c := calls[..|calls| - 1], calls[|calls| - 1];
      DisciplinedPrefix(calls, |calls| - 1);
      CountersCount(front);
      BooksFollow(front, PidOf(c));
      LiveIsRunning(front, PidOf(c));
      if c.Touch? {
        SeenIsAccessed(front, c.pid, c.what);
      }
      if c.Start? {
        assert !StaleDelete(calls[..|calls| - 1], PidOf(c));
      }
    }
  }
}
