/** Following one tracee through its system calls, with every call stopped at
    entry and exit (classic tracing) or only the filtered ones (seccomp tracing). */
module SyscallTracing {
  import opened FileModes
  import opened SeccompFilter
  import opened Syscalls

  const ENOSYS := 38

  datatype Phase = Unknown | EntryNext | ExitNext

  /** The registers at a stop: call number, argument registers, return register. */
  datatype Regs = Regs(nr: int, args: Args, ret: int)

  datatype Fetched = NoRegs | Got(regs: Regs)

  datatype Resume = ToNextStop | RunOn

  // ---- The state kept per tracee ----

  datatype State = State(phase: Phase, exitNeeded: bool, pending: int, path1: Addr, path2: Addr, flags: int)

  const FRESH := State(Unknown, false, -1, 0, 0, 0)

  /** The part of the state a system call entry sets. */
  function Decoded(s: State, nr: int, args: Args): State {
    State(s.phase, FirstPath(nr, args) != 0 || nr == SYS_FCHDIR, nr,
          FirstPath(nr, args), SecondPath(nr, args), OpenFlags(nr, args))
  }

  function AfterSyscallStop(s: State, f: Fetched): State {
    if s.phase == ExitNext && !s.exitNeeded then s.(phase := EntryNext, pending := -1)
    else if f.NoRegs? then s
    else if f.regs.ret == -ENOSYS then Decoded(s.(phase := ExitNext), f.regs.nr, f.regs.args)
    else State(EntryNext, false, -1, 0, 0, s.flags)
  }

  function ActionsAtSyscallStop(s: State, f: Fetched): seq<Action> {
    if (s.phase == ExitNext && !s.exitNeeded) || f.NoRegs? || f.regs.ret == -ENOSYS then []
    else Effect(s.pending, s.path1, s.path2, s.flags, f.regs.ret)
  }

  function AfterSeccompStop(s: State, f: Fetched): State {
    if f.NoRegs? then s
    else
      var d := Decoded(s, f.regs.nr, f.regs.args);
      if d.exitNeeded then d.(phase := ExitNext) else d.(phase := EntryNext, pending := -1)
  }

  function AfterExecEvent(s: State): State {
    s.(pending := -1, path1 := 0, path2 := 0, exitNeeded := false)
  }

  /** The arguments the entry of a call leaves behind for its exit. */
  method SavedArguments(nr: int, args: Args) returns (path1: Addr, path2: Addr, flags: int)
    ensures path1 == FirstPath(nr, args) && path2 == SecondPath(nr, args) && flags == OpenFlags(nr, args)
  {
    path1, path2, flags := 0, 0, 0;
    if nr == SYS_OPEN {
      path1 := args.a0;
      flags := args.a1;
    } else if nr == SYS_OPENAT || nr == SYS_OPENAT2 {
      path1 := args.a1;
      flags := args.a2;
    } else if nr == SYS_CREAT {
      path1 := args.a0;
      flags := O_CREAT_FLAGS;
    } else if nr == SYS_STAT || nr == SYS_LSTAT || nr == SYS_ACCESS || nr == SYS_CHDIR || nr == SYS_UNLINK
        || nr == SYS_MKDIR || nr == SYS_CHMOD || nr == SYS_CHOWN || nr == SYS_READLINK || nr == SYS_TRUNCATE
        || nr == SYS_MKNOD || nr == SYS_EXECVE {
      path1 := args.a0;
    } else if nr == SYS_NEWFSTATAT || nr == SYS_FACCESSAT || nr == SYS_FACCESSAT2 || nr == SYS_UNLINKAT
        || nr == SYS_MKDIRAT || nr == SYS_FCHMODAT || nr == SYS_FCHOWNAT || nr == SYS_READLINKAT
        || nr == SYS_UTIMENSAT || nr == SYS_MKNODAT || nr == SYS_EXECVEAT || nr == SYS_STATX {
      path1 := args.a1;
    } else if nr == SYS_RENAME || nr == SYS_LINK || nr == SYS_SYMLINK {
      path1 := args.a0;
      path2 := args.a1;
    } else if nr == SYS_RENAMEAT || nr == SYS_RENAMEAT2 {
      path1 := args.a1;
      path2 := args.a3;
    } else if nr == SYS_LINKAT {
      path1 := args.a1;
      path2 := args.a3;
    } else if nr == SYS_SYMLINKAT {
      path1 := args.a0;
      path2 := args.a2;
    }
  }

  class Tracee {
    var phase: Phase
    var exitNeeded: bool
    var pendingSyscall: int
    var pendingPath1: Addr
    var pendingPath2: Addr
    var pendingFlags: int
    var log: seq<Action>

    constructor ()
      ensures Current() == FRESH && log == []
    {
      phase, exitNeeded, pendingSyscall := Unknown, false, -1;
      pendingPath1, pendingPath2, pendingFlags := 0, 0, 0;
      log := [];
    }

    function Current(): State
      reads this
    {
      State(phase, exitNeeded, pendingSyscall, pendingPath1, pendingPath2, pendingFlags)
    }

    method DecodeSyscallEntry(nr: int, args: Args)
      modifies this
      ensures Current() == Decoded(old(Current()), nr, args) && log == old(log)
    {
      var path1, path2, flags := SavedArguments(nr, args);
      pendingSyscall := nr;
      pendingPath1 := path1;
      pendingPath2 := path2;
      pendingFlags := flags;
      exitNeeded := pendingPath1 != 0 || nr == SYS_FCHDIR;
    }

    method RecordAt(path: Addr, mode: Mode, fd: int)
      modifies `log
      ensures log == old(log) + [RecordAccess(path, mode, fd)]
    {
      log := log + [RecordAccess(path, mode, fd)];
    }

    method RecordFailedAt(path: Addr, mode: Mode, errno: int)
      modifies `log
      ensures log == old(log) + [RecordFailure(path, mode, errno)]
    {
      log := log + [RecordFailure(path, mode, errno)];
    }

    method RecordExit(rax: int)
      modifies `log
      ensures log == old(log) + Effect(pendingSyscall, pendingPath1, pendingPath2, pendingFlags, rax)
    {
      var sc := pendingSyscall;
      if sc == SYS_OPEN || sc == SYS_OPENAT || sc == SYS_OPENAT2 || sc == SYS_CREAT {
        if pendingPath1 != 0 {
          var accmode := pendingFlags % 4;
          var mode := ReadWrite;
          if accmode == O_RDONLY {
            mode := Read;
          } else if accmode == O_WRONLY {
            mode := Write;
          }
          if rax >= 0 {
            RecordAt(pendingPath1, mode, rax);
          } else {
            RecordFailedAt(pendingPath1, mode, -rax);
          }
        }
      } else if sc == SYS_STAT || sc == SYS_LSTAT || sc == SYS_NEWFSTATAT || sc == SYS_STATX {
        if pendingPath1 != 0 {
          if rax >= 0 {
            RecordAt(pendingPath1, Stat, -1);
          } else {
            RecordFailedAt(pendingPath1, Stat, -rax);
          }
        }
      } else if sc == SYS_ACCESS || sc == SYS_FACCESSAT || sc == SYS_FACCESSAT2 {
        if pendingPath1 != 0 {
          if rax >= 0 {
            RecordAt(pendingPath1, Access, -1);
          } else {
            RecordFailedAt(pendingPath1, Access, -rax);
          }
        }
      } else if sc == SYS_EXECVE || sc == SYS_EXECVEAT {
        if rax < 0 && pendingPath1 != 0 {
          RecordAt(pendingPath1, Exec, -1);
        }
      } else if sc == SYS_UNLINK || sc == SYS_UNLINKAT {
        RecordOne(rax, Unlink);
      } else if sc == SYS_RENAME || sc == SYS_RENAMEAT || sc == SYS_RENAMEAT2 {
        RecordTwo(rax, RenameSrc, RenameDst);
      } else if sc == SYS_LINK || sc == SYS_LINKAT {
        RecordTwo(rax, LinkSrc, LinkDst);
      } else if sc == SYS_SYMLINK || sc == SYS_SYMLINKAT {
        RecordTwo(rax, SymlinkTarget, SymlinkLink);
      } else if sc == SYS_READLINK || sc == SYS_READLINKAT {
        RecordOne(rax, ReadLink);
      } else if sc == SYS_MKDIR || sc == SYS_MKDIRAT {
        RecordOne(rax, MkDir);
      } else if sc == SYS_CHMOD || sc == SYS_FCHMODAT {
        RecordOne(rax, ChMod);
      } else if sc == SYS_CHOWN || sc == SYS_FCHOWNAT {
        RecordOne(rax, ChOwn);
      } else if sc == SYS_TRUNCATE {
        RecordOne(rax, Truncate);
      } else if sc == SYS_MKNOD || sc == SYS_MKNODAT {
        RecordOne(rax, MkNod);
      } else if sc == SYS_UTIMENSAT {
        RecordOne(rax, UtimeNs);
      } else if sc == SYS_CHDIR {
        if rax >= 0 && pendingPath1 != 0 {
          RecordAt(pendingPath1, ChDir, -1);
          log := log + [RefreshCwd];
        }
      } else if sc == SYS_FCHDIR {
        if rax >= 0 {
          log := log + [RefreshCwd];
          log := log + [RecordCwd];
        }
      }
    }

    method RecordOne(rax: int, mode: Mode)
      modifies `log
      ensures log == old(log) + if rax >= 0 then Touch(pendingPath1, mode) else []
    {
      if rax >= 0 && pendingPath1 != 0 {
        RecordAt(pendingPath1, mode, -1);
      }
    }

    method RecordTwo(rax: int, src: Mode, dst: Mode)
      modifies `log
      ensures log == old(log) + if rax >= 0 then Touch(pendingPath1, src) + Touch(pendingPath2, dst) else []
    {
      if rax >= 0 {
        if pendingPath1 != 0 {
          RecordAt(pendingPath1, src, -1);
        }
        if pendingPath2 != 0 {
          RecordAt(pendingPath2, dst, -1);
        }
      }
    }

    /** A stop at system call entry or exit. `f` is what fetching the registers would give. */
    method HandleSyscallStop(f: Fetched)
      modifies this
      ensures Current() == AfterSyscallStop(old(Current()), f)
      ensures log == old(log) + ActionsAtSyscallStop(old(Current()), f)
    {
      if phase == ExitNext && !exitNeeded {
        phase := EntryNext;
        pendingSyscall := -1;
        return;
      }
      if f.NoRegs? {
        return;
      }
      var isEntry := f.regs.ret == -ENOSYS;
      phase := if isEntry then ExitNext else EntryNext;
      if isEntry {
        DecodeSyscallEntry(f.regs.nr, f.regs.args);
      } else {
        RecordExit(f.regs.ret);
        pendingSyscall := -1;
        pendingPath1 := 0;
        pendingPath2 := 0;
        exitNeeded := false;
      }
    }

    /** The filter trapped a call at its entry. The result says how the tracee goes on. */
    method HandleSeccompStop(f: Fetched) returns (next: Resume)
      modifies this
      ensures Current() == AfterSeccompStop(old(Current()), f) && log == old(log)
      ensures next == if f.Got? && Current().exitNeeded then ToNextStop else RunOn
    {
      if f.NoRegs? {
        return RunOn;
      }
      DecodeSyscallEntry(f.regs.nr, f.regs.args);
      if exitNeeded {
        phase := ExitNext;
        next := ToNextStop;
      } else {
        phase := EntryNext;
        pendingSyscall := -1;
        next := RunOn;
      }
    }

    /** A successful exec: the new image is recorded, the pending call forgotten. */
    method HandleExecEvent()
      modifies this
      ensures Current() == AfterExecEvent(old(Current())) && log == old(log) + [RecordExecImage]
    {
      log := log + [RecordExecImage];
      pendingSyscall := -1;
      pendingPath1 := 0;
      pendingPath2 := 0;
      exitNeeded := false;
    }
  }

  // ---- What the kernel delivers ----

  /** One completed system call. Argument registers keep their values to the exit. */
  datatype Call = Call(nr: U32, arch: U32, args: Args, ret: int, execed: bool)

  predicate Native(c: Call) {
    c.arch == AUDIT_ARCH_X86_64
  }

  datatype Traced = Traced(state: State, log: seq<Action>)

  function SyscallStop(t: Traced, f: Fetched): Traced {
    Traced(AfterSyscallStop(t.state, f), t.log + ActionsAtSyscallStop(t.state, f))
  }

  function ExecStop(t: Traced, c: Call): Traced {
    if c.execed then Traced(AfterExecEvent(t.state), t.log + [RecordExecImage]) else t
  }

  function EntryRegs(c: Call): Fetched {
    Got(Regs(c.nr, c.args, -ENOSYS))
  }

  function ExitRegs(c: Call): Fetched {
    Got(Regs(c.nr, c.args, c.ret))
  }

  /** Classic tracing: a stop at entry, the exec event if any, a stop at exit. */
  function ClassicCall(t: Traced, c: Call): Traced {
    SyscallStop(ExecStop(SyscallStop(t, EntryRegs(c)), c), ExitRegs(c))
  }

  /** A new child may first be seen at the exit of the call that created it. */
  function ClassicStart(atExit: bool): Traced {
    var t := Traced(FRESH, []);
    if atExit then SyscallStop(t, Got(Regs(0, Args(0, 0, 0, 0), 0))) else t
  }

  function Classic(atExit: bool, calls: seq<Call>): Traced {
    if calls == [] then ClassicStart(atExit)
    else ClassicCall(Classic(atExit, calls[..|calls| - 1]), calls[|calls| - 1])
  }

  /** Where the kernel places the seccomp stop: in the role of the entry stop
      (Linux 4.8 on), or before a separate entry stop (earlier). */
  datatype Kernel = SeccompAtEntry | SeccompThenEntry

  /** Seccomp tracing: a stop only if the filter says so; then, if the exit is
      wanted, the tracee runs to its next stop. After any other event it runs on. */
  function SeccompCall(k: Kernel, prog: seq<Instruction>, t: Traced, c: Call): Traced {
    if Run(prog, 0, 0, Data(c.nr, c.arch)) == Returned(RET_TRACE) then
      var s := Traced(AfterSeccompStop(t.state, EntryRegs(c)), t.log);
      if !s.state.exitNeeded then ExecStop(s, c)
      else if k == SeccompThenEntry then ExecStop(SyscallStop(s, EntryRegs(c)), c)
      else if c.execed then ExecStop(s, c)
      else SyscallStop(s, ExitRegs(c))
    else ExecStop(t, c)
  }

  function Seccomp(k: Kernel, prog: seq<Instruction>, calls: seq<Call>): Traced {
    if calls == [] then Traced(FRESH, [])
    else SeccompCall(k, prog, Seccomp(k, prog, calls[..|calls| - 1]), calls[|calls| - 1])
  }

  // ---- What a run means, without stops or phases ----

  /** A completed call's contribution to the trace. */
  function Meaning(c: Call): seq<Action> {
    if c.execed then [RecordExecImage]
    else if c.ret == -ENOSYS || (FirstPath(c.nr, c.args) == 0 && c.nr != SYS_FCHDIR) then []
    else Effect(c.nr, FirstPath(c.nr, c.args), SecondPath(c.nr, c.args), OpenFlags(c.nr, c.args), c.ret)
  }

  function ExecOnly(c: Call): seq<Action> {
    if c.execed then [RecordExecImage] else []
  }

  function Total(calls: seq<Call>, f: Call -> seq<Action>): seq<Action> {
    if calls == [] then [] else Total(calls[..|calls| - 1], f) + f(calls[|calls| - 1])
  }

  /** Between calls the fast path that skips an exit is not armed. */
  predicate Ready(s: State) {
    s.phase == ExitNext ==> s.exitNeeded
  }

  lemma ClassicStep(t: Traced, c: Call)
    requires Ready(t.state)
    ensures Ready(ClassicCall(t, c).state) && ClassicCall(t, c).log == t.log + Meaning(c)
  {
    var s1 := SyscallStop(t, EntryRegs(c));
    assert s1.log == t.log + [] == t.log;
    assert s1.state == Decoded(t.state.(phase := ExitNext), c.nr, c.args);
    var s2 := ExecStop(s1, c);
    var s3 := SyscallStop(s2, ExitRegs(c));
    if c.execed {
      assert s3.log == t.log + [RecordExecImage] + [];
    } else if !s2.state.exitNeeded || c.ret == -ENOSYS {
      assert s3.log == t.log + [];
    }
  }

  /** Classic tracing records exactly what the calls mean. */
  lemma {:induction false} ClassicRecords(atExit: bool, calls: seq<Call>)
    ensures Ready(Classic(atExit, calls).state)
    ensures Classic(atExit, calls).log == Total(calls, Meaning)
  {
    if calls != [] {
      ClassicRecords(atExit, calls[..|calls| - 1]);
      ClassicStep(Classic(atExit, calls[..|calls| - 1]), calls[|calls| - 1]);
    }
  }

  /** Two ways of reading a run agree exactly when they agree on every call,
      provided one never says more than the other. */
  lemma {:induction false} TotalsCompared(calls: seq<Call>, f: Call -> seq<Action>, g: Call -> seq<Action>)
    requires forall c :: |f(c)| <= |g(c)|
    ensures |Total(calls, f)| <= |Total(calls, g)|
    ensures Total(calls, f) == Total(calls, g) <==> forall i :: 0 <= i < |calls| ==> f(calls[i]) == g(calls[i])
  {
    if calls != [] {
      var front, c := calls[..|calls| - 1], calls[|calls| - 1];
      TotalsCompared(front, f, g);
      if Total(calls, f) == Total(calls, g) {
        var n := |Total(front, g)|;
        assert |Total(front, f)| == n && |f(c)| == |g(c)|;
        assert Total(front, f) == Total(calls, f)[..n] && Total(front, g) == Total(calls, g)[..n];
        assert f(c) == Total(calls, f)[n..] && g(c) == Total(calls, g)[n..];
        assert forall i :: 0 <= i < |front| ==> front[i] == calls[i];
      }
    }
  }

  // ---- Skipping the registers of unwanted exits ----

  /** A stop handled without the fast path: the registers are fetched every time. */
  function InspectedStop(t: Traced, r: Regs): Traced {
    if r.ret == -ENOSYS then Traced(Decoded(t.state.(phase := ExitNext), r.nr, r.args), t.log)
    else Traced(State(EntryNext, false, -1, 0, 0, t.state.flags),
                t.log + Effect(t.state.pending, t.state.path1, t.state.path2, t.state.flags, r.ret))
  }

  function InspectedCall(t: Traced, c: Call): Traced {
    InspectedStop(ExecStop(InspectedStop(t, EntryRegs(c).regs), c), ExitRegs(c).regs)
  }

  function Inspected(calls: seq<Call>): Traced {
    if calls == [] then Traced(FRESH, []) else InspectedCall(Inspected(calls[..|calls| - 1]), calls[|calls| - 1])
  }

  function InspectedMeaning(c: Call): seq<Action> {
    if c.execed then [RecordExecImage]
    else if c.ret == -ENOSYS then []
    else Effect(c.nr, FirstPath(c.nr, c.args), SecondPath(c.nr, c.args), OpenFlags(c.nr, c.args), c.ret)
  }

  lemma InspectedStep(t: Traced, c: Call)
    ensures InspectedCall(t, c).log == t.log + InspectedMeaning(c)
  {
    hide Effect, FirstPath, SecondPath, OpenFlags;
    assert t.log + [] == t.log && t.log + [RecordExecImage] + [] == t.log + [RecordExecImage];
    ForgottenCall(c);
  }

  lemma ForgottenCall(c: Call)
    ensures Effect(-1, 0, 0, 0, c.ret) == [] && forall flags :: Effect(-1, 0, 0, flags, c.ret) == []
  {
  }

  lemma {:induction false} InspectedRecords(calls: seq<Call>)
    ensures Inspected(calls).log == Total(calls, InspectedMeaning)
  {
    if calls != [] {
      InspectedRecords(calls[..|calls| - 1]);
      InspectedStep(Inspected(calls[..|calls| - 1]), calls[|calls| - 1]);
    }
  }

  /** A two-path call that succeeds although its first path is null. */
  predicate NullFirstSucceeds(c: Call) {
    !c.execed && c.ret >= 0 && FirstPath(c.nr, c.args) == 0 && SecondPath(c.nr, c.args) != 0
  }

  lemma SkippedMeaning(c: Call)
    ensures |Meaning(c)| <= |InspectedMeaning(c)|
    ensures Meaning(c) == InspectedMeaning(c) <==> !NullFirstSucceeds(c)
  {
  }

  /** Skipping loses nothing, exactly when a null first path makes a call fail. */
  lemma SkippingIsHarmless(atExit: bool, calls: seq<Call>)
    ensures Classic(atExit, calls).log == Inspected(calls).log <==>
      forall i :: 0 <= i < |calls| ==> !NullFirstSucceeds(calls[i])
  {
    ClassicRecords(atExit, calls);
    InspectedRecords(calls);
    forall c ensures |Meaning(c)| <= |InspectedMeaning(c)| && (Meaning(c) == InspectedMeaning(c) <==> !NullFirstSucceeds(c)) {
      SkippedMeaning(c);
    }
    hide NullFirstSucceeds, Meaning, InspectedMeaning, Classic, Inspected;
    TotalsCompared(calls, Meaning, InspectedMeaning);
  }

  // ---- Seccomp tracing refines classic tracing ----

  ghost predicate TrapsKnown(prog: seq<Instruction>) {
    IsFilter(prog, TRACED)
  }

  lemma TrapsExactlyKnown(prog: seq<Instruction>, c: Call)
    requires TrapsKnown(prog)
    ensures Run(prog, 0, 0, Data(c.nr, c.arch)) == Returned(RET_TRACE) <==> Native(c) && !KindOf(c.nr).Other?
  {
    assert |TRACED| == 36;
    FilterDecides(prog, TRACED);
    TracedIsKnown(c.nr);
    assert Run(prog, 0, 0, Data(c.nr, c.arch)) == Wanted(TRACED, Data(c.nr, c.arch));
  }

  lemma UnknownMeansNothing(c: Call)
    requires KindOf(c.nr).Other?
    ensures Meaning(c) == ExecOnly(c)
  {
  }

  function NativeMeaning(c: Call): seq<Action> {
    if Native(c) then Meaning(c) else ExecOnly(c)
  }

  lemma SeccompStep(prog: seq<Instruction>, t: Traced, c: Call)
    requires TrapsKnown(prog)
    ensures SeccompCall(SeccompAtEntry, prog, t, c).log == t.log + NativeMeaning(c)
  {
    TrapsExactlyKnown(prog, c);
    hide Run;
    if KindOf(c.nr).Other? {
      UnknownMeansNothing(c);
    }
    if !Native(c) || KindOf(c.nr).Other? {
      assert t.log + [] == t.log;
    } else {
      var s := Traced(AfterSeccompStop(t.state, EntryRegs(c)), t.log);
      assert t.log + [] == t.log;
    }
  }

  lemma {:induction false} SeccompRecords(prog: seq<Instruction>, calls: seq<Call>)
    requires TrapsKnown(prog)
    ensures Seccomp(SeccompAtEntry, prog, calls).log == Total(calls, NativeMeaning)
  {
    if calls != [] {
      SeccompRecords(prog, calls[..|calls| - 1]);
      SeccompStep(prog, Seccomp(SeccompAtEntry, prog, calls[..|calls| - 1]), calls[|calls| - 1]);
    }
  }

  /** Whether the exit of a call of this kind is recorded, given what it returned. */
  predicate RecordedAt(kind: Kind, ret: int) {
    kind.Opens? || kind.Probes? || if kind.Execs? then ret < 0 else ret >= 0
  }

  /** A call of another architecture whose number, read as a native one, has its
      exit inspected and recorded. */
  predicate Confusing(c: Call) {
    && !Native(c) && !c.execed && c.ret != -ENOSYS
    && (FirstPath(c.nr, c.args) != 0 || c.nr == SYS_FCHDIR)
    && RecordedAt(KindOf(c.nr), c.ret)
  }

  /** Both ways of tracing record the same sequence, exactly when no call of a
      foreign architecture is mistaken for a recorded one. */
  lemma SeccompRefinesClassic(prog: seq<Instruction>, atExit: bool, calls: seq<Call>)
    requires TrapsKnown(prog)
    ensures Seccomp(SeccompAtEntry, prog, calls).log == Classic(atExit, calls).log <==>
      forall i :: 0 <= i < |calls| ==> !Confusing(calls[i])
  {
    ClassicRecords(atExit, calls);
    SeccompRecords(prog, calls);
    forall c ensures |NativeMeaning(c)| <= |Meaning(c)| && (NativeMeaning(c) == Meaning(c) <==> !Confusing(c)) {
      ForeignMeaning(c);
    }
    hide Confusing, Meaning, NativeMeaning, Classic, Seccomp, TrapsKnown;
    TotalsCompared(calls, NativeMeaning, Meaning);
  }

  lemma ForeignMeaning(c: Call)
    ensures |NativeMeaning(c)| <= |Meaning(c)|
    ensures NativeMeaning(c) == Meaning(c) <==> !Confusing(c)
  {
  }

  const AUDIT_ARCH_I386: U32 := 0x4000_0003

  /** Number 4 is write on 32-bit x86 and stat on x86-64: a write to descriptor 1
      is recorded by full tracing as a probe of path 1, and not under seccomp. */
  lemma WriteTakenForStat(prog: seq<Instruction>, atExit: bool)
    requires TrapsKnown(prog)
    ensures var c := Call(4, AUDIT_ARCH_I386, Args(1, 0, 0, 0), 0, false);
      && Confusing(c)
      && Classic(atExit, [c]).log == [RecordAccess(1, Stat, -1)]
      && Seccomp(SeccompAtEntry, prog, [c]).log == []
  {
    var c := Call(4, AUDIT_ARCH_I386, Args(1, 0, 0, 0), 0, false);
    ClassicRecords(atExit, [c]);
    SeccompRecords(prog, [c]);
    assert [c][..0] == [];
    assert Total([c], Meaning) == [] + Meaning(c) && Total([c], NativeMeaning) == [] + NativeMeaning(c);
  }

  /** On a kernel that reports a separate entry stop after the seccomp stop, the
      exit stop is never asked for and only exec events are recorded. */
  lemma {:induction false} SeparateEntryRecordsExecsOnly(prog: seq<Instruction>, calls: seq<Call>)
    ensures Seccomp(SeccompThenEntry, prog, calls).log == Total(calls, ExecOnly)
  {
    if calls != [] {
      var t := Seccomp(SeccompThenEntry, prog, calls[..|calls| - 1]);
      SeparateEntryRecordsExecsOnly(prog, calls[..|calls| - 1]);
      hide Run;
      assert t.log + [] == t.log;
    }
  }
}
