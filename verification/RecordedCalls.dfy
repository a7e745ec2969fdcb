/** What each traced system call adds to the trace, number by number and register
    by register, for calls of this machine's architecture. */
module RecordedCalls {
  import opened FileModes
  import opened SeccompFilter
  import opened Syscalls
  import opened SyscallTracing

  /** After any run, this call adds the same to the log under full and under
      seccomp tracing. */
  ghost predicate Adds(prog: seq<Instruction>, atExit: bool, calls: seq<Call>, c: Call, added: seq<Action>) {
    && Classic(atExit, calls + [c]).log == Classic(atExit, calls).log + added
    && Seccomp(SeccompAtEntry, prog, calls + [c]).log == Seccomp(SeccompAtEntry, prog, calls).log + added
  }

  lemma AddsMeaning(prog: seq<Instruction>, atExit: bool, calls: seq<Call>, c: Call)
    requires TrapsKnown(prog) && c.arch == 0xC000_003E
    ensures Adds(prog, atExit, calls, c, Meaning(c))
  {
    assert (calls + [c])[..|calls|] == calls;
    ClassicRecords(atExit, calls);
    hide Meaning, Run, TrapsKnown, ClassicCall, SeccompCall;
    ClassicStep(Classic(atExit, calls), c);
    SeccompStep(prog, Seccomp(SeccompAtEntry, prog, calls), c);
  }

  /** A call that did not replace the process image, of this architecture. */
  predicate Plain(c: Call) {
    c.arch == 0xC000_003E && !c.execed
  }

  /** One file named by a call, unless its address is null. */
  function Named(path: Addr, mode: Mode): (r: seq<Action>)
    ensures r == [] || r == [RecordAccess(path, mode, -1)]
    ensures r == [] <==> path == 0
  {
    if path != 0 then [RecordAccess(path, mode, -1)] else []
  }

  // ---- What the numbers stand for ----

  lemma OpenKind(nr: int, args: Args, path: Addr, flags: int)
    requires
      || (nr == 2 && path == args.a0 && flags == args.a1)
      || (nr == 257 && path == args.a1 && flags == args.a2)
      || (nr == 437 && path == args.a1 && flags == args.a2)
      || (nr == 85 && path == args.a0 && flags % 4 == 1)
    ensures KindOf(nr) == Opens && FirstPath(nr, args) == path && OpenFlags(nr, args) % 4 == flags % 4
  {
  }

  lemma ProbeKind(nr: int, args: Args, path: Addr, mode: Mode)
    requires
      || (nr in {4, 6} && path == args.a0 && mode == Stat)
      || (nr in {262, 332} && path == args.a1 && mode == Stat)
      || (nr == 21 && path == args.a0 && mode == Access)
      || (nr in {269, 439} && path == args.a1 && mode == Access)
    ensures KindOf(nr) == Probes(mode) && FirstPath(nr, args) == path
  {
  }

  lemma ChangeKind(nr: int, mode: Mode)
    requires (nr, mode) in
      {(87, Unlink), (89, ReadLink), (83, MkDir), (90, ChMod), (92, ChOwn), (76, Truncate), (133, MkNod),
       (263, Unlink), (267, ReadLink), (258, MkDir), (268, ChMod), (260, ChOwn), (259, MkNod), (280, UtimeNs)}
    ensures KindOf(nr) == Changes(mode)
  {
  }

  lemma ChangePath(nr: int, args: Args, path: Addr, mode: Mode)
    requires KindOf(nr) == Changes(mode)
    requires (nr in {76, 83, 87, 89, 90, 92, 133} && path == args.a0)
          || (nr in {258, 259, 260, 263, 267, 268, 280} && path == args.a1)
    ensures FirstPath(nr, args) == path
  {
    hide KindOf;
  }

  lemma MoveKind(nr: int, from: Mode, to: Mode)
    requires
      || (nr in {82, 264, 316} && from == RenameSrc && to == RenameDst)
      || (nr in {86, 265} && from == LinkSrc && to == LinkDst)
      || (nr in {88, 266} && from == SymlinkTarget && to == SymlinkLink)
    ensures KindOf(nr) == ChangesTwo(from, to)
  {
  }

  lemma MovePaths(nr: int, args: Args, src: Addr, dst: Addr)
    requires KindOf(nr).ChangesTwo?
    requires
      || (nr in {82, 86, 88} && src == args.a0 && dst == args.a1)
      || (nr in {264, 316, 265} && src == args.a1 && dst == args.a3)
      || (nr == 266 && src == args.a0 && dst == args.a2)
    ensures FirstPath(nr, args) == src && SecondPath(nr, args) == dst
  {
    hide KindOf;
  }

  lemma ExecKind(nr: int, args: Args, path: Addr)
    requires (nr == 59 && path == args.a0) || (nr == 322 && path == args.a1)
    ensures KindOf(nr) == Execs && FirstPath(nr, args) == path
  {
  }

  lemma ChdirKind(args: Args)
    ensures KindOf(80) == ChangesDir && FirstPath(80, args) == args.a0
    ensures KindOf(81) == ChangesDirByFd
  {
  }

  lemma OtherKind(nr: int)
    requires nr !in
      {2, 4, 6, 21, 59, 76, 80, 81, 82, 83, 85, 86, 87, 88, 89, 90, 92, 133, 257, 258, 259, 260, 262, 263, 264,
       265, 266, 267, 268, 269, 280, 316, 322, 332, 437, 439}
    ensures KindOf(nr) == Other
  {
  }

  // ---- What a call adds ----

  /** An open records its path with the mode of the two low flag bits, the
      descriptor on success and the error on failure. */
  lemma OpenAdds(prog: seq<Instruction>, atExit: bool, calls: seq<Call>, c: Call, path: Addr, flags: int)
    requires TrapsKnown(prog) && Plain(c) && c.ret != -38
    requires
      || (c.nr == 2 && path == c.args.a0 && flags == c.args.a1)
      || (c.nr == 257 && path == c.args.a1 && flags == c.args.a2)
      || (c.nr == 437 && path == c.args.a1 && flags == c.args.a2)
      || (c.nr == 85 && path == c.args.a0 && flags % 4 == 1)
    ensures
      var mode := if flags % 4 == 0 then Read else if flags % 4 == 1 then Write else ReadWrite;
      Adds(prog, atExit, calls, c,
           if path == 0 then []
           else if c.ret >= 0 then [RecordAccess(path, mode, c.ret)]
           else [RecordFailure(path, mode, -c.ret)])
  {
    hide Adds, TrapsKnown, KindOf, TakesDirFd, FirstPath, SecondPath, OpenFlags;
    AddsMeaning(prog, atExit, calls, c);
    OpenKind(c.nr, c.args, path, flags);
  }

  /** A look at a file's attributes or permissions is recorded either way. */
  lemma ProbeAdds(prog: seq<Instruction>, atExit: bool, calls: seq<Call>, c: Call, path: Addr, mode: Mode)
    requires TrapsKnown(prog) && Plain(c) && c.ret != -38
    requires
      || (c.nr in {4, 6} && path == c.args.a0 && mode == Stat)
      || (c.nr in {262, 332} && path == c.args.a1 && mode == Stat)
      || (c.nr == 21 && path == c.args.a0 && mode == Access)
      || (c.nr in {269, 439} && path == c.args.a1 && mode == Access)
    ensures Adds(prog, atExit, calls, c,
                 if path == 0 then []
                 else if c.ret >= 0 then [RecordAccess(path, mode, -1)]
                 else [RecordFailure(path, mode, -c.ret)])
  {
    hide Adds, TrapsKnown, KindOf, TakesDirFd, FirstPath, SecondPath, OpenFlags;
    AddsMeaning(prog, atExit, calls, c);
    ProbeKind(c.nr, c.args, path, mode);
  }

  /** A change to one file, or the reading of a link, is recorded if it succeeds. */
  lemma ChangeAdds(prog: seq<Instruction>, atExit: bool, calls: seq<Call>, c: Call, path: Addr, mode: Mode)
    requires TrapsKnown(prog) && Plain(c)
    requires
      || (path == c.args.a0 && (c.nr, mode) in
            {(87, Unlink), (89, ReadLink), (83, MkDir), (90, ChMod), (92, ChOwn), (76, Truncate), (133, MkNod)})
      || (path == c.args.a1 && (c.nr, mode) in
            {(263, Unlink), (267, ReadLink), (258, MkDir), (268, ChMod), (260, ChOwn), (259, MkNod), (280, UtimeNs)})
    ensures Adds(prog, atExit, calls, c, if c.ret >= 0 then Named(path, mode) else [])
  {
    hide Adds, TrapsKnown, KindOf, TakesDirFd, FirstPath, SecondPath, OpenFlags;
    AddsMeaning(prog, atExit, calls, c);
    ChangeKind(c.nr, mode);
    ChangePath(c.nr, c.args, path, mode);
  }

  /** A call with two paths records both if it succeeds, first where the file
      came from; nothing at all without a first path. */
  lemma MoveAdds(prog: seq<Instruction>, atExit: bool, calls: seq<Call>, c: Call,
                 src: Addr, from: Mode, dst: Addr, to: Mode)
    requires TrapsKnown(prog) && Plain(c)
    requires
      || (c.nr in {82, 264, 316} && from == RenameSrc && to == RenameDst)
      || (c.nr in {86, 265} && from == LinkSrc && to == LinkDst)
      || (c.nr in {88, 266} && from == SymlinkTarget && to == SymlinkLink)
    requires
      || (c.nr in {82, 86, 88} && src == c.args.a0 && dst == c.args.a1)
      || (c.nr in {264, 316, 265} && src == c.args.a1 && dst == c.args.a3)
      || (c.nr == 266 && src == c.args.a0 && dst == c.args.a2)
    ensures Adds(prog, atExit, calls, c,
                 if c.ret >= 0 && src != 0 then [RecordAccess(src, from, -1)] + Named(dst, to) else [])
  {
    hide Adds, TrapsKnown, KindOf, TakesDirFd, FirstPath, SecondPath, OpenFlags;
    AddsMeaning(prog, atExit, calls, c);
    MoveKind(c.nr, from, to);
    MovePaths(c.nr, c.args, src, dst);
  }

  /** A failed exec records its path. */
  lemma FailedExecAdds(prog: seq<Instruction>, atExit: bool, calls: seq<Call>, c: Call, path: Addr)
    requires TrapsKnown(prog) && Plain(c) && c.ret != -38
    requires (c.nr == 59 && path == c.args.a0) || (c.nr == 322 && path == c.args.a1)
    ensures Adds(prog, atExit, calls, c, if c.ret < 0 then Named(path, Exec) else [])
  {
    hide Adds, TrapsKnown, KindOf, TakesDirFd, FirstPath, SecondPath, OpenFlags;
    AddsMeaning(prog, atExit, calls, c);
    ExecKind(c.nr, c.args, path);
  }

  /** A call that replaced the process image records that and nothing else. */
  lemma ExecAdds(prog: seq<Instruction>, atExit: bool, calls: seq<Call>, c: Call)
    requires TrapsKnown(prog) && c.arch == 0xC000_003E && c.execed
    ensures Adds(prog, atExit, calls, c, [RecordExecImage])
  {
    AddsMeaning(prog, atExit, calls, c);
  }

  /** A change of directory, by path or by descriptor, is followed if it succeeds. */
  lemma ChdirAdds(prog: seq<Instruction>, atExit: bool, calls: seq<Call>, c: Call)
    requires TrapsKnown(prog) && Plain(c)
    ensures c.nr == 80 ==>
      Adds(prog, atExit, calls, c,
           if c.ret >= 0 && c.args.a0 != 0 then [RecordAccess(c.args.a0, ChDir, -1), RefreshCwd] else [])
    ensures c.nr == 81 ==> Adds(prog, atExit, calls, c, if c.ret >= 0 then [RefreshCwd, RecordCwd] else [])
  {
    hide Adds, TrapsKnown, KindOf, TakesDirFd, FirstPath, SecondPath, OpenFlags;
    AddsMeaning(prog, atExit, calls, c);
    ChdirKind(c.args);
    var a := RecordAccess(c.args.a0, ChDir, -1);
    assert [a] + [RefreshCwd] == [a, RefreshCwd];
  }

  /** Every other call, and every call the kernel does not know, adds nothing. */
  lemma OtherAdds(prog: seq<Instruction>, atExit: bool, calls: seq<Call>, c: Call)
    requires TrapsKnown(prog) && Plain(c)
    requires c.ret == -38 || c.nr !in
      {2, 4, 6, 21, 59, 76, 80, 81, 82, 83, 85, 86, 87, 88, 89, 90, 92, 133, 257, 258, 259, 260, 262, 263, 264,
       265, 266, 267, 268, 269, 280, 316, 322, 332, 437, 439}
    ensures Adds(prog, atExit, calls, c, [])
  {
    hide Adds, TrapsKnown, KindOf, TakesDirFd, FirstPath, SecondPath, OpenFlags;
    AddsMeaning(prog, atExit, calls, c);
    if c.ret != -38 {
      OtherKind(c.nr);
    }
  }
}
