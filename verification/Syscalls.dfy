/** The x86-64 system calls that are recorded, where their path arguments are,
    and what a completed call means for the trace. */
module Syscalls {
  import opened FileModes
  import opened SeccompFilter

  const SYS_OPEN: U32 := 2
  const SYS_STAT: U32 := 4
  const SYS_LSTAT: U32 := 6
  const SYS_ACCESS: U32 := 21
  const SYS_EXECVE: U32 := 59
  const SYS_TRUNCATE: U32 := 76
  const SYS_CHDIR: U32 := 80
  const SYS_FCHDIR: U32 := 81
  const SYS_RENAME: U32 := 82
  const SYS_MKDIR: U32 := 83
  const SYS_CREAT: U32 := 85
  const SYS_LINK: U32 := 86
  const SYS_UNLINK: U32 := 87
  const SYS_SYMLINK: U32 := 88
  const SYS_READLINK: U32 := 89
  const SYS_CHMOD: U32 := 90
  const SYS_CHOWN: U32 := 92
  const SYS_MKNOD: U32 := 133
  const SYS_OPENAT: U32 := 257
  const SYS_MKDIRAT: U32 := 258
  const SYS_MKNODAT: U32 := 259
  const SYS_FCHOWNAT: U32 := 260
  const SYS_NEWFSTATAT: U32 := 262
  const SYS_UNLINKAT: U32 := 263
  const SYS_RENAMEAT: U32 := 264
  const SYS_LINKAT: U32 := 265
  const SYS_SYMLINKAT: U32 := 266
  const SYS_READLINKAT: U32 := 267
  const SYS_FCHMODAT: U32 := 268
  const SYS_FACCESSAT: U32 := 269
  const SYS_UTIMENSAT: U32 := 280
  const SYS_RENAMEAT2: U32 := 316
  const SYS_EXECVEAT: U32 := 322
  const SYS_STATX: U32 := 332
  const SYS_OPENAT2: U32 := 437
  const SYS_FACCESSAT2: U32 := 439

  /** The numbers the filter traps. */
  const TRACED: seq<U32> := [
    SYS_OPEN, SYS_CREAT, SYS_OPENAT, SYS_OPENAT2,
    SYS_STAT, SYS_LSTAT, SYS_NEWFSTATAT, SYS_STATX,
    SYS_ACCESS, SYS_FACCESSAT, SYS_FACCESSAT2,
    SYS_CHDIR, SYS_FCHDIR,
    SYS_RENAME, SYS_RENAMEAT, SYS_RENAMEAT2,
    SYS_MKDIR, SYS_MKDIRAT,
    SYS_LINK, SYS_LINKAT,
    SYS_UNLINK, SYS_UNLINKAT,
    SYS_SYMLINK, SYS_SYMLINKAT,
    SYS_READLINK, SYS_READLINKAT,
    SYS_CHMOD, SYS_FCHMODAT,
    SYS_CHOWN, SYS_FCHOWNAT,
    SYS_MKNOD, SYS_MKNODAT,
    SYS_TRUNCATE, SYS_UTIMENSAT,
    SYS_EXECVE, SYS_EXECVEAT]

  /** What a call does with the files it names. */
  datatype Kind =
    | Opens
    | Probes(mode: Mode)             // recorded whether or not it succeeds
    | Changes(mode: Mode)            // recorded on success
    | ChangesTwo(src: Mode, dst: Mode) // two paths, recorded on success
    | Execs                          // recorded on failure; success is an exec event
    | ChangesDir
    | ChangesDirByFd
    | Other

  function KindOf(nr: int): Kind {
    if nr in {SYS_OPEN, SYS_OPENAT, SYS_OPENAT2, SYS_CREAT} then Opens
    else if nr in {SYS_STAT, SYS_LSTAT, SYS_NEWFSTATAT, SYS_STATX} then Probes(Stat)
    else if nr in {SYS_ACCESS, SYS_FACCESSAT, SYS_FACCESSAT2} then Probes(Access)
    else if nr in {SYS_EXECVE, SYS_EXECVEAT} then Execs
    else if nr in {SYS_UNLINK, SYS_UNLINKAT} then Changes(Unlink)
    else if nr in {SYS_RENAME, SYS_RENAMEAT, SYS_RENAMEAT2} then ChangesTwo(RenameSrc, RenameDst)
    else if nr in {SYS_LINK, SYS_LINKAT} then ChangesTwo(LinkSrc, LinkDst)
    else if nr in {SYS_SYMLINK, SYS_SYMLINKAT} then ChangesTwo(SymlinkTarget, SymlinkLink)
    else if nr in {SYS_READLINK, SYS_READLINKAT} then Changes(ReadLink)
    else if nr in {SYS_MKDIR, SYS_MKDIRAT} then Changes(MkDir)
    else if nr in {SYS_CHMOD, SYS_FCHMODAT} then Changes(ChMod)
    else if nr in {SYS_CHOWN, SYS_FCHOWNAT} then Changes(ChOwn)
    else if nr in {SYS_TRUNCATE} then Changes(Truncate)
    else if nr in {SYS_MKNOD, SYS_MKNODAT} then Changes(MkNod)
    else if nr in {SYS_UTIMENSAT} then Changes(UtimeNs)
    else if nr in {SYS_CHDIR} then ChangesDir
    else if nr in {SYS_FCHDIR} then ChangesDirByFd
    else Other
  }

  /** The `at` variants take a directory first. */
  predicate TakesDirFd(nr: int) {
    nr in {SYS_OPENAT, SYS_OPENAT2, SYS_NEWFSTATAT, SYS_FACCESSAT, SYS_FACCESSAT2, SYS_UNLINKAT, SYS_MKDIRAT,
           SYS_FCHMODAT, SYS_FCHOWNAT, SYS_READLINKAT, SYS_UTIMENSAT, SYS_MKNODAT, SYS_EXECVEAT, SYS_STATX,
           SYS_RENAMEAT, SYS_RENAMEAT2, SYS_LINKAT}
  }

  type Addr = nat

  datatype Args = Args(a0: Addr, a1: Addr, a2: Addr, a3: Addr)

  function FirstPath(nr: int, args: Args): Addr {
    if KindOf(nr).Other? || KindOf(nr).ChangesDirByFd? then 0
    else if TakesDirFd(nr) then args.a1
    else args.a0
  }

  function SecondPath(nr: int, args: Args): Addr {
    if !KindOf(nr).ChangesTwo? then 0
    else if nr == SYS_SYMLINKAT then args.a2
    else if TakesDirFd(nr) then args.a3
    else args.a1
  }

  /** The access mode bits of an open: read 0, write 1, both otherwise. */
  function OpenFlags(nr: int, args: Args): int {
    if nr == SYS_CREAT then O_CREAT_FLAGS
    else if KindOf(nr).Opens? then if TakesDirFd(nr) then args.a2 else args.a1
    else 0
  }

  const O_ACCMODE := 3
  const O_RDONLY := 0
  const O_WRONLY := 1
  const O_CREAT_FLAGS := 0x241  // O_WRONLY | O_CREAT | O_TRUNC

  function OpenMode(flags: int): Mode {
    var accmode := flags % (O_ACCMODE + 1);  // the lowest two bits
    if accmode == O_RDONLY then Read else if accmode == O_WRONLY then Write else ReadWrite
  }

  /** What the tracer does at one moment; strings are read from the tracee then. */
  datatype Action =
    | RecordAccess(path: Addr, mode: Mode, fd: int)
    | RecordFailure(path: Addr, mode: Mode, errno: int)
    | RefreshCwd
    | RecordCwd
    | RecordExecImage

  function Touch(path: Addr, mode: Mode): seq<Action> {
    if path != 0 then [RecordAccess(path, mode, -1)] else []
  }

  /** What a call that returned `ret` with these paths stands for. */
  function Effect(nr: int, path1: Addr, path2: Addr, flags: int, ret: int): seq<Action> {
    match KindOf(nr)
    case Opens =>
      if path1 == 0 then []
      else if ret >= 0 then [RecordAccess(path1, OpenMode(flags), ret)]
      else [RecordFailure(path1, OpenMode(flags), -ret)]
    case Probes(mode) =>
      if path1 == 0 then []
      else if ret >= 0 then [RecordAccess(path1, mode, -1)]
      else [RecordFailure(path1, mode, -ret)]
    case Changes(mode) => if ret >= 0 then Touch(path1, mode) else []
    case ChangesTwo(src, dst) => if ret >= 0 then Touch(path1, src) + Touch(path2, dst) else []
    case Execs => if ret < 0 then Touch(path1, Exec) else []
    case ChangesDir => if ret >= 0 && path1 != 0 then Touch(path1, ChDir) + [RefreshCwd] else []
    case ChangesDirByFd => if ret >= 0 then [RefreshCwd, RecordCwd] else []
    case Other => []
  }

  /** The filter covers every call the decoder knows, and nothing else. */
  lemma TracedIsKnown(nr: U32)
    ensures nr in TRACED <==> !KindOf(nr).Other?
  {
    var list := TRACED;
    assert |list| == 36;
    if nr in TRACED {
      var i :| 0 <= i < 36 && list[i] == nr;
      TracedKnownAt(i);
    }
    if !KindOf(nr).Other? {
      KnownTraced(nr);
    }
  }

  lemma TracedKnownAt(i: nat)
    requires i < |TRACED|
    ensures !KindOf(TRACED[i]).Other?
  {
  }

  lemma KnownTraced(nr: U32)
    requires !KindOf(nr).Other?
    ensures nr in TRACED
  {
    var t := TRACED;
    assert t[0] == SYS_OPEN && t[1] == SYS_CREAT && t[2] == SYS_OPENAT && t[3] == SYS_OPENAT2;
    assert t[4] == SYS_STAT && t[5] == SYS_LSTAT && t[6] == SYS_NEWFSTATAT && t[7] == SYS_STATX;
    assert t[8] == SYS_ACCESS && t[9] == SYS_FACCESSAT && t[10] == SYS_FACCESSAT2;
    assert t[11] == SYS_CHDIR && t[12] == SYS_FCHDIR;
    assert t[13] == SYS_RENAME && t[14] == SYS_RENAMEAT && t[15] == SYS_RENAMEAT2;
    assert t[16] == SYS_MKDIR && t[17] == SYS_MKDIRAT && t[18] == SYS_LINK && t[19] == SYS_LINKAT;
    assert t[20] == SYS_UNLINK && t[21] == SYS_UNLINKAT && t[22] == SYS_SYMLINK && t[23] == SYS_SYMLINKAT;
    assert t[24] == SYS_READLINK && t[25] == SYS_READLINKAT && t[26] == SYS_CHMOD && t[27] == SYS_FCHMODAT;
    assert t[28] == SYS_CHOWN && t[29] == SYS_FCHOWNAT && t[30] == SYS_MKNOD && t[31] == SYS_MKNODAT;
    assert t[32] == SYS_TRUNCATE && t[33] == SYS_UTIMENSAT && t[34] == SYS_EXECVE && t[35] == SYS_EXECVEAT;
  }
}
