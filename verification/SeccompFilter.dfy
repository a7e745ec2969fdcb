/** The generated classic-BPF program that picks the system calls to trap, and
    an interpreter for the three instructions it uses. */
module SeccompFilter {
  import opened Ordering

  type U8 = x: int | 0 <= x < 0x100
  type U32 = x: int | 0 <= x < 0x1_0000_0000

  const LD_W_ABS: int := 0x20
  const JEQ_K: int := 0x15
  const RET_K: int := 0x06
  const RET_TRACE: U32 := 0x7ff0_0000
  const RET_ALLOW: U32 := 0x7fff_0000
  const AUDIT_ARCH_X86_64: U32 := 0xC000_003E

  datatype Instruction = Instruction(code: int, jt: U8, jf: U8, k: U32)

  datatype Data = Data(nr: U32, arch: U32)

  datatype Outcome = Returned(value: U32) | Fault

  function Load(d: Data, offset: U32): U32
    requires offset == 0 || offset == 4
  {
    if offset == 0 then d.nr else d.arch
  }

  /** Runs a program from `pc`; jumps are relative to the next instruction. */
  function Run(prog: seq<Instruction>, pc: nat, acc: U32, d: Data): Outcome
    decreases |prog| - pc
  {
    if pc >= |prog| then Fault
    else
      var i := prog[pc];
      if i.code == LD_W_ABS then
        if i.k == 0 || i.k == 4 then Run(prog, pc + 1, Load(d, i.k), d) else Fault
      else if i.code == JEQ_K then Run(prog, pc + 1 + (if acc == i.k then i.jt else i.jf), acc, d)
      else if i.code == RET_K then Returned(i.k)
      else Fault
  }

  function Byte(x: int): U8 {
    x % 0x100
  }

  /** The filter for a list of numbers: two instructions check the architecture,
      one test per number jumps to the last return. The opcodes, the architecture and
      the return values are the kernel's. */
  ghost predicate IsFilter(prog: seq<Instruction>, nrs: seq<U32>) {
    var n := |nrs|;
    && |prog| == n + 5
    && prog[0] == Instruction(0x20, 0, 0, 4)
    && prog[1] == Instruction(0x15, 0, Byte(n + 1), 0xC000_003E)
    && prog[2] == Instruction(0x20, 0, 0, 0)
    && (forall i :: 0 <= i < n ==> prog[3 + i] == Instruction(0x15, Byte(n - i), 0, nrs[i]))
    && prog[3 + n] == Instruction(0x06, 0, 0, 0x7fff_0000)
    && prog[4 + n] == Instruction(0x06, 0, 0, 0x7ff0_0000)
  }

  method BuildFilter(nrs: seq<U32>) returns (filter: seq<Instruction>)
    ensures IsFilter(filter, nrs)
  {
    var n := |nrs|;
    var prog := new Instruction[3 + n + 2](_ => Instruction(RET_K, 0, 0, RET_ALLOW));
    var idx := 0;
    prog[idx] := Instruction(LD_W_ABS, 0, 0, 4);
    idx := idx + 1;
    prog[idx] := Instruction(JEQ_K, 0, Byte(n + 1), AUDIT_ARCH_X86_64);
    idx := idx + 1;
    prog[idx] := Instruction(LD_W_ABS, 0, 0, 0);
    idx := idx + 1;
    for i := 0 to n
      invariant idx == 3 + i
      invariant prog[0] == Instruction(LD_W_ABS, 0, 0, 4)
      invariant prog[1] == Instruction(JEQ_K, 0, Byte(n + 1), AUDIT_ARCH_X86_64)
      invariant prog[2] == Instruction(LD_W_ABS, 0, 0, 0)
      invariant forall j :: 0 <= j < i ==> prog[3 + j] == Instruction(JEQ_K, Byte(n - j), 0, nrs[j])
    {
      prog[idx] := Instruction(JEQ_K, Byte(n - i), 0, nrs[i]);
      idx := idx + 1;
    }
    prog[idx] := Instruction(RET_K, 0, 0, RET_ALLOW);
    idx := idx + 1;
    prog[idx] := Instruction(RET_K, 0, 0, RET_TRACE);
    filter := prog[..];
  }

  // ---- What the filter decides ----

  /** Trap a listed number of the native architecture, let everything else run. */
  function Wanted(nrs: seq<U32>, d: Data): Outcome {
    Returned(if d.arch == AUDIT_ARCH_X86_64 && d.nr in nrs then RET_TRACE else RET_ALLOW)
  }

  ghost predicate Decides(prog: seq<Instruction>, nrs: seq<U32>) {
    forall d :: Run(prog, 0, 0, d) == Wanted(nrs, d)
  }

  /** The chain of tests from the i-th on, for lists whose offsets fit a byte. */
  lemma {:induction false} ChainDecides(prog: seq<Instruction>, nrs: seq<U32>, i: nat, d: Data)
    requires IsFilter(prog, nrs) && i <= |nrs| <= 255
    ensures Run(prog, 3 + i, d.nr, d) == Returned(if d.nr in nrs[i..] then RET_TRACE else RET_ALLOW)
    decreases |nrs| - i
  {
    var n := |nrs|;
    if i < n {
      ChainDecides(prog, nrs, i + 1, d);
      assert nrs[i..] == [nrs[i]] + nrs[i + 1..];
      assert Byte(n - i) == n - i;
      assert prog[3 + i] == Instruction(JEQ_K, Byte(n - i), 0, nrs[i]);
      if d.nr == nrs[i] {
        assert Run(prog, 4 + n, d.nr, d) == Returned(RET_TRACE);
        assert 3 + i + 1 + (n - i) == 4 + n;
      }
    }
  }

  /** Up to 254 numbers the filter decides exactly as wanted, for every input;
      in particular it never leaves the program. */
  lemma FilterDecides(prog: seq<Instruction>, nrs: seq<U32>)
    requires IsFilter(prog, nrs) && |nrs| <= 254
    ensures Decides(prog, nrs)
  {
    var n := |nrs|;
    forall d ensures Run(prog, 0, 0, d) == Wanted(nrs, d) {
      ChainDecides(prog, nrs, 0, d);
      assert nrs[0..] == nrs;
      assert Run(prog, 0, 0, d) == Run(prog, 1, d.arch, d);
      if d.arch == AUDIT_ARCH_X86_64 {
        assert Run(prog, 1, d.arch, d) == Run(prog, 2, d.arch, d) == Run(prog, 3, d.nr, d);
      } else {
        assert Run(prog, 1, d.arch, d) == Run(prog, 3 + n, d.arch, d);
      }
    }
  }

  /** Past the last listed occurrence the chain falls through to ALLOW. */
  lemma {:induction false} ChainFallsThrough(prog: seq<Instruction>, nrs: seq<U32>, i: nat, d: Data)
    requires IsFilter(prog, nrs) && i <= |nrs| && d.nr !in nrs[i..]
    ensures Run(prog, 3 + i, d.nr, d) == Returned(RET_ALLOW)
    decreases |nrs| - i
  {
    if i < |nrs| {
      assert nrs[i] == nrs[i..][0] && nrs[i + 1..] == nrs[i..][1..];
      assert prog[3 + i] == Instruction(JEQ_K, Byte(|nrs| - i), 0, nrs[i]);
      ChainFallsThrough(prog, nrs, i + 1, d);
    }
  }

  /** With 255 numbers the architecture test no longer skips the chain. */
  lemma ForeignTrapped(prog: seq<Instruction>, nrs: seq<U32>)
    requires IsFilter(prog, nrs) && |nrs| == 255
    ensures var d := Data(nrs[0], 0);
      Run(prog, 0, 0, d) == Returned(RET_TRACE) && Wanted(nrs, d) == Returned(RET_ALLOW)
  {
    var d := Data(nrs[0], 0);
    ChainDecides(prog, nrs, 0, d);
    assert nrs[0..] == nrs;
    assert Byte(256) == 0;
    assert Run(prog, 0, 0, d) == Run(prog, 1, 0, d) == Run(prog, 2, 0, d) == Run(prog, 3, d.nr, d);
  }

  /** With more, the first number's jump wraps and misses the trap. */
  lemma FirstMissed(prog: seq<Instruction>, nrs: seq<U32>)
    requires IsFilter(prog, nrs) && |nrs| > 255 && NoDup(nrs)
    ensures var d := Data(nrs[0], AUDIT_ARCH_X86_64);
      Run(prog, 0, 0, d) == Returned(RET_ALLOW) && Wanted(nrs, d) == Returned(RET_TRACE)
  {
    var d := Data(nrs[0], AUDIT_ARCH_X86_64);
    var n := |nrs|;
    var m := Byte(n);
    assert m + 1 <= n;
    assert d.nr !in nrs[m + 1..];
    ChainFallsThrough(prog, nrs, m + 1, d);
    assert prog[3 + 0] == Instruction(JEQ_K, Byte(n - 0), 0, nrs[0]);
    assert Run(prog, 0, 0, d) == Run(prog, 1, d.arch, d) == Run(prog, 2, d.arch, d) == Run(prog, 3, d.nr, d);
    assert Run(prog, 3, d.nr, d) == Run(prog, 4 + m, d.nr, d);
  }

  /** For a list without repeats, 254 entries is exactly the limit. */
  lemma LimitIs254(prog: seq<Instruction>, nrs: seq<U32>)
    requires IsFilter(prog, nrs) && NoDup(nrs)
    ensures Decides(prog, nrs) <==> |nrs| <= 254
  {
    if |nrs| <= 254 {
      FilterDecides(prog, nrs);
    } else if |nrs| == 255 {
      ForeignTrapped(prog, nrs);
    } else {
      FirstMissed(prog, nrs);
    }
  }
}
