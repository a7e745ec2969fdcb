/** Reading a C string out of a stopped process, page by page or word by word. */
module StringReader {

  datatype Cell = Unmapped | Byte(c: char)

  /** What each address of the stopped process holds. */
  type Memory = int -> Cell

  const NUL := '\0'
  const BUFFER := 4096
  const WORD := 8
  const ADDRESSES := 0x1_0000_0000_0000_0000
  const USER_END := 0x8000_0000_0000

  function Wrap(x: int): int { x % ADDRESSES }

  /** Mappings come in whole pages, all of them in the user half. */
  ghost predicate Paged(mem: Memory, page: int)
    requires page > 0
  {
    && (forall a, b :: a / page == b / page ==> (mem(a).Unmapped? <==> mem(b).Unmapped?))
    && (forall a :: mem(a).Byte? ==> 0 <= a < USER_END)
  }

  /** The bytes from `addr` on, up to a NUL, the limit or the first unmapped address. */
  function StringAt(mem: Memory, addr: int, limit: nat): (s: string)
    ensures |s| <= limit
    decreases limit
  {
    if limit == 0 || mem(addr).Unmapped? || mem(addr).c == NUL then ""
    else [mem(addr).c] + StringAt(mem, addr + 1, limit - 1)
  }

  /** The `k`-th byte from `addr`. */
  function At(mem: Memory, addr: int, k: int): Cell { mem(addr + k) }

  /** `s` lies in memory at `addr`, with no NUL in it. */
  predicate Holds(mem: Memory, addr: int, s: string) {
    forall k :: 0 <= k < |s| ==> At(mem, addr, k) == Byte(s[k]) && s[k] != '\0'
  }

  lemma HeldAt(mem: Memory, addr: int, s: string, k: nat)
    requires Holds(mem, addr, s) && k < |s|
    ensures mem(addr + k) == Byte(s[k]) && s[k] != NUL
  {
    assert At(mem, addr, k) == Byte(s[k]);
  }

  lemma NotHeld(mem: Memory, addr: int, s: string)
    requires s != "" && (mem(addr).Unmapped? || mem(addr).c == NUL)
    ensures !Holds(mem, addr, s)
  {
    assert !(At(mem, addr, 0) == Byte(s[0]) && s[0] != NUL);
  }

  /** What makes a string end where it does. */
  predicate StopsAt(mem: Memory, addr: int, limit: nat, n: nat) {
    n == limit || mem(addr + n).Unmapped? || mem(addr + n).c == '\0'
  }

  /** The string read is the one that lies in memory and ends where it must. */
  lemma {:induction false} StringAtMeans(mem: Memory, addr: int, limit: nat, s: string)
    requires |s| <= limit
    ensures s == StringAt(mem, addr, limit) <==> Holds(mem, addr, s) && StopsAt(mem, addr, limit, |s|)
    decreases limit
  {
    var stops := limit == 0 || mem(addr).Unmapped? || mem(addr).c == NUL;
    if s == "" {
    } else if stops {
      NotHeld(mem, addr, s);
    } else {
      var rest := s[1..];
      StringAtMeans(mem, addr + 1, limit - 1, rest);
      assert s == [s[0]] + rest;
      assert addr + 1 + |rest| == addr + |s|;
      if Holds(mem, addr, s) {
        assert At(mem, addr, 0) == Byte(s[0]);
        forall k | 0 <= k < |rest| ensures At(mem, addr + 1, k) == Byte(rest[k]) && rest[k] != NUL {
          assert At(mem, addr, k + 1) == Byte(s[k + 1]);
        }
      }
      if Holds(mem, addr + 1, rest) && mem(addr) == Byte(s[0]) {
        forall k | 0 <= k < |s| ensures At(mem, addr, k) == Byte(s[k]) && s[k] != NUL {
          if k > 0 {
            assert At(mem, addr + 1, k - 1) == Byte(rest[k - 1]) && rest[k - 1] != NUL;
          }
        }
      }
    }
  }

  // ---- The page-wise reader ----

  /** A positioned read of `chunk` bytes: it may come back short, and one that
      touches an unmapped page may fail as a whole. */
  method Pread(mem: Memory, page: int, pos: int, chunk: nat) returns (n: int, buf: string)
    requires page > 0 && Paged(mem, page)
    requires 0 < chunk <= BUFFER && pos / page == (pos + chunk - 1) / page
    ensures n <= chunk && (n > 0 ==> |buf| == n)
    ensures n <= 0 <==> mem(pos).Unmapped?
    ensures forall k :: 0 <= k < n ==> At(mem, pos, k) == Byte(buf[k])
  {
    if mem(pos).Unmapped? {
      return -1, "";
    }
    n :| 1 <= n <= chunk;
    buf := "";
    for i := 0 to n
      invariant |buf| == i && forall k :: 0 <= k < i ==> At(mem, pos, k) == Byte(buf[k])
    {
      SamePage(page, pos, i, chunk);
      assert mem(pos + i).Byte?;
      buf := buf + [mem(pos + i).c];
    }
  }

  lemma SamePage(page: int, pos: int, i: int, chunk: int)
    requires page > 0 && 0 <= i < chunk && pos / page == (pos + chunk - 1) / page
    ensures (pos + i) / page == pos / page
  {
    Monotone(pos, pos + i, page);
    Monotone(pos + i, pos + chunk - 1, page);
  }

  lemma Monotone(a: int, b: int, d: int)
    requires a <= b && d > 0
    ensures a / d <= b / d
  {
    if a / d > b / d {
      assert a == d * (a / d) + a % d && b == d * (b / d) + b % d;
      assert d * (a / d) >= d * (b / d + 1) by {
        MulMonotone(d, b / d + 1, a / d);
      }
    }
  }

  lemma MulMonotone(d: int, x: int, y: int)
    requires d > 0 && x <= y
    ensures d * x <= d * y
  {
  }

  /** A read of at most the rest of the page stays inside it. */
  lemma WithinPage(page: int, pos: int, chunk: int)
    requires page > 0 && 0 < chunk <= page - pos % page
    ensures pos / page == (pos + chunk - 1) / page
  {
    var q := pos / page;
    assert pos == page * q + pos % page;
    var r := pos % page + chunk - 1;
    assert pos + chunk - 1 == page * q + r && 0 <= r < page;
    DivUnique(pos + chunk - 1, page, q, r);
  }

  lemma DivUnique(x: int, d: int, q: int, r: int)
    requires d > 0 && 0 <= r < d && x == d * q + r
    ensures x / d == q
  {
    var p := x / d;
    assert x == d * p + x % d;
    if p < q {
      MulMonotone(d, p + 1, q);
    } else if p > q {
      MulMonotone(d, q + 1, p);
    }
  }

  /** Position of the first NUL, or the length. */
  method FindNul(buf: string) returns (i: nat)
    ensures i <= |buf| && (i < |buf| ==> buf[i] == NUL)
    ensures forall k :: 0 <= k < i ==> buf[k] != NUL
  {
    i := 0;
    while i < |buf| && buf[i] != NUL
      invariant i <= |buf| && forall k :: 0 <= k < i ==> buf[k] != NUL
    {
      i := i + 1;
    }
  }

  lemma HoldsJoin(mem: Memory, addr: int, s: string, more: string)
    requires Holds(mem, addr, s) && Holds(mem, addr + |s|, more)
    ensures Holds(mem, addr, s + more)
  {
    forall k | 0 <= k < |s + more| ensures At(mem, addr, k) == Byte((s + more)[k]) && (s + more)[k] != NUL {
      if k >= |s| {
        assert At(mem, addr + |s|, k - |s|) == Byte(more[k - |s|]) && more[k - |s|] != NUL;
      }
    }
  }

  /** The descriptor of the process memory, as the tracer remembers it. */
  class Handle {
    var memFd: int

    constructor ()
      ensures memFd == -1
    {
      memFd := -1;
    }

    /** Opened at most once; a failure is remembered. `fd` is what opening would return. */
    method Open(fd: int) returns (usable: bool)
      modifies this
      ensures usable <==> memFd >= 0
      ensures memFd == if old(memFd) >= 0 || old(memFd) == -2 then old(memFd) else if fd < 0 then -2 else fd
    {
      if memFd == -2 {
        return false;
      }
      if memFd < 0 {
        memFd := fd;
        if memFd < 0 {
          memFd := -2;
          return false;
        }
      }
      return true;
    }

    method ReadStringMem(fd: int, mem: Memory, page: int, addr: int, limit: nat) returns (ok: bool, out: string)
      requires page > 0 && Paged(mem, page) && 0 <= addr < ADDRESSES
      modifies this
      ensures memFd == if old(memFd) >= 0 || old(memFd) == -2 then old(memFd) else if fd < 0 then -2 else fd
      ensures ok <==> memFd >= 0 && (limit == 0 || mem(addr).Byte?)
      ensures ok ==> out == StringAt(mem, addr, limit)
      ensures !ok ==> out == ""
    {
      out := "";
      ok := Open(fd);
      if !ok {
        return;
      }
      ok, out := ReadPages(mem, page, addr, limit);
    }
  }

  /** The next read: what is left, cut at the page's end and the buffer's size. */
  function Chunk(page: int, pos: int, left: nat): nat
    requires page > 0
  {
    var toPageEnd := page - pos % page;
    var chunk := if left > toPageEnd then toPageEnd else left;
    if chunk > BUFFER then BUFFER else chunk
  }

  lemma ChunkFits(page: int, pos: int, left: nat)
    requires page > 0 && left > 0
    ensures var chunk := Chunk(page, pos, left);
      0 < chunk <= left && chunk <= BUFFER && pos / page == (pos + chunk - 1) / page
  {
    WithinPage(page, pos, Chunk(page, pos, left));
  }

  /** Reading on from `out`: a full chunk extends it, a NUL or an unmapped page ends it. */
  lemma ReadOn(mem: Memory, addr: int, limit: nat, out: string, buf: string, nul: nat)
    requires Holds(mem, addr, out) && nul <= |buf| && |out| + |buf| <= limit
    requires forall k :: 0 <= k < |buf| ==> At(mem, addr + |out|, k) == Byte(buf[k])
    requires forall k :: 0 <= k < nul ==> buf[k] != NUL
    ensures Holds(mem, addr, out + buf[..nul])
    ensures nul < |buf| && buf[nul] == NUL ==> out + buf[..nul] == StringAt(mem, addr, limit)
  {
    HoldsJoin(mem, addr, out, buf[..nul]);
    StringAtMeans(mem, addr, limit, out + buf[..nul]);
    if nul < |buf| {
      assert At(mem, addr + |out|, nul) == Byte(buf[nul]);
    }
  }

  lemma InUserHalf(mem: Memory, page: int, pos: int, buf: string)
    requires page > 0 && Paged(mem, page) && |buf| > 0
    requires forall k :: 0 <= k < |buf| ==> At(mem, pos, k) == Byte(buf[k])
    ensures mem(pos).Byte? && pos + |buf| <= USER_END
  {
    assert At(mem, pos, 0).Byte? && At(mem, pos, |buf| - 1).Byte?;
    assert mem(pos + (|buf| - 1)).Byte?;
  }

  method ReadPages(mem: Memory, page: int, addr: int, limit: nat) returns (ok: bool, out: string)
    requires page > 0 && Paged(mem, page) && 0 <= addr < ADDRESSES
    ensures ok <==> limit == 0 || mem(addr).Byte?
    ensures ok ==> out == StringAt(mem, addr, limit)
    ensures !ok ==> out == ""
  {
    hide Holds, Paged, Chunk, StringAt, Wrap;
    out := "";
    var total := 0;
    var firstChunk := true;
    HoldsNothing(mem, addr);
    while total < limit
      invariant 0 <= total == |out| <= limit && Holds(mem, addr, out)
      invariant firstChunk <==> total == 0
      invariant total > 0 ==> mem(addr).Byte? && addr + total <= USER_END
      decreases limit - total
    {
      var pos := Wrap(addr + total);
      NoWrap(addr + total);
      var chunk := Chunk(page, pos, limit - total);
      ChunkFits(page, pos, limit - total);
      var n, buf := Pread(mem, page, pos, chunk);
      if n <= 0 {
        if firstChunk {
          return false, "";
        }
        StringAtMeans(mem, addr, limit, out);
        return true, out;
      }
      firstChunk := false;
      InUserHalf(mem, page, pos, buf);
      var nul := FindNul(buf);
      ReadOn(mem, addr, limit, out, buf, nul);
      hide At;
      out := out + buf[..nul];
      if nul < n {
        return true, out;
      }
      total := total + n;
    }
    StringAtMeans(mem, addr, limit, out);
    return true, out;
  }

  lemma NoWrap(x: int)
    requires 0 <= x < ADDRESSES
    ensures Wrap(x) == x
  {
  }

  lemma HoldsNothing(mem: Memory, addr: int)
    ensures Holds(mem, addr, "")
  {
  }

  // ---- The word-wise fallback ----

  predicate WholeWord(mem: Memory, addr: int) {
    forall k :: 0 <= k < WORD ==> At(mem, addr, k).Byte?
  }

  /** Peeking a word fails unless all its bytes are mapped. */
  method Peek(mem: Memory, addr: int) returns (ok: bool, word: string)
    ensures ok <==> WholeWord(mem, addr)
    ensures ok ==> |word| == WORD && forall k :: 0 <= k < WORD ==> At(mem, addr, k) == Byte(word[k])
  {
    word := "";
    for i := 0 to WORD
      invariant |word| == i && forall k :: 0 <= k < i ==> At(mem, addr, k) == Byte(word[k])
    {
      if mem(addr + i).Unmapped? {
        assert At(mem, addr, i).Unmapped?;
        return false, "";
      }
      word := word + [mem(addr + i).c];
    }
    ok := true;
  }

  /** The limit is honoured in whole words. */
  function WordLimit(limit: nat): nat { (limit + WORD - 1) / WORD * WORD }

  /** Why the fallback stops after `n` bytes: the limit is reached, a NUL follows
      in a word it could peek, or the next word cannot be peeked. */
  predicate PeekStops(mem: Memory, addr: int, limit: nat, n: nat) {
    || n == WordLimit(limit)
    || (mem(addr + n) == Byte('\0') && WholeWord(mem, addr + n / WORD * WORD))
    || (n % WORD == 0 && !WholeWord(mem, addr + n))
  }

  /** What the fallback delivers. */
  predicate Peeked(mem: Memory, addr: int, limit: nat, s: string) {
    |s| <= WordLimit(limit) && Holds(mem, addr, s) && PeekStops(mem, addr, limit, |s|)
  }

  method PeekString(mem: Memory, addr: int, limit: nat) returns (out: string)
    ensures Peeked(mem, addr, limit, out)
  {
    out := "";
    var i := 0;
    while i < limit
      invariant 0 <= i == |out| <= WordLimit(limit) && i % WORD == 0 && Holds(mem, addr, out)
      decreases limit - i
    {
      var ok, word := Peek(mem, addr + i);
      if !ok {
        return;
      }
      var j := FindNul(word);
      assert Holds(mem, addr + i, word[..j]);
      HoldsJoin(mem, addr, out, word[..j]);
      hide Holds;
      if j < WORD {
        out := out + word[..j];
        NulInWord(mem, addr, i, j, word);
        return;
      }
      assert word[..j] == word;
      out := out + word;
      i := i + WORD;
    }
  }

  lemma NulInWord(mem: Memory, addr: int, i: nat, j: nat, word: string)
    requires i % WORD == 0 && j < |word| == WORD && WholeWord(mem, addr + i) && word[j] == NUL
    requires forall k :: 0 <= k < WORD ==> At(mem, addr + i, k) == Byte(word[k])
    ensures mem(addr + (i + j)) == Byte(NUL) && WholeWord(mem, addr + (i + j) / WORD * WORD)
  {
    assert At(mem, addr + i, j) == Byte(NUL);
    assert (i + j) / WORD * WORD == i;
  }

  /** The string ends inside the first word that is not wholly mapped. */
  lemma EndsInWord(mem: Memory, addr: int, limit: nat, out: string, s: string)
    requires Holds(mem, addr, out) && |out| % WORD == 0 && !WholeWord(mem, addr + |out|)
    requires Holds(mem, addr, s) && StopsAt(mem, addr, limit, |s|) && |out| + WORD <= limit
    ensures |out| <= |s| < |out| + WORD && s[..|out|] == out
  {
    var k :| 0 <= k < WORD && At(mem, addr + |out|, k).Unmapped?;
    if |s| < |out| {
      HeldAt(mem, addr, out, |s|);
    }
    if |s| > |out| + k {
      HeldAt(mem, addr, s, |out| + k);
    }
    forall j | 0 <= j < |out| ensures out[j] == s[j] {
      HeldAt(mem, addr, out, j);
      HeldAt(mem, addr, s, j);
    }
  }

  /** A word the string covers can be peeked. */
  lemma CoversWord(mem: Memory, addr: int, s: string, word: int)
    requires Holds(mem, addr, s) && addr <= word && word + WORD <= addr + |s|
    ensures WholeWord(mem, word)
  {
    forall k | 0 <= k < WORD ensures At(mem, word, k).Byte? {
      HeldAt(mem, addr, s, word - addr + k);
    }
  }

  lemma PeekedNotLonger(mem: Memory, addr: int, limit: nat, a: string, b: string)
    requires Peeked(mem, addr, limit, a) && Peeked(mem, addr, limit, b)
    ensures |b| <= |a|
  {
    hide Holds, WholeWord, WordLimit;
    if |b| > |a| {
      HeldAt(mem, addr, b, |a|);
      if |b| >= |a| + WORD {
        CoversWord(mem, addr, b, addr + |a|);
      } else {
        SameWord(|a|, |b|, limit);
      }
    }
  }

  lemma SameWord(n: nat, m: nat, limit: nat)
    requires n < m < n + WORD && n % WORD == 0 && m <= WordLimit(limit)
    ensures m / WORD * WORD == n && m % WORD != 0 && m != WordLimit(limit)
  {
  }

  /** The contract leaves one string. */
  lemma PeekedIsUnique(mem: Memory, addr: int, limit: nat, a: string, b: string)
    requires Peeked(mem, addr, limit, a) && Peeked(mem, addr, limit, b)
    ensures a == b
  {
    PeekedNotLonger(mem, addr, limit, a, b);
    PeekedNotLonger(mem, addr, limit, b, a);
    forall k | 0 <= k < |a| ensures a[k] == b[k] {
      HeldAt(mem, addr, a, k);
      HeldAt(mem, addr, b, k);
    }
  }

  // ---- The two together ----

  /** `known` holds when the tracer has state for the process. */
  method ReadString(h: Handle, known: bool, fd: int, mem: Memory, page: int, addr: int, limit: nat) returns (out: string)
    requires page > 0 && Paged(mem, page) && 0 <= addr < ADDRESSES
    modifies h
    ensures addr == 0 ==> out == "" && h.memFd == old(h.memFd)
    ensures addr != 0 && known && h.memFd >= 0 ==> out == StringAt(mem, addr, limit)
    ensures addr != 0 && !(known && h.memFd >= 0) ==> Peeked(mem, addr, limit, out)
  {
    if addr == 0 {
      return "";
    }
    if known {
      var ok;
      ok, out := h.ReadStringMem(fd, mem, page, addr, limit);
      if ok {
        return;
      }
    }
    out := PeekString(mem, addr, limit);
    if mem(addr).Unmapped? {
      if out != "" {
        NotHeld(mem, addr, out);
      }
      StringAtMeans(mem, addr, limit, "");
    }
  }

  /** Up to whole words the fallback yields the string exactly when the string
      fills its words or all of its last word is mapped. */
  lemma FallbackInWords(mem: Memory, addr: int, limit: nat, out: string)
    requires Peeked(mem, addr, limit, out)
    ensures var s := StringAt(mem, addr, WordLimit(limit));
      (out == s) <==> (|s| % WORD == 0 || WholeWord(mem, addr + |s| / WORD * WORD))
  {
    var most := WordLimit(limit);
    var s := StringAt(mem, addr, most);
    StringAtMeans(mem, addr, most, s);
    StringAtMeans(mem, addr, most, out);
    hide StringAt, Holds, WholeWord;
    assert most % WORD == 0;
    if |out| < most && |out| % WORD == 0 && !WholeWord(mem, addr + |out|) {
      EndsInWord(mem, addr, most, out, s);
      assert |s| / WORD * WORD == |out|;
      assert |s| == |out| ==> s == s[..|out|];
    }
  }

  /** A string that goes on behind the limit is not what the fallback yields there. */
  lemma FallbackOverruns(mem: Memory, addr: int, limit: nat, out: string)
    requires Peeked(mem, addr, limit, out) && |StringAt(mem, addr, WordLimit(limit))| > limit
    ensures out != StringAt(mem, addr, limit)
  {
    var s, t := StringAt(mem, addr, WordLimit(limit)), StringAt(mem, addr, limit);
    StringAtMeans(mem, addr, WordLimit(limit), s);
    StringAtMeans(mem, addr, limit, t);
    WholeLimit(limit);
    hide StringAt, Holds, WholeWord, WordLimit;
    if |out| <= limit {
      HeldAt(mem, addr, s, |out|);
    }
  }

  lemma WholeLimit(limit: nat)
    ensures limit <= WordLimit(limit) && (limit % WORD == 0 ==> WordLimit(limit) == limit)
  {
  }

  /** For every limit, the fallback agrees with the page-wise reader exactly when
      the string, read up to whole words, stays within the limit and fills its
      words or has its last word wholly mapped. */
  lemma FallbackAgrees(mem: Memory, addr: int, limit: nat, out: string)
    requires Peeked(mem, addr, limit, out)
    ensures var s := StringAt(mem, addr, (limit + 7) / 8 * 8);
      (out == StringAt(mem, addr, limit)) <==>
      (|s| <= limit && (|s| % 8 == 0 || WholeWord(mem, addr + |s| / 8 * 8)))
  {
    var s := StringAt(mem, addr, WordLimit(limit));
    if |s| > limit {
      FallbackOverruns(mem, addr, limit, out);
    } else {
      FallbackInWords(mem, addr, limit, out);
      StringAtMeans(mem, addr, WordLimit(limit), s);
      StringAtMeans(mem, addr, limit, s);
    }
  }
}
