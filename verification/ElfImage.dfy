/**
  Shared-object files as bytes: their program headers, the checks a file passes before it
  is mapped, and the page-aligned image those checks promise.
 */
module ElfImage {
  import opened Common

  const PAGE := 4096

  // ------------------------------------------------------- numbers and pages

  function Down(x: u64): u64 { x / PAGE * PAGE }

  /** Rounds up to a page in 64-bit arithmetic. */
  function Up(x: u64): u64 { Down((x + PAGE - 1) % TOP) }

  /** Rounding up finds the next page boundary unless none is left, where it wraps to zero. */
  lemma UpCases(x: u64)
    ensures Up(x) % PAGE == 0
    ensures x <= TOP - PAGE ==> x <= Up(x) < x + PAGE
    ensures x > TOP - PAGE ==> Up(x) == 0
  {
    if x <= TOP - PAGE {
      assert (x + PAGE - 1) % TOP == x + PAGE - 1;
    } else {
      assert (x + PAGE - 1) % TOP == x + PAGE - 1 - TOP;
    }
  }

  /** The little-endian number in `n` bytes. */
  function Little(s: seq<byte>, at: nat, n: nat): (v: nat)
    requires at + n <= |s|
    ensures v < Pow256(n)
    decreases n
  {
    if n == 0 then 0 else s[at] + 256 * Little(s, at + 1, n - 1)
  }

  lemma PowSizes()
    ensures Pow256(1) == 0x100 && Pow256(2) == 0x1_0000 && Pow256(4) == 0x1_0000_0000 && Pow256(8) == TOP
  {}

  // ----------------------------------------------------------------- headers

  const LOAD := 1
  const DYNAMIC := 2
  const EHDR_SIZE := 64
  const PHDR_SIZE := 56
  const DYN_SIZE := 16

  datatype Phdr = Phdr(kind: nat, offset: nat, vaddr: nat, filesz: nat, memsz: nat)

  predicate HeadOk(d: seq<byte>)
    requires |d| >= EHDR_SIZE
  {
    && d[..4] == [0x7f, 0x45, 0x4c, 0x46]
    && Little(d, 20, 4) == 1 && Little(d, 52, 2) == EHDR_SIZE && Little(d, 54, 2) == PHDR_SIZE
    && Little(d, 18, 2) in {62, 3}
  }

  function Joined(a: int, b: int, c: int, e: int): int { a + 0x100 * b + 0x1_0000 * c + 0x100_0000 * e }

  lemma Two(d: seq<byte>, at: nat)
    requires at + 2 <= |d|
    ensures Little(d, at, 2) == Joined(d[at], d[at + 1], 0, 0)
  {
    assert Little(d, at + 1, 1) == d[at + 1] + 256 * Little(d, at + 2, 0);
  }

  lemma Four(d: seq<byte>, at: nat)
    requires at + 4 <= |d|
    ensures Little(d, at, 4) == Joined(d[at], d[at + 1], d[at + 2], d[at + 3])
  {
    assert Little(d, at + 1, 3) == d[at + 1] + 256 * Little(d, at + 2, 2);
    Two(d, at + 2);
  }

  lemma Eight(d: seq<byte>, at: nat)
    requires at + 8 <= |d|
    ensures Little(d, at, 8) == Little(d, at, 4) + 0x1_0000_0000 * Little(d, at + 4, 4)
  {
    assert Little(d, at + 1, 7) == d[at + 1] + 256 * Little(d, at + 2, 6);
    assert Little(d, at + 3, 5) == d[at + 3] + 256 * Little(d, at + 4, 4);
    Four(d, at);
  }

  predicate Fields64(p: Phdr) { p.offset < TOP && p.vaddr < TOP && p.filesz < TOP && p.memsz < TOP }

  function PhdrAt(d: seq<byte>, at: nat): (p: Phdr)
    requires at + PHDR_SIZE <= |d|
    ensures Fields64(p)
  {
    PowSizes();
    Phdr(Little(d, at, 4), Little(d, at + 8, 8), Little(d, at + 16, 8), Little(d, at + 32, 8), Little(d, at + 40, 8))
  }

  predicate FileRange(offset: nat, length: nat, size: nat) { offset <= size && length <= size - offset }

  /** The file has a shared object's header and its program headers lie inside it. */
  predicate Readable(d: seq<byte>) {
    && EHDR_SIZE <= |d| && HeadOk(d) && Little(d, 16, 2) == 3
    && 0 < Little(d, 56, 2) <= |d| / PHDR_SIZE && FileRange(Little(d, 32, 8), Little(d, 56, 2) * PHDR_SIZE, |d|)
  }

  function Headers(d: seq<byte>): (ph: seq<Phdr>)
    requires Readable(d)
    ensures |ph| == Little(d, 56, 2)
    ensures forall p <- ph :: Fields64(p)
  {
    var off, n := Little(d, 32, 8), Little(d, 56, 2);
    seq(n, i requires 0 <= i < n => PhdrAt(d, off + PHDR_SIZE * i))
  }

  /** Byte by byte: an ELF shared object for a supported machine whose header table lies in the file. */
  lemma ReadableMeans(d: seq<byte>)
    ensures Readable(d) <==>
            && |d| >= 64 && d[0] == 0x7f && d[1] == 0x45 && d[2] == 0x4c && d[3] == 0x46
            && d[16] == 3 && d[17] == 0 && (d[18] == 62 || d[18] == 3) && d[19] == 0
            && d[20] == 1 && d[21] == 0 && d[22] == 0 && d[23] == 0
            && d[52] == 64 && d[53] == 0 && d[54] == 56 && d[55] == 0
            && var n: int := Joined(d[56], d[57], 0, 0); 0 < n && Little(d, 32, 8) + 56 * n <= |d|
  {
    hide Little, Pow256;
    if |d| >= 64 {
      Two(d, 16);
      Two(d, 18);
      Four(d, 20);
      Two(d, 52);
      Two(d, 54);
      Two(d, 56);
      assert d[..4] == [d[0], d[1], d[2], d[3]];
    }
  }

  // -------------------------------------------------------------- validation

  datatype Window = Window(start: u64, end: u64)

  function Space(kernel: bool): Window {
    if kernel then Window(0xffffffffb0000000, 0xffffffffc0000000) else Window(0x40000000, 0x80000000)
  }

  /** The bytes from base + vaddr stay below 2^64. */
  predicate Reachable(p: Phdr, base: u64) { base + p.vaddr < TOP && base + p.vaddr + p.memsz < TOP }

  predicate AllReachable(ph: seq<Phdr>, base: u64, n: nat)
    requires n <= |ph|
  {
    forall i | 0 <= i < n :: ph[i].kind == LOAD ==> Reachable(ph[i], base)
  }

  function From(p: Phdr, base: u64): u64
    requires Reachable(p, base)
  {
    base + p.vaddr
  }

  function To(p: Phdr, base: u64): u64
    requires Reachable(p, base)
  {
    base + p.vaddr + p.memsz
  }

  predicate SegmentOk(p: Phdr, base: u64, size: nat) {
    p.filesz <= p.memsz && FileRange(p.offset, p.filesz, size) && Reachable(p, base)
  }

  predicate TableOk(p: Phdr, size: nat) {
    p.filesz >= DYN_SIZE && p.filesz % DYN_SIZE == 0 && FileRange(p.offset, p.filesz, size)
  }

  predicate Terminated(d: seq<byte>, p: Phdr)
    requires TableOk(p, |d|)
  {
    exists j | 0 <= j < p.filesz / DYN_SIZE :: TagAt(d, p, j) == 0
  }

  function TagAt(d: seq<byte>, p: Phdr, j: nat): nat
    requires TableOk(p, |d|) && j < p.filesz / DYN_SIZE
  {
    Little(d, p.offset + DYN_SIZE * j, 8)
  }

  /** The table p lies inside the loaded segment q. */
  predicate Inside(p: Phdr, q: Phdr, base: u64) {
    && q.kind == LOAD && Reachable(q, base) && q.vaddr <= p.vaddr && p.vaddr + p.memsz <= q.vaddr + q.memsz
  }

  predicate Contained(ph: seq<Phdr>, p: Phdr, base: u64) { exists j | 0 <= j < |ph| :: Inside(p, ph[j], base) }

  /** Lowest and highest page boundary the first n headers reach, as the loader computes them. */
  function Low(ph: seq<Phdr>, base: u64, n: nat): u64
    requires n <= |ph| && AllReachable(ph, base, n)
  {
    if n == 0 then TOP - 1
    else if ph[n-1].kind == LOAD && Down(From(ph[n-1], base)) < Low(ph, base, n - 1) then Down(From(ph[n-1], base))
    else Low(ph, base, n - 1)
  }

  function High(ph: seq<Phdr>, base: u64, n: nat): u64
    requires n <= |ph| && AllReachable(ph, base, n)
  {
    if n == 0 then 0
    else if ph[n-1].kind == LOAD && Up(To(ph[n-1], base)) > High(ph, base, n - 1) then Up(To(ph[n-1], base))
    else High(ph, base, n - 1)
  }

  /** Every header is well formed, and there is something to load and a terminated dynamic table. */
  predicate HeadersOk(d: seq<byte>, ph: seq<Phdr>, base: u64, n: nat)
    requires n <= |ph|
  {
    forall i | 0 <= i < n ::
      (ph[i].kind == LOAD ==> SegmentOk(ph[i], base, |d|)) && (ph[i].kind == DYNAMIC ==> TableOk(ph[i], |d|))
  }

  predicate HasTerminator(d: seq<byte>, ph: seq<Phdr>, base: u64, n: nat)
    requires n <= |ph| && HeadersOk(d, ph, base, n)
  {
    exists i | 0 <= i < n :: ph[i].kind == DYNAMIC && Terminated(d, ph[i])
  }

  predicate TablesContained(ph: seq<Phdr>, base: u64, n: nat)
    requires n <= |ph|
  {
    forall i | 0 <= i < n && ph[i].kind == DYNAMIC && base + ph[i].vaddr < TOP :: Contained(ph, ph[i], base)
  }

  /** The whole acceptance condition of a file at a base address. */
  predicate Accepts(d: seq<byte>, base: u64, kernel: bool) {
    && Readable(d)
    && var ph := Headers(d);
    && HeadersOk(d, ph, base, |ph|) && HasTerminator(d, ph, base, |ph|)
    && TablesContained(ph, base, |ph|) && InWindow(ph, base, kernel)
  }

  /** Loaded bytes of an accepted file that does not wrap lie in the module space or in the shared-object space. */
  lemma AcceptedRange(d: seq<byte>, base: u64, kernel: bool, i: nat)
    requires Accepts(d, base, kernel) && i < |Headers(d)| && Headers(d)[i].kind == 1 && !Wraps(Headers(d)[i], base)
    ensures var p := Headers(d)[i];
            && base <= base + p.vaddr && base + p.vaddr + p.memsz < TOP
            && (if kernel then 0xffffffffb0000000 <= base + p.vaddr && base + p.vaddr + p.memsz <= 0xffffffffc0000000
                else 0x40000000 <= base + p.vaddr && base + p.vaddr + p.memsz <= 0x80000000)
  {
    var ph := Headers(d);
    assert AllReachable(ph, base, |ph|);
    BoundsHold(ph, base, |ph|);
  }

  /** Every byte of a dynamic table of an accepted file is loaded, and some table has a terminator in the file. */
  lemma AcceptedTables(d: seq<byte>, base: u64, kernel: bool)
    requires Accepts(d, base, kernel)
    ensures forall i, a | 0 <= i < |Headers(d)| && Headers(d)[i].kind == 2 && base + Headers(d)[i].vaddr < TOP
                          && base + Headers(d)[i].vaddr <= a < base + Headers(d)[i].vaddr + Headers(d)[i].memsz ::
              LoadedByte(Headers(d), base, a)
    ensures exists i, j | 0 <= i < |Headers(d)| && 0 <= j :: ZeroTag(d, Headers(d)[i], j)
  {
    var ph := Headers(d);
    forall i, a | 0 <= i < |ph| && ph[i].kind == 2 && base + ph[i].vaddr < TOP
                  && base + ph[i].vaddr <= a < base + ph[i].vaddr + ph[i].memsz
      ensures LoadedByte(ph, base, a)
    {
      assert Contained(ph, ph[i], base);
      var j :| 0 <= j < |ph| && Inside(ph[i], ph[j], base);
      assert ph[j].kind == 1;
    }
    var i :| 0 <= i < |ph| && ph[i].kind == DYNAMIC && Terminated(d, ph[i]);
    var j :| 0 <= j < ph[i].filesz / DYN_SIZE && TagAt(d, ph[i], j) == 0;
    assert ZeroTag(d, ph[i], j);
  }

  ghost predicate LoadedByte(ph: seq<Phdr>, base: u64, a: nat) {
    exists j | 0 <= j < |ph| :: ph[j].kind == 1 && base + ph[j].vaddr <= a < base + ph[j].vaddr + ph[j].memsz
  }

  /** The j-th entry of a table in the file has the terminating tag. */
  predicate ZeroTag(d: seq<byte>, p: Phdr, j: nat) {
    p.kind == 2 && 16 * (j + 1) <= p.filesz && p.offset + p.filesz <= |d| && Little(d, p.offset + 16 * j, 8) == 0
  }

  /** Looks for the terminating entry of a dynamic table in the file. */
  method FindTerminator(d: seq<byte>, p: Phdr) returns (found: bool)
    requires TableOk(p, |d|)
    ensures found == Terminated(d, p)
  {
    var j := 0;
    while j < p.filesz / DYN_SIZE
      invariant 0 <= j <= p.filesz / DYN_SIZE
      invariant forall k | 0 <= k < j :: TagAt(d, p, k) != 0
    {
      if TagAt(d, p, j) == 0 { return true; }
      j := j + 1;
    }
    found := false;
  }

  method TableContained(ph: seq<Phdr>, p: Phdr, base: u64) returns (contained: bool)
    requires base + p.vaddr < TOP
    ensures contained == Contained(ph, p, base)
  {
    var start := base + p.vaddr;
    var j := 0;
    while j < |ph|
      invariant 0 <= j <= |ph| && forall k | 0 <= k < j :: !Inside(p, ph[k], base)
    {
      if ph[j].kind == LOAD && base + ph[j].vaddr <= TOP - 1 && ph[j].memsz <= TOP - 1 - (base + ph[j].vaddr) {
        var from := base + ph[j].vaddr;
        var to := from + ph[j].memsz;
        if from <= start && start <= to && p.memsz <= to - start {
          assert Inside(p, ph[j], base);
          return true;
        }
      }
      j := j + 1;
    }
    contained := false;
  }

  /** First pass over the headers: their bounds, a load segment and a terminator. */
  method ScanHeaders(d: seq<byte>, ph: seq<Phdr>, base: u64)
    returns (ok: bool, low: u64, high: u64, load: bool, terminator: bool)
    ensures ok == HeadersOk(d, ph, base, |ph|)
    ensures ok ==> low == Low(ph, base, |ph|) && high == High(ph, base, |ph|)
    ensures ok ==> load == Loads(ph, |ph|)
    ensures ok ==> terminator == HasTerminator(d, ph, base, |ph|)
  {
    low, high, load, terminator := TOP - 1, 0, false, false;
    var i := 0;
    while i < |ph|
      invariant 0 <= i <= |ph| && HeadersOk(d, ph, base, i)
      invariant low == Low(ph, base, i) && high == High(ph, base, i)
      invariant load == Loads(ph, i)
      invariant terminator == HasTerminator(d, ph, base, i)
    {
      var p := ph[i];
      if p.kind == LOAD {
        if p.filesz > p.memsz || !FileRange(p.offset, p.filesz, |d|) || base + p.vaddr > TOP - 1
           || p.memsz > TOP - 1 - (base + p.vaddr) {
          ok := false;
          return;
        }
        var start := base + p.vaddr;
        var end := start + p.memsz;
        low := if Down(start) < low then Down(start) else low;
        high := if Up(end) > high then Up(end) else high;
        load := true;
      } else if p.kind == DYNAMIC {
        if p.filesz < DYN_SIZE || p.filesz % DYN_SIZE != 0 || !FileRange(p.offset, p.filesz, |d|) {
          ok := false;
          return;
        }
        var found := FindTerminator(d, p);
        terminator := terminator || found;
      }
      i := i + 1;
    }
    ok := true;
  }

  method TablesAreContained(ph: seq<Phdr>, base: u64) returns (ok: bool)
    ensures ok == TablesContained(ph, base, |ph|)
  {
    var i := 0;
    while i < |ph|
      invariant 0 <= i <= |ph| && TablesContained(ph, base, i)
    {
      if ph[i].kind == DYNAMIC && base + ph[i].vaddr <= TOP - 1 {
        var contained := TableContained(ph, ph[i], base);
        if !contained { return false; }
      }
      i := i + 1;
    }
    ok := true;
  }

  /** Decides whether a file may be mapped at base, and how much room it needs. */
  method Validate(d: seq<byte>, base: u64, kernel: bool) returns (ok: bool, size: u64)
    ensures ok == Accepts(d, base, kernel)
    ensures ok ==> size == High(Headers(d), base, |Headers(d)|) - base
  {
    hide Little;
    hide Low;
    hide High;
    hide Loads;
    hide TablesContained;
    hide HasTerminator;
    size := 0;
    if |d| < EHDR_SIZE || !HeadOk(d) || Little(d, 16, 2) != 3 || Little(d, 56, 2) == 0
       || Little(d, 56, 2) > |d| / PHDR_SIZE
       || !FileRange(Little(d, 32, 8), Little(d, 56, 2) * PHDR_SIZE, |d|) {
      return false, 0;
    }
    var ph := Headers(d);
    var low, high, load, terminator;
    ok, low, high, load, terminator := ScanHeaders(d, ph, base);
    if !ok || !load || !terminator || high <= low { return false, 0; }
    ok := TablesAreContained(ph, base);
    if !ok { return false, 0; }
    var window := Space(kernel);
    if low < window.start || high > window.end || low < base { return false, 0; }
    size := high - base;
  }

  // --------------------------------------------------- what acceptance means

  /** Rounding the segment's end up to a page wraps past 2^64. */
  predicate Wraps(p: Phdr, base: u64) { p.kind == LOAD && base + p.vaddr + p.memsz > TOP - PAGE }

  predicate AnyWraps(ph: seq<Phdr>, base: u64) { exists i | 0 <= i < |ph| :: Wraps(ph[i], base) }

  lemma {:induction false} BoundsHold(ph: seq<Phdr>, base: u64, n: nat)
    requires n <= |ph| && AllReachable(ph, base, n)
    ensures High(ph, base, n) % PAGE == 0
    ensures forall i | 0 <= i < n :: ph[i].kind == LOAD ==> Low(ph, base, n) <= From(ph[i], base)
    ensures forall i | 0 <= i < n :: ph[i].kind == LOAD && !Wraps(ph[i], base) ==> To(ph[i], base) <= High(ph, base, n)
  {
    if n > 0 {
      BoundsHold(ph, base, n - 1);
      if ph[n-1].kind == LOAD { UpCases(To(ph[n-1], base)); }
    }
  }

  /** The part of acceptance that fixes the image. */
  lemma AcceptedHeaders(d: seq<byte>, base: u64, kernel: bool)
    requires Accepts(d, base, kernel)
    ensures var ph := Headers(d); AllReachable(ph, base, |ph|) && InWindow(ph, base, kernel)
  {}

  predicate InWindow(ph: seq<Phdr>, base: u64, kernel: bool)
    requires AllReachable(ph, base, |ph|)
  {
    && base <= Low(ph, base, |ph|) < High(ph, base, |ph|)
    && Space(kernel).start <= Low(ph, base, |ph|) && High(ph, base, |ph|) <= Space(kernel).end
    && Loads(ph, |ph|)
  }

  /**
    The image of accepted headers is a nonempty run of whole pages in the window, and holds every segment that
    does not wrap.
   */
  lemma ImageHolds(ph: seq<Phdr>, base: u64, kernel: bool)
    requires AllReachable(ph, base, |ph|) && InWindow(ph, base, kernel) && base % PAGE == 0
    ensures base < High(ph, base, |ph|) <= Space(kernel).end && (High(ph, base, |ph|) - base) % PAGE == 0
    ensures forall i | 0 <= i < |ph| ::
              ph[i].kind == LOAD && !Wraps(ph[i], base) ==> To(ph[i], base) <= High(ph, base, |ph|)
  {
    BoundsHold(ph, base, |ph|);
  }

  // -------------------------------------------------- the size check afterwards

  /** Lowest start and highest end of the mapped segments, as mapping recomputes them. */
  function FirstByte(ph: seq<Phdr>, base: u64, n: nat): u64
    requires n <= |ph| && AllReachable(ph, base, n)
  {
    if n == 0 then TOP - 1
    else if ph[n-1].kind == LOAD && From(ph[n-1], base) < FirstByte(ph, base, n - 1) then From(ph[n-1], base)
    else FirstByte(ph, base, n - 1)
  }

  function LastByte(ph: seq<Phdr>, base: u64, n: nat): u64
    requires n <= |ph| && AllReachable(ph, base, n)
  {
    if n == 0 then 0
    else if ph[n-1].kind == LOAD && To(ph[n-1], base) > LastByte(ph, base, n - 1) then To(ph[n-1], base)
    else LastByte(ph, base, n - 1)
  }

  lemma {:induction false} FirstByteIsLow(ph: seq<Phdr>, base: u64, n: nat)
    requires n <= |ph| && AllReachable(ph, base, n)
    ensures Loads(ph, n) ==> Low(ph, base, n) == Down(FirstByte(ph, base, n)) && base <= FirstByte(ph, base, n)
    ensures !Loads(ph, n) ==> FirstByte(ph, base, n) == TOP - 1 == Low(ph, base, n)
  {
    if n > 0 { FirstByteIsLow(ph, base, n - 1); }
  }

  lemma {:induction false} LastByteIsHigh(ph: seq<Phdr>, base: u64, n: nat)
    requires n <= |ph| && AllReachable(ph, base, n)
    ensures (exists i | 0 <= i < n :: Wraps(ph[i], base)) <==> LastByte(ph, base, n) > TOP - PAGE
    ensures LastByte(ph, base, n) <= TOP - PAGE ==> LastByte(ph, base, n) <= High(ph, base, n)
  {
    if n > 0 {
      LastByteIsHigh(ph, base, n - 1);
      if ph[n-1].kind == LOAD { UpCases(To(ph[n-1], base)); }
    }
  }

  predicate Loads(ph: seq<Phdr>, n: nat)
    requires n <= |ph|
  {
    exists i | 0 <= i < n :: ph[i].kind == LOAD
  }

  /** The comparison made after mapping fails exactly when a segment's rounded end wraps. */
  lemma SizeCheckFiresIffWraps(ph: seq<Phdr>, base: u64, kernel: bool)
    requires AllReachable(ph, base, |ph|) && InWindow(ph, base, kernel) && Space(kernel).start <= base
    ensures LastByte(ph, base, |ph|) - FirstByte(ph, base, |ph|) > High(ph, base, |ph|) - base <==> AnyWraps(ph, base)
  {
    FirstByteIsLow(ph, base, |ph|);
    LastByteIsHigh(ph, base, |ph|);
  }

  /** A file whose segments end within a gigabyte less a page of the base never wraps, wherever it is placed. */
  lemma SmallFilesNeverWrap(ph: seq<Phdr>, base: u64)
    requires base < 0xffffffffc0000000
    requires forall p <- ph :: p.kind == LOAD ==> p.vaddr + p.memsz <= 0x3ffff000
    ensures !AnyWraps(ph, base)
  {}
}
