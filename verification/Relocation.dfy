/**
  Relocating a mapped shared object: each table entry is read from memory, checked against
  the object's own segments, and stored. Symbol addresses come from outside the model, one
  answer per entry; a null answer is an undefined symbol.
 */
module Relocation {
  import opened Common
  import opened ElfImage

  // ------------------------------------------------------------------ memory

  /** The whole 64-bit address space. */
  type Memory = m: seq<byte> | |m| == TOP ghost witness Zero(TOP)

  function Zero(n: nat): (s: seq<byte>)
    ensures |s| == n
  {
    seq(n, _ => 0)
  }

  /** Reads a little-endian number; nothing is promised of a read across the top of memory. */
  function Peek(m: Memory, at: nat, n: nat): nat {
    if at + n <= TOP then Little(m, at, n) else 0
  }

  function Put(m: Memory, at: nat, b: seq<byte>): (r: Memory)
    requires at + |b| <= TOP
  {
    m[..at] + b + m[at + |b|..]
  }

  function Bytes(v: nat, n: nat): (b: seq<byte>)
    ensures |b| == n
  {
    if n == 0 then [] else [v % 256] + Bytes(v / 256, n - 1)
  }

  /** A stored number reads back. */
  lemma {:induction false} BytesReadBack(s: seq<byte>, at: nat, v: nat, n: nat)
    requires at + n <= |s| && s[at..at + n] == Bytes(v, n)
    ensures Little(s, at, n) == v % Pow256(n)
    decreases n
  {
    if n > 0 {
      assert s[at] == v % 256 by { assert s[at..at + n][0] == s[at]; }
      assert s[at + 1..at + n] == s[at..at + n][1..] == Bytes(v / 256, n - 1);
      BytesReadBack(s, at + 1, v / 256, n - 1);
      DivideOut(v, Pow256(n - 1));
    }
  }

  lemma DivideOut(v: nat, p: nat)
    requires p > 0
    ensures v % (256 * p) == v % 256 + 256 * ((v / 256) % p)
  {
    var a, q, t := v / 256, (v / 256) / p, (v / 256) % p;
    assert a == q * p + t;
    assert v == 256 * (q * p + t) + v % 256;
    var r := v % 256 + 256 * t;
    Remainder(v, 256 * p, q, r);
  }

  lemma PutReads(m: Memory, at: nat, v: nat, n: nat)
    requires at + n <= TOP
    ensures Peek(Put(m, at, Bytes(v, n)), at, n) == v % Pow256(n)
  {
    var r := Put(m, at, Bytes(v, n));
    assert r[at..at + n] == Bytes(v, n);
    BytesReadBack(r, at, v, n);
  }

  lemma {:induction false} LittleSame(m: seq<byte>, at: nat, d: seq<byte>, off: nat, n: nat)
    requires at + n <= |m| && off + n <= |d| && m[at..at + n] == d[off..off + n]
    ensures Little(m, at, n) == Little(d, off, n)
    decreases n
  {
    if n > 0 {
      assert m[at] == m[at..at + n][0] == d[off..off + n][0] == d[off];
      assert m[at + 1..at + n] == m[at..at + n][1..] == d[off..off + n][1..] == d[off + 1..off + n];
      LittleSame(m, at + 1, d, off + 1, n - 1);
    }
  }

  lemma Part(m: seq<byte>, a: nat, b: nat, i: nat, j: nat)
    requires a <= b <= |m| && i <= j <= b - a
    ensures m[a..b][i..j] == m[a + i..a + j]
  {
    var l, r := m[a..b][i..j], m[a + i..a + j];
    assert |l| == |r| && forall k | 0 <= k < |r| :: l[k] == m[a + i + k] == r[k];
  }

  // ----------------------------------------------------------------- objects

  /** What is known of an object while it is being linked; a zero address is a null pointer. */
  datatype Handle = Handle(path: seq<byte>, base: u64, file: seq<byte>, kernel: bool,
                           symtab: u64, strtab: u64, strtabsz: nat, symCount: nat, rpath: Option<seq<byte>>)

  predicate Covers(p: Phdr, base: u64, address: nat, length: nat) {
    p.kind == LOAD && Reachable(p, base) && base + p.vaddr <= address && address + length <= base + p.vaddr + p.memsz
  }

  predicate RangeLoaded(ph: seq<Phdr>, base: u64, address: nat, length: nat) {
    length != 0 && address + length < TOP && exists i | 0 <= i < |ph| :: Covers(ph[i], base, address, length)
  }

  method HandleRangeLoaded(ph: seq<Phdr>, base: u64, address: u64, length: nat) returns (loaded: bool)
    requires length < TOP
    ensures loaded == RangeLoaded(ph, base, address, length)
  {
    if length == 0 || address > TOP - 1 - length { return false; }
    var i := 0;
    while i < |ph|
      invariant 0 <= i <= |ph| && forall k | 0 <= k < i :: !Covers(ph[k], base, address, length)
    {
      if ph[i].kind == LOAD && ph[i].vaddr <= TOP - 1 - base && ph[i].memsz <= TOP - 1 - (base + ph[i].vaddr) {
        var start := base + ph[i].vaddr;
        var end := start + ph[i].memsz;
        if address >= start && address + length <= end {
          assert Covers(ph[i], base, address, length);
          return true;
        }
      }
      i := i + 1;
    }
    loaded := false;
  }

  function DynamicPtr(ph: seq<Phdr>, base: u64, ptr: nat): u64 {
    if ptr == 0 || ptr > TOP - 1 - base || !RangeLoaded(ph, base, base + ptr, 1) then 0 else base + ptr
  }

  // ------------------------------------------------------------- relocations

  const RELA_SIZE := 24
  const SYM_SIZE := 24
  const WORD := 0x1_0000_0000

  const R_NONE := 0
  const R_64 := 1
  const R_PC32 := 2
  const R_PLT32 := 4
  const R_COPY := 5
  const R_GLOB_DAT := 6
  const R_JUMP_SLOT := 7
  const R_RELATIVE := 8
  const R_32 := 10
  const R_32S := 11
  const R_PC64 := 24
  const R_SIZE32 := 32
  const R_SIZE64 := 33
  const R_IRELATIVE := 37

  datatype Rela = Rela(offset: nat, kind: nat, sym: nat, addend: nat)

  function RelaAt(m: Memory, at: nat): Rela {
    Rela(Peek(m, at, 8), Peek(m, at + 8, 8) % WORD, Peek(m, at + 8, 8) / WORD, Peek(m, at + 16, 8))
  }

  datatype Sym = Sym(weak: bool, size: nat)

  function SymAt(m: Memory, symtab: u64, index: nat): Sym {
    var at := symtab + SYM_SIZE * index;
    Sym(Peek(m, at + 4, 1) / 16 == 2, Peek(m, at + 16, 8))
  }

  function Width(kind: nat): nat { if kind in {R_PC32, R_PLT32, R_32, R_32S, R_SIZE32} then 4 else 8 }

  function Extent(kind: nat, sym: Option<Sym>): nat {
    if kind == R_COPY && sym.Some? then sym.value.size else Width(kind)
  }

  /** The bytes at an address; a copy that would run past the top of memory has no meaning here. */
  function Taken(m: Memory, at: nat, n: nat): (b: seq<byte>)
    ensures |b| == n
  {
    if at + n <= TOP then m[at..at + n] else seq(n, _ => 0)
  }

  /** The number a kind of entry stores. */
  function Field(kind: nat, addend: nat, size: nat, base: u64, target: u64, address: u64): (v: nat)
    ensures v < if Width(kind) == 4 then WORD else TOP
  {
    if kind == R_RELATIVE then (base + addend) % TOP
    else if kind == R_SIZE32 then (size + addend) % WORD
    else if kind == R_SIZE64 then (size + addend) % TOP
    else if kind == R_64 then (address + addend) % TOP
    else if kind == R_PC32 || kind == R_PLT32 then (address + addend - target) % WORD
    else if kind == R_PC64 then (address + addend - target) % TOP
    else if kind == R_32 || kind == R_32S then (address + addend) % WORD
    else address
  }

  /** What an entry stores at its target: nothing, some bytes, or a refusal. */
  function Stored(r: Rela, sym: Option<Sym>, base: u64, target: u64, address: u64, m: Memory): Option<seq<byte>> {
    var size := if sym.Some? then sym.value.size else 0;
    var number := Bytes(Field(r.kind, r.addend, size, base, target, address), Width(r.kind));
    if r.kind == R_NONE then Some([])
    else if r.kind == R_RELATIVE || r.kind == R_IRELATIVE then Some(number)
    else if r.kind !in {R_64, R_PC32, R_PLT32, R_COPY, R_GLOB_DAT, R_JUMP_SLOT, R_32, R_32S, R_PC64,
                        R_SIZE32, R_SIZE64} then None
    else if sym.None? then Some([])
    else if r.kind == R_SIZE32 || r.kind == R_SIZE64 then Some(number)
    else if address == 0 && !sym.value.weak then None
    else if r.kind != R_COPY then Some(number)
    else Some(if address != 0 && size != 0 then Taken(m, address, size) else [])
  }

  /** A store is never wider than the range that was checked for it. */
  lemma StoredFits(r: Rela, sym: Option<Sym>, base: u64, target: u64, address: u64, m: Memory)
    ensures var b := Stored(r, sym, base, target, address, m);
            b.Some? ==> b.value == [] || |b.value| == Extent(r.kind, sym)
  {}

  /** One entry of the general table. */
  function Relocated(h: Handle, ph: seq<Phdr>, r: Rela, m: Memory, address: u64): Option<Memory> {
    if h.base + r.offset >= TOP || (r.sym != 0 && (h.symtab == 0 || r.sym >= h.symCount)) then None
    else
      var target: u64 := h.base + r.offset;
      var sym := if r.sym != 0 then Some(SymAt(m, h.symtab, r.sym)) else None;
      if r.kind != R_NONE && !RangeLoaded(ph, h.base, target, Extent(r.kind, sym)) then None
      else
        var b := Stored(r, sym, h.base, target, address, m);
        if b.None? then None else StoredFits(r, sym, h.base, target, address, m); Some(Put(m, target, b.value))
  }

  /** One entry of the procedure linkage table: always the address of a symbol. */
  function Linked(h: Handle, ph: seq<Phdr>, r: Rela, m: Memory, address: u64): Option<Memory> {
    if h.base + r.offset >= TOP || r.sym == 0 || h.symtab == 0 || r.sym >= h.symCount then None
    else
      var target: u64 := h.base + r.offset;
      if !RangeLoaded(ph, h.base, target, 8) || (address == 0 && !SymAt(m, h.symtab, r.sym).weak) then None
      else Some(Put(m, target, Bytes(address, 8)))
  }

  // ------------------------------------------------------------- confinement

  predicate InSegments(ph: seq<Phdr>, base: u64, a: nat) { exists i | 0 <= i < |ph| :: Covers(ph[i], base, a, 1) }

  /** Two memories agree on every byte that no segment of the object covers. */
  ghost predicate Confined(ph: seq<Phdr>, base: u64, m: Memory, n: Memory) {
    forall a | 0 <= a < TOP :: !InSegments(ph, base, a) ==> n[a] == m[a]
  }

  lemma PutConfined(ph: seq<Phdr>, base: u64, m: Memory, target: u64, b: seq<byte>, length: nat)
    requires b == [] || (|b| <= length && RangeLoaded(ph, base, target, length))
    requires target + |b| <= TOP
    ensures Confined(ph, base, m, Put(m, target, b))
  {
    if b != [] {
      var i :| 0 <= i < |ph| && Covers(ph[i], base, target, length);
      forall a | target <= a < target + |b| ensures InSegments(ph, base, a) { assert Covers(ph[i], base, a, 1); }
    }
    var n := Put(m, target, b);
    forall a | 0 <= a < TOP && !InSegments(ph, base, a) ensures n[a] == m[a] {
      assert a < target || a >= target + |b|;
    }
  }

  /** Each store of a relocation lies wholly in one loaded segment of its own object. */
  lemma RelocatedConfined(h: Handle, ph: seq<Phdr>, r: Rela, m: Memory, address: u64)
    ensures Relocated(h, ph, r, m, address).Some? ==> Confined(ph, h.base, m, Relocated(h, ph, r, m, address).value)
    ensures Linked(h, ph, r, m, address).Some? ==> Confined(ph, h.base, m, Linked(h, ph, r, m, address).value)
  {
    if h.base + r.offset < TOP {
      var target: u64 := h.base + r.offset;
      var sym := if r.sym != 0 then Some(SymAt(m, h.symtab, r.sym)) else None;
      var b := Stored(r, sym, h.base, target, address, m);
      StoredFits(r, sym, h.base, target, address, m);
      if Relocated(h, ph, r, m, address).Some? { PutConfined(ph, h.base, m, target, b.value, Extent(r.kind, sym)); }
      if Linked(h, ph, r, m, address).Some? { PutConfined(ph, h.base, m, target, Bytes(address, 8), 8); }
    }
  }

  /** The bytes an entry may change: the checked range at its target, which one loaded segment covers. */
  lemma StoreInOneSegment(h: Handle, ph: seq<Phdr>, r: Rela, m: Memory, address: u64)
    requires Relocated(h, ph, r, m, address).Some? && Relocated(h, ph, r, m, address).value != m
    ensures var sym := if r.sym != 0 then Some(SymAt(m, h.symtab, r.sym)) else None;
            var n, t, length := Relocated(h, ph, r, m, address).value, h.base + r.offset, Extent(r.kind, sym);
            && (exists i | 0 <= i < |ph| :: Covers(ph[i], h.base, t, length))
            && forall a | 0 <= a < TOP :: a < t || t + length <= a ==> n[a] == m[a]
  {
    hide Peek;
    hide Bytes;
    hide SymAt;
    hide Field;
    hide Taken;
    var target: u64 := h.base + r.offset;
    var sym := if r.sym != 0 then Some(SymAt(m, h.symtab, r.sym)) else None;
    StoredFits(r, sym, h.base, target, address, m);
    assert Put(m, target, []) == m;
  }

  lemma ConfinedTwice(ph: seq<Phdr>, base: u64, a: Memory, b: Memory, c: Memory)
    requires Confined(ph, base, a, b) && Confined(ph, base, b, c)
    ensures Confined(ph, base, a, c)
  {}

  /** Stored numbers read back. */
  lemma NumberReadsBack(h: Handle, ph: seq<Phdr>, r: Rela, m: Memory, address: u64)
    requires Relocated(h, ph, r, m, address).Some? && r.kind != R_NONE && r.kind != R_COPY
    requires r.sym != 0 || r.kind in {R_RELATIVE, R_IRELATIVE}
    ensures var size := if r.sym != 0 then SymAt(m, h.symtab, r.sym).size else 0;
            Peek(Relocated(h, ph, r, m, address).value, h.base + r.offset, Width(r.kind))
              == Field(r.kind, r.addend, size, h.base, h.base + r.offset, address)
  {
    hide Peek;
    hide SymAt;
    hide Bytes;
    hide Put;
    hide RangeLoaded;
    hide Pow256;
    var target: u64 := h.base + r.offset;
    var sym := if r.sym != 0 then Some(SymAt(m, h.symtab, r.sym)) else None;
    var size := if sym.Some? then sym.value.size else 0;
    var v := Field(r.kind, r.addend, size, h.base, target, address);
    PowSizes();
    LoadedBelowTop(ph, h.base, target, Extent(r.kind, sym));
    PutReads(m, target, v, Width(r.kind));
    SmallModulo(v, Pow256(Width(r.kind)));
  }

  lemma LoadedBelowTop(ph: seq<Phdr>, base: u64, address: nat, length: nat)
    ensures RangeLoaded(ph, base, address, length) ==> address + length < TOP
  {}

  /** A copied object is the source's bytes. */
  lemma CopyCopies(h: Handle, ph: seq<Phdr>, r: Rela, m: Memory, address: u64)
    requires Relocated(h, ph, r, m, address).Some? && r.kind == R_COPY && r.sym != 0 && address != 0
    ensures var size := SymAt(m, h.symtab, r.sym).size;
            var t := h.base + r.offset;
            t + size < TOP && Relocated(h, ph, r, m, address).value[t..t + size] == Taken(m, address, size)
  {
    hide Peek;
    hide Bytes;
    hide SymAt;
    var size := SymAt(m, h.symtab, r.sym).size;
    LoadedBelowTop(ph, h.base, h.base + r.offset, size);
    PutTakes(m, h.base + r.offset, Taken(m, address, size));
  }

  lemma PutTakes(m: Memory, at: nat, b: seq<byte>)
    requires at + |b| <= TOP
    ensures Put(m, at, b)[at..at + |b|] == b
  {}

  /** A program-counter relative field added to its own address gives the symbol plus the addend. */
  lemma PcRelative(addend: nat, size: nat, base: u64, target: u64, address: u64)
    ensures (target + Field(R_PC32, addend, size, base, target, address)) % WORD == (address + addend) % WORD
    ensures (target + Field(R_PLT32, addend, size, base, target, address)) % WORD == (address + addend) % WORD
    ensures (target + Field(R_PC64, addend, size, base, target, address)) % TOP == (address + addend) % TOP
  {
    var x := address + addend - target;
    assert x == WORD * (x / WORD) + x % WORD;
    assert x == TOP * (x / TOP) + x % TOP;
  }

  // ------------------------------------------- what an accepted entry leaves in memory

  function SizeOf(m: Memory, h: Handle, index: nat): nat { Peek(m, h.symtab + 24 * index + 16, 8) }

  predicate IsWeak(m: Memory, h: Handle, index: nat) { Peek(m, h.symtab + 24 * index + 4, 1) / 16 == 2 }

  /** The bytes from an address on, as far as they count, and nothing else, may differ. */
  ghost predicate OnlyAt(m: Memory, n: Memory, at: nat, length: nat) {
    forall a | 0 <= a < TOP :: a < at || at + length <= a ==> n[a] == m[a]
  }

  /** Entries that need no symbol: the base plus the addend, or what the resolver returned. */
  lemma RelativeMeans(h: Handle, ph: seq<Phdr>, r: Rela, m: Memory, address: u64)
    requires Relocated(h, ph, r, m, address).Some?
    ensures var n, t := Relocated(h, ph, r, m, address).value, h.base + r.offset;
            && (r.kind == 8 ==> Peek(n, t, 8) == (h.base + r.addend) % 0x1_0000_0000_0000_0000 && OnlyAt(m, n, t, 8))
            && (r.kind == 37 ==> Peek(n, t, 8) == address && OnlyAt(m, n, t, 8))
  {
    hide Peek, Field, SymAt, Bytes, Put, RangeLoaded;
    if r.kind == R_RELATIVE || r.kind == R_IRELATIVE {
      NumberReadsBack(h, ph, r, m, address);
      NumberIsField(r.kind, r.addend, 0, h.base, h.base + r.offset, address);
      NumberIsField(r.kind, r.addend, SymAt(m, h.symtab, r.sym).size, h.base, h.base + r.offset, address);
      StaysInside(h, ph, r, m, address);
    }
  }

  /** Eight-byte entries with a symbol. */
  lemma LongMeans(h: Handle, ph: seq<Phdr>, r: Rela, m: Memory, address: u64)
    requires Relocated(h, ph, r, m, address).Some? && r.sym != 0 && r.kind in {1, 6, 7, 24, 33}
    ensures var n, t := Relocated(h, ph, r, m, address).value, h.base + r.offset;
            && OnlyAt(m, n, t, 8)
            && (r.kind == 1 ==> Peek(n, t, 8) == (address + r.addend) % 0x1_0000_0000_0000_0000)
            && (r.kind == 6 || r.kind == 7 ==> Peek(n, t, 8) == address)
            && (r.kind == 24 ==> (t + Peek(n, t, 8)) % 0x1_0000_0000_0000_0000
                                 == (address + r.addend) % 0x1_0000_0000_0000_0000)
            && (r.kind == 33 ==> Peek(n, t, 8) == (SizeOf(m, h, r.sym) + r.addend) % 0x1_0000_0000_0000_0000)
  {
    hide Peek, Field, Bytes, Put, RangeLoaded;
    NumberReadsBack(h, ph, r, m, address);
    var size := SymAt(m, h.symtab, r.sym).size;
    NumberIsField(r.kind, r.addend, size, h.base, h.base + r.offset, address);
    PcRelative(r.addend, size, h.base, h.base + r.offset, address);
    StaysInside(h, ph, r, m, address);
  }

  /** Four-byte entries with a symbol. */
  lemma ShortMeans(h: Handle, ph: seq<Phdr>, r: Rela, m: Memory, address: u64)
    requires Relocated(h, ph, r, m, address).Some? && r.sym != 0 && r.kind in {2, 4, 10, 11, 32}
    ensures var n, t := Relocated(h, ph, r, m, address).value, h.base + r.offset;
            && OnlyAt(m, n, t, 4)
            && (r.kind == 10 || r.kind == 11 ==> Peek(n, t, 4) == (address + r.addend) % 0x1_0000_0000)
            && (r.kind == 2 || r.kind == 4 ==>
                  (t + Peek(n, t, 4)) % 0x1_0000_0000 == (address + r.addend) % 0x1_0000_0000)
            && (r.kind == 32 ==> Peek(n, t, 4) == (SizeOf(m, h, r.sym) + r.addend) % 0x1_0000_0000)
  {
    hide Peek, Field, Bytes, Put, RangeLoaded;
    NumberReadsBack(h, ph, r, m, address);
    var size := SymAt(m, h.symtab, r.sym).size;
    NumberIsField(r.kind, r.addend, size, h.base, h.base + r.offset, address);
    PcRelative(r.addend, size, h.base, h.base + r.offset, address);
    StaysInside(h, ph, r, m, address);
  }

  /** Nothing is stored for NONE, for a kind that needs a symbol and has none, or for a copy of an undefined symbol. */
  lemma NothingStored(h: Handle, ph: seq<Phdr>, r: Rela, m: Memory, address: u64)
    requires Relocated(h, ph, r, m, address).Some?
    requires r.kind == 0 || (r.sym == 0 && r.kind !in {8, 37}) || (r.kind == 5 && address == 0)
    ensures Relocated(h, ph, r, m, address).value == m
  {
    hide Peek, Field, Bytes, SymAt, RangeLoaded;
    assert Put(m, h.base + r.offset, []) == m;
  }

  /** An entry is accepted exactly when place and symbol exist, the kind is known and a strong symbol is defined. */
  lemma RelocatedIff(h: Handle, ph: seq<Phdr>, r: Rela, m: Memory, address: u64)
    ensures Relocated(h, ph, r, m, address).Some? <==>
            && h.base + r.offset < TOP
            && (r.sym != 0 ==> h.symtab != 0 && r.sym < h.symCount)
            && r.kind in {0, 1, 2, 4, 5, 6, 7, 8, 10, 11, 24, 32, 33, 37}
            && (r.kind != 0 ==> RangeLoaded(ph, h.base, h.base + r.offset,
                                            if r.kind == 5 && r.sym != 0 then SizeOf(m, h, r.sym)
                                            else if r.kind in {2, 4, 10, 11, 32} then 4 else 8))
            && (r.sym != 0 && r.kind in {1, 2, 4, 5, 6, 7, 10, 11, 24} ==> address != 0 || IsWeak(m, h, r.sym))
  {
    hide Peek, Field, Bytes, RangeLoaded;
  }

  /** An entry of the procedure linkage table leaves its symbol's address; only a missing place or symbol refuses it. */
  lemma LinkedMeans(h: Handle, ph: seq<Phdr>, r: Rela, m: Memory, address: u64)
    ensures var n, t := Linked(h, ph, r, m, address), h.base + r.offset;
            && (n.Some? <==> && t < TOP && r.sym != 0 && h.symtab != 0 && r.sym < h.symCount
                             && RangeLoaded(ph, h.base, t, 8) && (address != 0 || IsWeak(m, h, r.sym)))
            && (n.Some? ==> Peek(n.value, t, 8) == address && OnlyAt(m, n.value, t, 8))
  {
    hide Peek, Bytes, RangeLoaded, Pow256;
    if Linked(h, ph, r, m, address).Some? {
      PowSizes();
      LoadedBelowTop(ph, h.base, h.base + r.offset, 8);
      PutReads(m, h.base + r.offset, address, 8);
      SmallModulo(address, Pow256(8));
    }
  }

  lemma StaysInside(h: Handle, ph: seq<Phdr>, r: Rela, m: Memory, address: u64)
    requires Relocated(h, ph, r, m, address).Some? && r.kind != R_COPY
    ensures OnlyAt(m, Relocated(h, ph, r, m, address).value, h.base + r.offset, Width(r.kind))
  {
    hide Peek, Field, Bytes, SymAt, RangeLoaded;
  }

  lemma NumberIsField(kind: nat, addend: nat, size: nat, base: u64, target: u64, address: u64)
    ensures var v := Field(kind, addend, size, base, target, address);
            && (kind == 8 ==> v == (base + addend) % TOP) && (kind == 1 ==> v == (address + addend) % TOP)
            && (kind == 33 ==> v == (size + addend) % TOP) && (kind == 32 ==> v == (size + addend) % WORD)
            && (kind == 10 || kind == 11 ==> v == (address + addend) % WORD)
            && (kind in {6, 7, 37} ==> v == address)
  {}
}
