/**
  Loading a shared object as functions: what each stage does to memory, the address windows,
  the list of objects and the clock. What lies outside the kernel's own code (files, fresh
  page contents, symbol addresses) is a World, free to answer differently at every tick.
 */
module LoaderSteps {
  import opened Common
  import opened ElfImage
  import opened Relocation

  datatype World = World(files: (nat, seq<byte>) -> Option<seq<byte>>, frames: (nat, nat) -> byte, answers: nat -> u64)

  // --------------------------------------------------------- relocation tables

  function Entry(plt: bool, h: Handle, ph: seq<Phdr>, r: Rela, m: Memory, address: u64): Option<Memory> {
    if plt then Linked(h, ph, r, m, address) else Relocated(h, ph, r, m, address)
  }

  /** Memory and clock after as many entries as were accepted, and whether all were. */
  datatype Progress = Progress(mem: Memory, clock: nat, ok: bool)

  /** The first n entries of a table, each read from memory as the ones before it left it. */
  function Run(w: World, plt: bool, h: Handle, ph: seq<Phdr>, at: nat, n: nat, m: Memory, clock: nat): Progress {
    if n == 0 then Progress(m, clock, true)
    else
      var p := Run(w, plt, h, ph, at, n - 1, m, clock);
      if !p.ok then p
      else match Entry(plt, h, ph, RelaAt(p.mem, at + RELA_SIZE * (n - 1)), p.mem, w.answers(p.clock))
        case None => p.(ok := false)
        case Some(k) => Progress(k, p.clock + 1, true)
  }

  /** However the table rewrites itself, its stores stay in the object's own segments. */
  lemma {:induction false} RunConfined(w: World, plt: bool, h: Handle, ph: seq<Phdr>, at: nat, n: nat, m: Memory,
                                       clock: nat)
    ensures Confined(ph, h.base, m, Run(w, plt, h, ph, at, n, m, clock).mem)
  {
    hide Confined;
    hide Relocated;
    hide Linked;
    hide RelaAt;
    ConfinedHere(ph, h.base, m);
    if n > 0 {
      RunConfined(w, plt, h, ph, at, n - 1, m, clock);
      var p, r := Run(w, plt, h, ph, at, n - 1, m, clock), Run(w, plt, h, ph, at, n, m, clock);
      if r.ok {
        RelocatedConfined(h, ph, RelaAt(p.mem, at + RELA_SIZE * (n - 1)), p.mem, w.answers(p.clock));
        ConfinedTwice(ph, h.base, m, p.mem, r.mem);
      }
    }
  }

  /** A table that fails stops there. */
  lemma {:induction false} RunStops(w: World, plt: bool, h: Handle, ph: seq<Phdr>, at: nat, i: nat, n: nat, m: Memory,
                                    clock: nat)
    requires i <= n && !Run(w, plt, h, ph, at, i, m, clock).ok
    ensures Run(w, plt, h, ph, at, n, m, clock) == Run(w, plt, h, ph, at, i, m, clock)
    decreases n
  {
    hide Entry;
    hide RelaAt;
    if i < n { RunStops(w, plt, h, ph, at, i, n - 1, m, clock); }
  }

  lemma ConfinedHere(ph: seq<Phdr>, base: u64, m: Memory)
    ensures Confined(ph, base, m, m)
  {}

  /** Where a dynamic table says the relocation tables are; a later entry of a kind replaces an earlier one. */
  datatype Tables = Tables(rela: nat, relasz: nat, relaent: nat, jmprel: nat, pltrelsz: nat, pltrel: nat)

  function Noted(t: Tables, ph: seq<Phdr>, base: u64, tag: nat, v: nat): Tables {
    if tag == RELA then t.(rela := DynamicPtr(ph, base, v))
    else if tag == RELASZ then t.(relasz := v)
    else if tag == RELAENT then t.(relaent := v)
    else if tag == JMPREL then t.(jmprel := DynamicPtr(ph, base, v))
    else if tag == PLTRELSZ then t.(pltrelsz := v)
    else if tag == PLTREL then t.(pltrel := v % WORD)
    else t
  }

  /** All entries from an address up to the terminator, noted in order. */
  function Scanned(m: Memory, ph: seq<Phdr>, base: u64, at: nat, t: Tables): Tables
    decreases TOP - at
  {
    if at + DYN_SIZE > TOP || Peek(m, at, 8) == 0 then t
    else Scanned(m, ph, base, at + DYN_SIZE, Noted(t, ph, base, Peek(m, at, 8), Peek(m, at + 8, 8)))
  }

  const NO_TABLES := Tables(0, 0, RELA_SIZE, 0, 0, RELA)

  /** The tables have entries of the supported kind and lie in loaded memory. */
  predicate TablesOk(t: Tables, ph: seq<Phdr>, base: u64) {
    && t.relaent == RELA_SIZE && t.pltrel == RELA && t.relasz % RELA_SIZE == 0 && t.pltrelsz % RELA_SIZE == 0
    && (t.relasz != 0 ==> t.rela != 0 && RangeLoaded(ph, base, t.rela, t.relasz))
    && (t.pltrelsz != 0 ==> t.jmprel != 0 && RangeLoaded(ph, base, t.jmprel, t.pltrelsz))
  }

  /** Both tables applied, the general one first; nothing is applied when a table is not well formed. */
  function Linking(w: World, h: Handle, ph: seq<Phdr>, t: Tables, m: Memory, clock: nat): Progress {
    if !TablesOk(t, ph, h.base) then Progress(m, clock, false)
    else
      var p := Run(w, false, h, ph, t.rela, t.relasz / RELA_SIZE, m, clock);
      if p.ok then Run(w, true, h, ph, t.jmprel, t.pltrelsz / RELA_SIZE, p.mem, p.clock) else p
  }

  // ------------------------------------------------------------------ strings

  /** The string at an address, if it ends within n bytes. */
  function CString(m: Memory, at: nat, n: nat): Option<seq<byte>>
    decreases n
  {
    if n == 0 || at >= TOP then None
    else if m[at] == 0 then Some([])
    else match CString(m, at + 1, n - 1) case None => None case Some(s) => Some([m[at]] + s)
  }

  predicate OccursAt(s: seq<byte>, t: seq<byte>, i: nat) { i + |t| <= |s| && s[i..i + |t|] == t }

  predicate Occurs(s: seq<byte>, t: seq<byte>) { exists i | 0 <= i <= |s| :: OccursAt(s, t, i) }

  function Clipped(s: seq<byte>): seq<byte> { if |s| > 383 then s[..383] else s }

  const SLASH: byte := 47
  const MODULES: seq<byte> := [47, 108, 105, 98, 47, 109, 111, 100, 117, 108, 101, 115, 47]
  const LIB: seq<byte> := [47, 108, 105, 98, 47]

  const NEEDED := 1
  const PLTRELSZ := 2
  const HASH := 4
  const STRTAB := 5
  const SYMTAB := 6
  const RELA := 7
  const RELASZ := 8
  const RELAENT := 9
  const STRSZ := 10
  const RPATH := 15
  const PLTREL := 20
  const JMPREL := 23
  const RUNPATH := 29
  const GNU_HASH := 0x6ffffef5

  // ------------------------------------------------------------------ mapping

  function Frame(w: World, clock: nat, at: nat): (s: seq<byte>)
    ensures |s| == PAGE
  {
    seq<byte>(PAGE, k requires 0 <= k < PAGE => w.frames(clock, at + k))
  }

  lemma DownShift(x: nat, base: nat)
    requires base % PAGE == 0
    ensures (base + x) / PAGE * PAGE == base + x / PAGE * PAGE
  {}

  /** Rounding before or after adding a page-aligned base is the same. */
  lemma DownOffset(vaddr: nat, base: u64)
    requires base % PAGE == 0 && base + vaddr < TOP
    ensures (Down(vaddr) + base) % TOP == Down(base + vaddr) && Down(base + vaddr) % PAGE == 0
    ensures Down(base + vaddr) <= base + vaddr
  {}

  lemma DownAbove(vaddr: nat, base: u64)
    requires base % PAGE == 0 && base + vaddr < TOP
    ensures base <= Down(base + vaddr)
  {}

  lemma UpOffset(v: nat, base: u64)
    requires base % PAGE == 0 && base + v < TOP
    ensures (Up(v) + base) % TOP == Up(base + v) && Up(base + v) % PAGE == 0
  {
    UpCases(v);
    UpCases(base + v);
    DownShift(v + PAGE - 1, base);
  }

  lemma AcceptedSegments(d: seq<byte>, base: u64, kernel: bool)
    requires Accepts(d, base, kernel)
    ensures Readable(d)
    ensures var ph := Headers(d);
            AllReachable(ph, base, |ph|)
            && forall i | 0 <= i < |ph| :: ph[i].kind == LOAD ==> SegmentOk(ph[i], base, |d|)
  {}

  /** Fresh frames on every page of the range; what they hold is not known. */
  function PagesMapped(w: World, m: Memory, clock: nat, i: nat, hi: nat): (Memory, nat)
    requires i % PAGE == 0 && hi % PAGE == 0 && hi <= TOP
    decreases hi - i
  {
    if i >= hi then (m, clock) else PagesMapped(w, Put(m, i, Frame(w, clock, i)), clock + 1, i + PAGE, hi)
  }

  /** New pages, then the file's bytes, then zeros. */
  function SegmentMapped(w: World, m: Memory, clock: nat, p: Phdr, base: u64, d: seq<byte>): (Memory, nat)
    requires SegmentOk(p, base, |d|) && base % PAGE == 0
  {
    DownOffset(p.vaddr, base);
    UpOffset(p.vaddr + p.memsz, base);
    var r := PagesMapped(w, m, clock, (Down(p.vaddr) + base) % TOP, (Up(p.vaddr + p.memsz) + base) % TOP);
    (Put(Put(r.0, From(p, base), d[p.offset..p.offset + p.filesz]), From(p, base) + p.filesz,
         Zero(p.memsz - p.filesz)), r.1)
  }

  predicate SegmentsOk(ph: seq<Phdr>, base: u64, size: nat) {
    forall i | 0 <= i < |ph| :: ph[i].kind == LOAD ==> SegmentOk(ph[i], base, size)
  }

  function SegmentsMapped(w: World, m: Memory, clock: nat, ph: seq<Phdr>, base: u64, d: seq<byte>, n: nat)
    : (Memory, nat)
    requires n <= |ph| && SegmentsOk(ph, base, |d|) && base % PAGE == 0
  {
    if n == 0 then (m, clock)
    else
      var r := SegmentsMapped(w, m, clock, ph, base, d, n - 1);
      if ph[n-1].kind == LOAD then SegmentMapped(w, r.0, r.1, ph[n-1], base, d) else r
  }

  // ------------------------------------------------------------ memory frames

  ghost predicate SameOutside(m: Memory, n: Memory, low: nat, high: nat) {
    forall a | 0 <= a < TOP :: a < low || high <= a ==> n[a] == m[a]
  }

  lemma SameOutsideTwice(a: Memory, b: Memory, c: Memory, low: nat, mid: nat, high: nat)
    requires SameOutside(a, b, low, mid) && SameOutside(b, c, mid, high) && low <= mid <= high
    ensures SameOutside(a, c, low, high)
  {}

  lemma SameOutsideHere(m: Memory, low: nat, high: nat)
    ensures SameOutside(m, m, low, high)
  {}

  lemma PutTwice(m: Memory, at: nat, b: seq<byte>, c: seq<byte>)
    requires at + |b| + |c| <= TOP
    ensures var n := Put(Put(m, at, b), at + |b|, c);
            n[at..at + |b| + |c|] == b + c && SameOutside(m, n, at, at + |b| + |c|)
  {}

  lemma SameOutsideWithin(a: Memory, b: Memory, c: Memory, lo: nat, from: nat, to: nat, hi: nat)
    requires SameOutside(a, b, lo, hi) && SameOutside(b, c, from, to)
    ensures lo <= from && to <= hi ==> SameOutside(a, c, lo, hi)
  {}

  lemma Widen(a: Memory, b: Memory, c: Memory, ph: seq<Phdr>, base: u64, i: nat)
    requires i < |ph| && AllReachable(ph, base, |ph|) && ph[i].kind == LOAD && base % PAGE == 0
    requires !AnyWraps(ph[..i], base) ==> SameOutside(a, b, base, High(ph, base, i))
    requires !Wraps(ph[i], base) ==> SameOutside(b, c, Down(From(ph[i], base)), Up(To(ph[i], base)))
    ensures !AnyWraps(ph[..i + 1], base) ==> SameOutside(a, c, base, High(ph, base, i + 1))
  {
    hide SameOutside;
    hide Up;
    hide Down;
    if !AnyWraps(ph[..i + 1], base) {
      WrapsSplit(ph, base, i);
      DownAbove(ph[i].vaddr, base);
      SameOutsideJoin(a, b, c, base, High(ph, base, i), Down(From(ph[i], base)), Up(To(ph[i], base)),
                      High(ph, base, i + 1));
    }
  }

  lemma WrapsSplit(ph: seq<Phdr>, base: u64, i: nat)
    requires i < |ph| && !AnyWraps(ph[..i + 1], base)
    ensures !AnyWraps(ph[..i], base) && !Wraps(ph[i], base)
  {}

  lemma SameOutsideJoin(a: Memory, b: Memory, c: Memory, low: nat, mid: nat, from: nat, to: nat, high: nat)
    requires SameOutside(a, b, low, mid) && SameOutside(b, c, from, to) && low <= from && mid <= high && to <= high
    ensures SameOutside(a, c, low, high)
  {}

  lemma {:induction false} PagesFrame(w: World, m: Memory, clock: nat, i: nat, hi: nat)
    requires i % PAGE == 0 && hi % PAGE == 0 && hi <= TOP
    ensures SameOutside(m, PagesMapped(w, m, clock, i, hi).0, i, hi)
    decreases hi - i
  {
    if i < hi {
      PagesFrame(w, Put(m, i, Frame(w, clock, i)), clock + 1, i + PAGE, hi);
    }
  }

  /** A mapped segment holds the file's bytes followed by zeros, and only its pages change. */
  lemma SegmentShape(w: World, m: Memory, clock: nat, p: Phdr, base: u64, d: seq<byte>)
    requires SegmentOk(p, base, |d|) && base % PAGE == 0
    ensures var n := SegmentMapped(w, m, clock, p, base, d).0;
            && n[From(p, base)..To(p, base)] == d[p.offset..p.offset + p.filesz] + Zero(p.memsz - p.filesz)
            && (To(p, base) <= TOP - PAGE ==> SameOutside(m, n, Down(From(p, base)), Up(To(p, base))))
  {
    hide SameOutside;
    hide Put;
    hide Up;
    hide Down;
    hide Zero;
    hide PagesMapped;
    var hi, lo := (Up(p.vaddr + p.memsz) + base) % TOP, (Down(p.vaddr) + base) % TOP;
    DownOffset(p.vaddr, base);
    UpOffset(p.vaddr + p.memsz, base);
    PagesFrame(w, m, clock, lo, hi);
    var before := PagesMapped(w, m, clock, lo, hi).0;
    PutTwice(before, From(p, base), d[p.offset..p.offset + p.filesz], Zero(p.memsz - p.filesz));
    UpCases(To(p, base));
    SameOutsideWithin(m, before, SegmentMapped(w, m, clock, p, base, d).0, lo, From(p, base), To(p, base), hi);
  }

  /** Mapping segments that do not wrap changes only the image. */
  lemma {:induction false} SegmentsFrame(w: World, m: Memory, clock: nat, ph: seq<Phdr>, base: u64, d: seq<byte>,
                                         n: nat)
    requires n <= |ph| && SegmentsOk(ph, base, |d|) && base % PAGE == 0 && AllReachable(ph, base, |ph|)
    ensures !AnyWraps(ph[..n], base) ==>
              SameOutside(m, SegmentsMapped(w, m, clock, ph, base, d, n).0, base, High(ph, base, n))
    ensures ph[..|ph|] == ph
  {
    hide SameOutside;
    hide SegmentMapped;
    hide Up;
    hide Down;
    if n == 0 {
      SameOutsideHere(m, base, High(ph, base, 0));
    } else {
      var r := SegmentsMapped(w, m, clock, ph, base, d, n - 1);
      SegmentsFrame(w, m, clock, ph, base, d, n - 1);
      assert ph[..n] == ph[..n - 1] + [ph[n-1]];
      if ph[n-1].kind == LOAD {
        SegmentShape(w, r.0, r.1, ph[n-1], base, d);
        Widen(m, r.0, SegmentsMapped(w, m, clock, ph, base, d, n).0, ph, base, n - 1);
      }
    }
  }

  // ------------------------------------------------------------ dynamic tables

  predicate AtEntry(m: Memory, at: nat) { at + DYN_SIZE <= TOP && Peek(m, at, 8) != 0 }

  /** The first dynamic header, or the number of headers. */
  function FirstDynamic(ph: seq<Phdr>, i: nat): (r: nat)
    requires i <= |ph|
    ensures i <= r <= |ph| && (r < |ph| ==> ph[r].kind == DYNAMIC)
    decreases |ph| - i
  {
    if i == |ph| || ph[i].kind == DYNAMIC then i else FirstDynamic(ph, i + 1)
  }

  predicate SameObject(h: Handle, g: Handle) {
    g.base == h.base && g.file == h.file && g.kernel == h.kernel && g.path == h.path
  }

  /** The symbol and string tables of a dynamic table; how many symbols there are is answered from outside. */
  function Symbols(w: World, m: Memory, clock: nat, h: Handle, ph: seq<Phdr>, at: nat): (r: (Handle, nat))
    ensures SameObject(h, r.0)
    decreases TOP - at
  {
    if !AtEntry(m, at) then (if h.symCount == 0 then (h.(symCount := w.answers(clock)), clock + 1) else (h, clock))
    else
      var tag, v := Peek(m, at, 8), Peek(m, at + 8, 8);
      if tag == SYMTAB then Symbols(w, m, clock, h.(symtab := DynamicPtr(ph, h.base, v)), ph, at + DYN_SIZE)
      else if tag == STRTAB then Symbols(w, m, clock, h.(strtab := DynamicPtr(ph, h.base, v)), ph, at + DYN_SIZE)
      else if tag == STRSZ then Symbols(w, m, clock, h.(strtabsz := v), ph, at + DYN_SIZE)
      else if tag == HASH || tag == GNU_HASH then
        Symbols(w, m, clock + 1, h.(symCount := w.answers(clock)), ph, at + DYN_SIZE)
      else Symbols(w, m, clock, h, ph, at + DYN_SIZE)
  }

  /** A string of the object's string table, if the offset is inside it and the string ends there. */
  function StringAt(m: Memory, h: Handle, offset: nat): Option<seq<byte>> {
    if h.strtab == 0 || offset >= h.strtabsz then None else CString(m, h.strtab + offset, h.strtabsz - offset)
  }

  /** The library search path: the last readable DT_RUNPATH, or else the last readable DT_RPATH. */
  function SearchPath(m: Memory, h: Handle, at: nat, rpath: Option<seq<byte>>,
                      runpath: Option<seq<byte>>): Option<seq<byte>>
    decreases TOP - at
  {
    if !AtEntry(m, at) then (if runpath.Some? then runpath else rpath)
    else
      var tag, name := Peek(m, at, 8), StringAt(m, h, Peek(m, at + 8, 8));
      SearchPath(m, h, at + DYN_SIZE, if tag == RPATH && name.Some? then name else rpath,
                 if tag == RUNPATH && name.Some? then name else runpath)
  }

  /** What a dynamic table says of an object: its symbol and string tables and its search path. */
  function Described(w: World, m: Memory, clock: nat, h: Handle, ph: seq<Phdr>, dyn: nat): (r: (Handle, nat))
    ensures SameObject(h, r.0)
  {
    var y := Symbols(w, m, clock, h, ph, dyn);
    (y.0.(rpath := SearchPath(m, y.0, dyn, None, None)), y.1)
  }

  /** More than 64 needed libraries, some of them counted already. */
  predicate TooMany(m: Memory, at: nat, count: nat)
    decreases TOP - at
  {
    if !AtEntry(m, at) then false
    else if Peek(m, at, 8) != NEEDED then TooMany(m, at + DYN_SIZE, count)
    else count + 1 > 64 || TooMany(m, at + DYN_SIZE, count + 1)
  }

  /** Where a needed library is looked for. */
  function Sought(w: World, clock: nat, h: Handle, name: seq<byte>): (seq<byte>, nat) {
    if SLASH in name then (Clipped(name), clock)
    else if h.kernel then (Clipped(MODULES + name), clock)
    else if h.rpath.None? then (Clipped(LIB + name), clock)
    else
      var candidate := Clipped(h.rpath.value + [SLASH] + name);
      (if w.files(clock, candidate).Some? then candidate else Clipped(LIB + name), clock + 1)
  }

  // -------------------------------------------------------------- whole loads

  /** Everything a load can change. */
  datatype Sys = Sys(mem: Memory, kernelOffset: nat, userNext: nat, handles: seq<Handle>, refs: map<u64, nat>,
                     clock: nat) {
    function Next(kernel: bool): (r: nat)
      ensures Aligned() ==> r % PAGE == 0
    {
      if kernel then Space(true).start + kernelOffset else userNext
    }

    /** What is left of a window. */
    function Room(kernel: bool): nat {
      if Next(kernel) < Space(kernel).end then Space(kernel).end - Next(kernel) else 0
    }

    predicate Aligned() { kernelOffset % PAGE == 0 && userNext % PAGE == 0 }

    function Taken(kernel: bool, size: nat): (r: Sys)
      ensures Aligned() ==> r.Aligned()
      ensures size > 0 && Room(kernel) > 0 ==> r.Room(kernel) < Room(kernel)
    {
      var taken := (size + PAGE - 1) / PAGE * PAGE;
      if kernel then this.(kernelOffset := kernelOffset + taken) else this.(userNext := userNext + taken)
    }
  }

  function Listed(handles: seq<Handle>, path: seq<byte>): (r: Option<Handle>)
    ensures r.Some? ==> r.value in handles && r.value.path == path
    ensures r.None? ==> forall h <- handles :: h.path != path
  {
    if handles == [] then None else if handles[0].path == path then Some(handles[0]) else Listed(handles[1..], path)
  }

  predicate IsNamed(handles: seq<Handle>, name: seq<byte>) { exists h <- handles :: Occurs(h.path, name) }

  /** One more user of a listed object. */
  function Shared(s: Sys, base: u64): Sys {
    var count := if base in s.refs then s.refs[base] else 0;
    s.(refs := s.refs[base := if count == 0 then 1 else count + 1])
  }

  predicate IsShared(d: seq<byte>) { |d| >= EHDR_SIZE && HeadOk(d) && Little(d, 16, 2) == 3 }

  /** A load: the listed object under the path, or the file mapped, linked and listed. */
  function Load(w: World, s: Sys, path: seq<byte>, kernel: bool): (r: (Sys, Option<u64>))
    requires s.Aligned()
    ensures r.0.Aligned() && r.0.Room(kernel) <= s.Room(kernel)
    decreases s.Room(kernel), 1
  {
    match Listed(s.handles, path)
    case Some(h) => (Shared(s, h.base), Some(h.base))
    case None =>
      var file, t := w.files(s.clock, path), s.(clock := s.clock + 1);
      if file.None? || !IsShared(file.value) then (t, None) else Place(w, t, path, kernel, file.value)
  }

  /**
    An accepted file: its headers, the room it needs, whether there is anything to map and whether that exceeds
    the room.
   */
  datatype Plan = Plan(ph: seq<Phdr>, size: nat, loads: bool, overrun: bool)

  function Planned(d: seq<byte>, base: u64, kernel: bool): (r: Option<Plan>)
    ensures r.Some? <==> Accepts(d, base, kernel)
    ensures r.Some? ==> SegmentsOk(r.value.ph, base, |d|) && r.value.size > 0
  {
    if !Accepts(d, base, kernel) then None
    else
      AcceptedSegments(d, base, kernel);
      AcceptedHeaders(d, base, kernel);
      var ph := Headers(d);
      var size := High(ph, base, |ph|) - base;
      Some(Plan(ph, size, Loads(ph, |ph|), LastByte(ph, base, |ph|) - FirstByte(ph, base, |ph|) > size))
  }

  function Place(w: World, s: Sys, path: seq<byte>, kernel: bool, d: seq<byte>): (r: (Sys, Option<u64>))
    requires s.Aligned()
    ensures r.0.Aligned() && r.0.Room(kernel) <= s.Room(kernel)
    decreases s.Room(kernel), 0
  {
    if s.Room(kernel) == 0 then (s, None)
    else
      var base: u64 := s.Next(kernel);
      var plan := Planned(d, base, kernel);
      if plan.None? || !plan.value.loads then (s, None)
      else
        var m := SegmentsMapped(w, s.mem, s.clock, plan.value.ph, base, d, |plan.value.ph|);
        var t := s.(mem := m.0, clock := m.1);
        if plan.value.overrun then (t, None)
        else Link(w, t.Taken(kernel, plan.value.size), Handle(path, base, d, kernel, 0, 0, 0, 0, None), plan.value.ph)
  }

  /** Dependencies first, then the object's own relocations. */
  function Bound(w: World, s: Sys, h: Handle, ph: seq<Phdr>, dyn: nat): (r: (Sys, bool))
    requires s.Aligned()
    ensures r.0.Aligned() && r.0.Room(h.kernel) <= s.Room(h.kernel)
    decreases s.Room(h.kernel), 3
  {
    if TooMany(s.mem, dyn, 0) then (s, false)
    else
      var n := Needs(w, s, h, dyn);
      if !n.1 then n
      else
        var p := Linking(w, h, ph, Scanned(n.0.mem, ph, h.base, dyn, NO_TABLES), n.0.mem, n.0.clock);
        (n.0.(mem := p.mem, clock := p.clock), p.ok)
  }

  /** An object without a dynamic table needs nothing; any other is read and bound. */
  function Tied(w: World, s: Sys, h: Handle, ph: seq<Phdr>): (r: (Sys, bool, Handle))
    requires s.Aligned()
    ensures r.0.Aligned() && r.0.Room(h.kernel) <= s.Room(h.kernel) && SameObject(h, r.2)
    decreases s.Room(h.kernel), 4
  {
    var i := FirstDynamic(ph, 0);
    if i == |ph| then (s, true, h)
    else
      var dyn := (h.base + ph[i].vaddr) % TOP;
      var g := Described(w, s.mem, s.clock, h, ph, dyn);
      var b := Bound(w, s.(clock := g.1), g.0, ph, dyn);
      (b.0, b.1, g.0)
  }

  /** An object that is tied to what it needs goes to the head of the list. */
  function Link(w: World, s: Sys, h: Handle, ph: seq<Phdr>): (r: (Sys, Option<u64>))
    requires s.Aligned()
    ensures r.0.Aligned() && r.0.Room(h.kernel) <= s.Room(h.kernel)
    decreases s.Room(h.kernel), 5
  {
    var t := Tied(w, s, h, ph);
    if t.1 then Enlisted(t.0, t.2) else (t.0, None)
  }

  function Enlisted(s: Sys, h: Handle): (Sys, Option<u64>) {
    (s.(handles := [h] + s.handles, refs := s.refs[h.base := 1]), Some(h.base))
  }

  /** Finds or loads every needed library from an entry on. */
  function Needs(w: World, s: Sys, h: Handle, at: nat): (r: (Sys, bool))
    requires s.Aligned()
    ensures r.0.Aligned() && r.0.Room(h.kernel) <= s.Room(h.kernel)
    decreases s.Room(h.kernel), 2, TOP - at
  {
    if !AtEntry(s.mem, at) then (s, true)
    else if Peek(s.mem, at, 8) != NEEDED then Needs(w, s, h, at + DYN_SIZE)
    else
      var name := StringAt(s.mem, h, Peek(s.mem, at + 8, 8));
      if name.None? then (s, false)
      else if IsNamed(s.handles, name.value) then Needs(w, s, h, at + DYN_SIZE)
      else
        var path := Sought(w, s.clock, h, name.value);
        var l := Load(w, s.(clock := path.1), path.0, h.kernel);
        if l.1.None? then (l.0, false) else Needs(w, l.0, h, at + DYN_SIZE)
  }

  function AllLoaded(w: World, s: Sys, requests: seq<(seq<byte>, bool)>): (r: Sys)
    requires s.Aligned()
    ensures r.Aligned()
  {
    if requests == [] then s
    else
      var last := requests[|requests|-1];
      Load(w, AllLoaded(w, s, requests[..|requests|-1]), last.0, last.1).0
  }

  /** Loading a path again shares the object that the first load gave. */
  lemma LoadedTwice(w: World, s: Sys, path: seq<byte>, kernel: bool, again: bool)
    requires s.Aligned() && Load(w, s, path, kernel).1.Some?
    ensures var l := Load(w, s, path, kernel); Load(w, l.0, path, again) == (Shared(l.0, l.1.value), l.1)
  {
    hide Place;
    hide HeadOk;
    if Listed(s.handles, path).None? {
      EndsListed(w, s.(clock := s.clock + 1), path, kernel, w.files(s.clock, path).value);
    }
  }

  lemma EndsListed(w: World, s: Sys, path: seq<byte>, kernel: bool, d: seq<byte>)
    requires s.Aligned() && Place(w, s, path, kernel, d).1.Some?
    ensures var r := Place(w, s, path, kernel, d);
            Listed(r.0.handles, path).Some? && Listed(r.0.handles, path).value.base == r.1.value
  {
    hide Planned;
    hide SegmentsMapped;
    hide Tied;
  }
}
