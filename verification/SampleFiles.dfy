/**
  Two concrete shared objects. The first passes every check at the start of the kernel window
  although its second segment ends in the last page of the address space, so that the end
  rounded up to a page wraps to zero. The second needs a library whose name leads back to it.
 */
module SampleFiles {
  import opened Common
  import opened ElfImage
  import opened Relocation
  import opened LoaderSteps
  import opened LoaderFacts

  // ------------------------------------------------------------ reading bytes

  predicate Blank(d: seq<byte>, at: nat)
    requires at + 4 <= |d|
  {
    d[at] == d[at + 1] == d[at + 2] == d[at + 3] == 0
  }

  /** A four-byte number in the low half of eight bytes. */
  lemma Word(d: seq<byte>, at: nat)
    requires at + 8 <= |d| && Blank(d, at + 4)
    ensures Little(d, at, 8) == Joined(d[at], d[at + 1], d[at + 2], d[at + 3])
  {
    hide Little, Pow256;
    assert Little(d, at + 4, 4) == 0 by { Four(d, at + 4); }
    assert Little(d, at, 8) == Little(d, at, 4) by { Eight(d, at); }
    Four(d, at);
  }

  predicate Holds(d: seq<byte>, at: nat, a: byte, b: byte, c: byte, e: byte)
    requires at + 4 <= |d|
  {
    d[at] == a && d[at + 1] == b && d[at + 2] == c && d[at + 3] == e
  }

  lemma Small(d: seq<byte>, at: nat, a: byte, b: byte, c: byte, e: byte)
    requires at + 8 <= |d| && Holds(d, at, a, b, c, e) && Blank(d, at + 4)
    ensures Little(d, at, 8) == Joined(a, b, c, e)
  {
    hide Little, Pow256;
    Word(d, at);
  }

  lemma Zero(d: seq<byte>, at: nat)
    requires at + 8 <= |d| && Blank(d, at) && Blank(d, at + 4)
    ensures Little(d, at, 8) == 0
  {
    hide Little, Pow256;
    Word(d, at);
  }

  // ----------------------------------------------------- a segment that wraps

  const BASE: u64 := 0xffffffffb0000000
  const SIZE := 248
  const FAR: u64 := 0xffffffffffffff00   // where the second segment starts

  /** An ELF header, three program headers from byte 64 on and an empty dynamic table at byte 232. */
  function ByteAt(i: nat): byte {
    if i == 0 then 0x7f else if i == 1 then 0x45 else if i == 2 then 0x4c else if i == 3 then 0x46
    else if i == 16 then 3 else if i == 18 then 62 else if i == 20 then 1 else if i == 32 then 64
    else if i == 52 then 64 else if i == 54 then 56 else if i == 56 then 3
    else if i == 64 then 1 else if i == 96 then 248 else if i == 105 then 0x10
    else if i == 120 then 1 else if i == 137 then 0xff else if i == 138 then 0xff else if i == 139 then 0x4f
    else if i == 152 then 1 else if i == 160 then 0x80
    else if i == 176 then 2 else if i == 184 then 232 else if i == 192 then 232 else if i == 208 then 16
    else if i == 216 then 16
    else 0
  }

  function File(): (d: seq<byte>)
    ensures |d| == SIZE && forall i | 0 <= i < SIZE :: d[i] == ByteAt(i)
  {
    seq(SIZE, i requires 0 <= i < SIZE => ByteAt(i))
  }

  function Headers3(): seq<Phdr> {
    [Phdr(LOAD, 0, 0, 248, 0x1000), Phdr(LOAD, 0, 0x4fffff00, 1, 0x80), Phdr(DYNAMIC, 232, 232, 16, 16)]
  }

  lemma Numbers()
    ensures Little(File(), 16, 2) == 3 && Little(File(), 18, 2) == 62 && Little(File(), 20, 4) == 1
    ensures Little(File(), 32, 8) == 64 && Little(File(), 52, 2) == 64
    ensures Little(File(), 54, 2) == 56 && Little(File(), 56, 2) == 3
  {
    hide Little, Pow256, File;
    var d := File();
    assert Little(d, 16, 2) == 3 by { Two(d, 16); }
    assert Little(d, 18, 2) == 62 by { Two(d, 18); }
    assert Little(d, 20, 4) == 1 by { Four(d, 20); }
    assert Little(d, 32, 8) == 64 by { Word(d, 32); }
    assert Little(d, 52, 2) == 64 by { Two(d, 52); }
    assert Little(d, 54, 2) == 56 by { Two(d, 54); }
    assert Little(d, 56, 2) == 3 by { Two(d, 56); }
  }

  lemma IsReadable()
    ensures Readable(File()) && Headers(File()) == Headers3()
  {
    hide Little, Pow256, File;
    Numbers();
    var d := File();
    assert d[..4] == [0x7f, 0x45, 0x4c, 0x46];
    First();
    Second();
    Third();
    assert Headers(d)[0] == Headers3()[0] && Headers(d)[1] == Headers3()[1] && Headers(d)[2] == Headers3()[2];
  }

  lemma First()
    ensures Little(File(), 64, 4) == 1
    ensures Little(File(), 72, 8) == 0
    ensures Little(File(), 80, 8) == 0
    ensures Little(File(), 96, 8) == 248
    ensures Little(File(), 104, 8) == 0x1000
  {
    hide Little, Pow256, File;
    var d := File();
    assert Little(d, 64, 4) == 1 by { Four(d, 64); }
    assert Little(d, 72, 8) == 0 by { Zero(d, 72); }
    assert Little(d, 80, 8) == 0 by { Zero(d, 80); }
    assert Little(d, 96, 8) == 248 by { Small(d, 96, 248, 0, 0, 0); }
    assert Little(d, 104, 8) == 0x1000 by { Small(d, 104, 0, 0x10, 0, 0); }
  }

  lemma Second()
    ensures Little(File(), 120, 4) == 1
    ensures Little(File(), 128, 8) == 0
    ensures Little(File(), 136, 8) == 0x4fffff00
    ensures Little(File(), 152, 8) == 1
    ensures Little(File(), 160, 8) == 128
  {
    hide Little, Pow256, File;
    var d := File();
    assert Little(d, 120, 4) == 1 by { Four(d, 120); }
    assert Little(d, 128, 8) == 0 by { Zero(d, 128); }
    assert Little(d, 136, 8) == 0x4fffff00 by { Small(d, 136, 0, 0xff, 0xff, 0x4f); }
    assert Little(d, 152, 8) == 1 by { Small(d, 152, 1, 0, 0, 0); }
    assert Little(d, 160, 8) == 128 by { Small(d, 160, 0x80, 0, 0, 0); }
  }

  lemma Third()
    ensures Little(File(), 176, 4) == 2
    ensures Little(File(), 184, 8) == 232
    ensures Little(File(), 192, 8) == 232
    ensures Little(File(), 208, 8) == 16
    ensures Little(File(), 216, 8) == 16
  {
    hide Little, Pow256, File;
    var d := File();
    assert Little(d, 176, 4) == 2 by { Four(d, 176); }
    assert Little(d, 184, 8) == 232 by { Small(d, 184, 232, 0, 0, 0); }
    assert Little(d, 192, 8) == 232 by { Small(d, 192, 232, 0, 0, 0); }
    assert Little(d, 208, 8) == 16 by { Small(d, 208, 16, 0, 0, 0); }
    assert Little(d, 216, 8) == 16 by { Small(d, 216, 16, 0, 0, 0); }
  }

  /** The file is accepted at the start of the kernel window, and its second segment wraps there. */
  lemma AcceptedAndWraps()
    ensures Accepts(File(), BASE, true) && AnyWraps(Headers(File()), BASE)
  {
    hide Little, Pow256, File;
    IsReadable();
    var d, ph := File(), Headers3();
    EmptyTable();
    assert Inside(ph[2], ph[0], BASE);
    Bounds();
    assert ph[2].kind == DYNAMIC && ph[0].kind == LOAD;
    assert Wraps(ph[1], BASE);
  }

  lemma EmptyTable()
    ensures TableOk(Headers3()[2], SIZE) && Terminated(File(), Headers3()[2])
  {
    hide Little, Pow256, File;
    assert Little(File(), 232, 8) == 0 by { Word(File(), 232); }
    assert TagAt(File(), Headers3()[2], 0) == 0;
  }

  lemma Bounds()
    ensures var ph := Headers3();
            AllReachable(ph, BASE, 3) && Low(ph, BASE, 3) == BASE && High(ph, BASE, 3) == BASE + 0x1000
  {
    var ph := Headers3();
    UpCases(To(ph[0], BASE));
    UpCases(To(ph[1], BASE));
    assert Low(ph, BASE, 1) == BASE && High(ph, BASE, 1) == BASE + 0x1000;
    assert Low(ph, BASE, 2) == BASE && High(ph, BASE, 2) == BASE + 0x1000;
  }

  lemma FarByte(w: World, mem: Memory, clock: nat)
    requires Accepts(File(), BASE, true) && Headers(File()) == Headers3()
    ensures SegmentsMapped(w, mem, clock, Headers3(), BASE, File(), 3).0[FAR] == 0x7f
  {
    hide Little;
    hide File;
    hide Accepts;
    hide SegmentMapped;
    var ph := Headers3();
    AcceptedSegments(File(), BASE, true);
    var first := SegmentsMapped(w, mem, clock, ph, BASE, File(), 1);
    SegmentShape(w, first.0, first.1, ph[1], BASE, File());
    var n := SegmentsMapped(w, mem, clock, ph, BASE, File(), 2).0;
    assert n[FAR] == n[FAR..FAR + 0x80][0] == File()[0];
    assert SegmentsMapped(w, mem, clock, ph, BASE, File(), 3).0 == n;
  }

  /**
    Loading it as the first kernel module fails, takes no addresses and lists nothing, yet leaves
    the file's first byte in the last page of memory.
   */
  lemma FailsAfterWriting(w: World, s: Sys, path: seq<byte>)
    requires s.Aligned() && s.kernelOffset == 0 && Listed(s.handles, path).None?
    requires w.files(s.clock, path) == Some(File())
    ensures var r := Load(w, s, path, true);
            r.1.None? && r.0 == s.(mem := r.0.mem, clock := r.0.clock) && r.0.mem[FAR] == 0x7f
  {
    hide Little;
    hide File;
    hide Accepts;
    hide SegmentMapped;
    hide SegmentsMapped;
    AcceptedAndWraps();
    IsReadable();
    AcceptedSegments(File(), BASE, true);
    AcceptedHeaders(File(), BASE, true);
    SizeCheckFiresIffWraps(Headers3(), BASE, true);
    FarByte(w, s.mem, s.clock + 1);
  }

  // -------------------------------------------------- a library that needs itself

  const NAME: seq<byte> := [120]
  const SELF_SIZE := 242

  /** An ELF header, two program headers, a table of STRTAB, STRSZ, NEEDED and a terminator, and the name. */
  function SelfByteAt(i: nat): byte {
    if i == 0 then 0x7f else if i == 1 then 0x45 else if i == 2 then 0x4c else if i == 3 then 0x46
    else if i == 16 then 3 else if i == 18 then 62 else if i == 20 then 1 else if i == 32 then 64
    else if i == 52 then 64 else if i == 54 then 56 else if i == 56 then 2
    else if i == 64 then 1 else if i == 96 then 242 else if i == 104 then 242
    else if i == 120 then 2 else if i == 128 then 176 else if i == 136 then 176
    else if i == 152 then 64 else if i == 160 then 64
    else if i == 176 then 5 else if i == 184 then 240 else if i == 192 then 10 else if i == 200 then 2
    else if i == 208 then 1 else if i == 240 then 120
    else 0
  }

  function SelfFile(): (d: seq<byte>)
    ensures |d| == SELF_SIZE && forall i | 0 <= i < SELF_SIZE :: d[i] == SelfByteAt(i)
  {
    seq(SELF_SIZE, i requires 0 <= i < SELF_SIZE => SelfByteAt(i))
  }

  function SelfHeaders(): seq<Phdr> {
    [Phdr(LOAD, 0, 0, 242, 242), Phdr(DYNAMIC, 176, 176, 64, 64)]
  }

  lemma SelfKind()
    ensures Little(SelfFile(), 18, 2) == 62 && Little(SelfFile(), 20, 4) == 1
    ensures Little(SelfFile(), 52, 2) == 64 && Little(SelfFile(), 54, 2) == 56
  {
    hide Little, Pow256, SelfFile;
    var d := SelfFile();
    assert Little(d, 18, 2) == 62 by { Two(d, 18); }
    assert Little(d, 20, 4) == 1 by { Four(d, 20); }
    assert Little(d, 52, 2) == 64 by { Two(d, 52); }
    assert Little(d, 54, 2) == 56 by { Two(d, 54); }
  }

  lemma SelfNumbers()
    ensures Little(SelfFile(), 16, 2) == 3 && Little(SelfFile(), 32, 8) == 64 && Little(SelfFile(), 56, 2) == 2
    ensures Little(SelfFile(), 64, 4) == 1 && Little(SelfFile(), 72, 8) == 0 && Little(SelfFile(), 80, 8) == 0
    ensures Little(SelfFile(), 96, 8) == 242 && Little(SelfFile(), 104, 8) == 242
  {
    hide Little, Pow256, SelfFile;
    var d := SelfFile();
    assert Little(d, 16, 2) == 3 by { Two(d, 16); }
    assert Little(d, 32, 8) == 64 by { Word(d, 32); }
    assert Little(d, 56, 2) == 2 by { Two(d, 56); }
    assert Little(d, 64, 4) == 1 by { Four(d, 64); }
    assert Little(d, 72, 8) == 0 by { Zero(d, 72); }
    assert Little(d, 80, 8) == 0 by { Zero(d, 80); }
    assert Little(d, 96, 8) == 242 by { Word(d, 96); }
    assert Little(d, 104, 8) == 242 by { Word(d, 104); }
  }

  lemma SelfTable()
    ensures Little(SelfFile(), 120, 4) == 2 && Little(SelfFile(), 128, 8) == Little(SelfFile(), 136, 8) == 176
    ensures Little(SelfFile(), 152, 8) == Little(SelfFile(), 160, 8) == 64
  {
    hide Little, Pow256, SelfFile;
    var d := SelfFile();
    assert Little(d, 120, 4) == 2 by { Four(d, 120); }
    assert Little(d, 128, 8) == 176 by { Word(d, 128); }
    assert Little(d, 136, 8) == 176 by { Word(d, 136); }
    assert Little(d, 152, 8) == 64 by { Word(d, 152); }
    assert Little(d, 160, 8) == 64 by { Word(d, 160); }
  }

  lemma SelfEntries()
    ensures Little(SelfFile(), 176, 8) == STRTAB && Little(SelfFile(), 184, 8) == 240
    ensures Little(SelfFile(), 192, 8) == STRSZ && Little(SelfFile(), 200, 8) == 2
    ensures Little(SelfFile(), 208, 8) == NEEDED && Little(SelfFile(), 216, 8) == 0 && Little(SelfFile(), 224, 8) == 0
  {
    hide Little, Pow256, SelfFile;
    var d := SelfFile();
    assert Little(d, 176, 8) == STRTAB by { Word(d, 176); }
    assert Little(d, 184, 8) == 240 by { Word(d, 184); }
    assert Little(d, 192, 8) == STRSZ by { Word(d, 192); }
    assert Little(d, 200, 8) == 2 by { Word(d, 200); }
    assert Little(d, 208, 8) == NEEDED by { Word(d, 208); }
    assert Little(d, 216, 8) == 0 by { Zero(d, 216); }
    assert Little(d, 224, 8) == 0 by { Zero(d, 224); }
  }

  lemma SelfHeadersRead()
    ensures Readable(SelfFile()) && Headers(SelfFile()) == SelfHeaders()
  {
    hide Little, Pow256, SelfFile;
    SelfKind();
    SelfNumbers();
    SelfTable();
    var d := SelfFile();
    assert d[..4] == [0x7f, 0x45, 0x4c, 0x46];
    assert Headers(d)[0] == SelfHeaders()[0] && Headers(d)[1] == SelfHeaders()[1];
  }

  lemma SelfTerminated()
    ensures TableOk(SelfHeaders()[1], SELF_SIZE) && Terminated(SelfFile(), SelfHeaders()[1])
  {
    hide Little, Pow256, SelfFile;
    SelfEntries();
    assert TagAt(SelfFile(), SelfHeaders()[1], 3) == 0;
  }

  lemma NextPage(base: u64, end: u64)
    requires base % PAGE == 0 && end % PAGE == 0 && base < end < base + 2 * PAGE
    ensures end == base + PAGE && Down(base) == base
  {
    assert base == PAGE * (base / PAGE) && end == PAGE * (end / PAGE);
  }

  lemma SelfBounds(base: u64)
    requires base % PAGE == 0 && base + PAGE < TOP
    ensures AllReachable(SelfHeaders(), base, 2)
    ensures Low(SelfHeaders(), base, 2) == base && High(SelfHeaders(), base, 2) == base + PAGE
  {
    hide Up, Down;
    var ph := SelfHeaders();
    UpCases(To(ph[0], base));
    NextPage(base, Up(To(ph[0], base)));
    assert Low(ph, base, 0) == TOP - 1 && High(ph, base, 0) == 0;
    assert Low(ph, base, 1) == base && High(ph, base, 1) == base + PAGE;
  }

  /** The file is accepted at every page of the kernel window, needs one page there and does not wrap. */
  lemma SelfAccepted(base: u64)
    requires base % PAGE == 0 && Space(true).start <= base && base + PAGE <= Space(true).end
    ensures Accepts(SelfFile(), base, true) && !AnyWraps(Headers(SelfFile()), base)
    ensures Planned(SelfFile(), base, true) == Some(Plan(SelfHeaders(), PAGE, true, false))
  {
    hide Little, SelfFile;
    SelfHeadersRead();
    SelfTerminated();
    SelfBounds(base);
    var d, ph := SelfFile(), SelfHeaders();
    assert Inside(ph[1], ph[0], base);
    assert ph[1].kind == DYNAMIC && ph[0].kind == LOAD;
    assert !AnyWraps(ph, base);
    assert Accepts(d, base, true);
    SizeCheckFiresIffWraps(ph, base, true);
  }

  ghost predicate Holds242(m: Memory, base: nat) { base + 242 < TOP && m[base..base + 242] == SelfFile() }

  lemma PeekFile(m: Memory, base: nat, off: nat)
    requires Holds242(m, base) && off + 8 <= 242
    ensures Peek(m, base + off, 8) == Little(SelfFile(), off, 8)
  {
    hide Little, SelfFile;
    var d := SelfFile();
    Part(m, base, base + 242, off, off + 8);
    LittleSame(m, base + off, d, off, 8);
  }

  /** The table as it stands in memory. */
  ghost predicate TableHere(m: Memory, at: nat) {
    && Peek(m, at, 8) == STRTAB && Peek(m, at + 8, 8) == 240 && Peek(m, at + 16, 8) == STRSZ && Peek(m, at + 24, 8) == 2
    && Peek(m, at + 32, 8) == NEEDED && Peek(m, at + 40, 8) == 0 && Peek(m, at + 48, 8) == 0 && at + 66 < TOP
  }

  lemma TableMapped(m: Memory, base: nat)
    requires Holds242(m, base)
    ensures TableHere(m, base + 176) && m[base + 240] == 120 && m[base + 241] == 0
  {
    hide Little, Peek, SelfFile;
    SelfEntries();
    PeekFile(m, base, 176);
    PeekFile(m, base, 184);
    PeekFile(m, base, 192);
    PeekFile(m, base, 200);
    PeekFile(m, base, 208);
    PeekFile(m, base, 216);
    PeekFile(m, base, 224);
    assert m[base + 240] == m[base..base + 242][240] && m[base + 241] == m[base..base + 242][241];
  }

  lemma SelfDescribed(w: World, m: Memory, clock: nat, h: Handle)
    requires TableHere(m, h.base + 176)
    ensures var g := Described(w, m, clock, h, SelfHeaders(), h.base + 176).0;
            SameObject(h, g) && g.strtab == h.base + 240 && g.strtabsz == 2
  {
    hide Peek, SearchPath;
    var ph, at := SelfHeaders(), h.base + 176;
    assert Covers(ph[0], h.base, h.base + 240, 1);
    var g := h.(strtab := h.base + 240);
    assert Symbols(w, m, clock, h, ph, at) == Symbols(w, m, clock, g, ph, at + 16);
    assert Symbols(w, m, clock, g, ph, at + 16) == Symbols(w, m, clock, g.(strtabsz := 2), ph, at + 32);
    var k := g.(strtabsz := 2);
    assert Symbols(w, m, clock, k, ph, at + 32) == Symbols(w, m, clock, k, ph, at + 48);
    assert !AtEntry(m, at + 48);
  }

  /** Paths that contain the name. */
  ghost function Containing(): iset<seq<byte>> { iset p: seq<byte> | Occurs(p, NAME) }

  lemma SelfAsks(w: World, s: Sys, h: Handle)
    requires s.Aligned() && NoneListed(s, Containing()) && h.kernel
    requires TableHere(s.mem, h.base + 176) && h.strtab == h.base + 240 && h.strtabsz == 2
    requires s.mem[h.base + 240] == 120 && s.mem[h.base + 241] == 0
    ensures Asks(w, s, h, h.base + 176, Containing())
  {
    hide Peek;
    var at, c := h.base + 176, Containing();
    assert CString(s.mem, h.base + 241, 1) == Some([]);
    assert [120] + [] == NAME;
    assert CString(s.mem, h.base + 240, 2) == Some([120] + []);
    assert StringAt(s.mem, h, 0) == Some(NAME);
    assert OccursAt(MODULES + NAME, NAME, |MODULES|);
    assert Asks(w, s, h, at + 32, c);
    assert Asks(w, s, h, at + 16, c);
  }

  lemma SelfMapped(w: World, m: Memory, clock: nat, base: u64)
    requires SegmentsOk(SelfHeaders(), base, SELF_SIZE) && base % PAGE == 0
    ensures Holds242(SegmentsMapped(w, m, clock, SelfHeaders(), base, SelfFile(), 2).0, base)
  {
    hide SelfFile;
    hide SegmentMapped;
    var ph, d := SelfHeaders(), SelfFile();
    SegmentShape(w, m, clock, ph[0], base, d);
    var n := SegmentMapped(w, m, clock, ph[0], base, d).0;
    assert SegmentsMapped(w, m, clock, ph, base, d, 1).0 == n;
    assert d[0..242] + Relocation.Zero(0) == d;
  }

  lemma SelfPlaceAsks(w: World, s: Sys, path: seq<byte>)
    requires s.Aligned() && NoneListed(s, Containing())
    ensures PlaceAsks(w, s, path, true, SelfFile(), Containing())
  {
    hide SelfFile, Accepts, SegmentsMapped, Asks, Described, Peek, Little, Containing, Holds242;
    var d := SelfFile();
    if s.Room(true) > 0 {
      var base: u64 := s.Next(true);
      var plan := Planned(d, base, true);
      if plan.Some? {
        AcceptedSegments(d, base, true);
        SelfHeadersRead();
        assert plan.value.ph == SelfHeaders();
        SelfMapped(w, s.mem, s.clock, base);
        var m := SegmentsMapped(w, s.mem, s.clock, SelfHeaders(), base, d, 2);
        TableMapped(m.0, base);
        var h := Handle(path, base, d, true, 0, 0, 0, 0, None);
        SelfDescribed(w, m.0, m.1, h);
        var g := Described(w, m.0, m.1, h, SelfHeaders(), base + 176);
        var t := s.(mem := m.0, clock := m.1).Taken(true, plan.value.size);
        SelfAsks(w, t.(clock := g.1), g.0);
      }
    }
  }

  /**
    Where every file whose path contains the name is this one, loading it fails from every state that has not
    listed it.
   */
  lemma SelfNeverLoads(w: World, s: Sys)
    requires forall t, path: seq<byte> | Occurs(path, NAME) && w.files(t, path).Some? ::
              w.files(t, path).value == SelfFile()
    requires s.Aligned() && !IsNamed(s.handles, NAME)
    ensures Load(w, s, MODULES + NAME, true).1.None?
  {
    hide SelfFile, Load, PlaceAsks;
    var c := Containing();
    forall t: Sys, path, d | && t.Aligned() && NoneListed(t, c) && path in c
                             && t.clock > 0 && w.files(t.clock - 1, path) == Some(d)
      ensures PlaceAsks(w, t, path, true, d, c)
    {
      SelfPlaceAsks(w, t, path);
    }
    assert OccursAt(MODULES + NAME, NAME, |MODULES|);
    CycleNeverLoads(w, s, MODULES + NAME, true, c);
  }

  /** Its one needed name makes the loader load it again. */
  lemma SelfNeeds(w: World, s: Sys, h: Handle)
    requires s.Aligned() && NoneListed(s, Containing()) && h.kernel
    requires TableHere(s.mem, h.base + 176) && h.strtab == h.base + 240 && h.strtabsz == 2
    requires s.mem[h.base + 240] == 120 && s.mem[h.base + 241] == 0
    ensures !TooMany(s.mem, h.base + 176, 0)
    ensures var l := Load(w, s, MODULES + NAME, true);
            l.1.None? ==> Needs(w, s, h, h.base + 176) == (l.0, false)
  {
    hide Peek, Load;
    var at := h.base + 176;
    assert !AtEntry(s.mem, at + 48);
    assert !TooMany(s.mem, at + 32, 0);
    assert !TooMany(s.mem, at + 16, 0);
    assert CString(s.mem, h.base + 241, 1) == Some([]);
    assert [120] + [] == NAME;
    assert CString(s.mem, h.base + 240, 2) == Some([120] + []);
    assert StringAt(s.mem, h, 0) == Some(NAME);
    assert OccursAt(MODULES + NAME, NAME, |MODULES|);
    assert s.(clock := s.clock) == s;
    assert Needs(w, s, h, at) == Needs(w, s, h, at + 16) == Needs(w, s, h, at + 32);
  }

  ghost predicate InRange(s: Sys) {
    s.Aligned() && NoneListed(s, Containing()) && Space(true).start + s.kernelOffset <= Space(true).end
  }

  /** What every failed attempt ends with: nothing is listed and no room is left. */
  ghost predicate UsedUp(s: Sys, r: (Sys, Option<u64>)) {
    r.1.None? && r.0.handles == s.handles && r.0.userNext == s.userNext && r.0.Room(true) == 0
  }

  /** The file needs itself without end: loading it as a kernel module gives up only when the whole window is taken. */
  lemma {:induction false} UsesUpWindow(w: World, s: Sys)
    requires forall t: nat :: w.files(t, MODULES + NAME) == Some(SelfFile())
    requires InRange(s)
    ensures UsedUp(s, Load(w, s, MODULES + NAME, true))
    decreases s.Room(true), 1
  {
    hide SelfFile, Place, Little, HeadOk;
    SelfHeadersRead();
    SelfIsShared();
    assert OccursAt(MODULES + NAME, NAME, |MODULES|);
    assert w.files(s.clock, MODULES + NAME) == Some(SelfFile());
    PlaceUsesUp(w, s.(clock := s.clock + 1));
  }

  lemma SelfIsShared()
    ensures IsShared(SelfFile())
  {
    hide SelfFile;
    SelfHeadersRead();
  }

  lemma PlaceUsesUp(w: World, s: Sys)
    requires forall t: nat :: w.files(t, MODULES + NAME) == Some(SelfFile())
    requires InRange(s)
    ensures UsedUp(s, Place(w, s, MODULES + NAME, true, SelfFile()))
    decreases s.Room(true), 0
  {
    hide SelfFile, Planned, SegmentsMapped, Link, Little, Containing, Holds242, TableHere;
    if s.Room(true) > 0 {
      var d, base: u64 := SelfFile(), s.Next(true);
      RoomIsPages(s);
      SelfAccepted(base);
      SelfMapped(w, s.mem, s.clock, base);
      var m := SegmentsMapped(w, s.mem, s.clock, SelfHeaders(), base, d, 2);
      TableMapped(m.0, base);
      var t := s.(mem := m.0, clock := m.1).Taken(true, PAGE);
      assert t.kernelOffset == s.kernelOffset + PAGE && t.mem == m.0;
      LinkUsesUp(w, t, Handle(MODULES + NAME, base, d, true, 0, 0, 0, 0, None));
    }
  }

  lemma RoomIsPages(s: Sys)
    requires s.Aligned() && s.Room(true) > 0
    ensures s.Next(true) % PAGE == 0 && s.Next(true) + PAGE <= Space(true).end
  {}

  lemma LinkUsesUp(w: World, s: Sys, h: Handle)
    requires forall t: nat :: w.files(t, MODULES + NAME) == Some(SelfFile())
    requires InRange(s) && h.kernel && TableHere(s.mem, h.base + 176)
    requires s.mem[h.base + 240] == 120 && s.mem[h.base + 241] == 0
    ensures UsedUp(s, Link(w, s, h, SelfHeaders()))
    decreases s.Room(true), 5
  {
    hide SelfFile, Described, Needs, TooMany, Peek, Load, Containing, Linking, Scanned;
    var g := Described(w, s.mem, s.clock, h, SelfHeaders(), h.base + 176);
    SelfDescribed(w, s.mem, s.clock, h);
    var t := s.(clock := g.1);
    UsesUpWindow(w, t);
    SelfNeeds(w, t, g.0);
    assert (h.base + 176) % TOP == h.base + 176;
    assert Bound(w, t, g.0, SelfHeaders(), h.base + 176) == (Load(w, t, MODULES + NAME, true).0, false);
  }

  /** After that no module that is not listed already can ever be loaded. */
  lemma EndsModuleLoading(w: World, s: Sys, requests: seq<(seq<byte>, bool)>, path: seq<byte>)
    requires forall t: nat :: w.files(t, MODULES + NAME) == Some(SelfFile())
    requires InRange(s)
    ensures var t := AllLoaded(w, Load(w, s, MODULES + NAME, true).0, requests);
            Load(w, t, path, true).1.Some? <==> Listed(t.handles, path).Some?
  {
    hide SelfFile, Load, AllLoaded;
    UsesUpWindow(w, s);
    NoRoomForGood(w, Load(w, s, MODULES + NAME, true).0, true, requests, path);
  }
}
