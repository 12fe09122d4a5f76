/**
  What the loader's steps compute, said without their recursions: which entries of a dynamic
  table count, where a needed library is looked for, and what becomes of needs that lead back.
 */
module LoaderFacts {
  import opened Common
  import opened ElfImage
  import opened Relocation
  import opened LoaderSteps

  // ------------------------------------------------------- relocation tables

  /** A table entry is its offset, its kind below its symbol in one word, and its addend. */
  lemma EntryReads(m: Memory, at: nat, r: Rela)
    requires at + 24 <= TOP && r.offset < TOP && r.addend < TOP && r.kind < 0x1_0000_0000 && r.sym < 0x1_0000_0000
    requires m[at..at + 8] == Bytes(r.offset, 8) && m[at + 16..at + 24] == Bytes(r.addend, 8)
    requires m[at + 8..at + 16] == Bytes(r.kind + 0x1_0000_0000 * r.sym, 8)
    ensures RelaAt(m, at) == r
  {
    hide Little, Bytes, Pow256;
    PowSizes();
    var info := r.kind + 0x1_0000_0000 * r.sym;
    BytesReadBack(m, at, r.offset, 8);
    BytesReadBack(m, at + 8, info, 8);
    BytesReadBack(m, at + 16, r.addend, 8);
    SmallModulo(r.offset, TOP);
    SmallModulo(info, TOP);
    SmallModulo(r.addend, TOP);
    Remainder(info, 0x1_0000_0000, r.sym, r.kind);
  }

  function EntryAt(m: Memory, at: nat, i: nat): Rela { RelaAt(m, at + 24 * i) }

  predicate Clear(a: nat, b: nat) { a + 8 <= b || b + 8 <= a }

  /** No entry's place overlaps another's or the table, and none is a copy, whose length is another's to say. */
  ghost predicate Spread(m: Memory, plt: bool, h: Handle, at: nat, n: nat) {
    && at + 24 * n <= TOP
    && (forall i | 0 <= i < n :: plt || EntryAt(m, at, i).kind != 5)
    && (forall i | 0 <= i < n ::
          var t := h.base + EntryAt(m, at, i).offset; t + 8 <= at || at + 24 * n <= t)
    && (forall i, j | 0 <= i < n && 0 <= j < n && i != j ::
          Clear(h.base + EntryAt(m, at, i).offset, h.base + EntryAt(m, at, j).offset))
  }

  lemma EntryOnlyAt(plt: bool, h: Handle, ph: seq<Phdr>, r: Rela, m: Memory, address: u64)
    requires LoaderSteps.Entry(plt, h, ph, r, m, address).Some? && (plt || r.kind != 5)
    ensures OnlyAt(m, LoaderSteps.Entry(plt, h, ph, r, m, address).value, h.base + r.offset, 8)
  {
    hide Linked, Relocated;
    if plt { LinkedMeans(h, ph, r, m, address); } else { StaysInside(h, ph, r, m, address); }
  }

  lemma SameEntry(m: Memory, n: Memory, at: nat)
    requires at + 24 <= TOP && m[at..at + 24] == n[at..at + 24]
    ensures RelaAt(m, at) == RelaAt(n, at)
  {
    hide Little;
    Part(m, at, at + 24, 0, 8);
    Part(n, at, at + 24, 0, 8);
    Part(m, at, at + 24, 8, 16);
    Part(n, at, at + 24, 8, 16);
    Part(m, at, at + 24, 16, 24);
    Part(n, at, at + 24, 16, 24);
    LittleSame(m, at, n, at, 8);
    LittleSame(m, at + 8, n, at + 8, 8);
    LittleSame(m, at + 16, n, at + 16, 8);
  }

  /** Bytes away from the places of the first k entries are as they were. */
  ghost predicate Elsewhere(m: Memory, after: Memory, h: Handle, at: nat, k: nat) {
    forall a | 0 <= a < TOP ::
      (forall i | 0 <= i < k :: a < h.base + EntryAt(m, at, i).offset || h.base + EntryAt(m, at, i).offset + 8 <= a) ==>
        after[a] == m[a]
  }

  lemma {:induction false} RunElsewhere(w: World, plt: bool, h: Handle, ph: seq<Phdr>, at: nat, n: nat, k: nat,
                                        m: Memory, clock: nat)
    requires k <= n && Spread(m, plt, h, at, n) && Run(w, plt, h, ph, at, k, m, clock).ok
    ensures Elsewhere(m, Run(w, plt, h, ph, at, k, m, clock).mem, h, at, k)
    ensures Run(w, plt, h, ph, at, k, m, clock).clock == clock + k
    ensures k < n ==> EntryAt(Run(w, plt, h, ph, at, k, m, clock).mem, at, k) == EntryAt(m, at, k)
    decreases k
  {
    hide LoaderSteps.Entry, RelaAt;
    var r := Run(w, plt, h, ph, at, k, m, clock);
    if k > 0 {
      var p := Run(w, plt, h, ph, at, k - 1, m, clock);
      RunElsewhere(w, plt, h, ph, at, n, k - 1, m, clock);
      EntryOnlyAt(plt, h, ph, EntryAt(m, at, k - 1), p.mem, w.answers(p.clock));
    }
    if k < n { TableStands(m, r.mem, plt, h, at, n, k); }
  }

  lemma TableStands(m: Memory, after: Memory, plt: bool, h: Handle, at: nat, n: nat, k: nat)
    requires k < n && Spread(m, plt, h, at, n) && Elsewhere(m, after, h, at, k)
    ensures EntryAt(after, at, k) == EntryAt(m, at, k)
  {
    hide RelaAt;
    var x := at + 24 * k;
    assert forall a | x <= a < x + 24 :: after[a] == m[a];
    SameEntry(m, after, x);
  }

  /** What an entry stored stays to the end of its table. */
  lemma {:induction false} StoredStays(w: World, plt: bool, h: Handle, ph: seq<Phdr>, at: nat, n: nat, i: nat, k: nat,
                                       m: Memory, clock: nat)
    requires i < k <= n && Spread(m, plt, h, at, n) && Run(w, plt, h, ph, at, k, m, clock).ok
    ensures Run(w, plt, h, ph, at, i + 1, m, clock).ok
    ensures var t := h.base + EntryAt(m, at, i).offset;
            forall a | t <= a < t + 8 && a < TOP ::
              Run(w, plt, h, ph, at, k, m, clock).mem[a] == Run(w, plt, h, ph, at, i + 1, m, clock).mem[a]
    decreases k
  {
    hide LoaderSteps.Entry, RelaAt;
    if i + 1 < k {
      var p := Run(w, plt, h, ph, at, k - 1, m, clock);
      StoredStays(w, plt, h, ph, at, n, i, k - 1, m, clock);
      RunElsewhere(w, plt, h, ph, at, n, k - 1, m, clock);
      EntryOnlyAt(plt, h, ph, EntryAt(m, at, k - 1), p.mem, w.answers(p.clock));
      assert Clear(h.base + EntryAt(m, at, i).offset, h.base + EntryAt(m, at, k - 1).offset);
    }
  }

  /** A linkage table that was applied: every place holds the address that was found for its symbol. */
  lemma LinkageApplied(w: World, h: Handle, ph: seq<Phdr>, at: nat, n: nat, i: nat, m: Memory, clock: nat)
    requires i < n && Spread(m, true, h, at, n) && Run(w, true, h, ph, at, n, m, clock).ok
    ensures Peek(Run(w, true, h, ph, at, n, m, clock).mem, h.base + EntryAt(m, at, i).offset, 8) == w.answers(clock + i)
  {
    hide Linked, RelaAt, Little;
    var p, q := Run(w, true, h, ph, at, i, m, clock), Run(w, true, h, ph, at, i + 1, m, clock);
    StoredStays(w, true, h, ph, at, n, i, n, m, clock);
    RunElsewhere(w, true, h, ph, at, n, i, m, clock);
    LinkedMeans(h, ph, EntryAt(m, at, i), p.mem, w.answers(p.clock));
    ReadsSame(q.mem, Run(w, true, h, ph, at, n, m, clock).mem, h.base + EntryAt(m, at, i).offset);
  }

  /** A general table that was applied: every relative place holds the base plus its addend. */
  lemma RelativeApplied(w: World, h: Handle, ph: seq<Phdr>, at: nat, n: nat, i: nat, m: Memory, clock: nat)
    requires i < n && Spread(m, false, h, at, n) && Run(w, false, h, ph, at, n, m, clock).ok
    requires EntryAt(m, at, i).kind == 8
    ensures Peek(Run(w, false, h, ph, at, n, m, clock).mem, h.base + EntryAt(m, at, i).offset, 8)
            == (h.base + EntryAt(m, at, i).addend) % TOP
  {
    hide Relocated, RelaAt, Little;
    var p, q := Run(w, false, h, ph, at, i, m, clock), Run(w, false, h, ph, at, i + 1, m, clock);
    StoredStays(w, false, h, ph, at, n, i, n, m, clock);
    RunElsewhere(w, false, h, ph, at, n, i, m, clock);
    RelativeMeans(h, ph, EntryAt(m, at, i), p.mem, w.answers(p.clock));
    RelocatedIff(h, ph, EntryAt(m, at, i), p.mem, w.answers(p.clock));
    ReadsSame(q.mem, Run(w, false, h, ph, at, n, m, clock).mem, h.base + EntryAt(m, at, i).offset);
  }

  /** Both tables of an object: their places are apart from each other and from both tables. */
  ghost predicate SpreadOut(m: Memory, h: Handle, t: Tables) {
    var n, k := t.relasz / 24, t.pltrelsz / 24;
    && Spread(m, false, h, t.rela, n) && Spread(m, true, h, t.jmprel, k)
    && (forall i | 0 <= i < n ::
          var a := h.base + EntryAt(m, t.rela, i).offset; a + 8 <= t.jmprel || t.jmprel + 24 * k <= a)
    && (forall i, j | 0 <= i < n && 0 <= j < k ::
          Clear(h.base + EntryAt(m, t.rela, i).offset, h.base + EntryAt(m, t.jmprel, j).offset))
  }

  /** The tables are used only if they have 24-byte entries of the supported form that are loaded. */
  lemma LinkingRefuses(w: World, h: Handle, ph: seq<Phdr>, t: Tables, m: Memory, clock: nat)
    requires || t.relaent != 24 || t.pltrel != 7 || t.relasz % 24 != 0 || t.pltrelsz % 24 != 0
             || (t.relasz != 0 && (t.rela == 0 || !RangeLoaded(ph, h.base, t.rela, t.relasz)))
             || (t.pltrelsz != 0 && (t.jmprel == 0 || !RangeLoaded(ph, h.base, t.jmprel, t.pltrelsz)))
    ensures Linking(w, h, ph, t, m, clock) == Progress(m, clock, false)
  {}

  /** After the general table, the linkage table and its places are as they were. */
  lemma LinkageUntouched(w: World, h: Handle, ph: seq<Phdr>, t: Tables, m: Memory, clock: nat)
    requires SpreadOut(m, h, t) && Run(w, false, h, ph, t.rela, t.relasz / 24, m, clock).ok
    ensures var p, k := Run(w, false, h, ph, t.rela, t.relasz / 24, m, clock).mem, t.pltrelsz / 24;
            && Spread(p, true, h, t.jmprel, k)
            && forall i | 0 <= i < k :: EntryAt(p, t.jmprel, i) == EntryAt(m, t.jmprel, i)
  {
    hide RelaAt, Run;
    var n, k := t.relasz / 24, t.pltrelsz / 24;
    var p := Run(w, false, h, ph, t.rela, n, m, clock).mem;
    RunElsewhere(w, false, h, ph, t.rela, n, n, m, clock);
    forall i | 0 <= i < k ensures EntryAt(p, t.jmprel, i) == EntryAt(m, t.jmprel, i) {
      var x := t.jmprel + 24 * i;
      assert forall a | x <= a < x + 24 :: p[a] == m[a];
      SameEntry(m, p, x);
    }
  }

  /** A relocated object: its linkage places hold the addresses found for them, its relative places base plus addend. */
  lemma LinkingApplied(w: World, h: Handle, ph: seq<Phdr>, t: Tables, m: Memory, clock: nat, i: nat)
    requires Linking(w, h, ph, t, m, clock).ok && SpreadOut(m, h, t)
    ensures i < t.pltrelsz / 24 ==>
              Peek(Linking(w, h, ph, t, m, clock).mem, h.base + EntryAt(m, t.jmprel, i).offset, 8)
              == w.answers(clock + t.relasz / 24 + i)
    ensures i < t.relasz / 24 && EntryAt(m, t.rela, i).kind == 8 ==>
              Peek(Linking(w, h, ph, t, m, clock).mem, h.base + EntryAt(m, t.rela, i).offset, 8)
              == (h.base + EntryAt(m, t.rela, i).addend) % TOP
  {
    hide RelaAt, Run, Peek;
    var n, k := t.relasz / 24, t.pltrelsz / 24;
    var p := Run(w, false, h, ph, t.rela, n, m, clock);
    RunElsewhere(w, false, h, ph, t.rela, n, n, m, clock);
    LinkageUntouched(w, h, ph, t, m, clock);
    var q := Run(w, true, h, ph, t.jmprel, k, p.mem, p.clock);
    if i < k { LinkageApplied(w, h, ph, t.jmprel, k, i, p.mem, p.clock); }
    if i < n && EntryAt(m, t.rela, i).kind == 8 {
      RelativeApplied(w, h, ph, t.rela, n, i, m, clock);
      RunElsewhere(w, true, h, ph, t.jmprel, k, k, p.mem, p.clock);
      var a := h.base + EntryAt(m, t.rela, i).offset;
      assert forall j | 0 <= j < k :: Clear(a, h.base + EntryAt(p.mem, t.jmprel, j).offset);
      ReadsSame(p.mem, q.mem, a);
    }
  }

  lemma ReadsSame(m: Memory, n: Memory, at: nat)
    requires forall a | at <= a < at + 8 && a < TOP :: n[a] == m[a]
    ensures Peek(m, at, 8) == Peek(n, at, 8)
  {
    hide Little;
    if at + 8 <= TOP {
      assert m[at..at + 8] == n[at..at + 8];
      LittleSame(m, at, n, at, 8);
    }
  }

  // ------------------------------------------------------- entries of a table

  /** Number of entries before the terminator. */
  function Entries(m: Memory, at: nat): nat
    decreases TOP - at
  {
    if AtEntry(m, at) then 1 + Entries(m, at + DYN_SIZE) else 0
  }

  function Tag(m: Memory, at: nat, i: nat): nat { Peek(m, at + DYN_SIZE * i, 8) }

  function Value(m: Memory, at: nat, i: nat): nat { Peek(m, at + DYN_SIZE * i + 8, 8) }

  /** Entries of one kind, and those of one kind that name a string of the object. */
  datatype Pick = Kind(tag: nat) | Naming(tag: nat, h: Handle)

  predicate Picks(p: Pick, m: Memory, tag: nat, v: nat) {
    tag == p.tag && (p.Naming? ==> StringAt(m, p.h, v).Some?)
  }

  predicate PickedAt(p: Pick, m: Memory, at: nat, i: nat) { Picks(p, m, Tag(m, at, i), Value(m, at, i)) }

  /** The value of the last picked entry. */
  function LastPick(m: Memory, at: nat, p: Pick): Option<nat>
    decreases TOP - at
  {
    if !AtEntry(m, at) then None
    else
      var later := LastPick(m, at + DYN_SIZE, p);
      if later.Some? then later
      else if Picks(p, m, Peek(m, at, 8), Peek(m, at + 8, 8)) then Some(Peek(m, at + 8, 8)) else None
  }

  /** It is the last one by position, and there is none exactly when no entry is picked. */
  lemma {:induction false} LastPickIsLast(m: Memory, at: nat, p: Pick)
    ensures var r, n := LastPick(m, at, p), Entries(m, at);
            if r.None? then forall i | 0 <= i < n :: !PickedAt(p, m, at, i)
            else exists i | 0 <= i < n :: && PickedAt(p, m, at, i) && r.value == Value(m, at, i)
                                          && forall j | i < j < n :: !PickedAt(p, m, at, j)
    decreases TOP - at
  {
    hide Peek;
    hide Picks;
    if AtEntry(m, at) {
      var next, n := at + DYN_SIZE, Entries(m, at);
      LastPickIsLast(m, next, p);
      forall i | 0 <= i < n - 1 ensures PickedAt(p, m, at, i + 1) <==> PickedAt(p, m, next, i) { Shift(m, at, i); }
      if LastPick(m, next, p).Some? {
        var i :| 0 <= i < n - 1 && PickedAt(p, m, next, i) && LastPick(m, next, p).value == Value(m, next, i)
                 && forall j | i < j < n - 1 :: !PickedAt(p, m, next, j);
        Shift(m, at, i);
        assert PickedAt(p, m, at, i + 1);
        forall j | i + 1 < j < n ensures !PickedAt(p, m, at, j) { assert !PickedAt(p, m, next, j - 1); }
      } else {
        forall j | 0 < j < n ensures !PickedAt(p, m, at, j) { assert !PickedAt(p, m, next, j - 1); }
        assert PickedAt(p, m, at, 0) <==> Picks(p, m, Peek(m, at, 8), Peek(m, at + 8, 8));
      }
    }
  }

  lemma Shift(m: Memory, at: nat, i: nat)
    ensures Tag(m, at, i + 1) == Tag(m, at + DYN_SIZE, i) && Value(m, at, i + 1) == Value(m, at + DYN_SIZE, i)
  {}

  // --------------------------------------------- what a table says of an object

  /** A table's address given by the last entry of a kind, or what was known before. */
  function Located(m: Memory, ph: seq<Phdr>, base: u64, at: nat, tag: nat, before: nat): nat {
    var r := LastPick(m, at, Kind(tag));
    if r.Some? then DynamicPtr(ph, base, r.value) else before
  }

  /** The last entries of each kind win, wherever they stand in the table. */
  lemma {:induction false} SymbolsAreLast(w: World, m: Memory, clock: nat, h: Handle, ph: seq<Phdr>, at: nat)
    ensures var r, size := Symbols(w, m, clock, h, ph, at).0, LastPick(m, at, Kind(10));
            && r.symtab == Located(m, ph, h.base, at, 6, h.symtab)
            && r.strtab == Located(m, ph, h.base, at, 5, h.strtab)
            && r.strtabsz == (if size.Some? then size.value else h.strtabsz)
    decreases TOP - at
  {
    hide Peek;
    hide DynamicPtr;
    if AtEntry(m, at) {
      var tag, v, next := Peek(m, at, 8), Peek(m, at + 8, 8), at + DYN_SIZE;
      if tag == SYMTAB { SymbolsAreLast(w, m, clock, h.(symtab := DynamicPtr(ph, h.base, v)), ph, next); }
      else if tag == STRTAB { SymbolsAreLast(w, m, clock, h.(strtab := DynamicPtr(ph, h.base, v)), ph, next); }
      else if tag == STRSZ { SymbolsAreLast(w, m, clock, h.(strtabsz := v), ph, next); }
      else if tag == HASH || tag == GNU_HASH {
        SymbolsAreLast(w, m, clock + 1, h.(symCount := w.answers(clock)), ph, next);
      } else {
        SymbolsAreLast(w, m, clock, h, ph, next);
      }
    }
  }

  function Given(m: Memory, at: nat, tag: nat, before: nat): nat {
    var r := LastPick(m, at, Kind(tag));
    if r.Some? then r.value else before
  }

  /** So they do for the relocation tables: DT_RELA 7, its sizes 8 and 9, DT_JMPREL 23, its size 2 and form 20. */
  lemma {:induction false} TablesAreLast(m: Memory, ph: seq<Phdr>, base: u64, at: nat, t: Tables)
    ensures var r := Scanned(m, ph, base, at, t);
            && r.rela == Located(m, ph, base, at, 7, t.rela) && r.jmprel == Located(m, ph, base, at, 23, t.jmprel)
            && r.relasz == Given(m, at, 8, t.relasz) && r.relaent == Given(m, at, 9, t.relaent)
            && r.pltrelsz == Given(m, at, 2, t.pltrelsz)
            && r.pltrel == (if LastPick(m, at, Kind(20)).Some? then LastPick(m, at, Kind(20)).value % 0x1_0000_0000
                            else t.pltrel)
    decreases TOP - at
  {
    hide Peek, DynamicPtr;
    if AtEntry(m, at) {
      TablesAreLast(m, ph, base, at + DYN_SIZE, Noted(t, ph, base, Peek(m, at, 8), Peek(m, at + 8, 8)));
    }
  }

  function Needed(m: Memory, at: nat, n: nat): nat {
    if n == 0 then 0 else Needed(m, at, n - 1) + if Tag(m, at, n - 1) == 1 then 1 else 0
  }

  lemma {:induction false} NeededShift(m: Memory, at: nat, n: nat)
    ensures Needed(m, at, n + 1) == (if Tag(m, at, 0) == 1 then 1 else 0) + Needed(m, at + DYN_SIZE, n)
  {
    hide Tag;
    if n > 0 {
      NeededShift(m, at, n - 1);
      Shift(m, at, n - 1);
    }
  }

  /** An object is refused for too many needs exactly when its table has more than 64 DT_NEEDED entries. */
  lemma {:induction false} TooManyIff(m: Memory, at: nat, count: nat)
    requires count <= 64
    ensures TooMany(m, at, count) <==> count + Needed(m, at, Entries(m, at)) > 64
    decreases TOP - at
  {
    hide Peek;
    if AtEntry(m, at) {
      NeededShift(m, at, Entries(m, at + DYN_SIZE));
      if Peek(m, at, 8) != 1 {
        TooManyIff(m, at + DYN_SIZE, count);
      } else if count < 64 {
        TooManyIff(m, at + DYN_SIZE, count + 1);
      }
    }
  }

  /** The string named by the last readable entry of a kind, or what was known before. */
  function Named(m: Memory, h: Handle, at: nat, tag: nat, before: Option<seq<byte>>): Option<seq<byte>> {
    var r := LastPick(m, at, Naming(tag, h));
    if r.Some? then StringAt(m, h, r.value) else before
  }

  /** The search path is the last readable DT_RUNPATH; only without one it is the last readable DT_RPATH. */
  lemma {:induction false} SearchPathIsLast(m: Memory, h: Handle, at: nat, rpath: Option<seq<byte>>,
                                            runpath: Option<seq<byte>>)
    ensures SearchPath(m, h, at, rpath, runpath) ==
            var r := Named(m, h, at, 29, runpath); if r.Some? then r else Named(m, h, at, 15, rpath)
    decreases TOP - at
  {
    hide Peek;
    hide CString;
    if AtEntry(m, at) {
      var tag, name := Peek(m, at, 8), StringAt(m, h, Peek(m, at + 8, 8));
      SearchPathIsLast(m, h, at + DYN_SIZE, if tag == RPATH && name.Some? then name else rpath,
                       if tag == RUNPATH && name.Some? then name else runpath);
      PickReads(m, h, at + DYN_SIZE, RUNPATH);
      PickReads(m, h, at + DYN_SIZE, RPATH);
    }
  }

  lemma {:induction false} PickReads(m: Memory, h: Handle, at: nat, tag: nat)
    ensures var r := LastPick(m, at, Naming(tag, h)); r.Some? ==> StringAt(m, h, r.value).Some?
    decreases TOP - at
  {
    hide Peek;
    hide CString;
    if AtEntry(m, at) { PickReads(m, h, at + DYN_SIZE, tag); }
  }

  /** The bytes at an address are s and then a zero, all within n bytes. */
  predicate Spells(m: Memory, at: nat, n: nat, s: seq<byte>) {
    |s| < n && at + |s| < TOP && m[at..at + |s|] == s && 0 !in s && m[at + |s|] == 0
  }

  lemma SpellsMore(m: Memory, at: nat, n: nat, s: seq<byte>)
    requires s != []
    ensures Spells(m, at, n, s) <==> n > 0 && at < TOP && m[at] == s[0] != 0 && Spells(m, at + 1, n - 1, s[1..])
  {
    assert s == [s[0]] + s[1..];
    assert 0 in s <==> s[0] == 0 || 0 in s[1..];
    if at + |s| < TOP {
      assert m[at..at + |s|] == [m[at]] + m[at + 1..at + |s|];
      assert m[at..at + |s|] == s <==> m[at] == s[0] && m[at + 1..at + |s|] == s[1..];
    }
  }

  /** A string is its bytes up to the first zero, which must come within n bytes. */
  lemma {:induction false} CStringMeans(m: Memory, at: nat, n: nat, s: seq<byte>)
    ensures CString(m, at, n) == Some(s) <==> Spells(m, at, n, s)
    decreases n
  {
    if s != [] {
      hide Spells;
      SpellsMore(m, at, n, s);
      assert s == [s[0]] + s[1..];
      if n > 0 { CStringMeans(m, at + 1, n - 1, s[1..]); }
    }
  }

  /** A name in the string table lies wholly inside it, terminator included. */
  lemma StringMeans(m: Memory, h: Handle, offset: nat, s: seq<byte>)
    ensures StringAt(m, h, offset) == Some(s) <==>
            var a := h.strtab + offset;
            && h.strtab != 0 && offset + |s| < h.strtabsz && a + |s| < TOP
            && m[a..a + |s|] == s && 0 !in s && m[a + |s|] == 0
  {
    if h.strtab != 0 && offset < h.strtabsz { CStringMeans(m, h.strtab + offset, h.strtabsz - offset, s); }
  }

  lemma {:induction false} SameStrings(m: Memory, g: Handle, h: Handle, at: nat, tag: nat)
    requires g.strtab == h.strtab && g.strtabsz == h.strtabsz
    ensures LastPick(m, at, Naming(tag, g)) == LastPick(m, at, Naming(tag, h))
    decreases TOP - at
  {
    hide Peek, CString;
    if AtEntry(m, at) { SameStrings(m, g, h, at + DYN_SIZE, tag); }
  }

  /** What a load records of an object: its tables, and the search path named in its own string table. */
  lemma DescribedMeans(w: World, m: Memory, clock: nat, h: Handle, ph: seq<Phdr>, dyn: nat)
    ensures var g := Described(w, m, clock, h, ph, dyn).0;
            && SameObject(h, g) && g.symtab == Located(m, ph, h.base, dyn, 6, h.symtab)
            && g.strtab == Located(m, ph, h.base, dyn, 5, h.strtab) && g.strtabsz == Given(m, dyn, 10, h.strtabsz)
            && g.rpath == var r := Named(m, g, dyn, 29, None); if r.Some? then r else Named(m, g, dyn, 15, None)
  {
    hide Peek, CString, Symbols, SearchPath, LastPick, DynamicPtr;
    var y, g := Symbols(w, m, clock, h, ph, dyn).0, Described(w, m, clock, h, ph, dyn).0;
    SymbolsAreLast(w, m, clock, h, ph, dyn);
    SearchPathIsLast(m, y, dyn, None, None);
    SameStrings(m, g, y, dyn, 29);
    SameStrings(m, g, y, dyn, 15);
  }

  // ------------------------------------------------------ where libraries are

  /** The places a library may be at, best first. */
  function Candidates(h: Handle, name: seq<byte>): (r: seq<seq<byte>>)
    ensures |r| > 0
  {
    if SLASH in name then [name]
    else if h.kernel then [MODULES + name]
    else (if h.rpath.Some? then [h.rpath.value + [SLASH] + name] else []) + [LIB + name]
  }

  /** The path is the first candidate that is there when tried, or the last; all but the last are tried, one a tick. */
  ghost predicate FirstThere(w: World, clock: nat, c: seq<seq<byte>>, path: seq<byte>) {
    exists i | 0 <= i < |c| ::
      && path == Clipped(c[i]) && (i < |c| - 1 ==> w.files(clock + i, path).Some?)
      && forall j | 0 <= j < i :: w.files(clock + j, Clipped(c[j])).None?
  }

  lemma SoughtIsFirst(w: World, clock: nat, h: Handle, name: seq<byte>)
    ensures var r := Sought(w, clock, h, name).0; |r| <= 383 && FirstThere(w, clock, Candidates(h, name), r)
  {
    var r, c := Sought(w, clock, h, name), Candidates(h, name);
    if |c| == 1 {
      assert r.0 == Clipped(c[0]);
    } else {
      assert c[0] == h.rpath.value + [SLASH] + name && c[1] == LIB + name;
      assert r.0 == Clipped(c[if w.files(clock, Clipped(c[0])).Some? then 0 else 1]);
    }
  }

  /** A path that was not cut ends in the name. */
  lemma SoughtEndsInName(w: World, clock: nat, h: Handle, name: seq<byte>)
    ensures var p := Sought(w, clock, h, name).0; |p| < 383 ==> |name| <= |p| && OccursAt(p, name, |p| - |name|)
  {
    hide OccursAt;
    EndsIn([], name);
    assert [] + name == name;
    EndsIn(MODULES, name);
    EndsIn(LIB, name);
    if h.rpath.Some? { EndsIn(h.rpath.value + [SLASH], name); }
  }

  lemma EndsIn(front: seq<byte>, name: seq<byte>)
    ensures OccursAt(front + name, name, |front|)
  {
    assert (front + name)[|front|..] == name;
  }

  /** A needed library that was loaded under an uncut path counts as loaded from then on, whatever is loaded later. */
  lemma NeededOnce(w: World, s: Sys, h: Handle, name: seq<byte>, requests: seq<(seq<byte>, bool)>)
    requires s.Aligned() && |Sought(w, s.clock, h, name).0| < 383
    ensures var p := Sought(w, s.clock, h, name);
            var l := Load(w, s.(clock := p.1), p.0, h.kernel);
            l.1.Some? ==> IsNamed(AllLoaded(w, l.0, requests).handles, name)
  {
    hide Sought;
    hide Load;
    hide AllLoaded;
    var p := Sought(w, s.clock, h, name);
    SoughtEndsInName(w, s.clock, h, name);
    var t := s.(clock := p.1);
    var l := Load(w, t, p.0, h.kernel);
    if l.1.Some? {
      LoadedIsListed(w, t, p.0, h.kernel);
      var g := Listed(l.0.handles, p.0).value;
      assert OccursAt(g.path, name, |g.path| - |name|);
      AllLoadedKeeps(w, l.0, requests);
      StillListed(l.0.handles, AllLoaded(w, l.0, requests).handles, g);
    }
  }

  lemma LoadedIsListed(w: World, s: Sys, path: seq<byte>, kernel: bool)
    requires s.Aligned() && Load(w, s, path, kernel).1.Some?
    ensures Listed(Load(w, s, path, kernel).0.handles, path).Some?
  {
    hide Place;
    hide HeadOk;
    if Listed(s.handles, path).None? {
      EndsListed(w, s.(clock := s.clock + 1), path, kernel, w.files(s.clock, path).value);
    }
  }

  // ----------------------------------------------------- what later loads keep

  /** New objects are put in front of the old ones. */
  predicate InFront(before: seq<Handle>, after: seq<Handle>) {
    |before| <= |after| && after[|after| - |before|..] == before
  }

  lemma InFrontTwice(a: seq<Handle>, b: seq<Handle>, c: seq<Handle>)
    requires InFront(a, b) && InFront(b, c)
    ensures InFront(a, c)
  {
    assert c[|c| - |a|..] == c[|c| - |b|..][|b| - |a|..];
  }

  lemma StillListed(before: seq<Handle>, after: seq<Handle>, h: Handle)
    requires InFront(before, after) && h in before
    ensures h in after
  {
    var i :| 0 <= i < |before| && before[i] == h;
    assert after[|after| - |before| + i] == h;
  }

  /** A load lists objects only in front, takes addresses only of its own window and gives none back. */
  predicate Keeps(s: Sys, t: Sys, kernel: bool) {
    InFront(s.handles, t.handles) && t.Room(kernel) <= s.Room(kernel) && t.Next(!kernel) == s.Next(!kernel)
  }

  lemma KeepsTwice(a: Sys, b: Sys, c: Sys, kernel: bool)
    requires Keeps(a, b, kernel) && Keeps(b, c, kernel)
    ensures Keeps(a, c, kernel)
  {
    InFrontTwice(a.handles, b.handles, c.handles);
  }

  lemma LoadKeeps(w: World, s: Sys, path: seq<byte>, kernel: bool)
    requires s.Aligned()
    ensures Keeps(s, Load(w, s, path, kernel).0, kernel)
    decreases s.Room(kernel), 1
  {
    hide Place;
    hide HeadOk;
    if Listed(s.handles, path).None? && w.files(s.clock, path).Some? {
      PlaceKeeps(w, s.(clock := s.clock + 1), path, kernel, w.files(s.clock, path).value);
    }
  }

  lemma PlaceKeeps(w: World, s: Sys, path: seq<byte>, kernel: bool, d: seq<byte>)
    requires s.Aligned()
    ensures Keeps(s, Place(w, s, path, kernel, d).0, kernel)
    decreases s.Room(kernel), 0
  {
    hide Planned;
    hide SegmentsMapped;
    hide Link;
    if s.Room(kernel) != 0 {
      var base: u64 := s.Next(kernel);
      var plan := Planned(d, base, kernel);
      if plan.Some? && plan.value.loads && !plan.value.overrun {
        var m := SegmentsMapped(w, s.mem, s.clock, plan.value.ph, base, d, |plan.value.ph|);
        var t := s.(mem := m.0, clock := m.1).Taken(kernel, plan.value.size);
        LinkKeeps(w, t, Handle(path, base, d, kernel, 0, 0, 0, 0, None), plan.value.ph);
      }
    }
  }

  lemma LinkKeeps(w: World, s: Sys, h: Handle, ph: seq<Phdr>)
    requires s.Aligned()
    ensures Keeps(s, Link(w, s, h, ph).0, h.kernel)
    decreases s.Room(h.kernel), 5
  {
    hide Tied;
    TiedKeeps(w, s, h, ph);
    var t := Tied(w, s, h, ph);
    InFrontTwice(s.handles, t.0.handles, [t.2] + t.0.handles);
  }

  lemma TiedKeeps(w: World, s: Sys, h: Handle, ph: seq<Phdr>)
    requires s.Aligned()
    ensures Keeps(s, Tied(w, s, h, ph).0, h.kernel)
    decreases s.Room(h.kernel), 4
  {
    hide Bound;
    hide Described;
    hide Keeps;
    KeepsHere(s, h.kernel);
    var i := FirstDynamic(ph, 0);
    if i < |ph| {
      var dyn := (h.base + ph[i].vaddr) % TOP;
      var g := Described(w, s.mem, s.clock, h, ph, dyn);
      BoundKeeps(w, s.(clock := g.1), g.0, ph, dyn);
      KeepsTick(s, g.1, Bound(w, s.(clock := g.1), g.0, ph, dyn).0, h.kernel);
    }
  }

  lemma BoundKeeps(w: World, s: Sys, h: Handle, ph: seq<Phdr>, dyn: nat)
    requires s.Aligned()
    ensures Keeps(s, Bound(w, s, h, ph, dyn).0, h.kernel)
    decreases s.Room(h.kernel), 3
  {
    hide Needs;
    hide Linking;
    hide Scanned;
    hide TooMany;
    KeepsHere(s, h.kernel);
    NeedsKeeps(w, s, h, dyn);
  }

  lemma NeedsKeeps(w: World, s: Sys, h: Handle, at: nat)
    requires s.Aligned()
    ensures Keeps(s, Needs(w, s, h, at).0, h.kernel)
    decreases s.Room(h.kernel), 2, TOP - at
  {
    hide Peek;
    hide CString;
    hide Load;
    hide IsNamed;
    hide Sought;
    hide Keeps;
    KeepsHere(s, h.kernel);
    if AtEntry(s.mem, at) {
      var name := StringAt(s.mem, h, Peek(s.mem, at + 8, 8));
      if Peek(s.mem, at, 8) != NEEDED || (name.Some? && IsNamed(s.handles, name.value)) {
        NeedsKeeps(w, s, h, at + DYN_SIZE);
      } else if name.Some? {
        var path := Sought(w, s.clock, h, name.value);
        var t := s.(clock := path.1);
        LoadKeeps(w, t, path.0, h.kernel);
        var l := Load(w, t, path.0, h.kernel);
        KeepsTick(s, path.1, l.0, h.kernel);
        if l.1.Some? {
          NeedsKeeps(w, l.0, h, at + DYN_SIZE);
          KeepsTwice(s, l.0, Needs(w, l.0, h, at + DYN_SIZE).0, h.kernel);
        }
      }
    }
  }

  lemma KeepsHere(s: Sys, kernel: bool)
    ensures Keeps(s, s, kernel)
  {}

  lemma KeepsTick(s: Sys, clock: nat, t: Sys, kernel: bool)
    requires Keeps(s.(clock := clock), t, kernel)
    ensures Keeps(s, t, kernel)
  {}

  /** Over any loads the listed objects stay listed in their order, and neither window ever has more room. */
  lemma {:induction false} AllLoadedKeeps(w: World, s: Sys, requests: seq<(seq<byte>, bool)>)
    requires s.Aligned()
    ensures var t := AllLoaded(w, s, requests);
            InFront(s.handles, t.handles) && t.Room(true) <= s.Room(true) && t.Room(false) <= s.Room(false)
  {
    hide Load;
    if requests != [] {
      var front, last := requests[..|requests|-1], requests[|requests|-1];
      AllLoadedKeeps(w, s, front);
      var t := AllLoaded(w, s, front);
      LoadKeeps(w, t, last.0, last.1);
      InFrontTwice(s.handles, t.handles, Load(w, t, last.0, last.1).0.handles);
    }
  }

  /** Once a window has no room left, only what is listed can be loaded into it, whatever is loaded in between. */
  lemma NoRoomForGood(w: World, s: Sys, kernel: bool, requests: seq<(seq<byte>, bool)>, path: seq<byte>)
    requires s.Aligned() && s.Room(kernel) == 0
    ensures var t := AllLoaded(w, s, requests);
            Load(w, t, path, kernel).1.Some? <==> Listed(t.handles, path).Some?
  {
    hide AllLoaded;
    hide HeadOk;
    AllLoadedKeeps(w, s, requests);
  }

  /** References: a new object starts with one; loading a listed path adds one to its count and changes nothing else. */
  lemma LoadCounts(w: World, s: Sys, path: seq<byte>, kernel: bool)
    requires s.Aligned() && Load(w, s, path, kernel).1.Some?
    ensures var l := Load(w, s, path, kernel);
            && l.1.value in l.0.refs
            && (if Listed(s.handles, path).None? then l.0.refs[l.1.value] == 1
                else && l.0.refs[l.1.value] == (if l.1.value in s.refs then s.refs[l.1.value] else 0) + 1
                     && l.0 == s.(refs := l.0.refs) && l.0.refs - {l.1.value} == s.refs - {l.1.value})
  {
    hide Place, HeadOk;
    if Listed(s.handles, path).None? {
      PlaceCounts(w, s.(clock := s.clock + 1), path, kernel, w.files(s.clock, path).value);
    }
  }

  lemma PlaceCounts(w: World, s: Sys, path: seq<byte>, kernel: bool, d: seq<byte>)
    requires s.Aligned() && Place(w, s, path, kernel, d).1.Some?
    ensures var l := Place(w, s, path, kernel, d); l.1.value in l.0.refs && l.0.refs[l.1.value] == 1
  {
    hide Planned, SegmentsMapped, Tied;
  }

  // ------------------------------------------------------ needs that lead back

  ghost predicate NoneListed(s: Sys, c: iset<seq<byte>>) { forall h <- s.handles :: h.path !in c }

  /** Going through the needed names from an entry on, the loader comes to load a path in c. */
  ghost predicate Asks(w: World, s: Sys, h: Handle, at: nat, c: iset<seq<byte>>)
    requires s.Aligned()
    decreases TOP - at
  {
    if !AtEntry(s.mem, at) then false
    else if Peek(s.mem, at, 8) != NEEDED then Asks(w, s, h, at + DYN_SIZE, c)
    else
      var name := StringAt(s.mem, h, Peek(s.mem, at + 8, 8));
      if name.None? then false
      else if IsNamed(s.handles, name.value) then Asks(w, s, h, at + DYN_SIZE, c)
      else
        var path := Sought(w, s.clock, h, name.value);
        path.0 in c ||
        var l := Load(w, s.(clock := path.1), path.0, h.kernel);
        l.1.Some? && Asks(w, l.0, h, at + DYN_SIZE, c)
  }

  ghost predicate TiedAsks(w: World, s: Sys, h: Handle, ph: seq<Phdr>, c: iset<seq<byte>>)
    requires s.Aligned()
  {
    var i := FirstDynamic(ph, 0);
    i < |ph| &&
    var dyn := (h.base + ph[i].vaddr) % TOP;
    var g := Described(w, s.mem, s.clock, h, ph, dyn);
    Asks(w, s.(clock := g.1), g.0, dyn, c)
  }

  /** If a file placed in this state gets as far as being tied, that asks for a path in c. */
  ghost predicate PlaceAsks(w: World, s: Sys, path: seq<byte>, kernel: bool, d: seq<byte>, c: iset<seq<byte>>)
    requires s.Aligned()
  {
    if s.Room(kernel) == 0 then true
    else
      var base: u64 := s.Next(kernel);
      var plan := Planned(d, base, kernel);
      if plan.None? || !plan.value.loads || plan.value.overrun then true
      else
        var m := SegmentsMapped(w, s.mem, s.clock, plan.value.ph, base, d, |plan.value.ph|);
        TiedAsks(w, s.(mem := m.0, clock := m.1).Taken(kernel, plan.value.size),
                 Handle(path, base, d, kernel, 0, 0, 0, 0, None),
                 plan.value.ph, c)
  }

  /** As long as no path in c is listed, every object with a path in c needs one with a path in c. */
  ghost predicate LeadsBack(w: World, kernel: bool, c: iset<seq<byte>>) {
    forall s: Sys, path, d | && s.Aligned() && NoneListed(s, c) && path in c
                             && s.clock > 0 && w.files(s.clock - 1, path) == Some(d) ::
      PlaceAsks(w, s, path, kernel, d, c)
  }

  /**
    A cycle of needs never loads: each object is listed only after what it needs, so the loads nest until the
    window is used up.
   */
  lemma CycleNeverLoads(w: World, s: Sys, path: seq<byte>, kernel: bool, c: iset<seq<byte>>)
    requires s.Aligned() && LeadsBack(w, kernel, c) && NoneListed(s, c)
    ensures var r := Load(w, s, path, kernel); NoneListed(r.0, c) && (path in c ==> r.1.None?)
    decreases s.Room(kernel), 1
  {
    hide Place;
    hide HeadOk;
    hide LeadsBack;
    if Listed(s.handles, path).None? && w.files(s.clock, path).Some? {
      PlaceBack(w, s.(clock := s.clock + 1), path, kernel, w.files(s.clock, path).value, c);
    }
  }

  lemma PlaceBack(w: World, s: Sys, path: seq<byte>, kernel: bool, d: seq<byte>, c: iset<seq<byte>>)
    requires s.Aligned() && LeadsBack(w, kernel, c) && NoneListed(s, c) && s.clock > 0
    requires w.files(s.clock - 1, path) == Some(d)
    ensures var r := Place(w, s, path, kernel, d); NoneListed(r.0, c) && (path in c ==> r.1.None?)
    decreases s.Room(kernel), 0
  {
    hide Planned;
    hide SegmentsMapped;
    hide Link;
    hide TiedAsks;
    assert path in c ==> PlaceAsks(w, s, path, kernel, d, c);
    if s.Room(kernel) != 0 {
      var base: u64 := s.Next(kernel);
      var plan := Planned(d, base, kernel);
      if plan.Some? && plan.value.loads && !plan.value.overrun {
        var m := SegmentsMapped(w, s.mem, s.clock, plan.value.ph, base, d, |plan.value.ph|);
        var t := s.(mem := m.0, clock := m.1);
        LinkBack(w, t.Taken(kernel, plan.value.size), Handle(path, base, d, kernel, 0, 0, 0, 0, None),
                 plan.value.ph, c);
      }
    }
  }

  lemma LinkBack(w: World, s: Sys, h: Handle, ph: seq<Phdr>, c: iset<seq<byte>>)
    requires s.Aligned() && LeadsBack(w, h.kernel, c) && NoneListed(s, c) && (h.path in c ==> TiedAsks(w, s, h, ph, c))
    ensures var r := Link(w, s, h, ph); NoneListed(r.0, c) && (h.path in c ==> r.1.None?)
    decreases s.Room(h.kernel), 5
  {
    hide LeadsBack;
    hide Asks;
    hide Needs;
    hide Linking;
    hide Scanned;
    hide TooMany;
    var i := FirstDynamic(ph, 0);
    if i < |ph| {
      var dyn := (h.base + ph[i].vaddr) % TOP;
      var g := Described(w, s.mem, s.clock, h, ph, dyn);
      NeedsBack(w, s.(clock := g.1), g.0, dyn, c);
      assert NoneListed(Bound(w, s.(clock := g.1), g.0, ph, dyn).0, c);
    }
    var t := Tied(w, s, h, ph);
    assert NoneListed(t.0, c) && t.2.path == h.path;
    if t.1 { assert Enlisted(t.0, t.2).0.handles == [t.2] + t.0.handles; }
  }

  lemma NeedsBack(w: World, s: Sys, h: Handle, at: nat, c: iset<seq<byte>>)
    requires s.Aligned() && LeadsBack(w, h.kernel, c) && NoneListed(s, c)
    ensures var r := Needs(w, s, h, at); NoneListed(r.0, c) && (Asks(w, s, h, at, c) ==> !r.1)
    decreases s.Room(h.kernel), 2, TOP - at
  {
    hide LeadsBack;
    hide Peek;
    hide CString;
    hide Load;
    hide IsNamed;
    hide Sought;
    if AtEntry(s.mem, at) {
      var name := StringAt(s.mem, h, Peek(s.mem, at + 8, 8));
      if Peek(s.mem, at, 8) != NEEDED || (name.Some? && IsNamed(s.handles, name.value)) {
        NeedsBack(w, s, h, at + DYN_SIZE, c);
      } else if name.Some? {
        var path := Sought(w, s.clock, h, name.value);
        var t := s.(clock := path.1);
        CycleNeverLoads(w, t, path.0, h.kernel, c);
        var l := Load(w, t, path.0, h.kernel);
        if l.1.Some? { NeedsBack(w, l.0, h, at + DYN_SIZE, c); }
      }
    }
  }
}
