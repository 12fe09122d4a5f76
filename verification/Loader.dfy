/**
  Loading shared objects in place: a window of addresses handed out from the bottom up,
  segments copied into memory, dependencies loaded recursively, relocations applied. Each
  method is LoaderSteps on the loader's state, keeps the images apart and ends.
 */
module Loader {
  import opened Common
  import opened ElfImage
  import opened Relocation
  import opened LoaderSteps
  import LoaderFacts

  // ------------------------------------------------------ images in a window

  datatype Image = Image(base: u64, size: nat)

  /** Whole nonempty pages, one image after the other, from start up to next. */
  ghost predicate Tiled(images: seq<Image>, start: nat, next: nat) {
    if images == [] then next == start
    else
      var last := images[|images|-1];
      last.size > 0 && last.size % PAGE == 0 && last.base + last.size == next
      && Tiled(images[..|images|-1], start, last.base)
  }

  /** Tiled images are page aligned, stay in their range and never share an address. */
  lemma {:induction false} TiledDisjoint(images: seq<Image>, start: nat, next: nat, i: nat, j: nat)
    requires Tiled(images, start, next) && i <= j < |images| && start % PAGE == 0
    ensures start <= images[i].base && images[j].base + images[j].size <= next
    ensures images[i].base % PAGE == 0 && images[j].base % PAGE == 0
    ensures i < j ==> images[i].base + images[i].size <= images[j].base
    decreases |images|
  {
    var front := images[..|images|-1];
    var last := images[|images|-1];
    TiledBounds(front, start, last.base);
    if j < |images| - 1 {
      TiledDisjoint(front, start, last.base, i, j);
    } else if i < j {
      TiledDisjoint(front, start, last.base, i, j - 1);
    }
  }

  lemma {:induction false} TiledBounds(images: seq<Image>, start: nat, next: nat)
    requires Tiled(images, start, next) && start % PAGE == 0
    ensures start <= next && next % PAGE == 0
    decreases |images|
  {
    if images != [] { TiledBounds(images[..|images|-1], start, images[|images|-1].base); }
  }

  // ------------------------------------------------------------ memory frames

  /** Stores confined to segments that lie in an image leave the rest of memory alone. */
  lemma ConfinedToImage(ph: seq<Phdr>, base: u64, end: nat, m: Memory, n: Memory)
    requires Confined(ph, base, m, n)
    requires forall i | 0 <= i < |ph| :: ph[i].kind == LOAD && Reachable(ph[i], base) ==> To(ph[i], base) <= end
    ensures SameOutside(m, n, base, end)
  {}

  // ------------------------------------------------------------------- state

  /** The loader's state seen as a value. */
  datatype View = View(mem: Memory, kernelNext: nat, userNext: nat, kernelImages: seq<Image>, userImages: seq<Image>,
                       handles: seq<Handle>, spilled: bool) {
    function Next(kernel: bool): nat { if kernel then kernelNext else userNext }

    function Images(kernel: bool): seq<Image> { if kernel then kernelImages else userImages }
  }

  /** What every call may do: take fresh addresses of one window, write only there, and list new objects first. */
  ghost predicate Grown(v: View, w: View, kernel: bool) {
    && w.Next(!kernel) == v.Next(!kernel) && w.Images(!kernel) == v.Images(!kernel)
    && v.Next(kernel) <= w.Next(kernel) && v.Images(kernel) <= w.Images(kernel)
    && (v.spilled ==> w.spilled) && (!w.spilled ==> SameOutside(v.mem, w.mem, v.Next(kernel), w.Next(kernel)))
    && Listed(v, w, kernel)
  }

  ghost predicate Listed(v: View, w: View, kernel: bool) {
    && |v.handles| <= |w.handles| && w.handles[|w.handles| - |v.handles|..] == v.handles
    && forall i | 0 <= i < |w.handles| - |v.handles| ::
      w.handles[i].kernel == kernel && w.handles[i].base >= v.Next(kernel)
  }

  lemma GrownTwice(u: View, v: View, w: View, kernel: bool)
    requires Grown(u, v, kernel) && Grown(v, w, kernel)
    ensures Grown(u, w, kernel)
  {
    hide SameOutside;
    hide Listed;
    if !w.spilled { SameOutsideTwice(u.mem, v.mem, w.mem, u.Next(kernel), v.Next(kernel), w.Next(kernel)); }
    ListedTwice(u, v, w, kernel);
  }

  lemma ListedTwice(u: View, v: View, w: View, kernel: bool)
    requires Listed(u, v, kernel) && Listed(v, w, kernel) && u.Next(kernel) <= v.Next(kernel)
    ensures Listed(u, w, kernel)
  {
    var k := |w.handles| - |v.handles|;
    assert forall i | k <= i < |w.handles| :: w.handles[i] == w.handles[k..][i - k] == v.handles[i - k];
    assert w.handles[|w.handles| - |u.handles|..] == w.handles[k..][|v.handles| - |u.handles|..];
  }

  /** The window is handed out from its start in whole pages. */
  ghost predicate WindowOk(images: seq<Image>, next: nat, kernel: bool) {
    Tiled(images, Space(kernel).start, next) && next <= Space(kernel).end
  }

  /** A listed object owns an image that holds all its segments. */
  ghost predicate Placed(h: Handle, images: seq<Image>) {
    && Accepts(h.file, h.base, h.kernel)
    && var ph := Headers(h.file);
    && AllReachable(ph, h.base, |ph|) && !AnyWraps(ph, h.base)
    && Image(h.base, High(ph, h.base, |ph|) - h.base) in images
  }

  ghost predicate HandlesOk(v: View) {
    && (forall h <- v.handles :: Placed(h, v.Images(h.kernel)))
    && forall i, j | 0 <= i < j < |v.handles| :: v.handles[i].base != v.handles[j].base
  }

  ghost predicate Sound(v: View) {
    WindowOk(v.kernelImages, v.kernelNext, true) && WindowOk(v.userImages, v.userNext, false) && HandlesOk(v)
  }

  class Linker {
    const world: World
    var mem: Memory
    var kernelOffset: nat
    var userNext: nat
    var handles: seq<Handle>        // most recently loaded first
    var refs: map<u64, nat>         // reference counts by base address
    var clock: nat
    ghost var kernelImages: seq<Image>   // every image ever placed, also of loads that failed later
    ghost var userImages: seq<Image>
    ghost var spilled: bool              // some load was given up by the size check after mapping

    ghost function V(): View
      reads this
    {
      View(mem, Space(true).start + kernelOffset, userNext, kernelImages, userImages, handles, spilled)
    }

    ghost function S(): Sys
      reads this
    {
      Sys(mem, kernelOffset, userNext, handles, refs, clock)
    }

    ghost predicate Valid()
      reads this
    {
      Sound(V()) && S().Aligned() && forall h <- handles :: h.base in refs
    }

    constructor (world: World, mem: Memory)
      ensures Valid() && handles == [] && !spilled && this.mem == mem
    {
      this.world, this.mem := world, mem;
      kernelOffset, userNext, handles, refs, clock := 0, Space(false).start, [], map[], 0;
      kernelImages, userImages, spilled := [], [], false;
    }

    // ------------------------------------------------------------- mapping

    /** Fresh frames appear on every page of the range; what they hold is not known. */
    method MapPages(lo: nat, hi: nat)
      requires lo % PAGE == 0 && hi % PAGE == 0 && hi <= TOP
      modifies this`mem, this`clock
      ensures (mem, clock) == PagesMapped(world, old(mem), old(clock), lo, hi)
    {
      var i := lo;
      while i < hi
        invariant i % PAGE == 0 && lo <= i
        invariant PagesMapped(world, mem, clock, i, hi) == PagesMapped(world, old(mem), old(clock), lo, hi)
        decreases hi - i
      {
        mem := Put(mem, i, Frame(world, clock, i));
        clock := clock + 1;
        i := i + PAGE;
      }
    }

    /** The file's bytes land at their address and the rest of the segment is zero. */
    method LoadSegment(p: Phdr, base: u64, d: seq<byte>)
      requires SegmentOk(p, base, |d|) && base % PAGE == 0
      modifies this`mem, this`clock
      ensures (mem, clock) == SegmentMapped(world, old(mem), old(clock), p, base, d)
    {
      hide PagesMapped;
      hide Put;
      hide Up;
      hide Down;
      hide Zero;
      var hi := (Up(p.vaddr + p.memsz) + base) % TOP;
      var lo := (Down(p.vaddr) + base) % TOP;
      DownOffset(p.vaddr, base);
      UpOffset(p.vaddr + p.memsz, base);
      MapPages(lo, hi);
      var start := base + p.vaddr;
      mem := Put(mem, start, d[p.offset..p.offset + p.filesz]);
      mem := Put(mem, start + p.filesz, Zero(p.memsz - p.filesz));
    }

    /** Maps every segment and measures what was mapped. */
    method MapSegments(ph: seq<Phdr>, base: u64, d: seq<byte>) returns (ok: bool, size: u64)
      requires AllReachable(ph, base, |ph|) && base % PAGE == 0 && SegmentsOk(ph, base, |d|)
      modifies this`mem, this`clock
      ensures ok == Loads(ph, |ph|) && (!ok ==> mem == old(mem) && clock == old(clock))
      ensures ok ==> (mem, clock) == SegmentsMapped(world, old(mem), old(clock), ph, base, d, |ph|)
      ensures ok ==> size == LastByte(ph, base, |ph|) - FirstByte(ph, base, |ph|)
    {
      hide SegmentMapped;
      var i := 0;
      while i < |ph| && ph[i].kind != LOAD
        invariant 0 <= i <= |ph| && !Loads(ph, i)
      {
        i := i + 1;
      }
      if i == |ph| { return false, 0; }
      var first, last := TOP - 1, 0;
      i := 0;
      while i < |ph|
        invariant 0 <= i <= |ph|
        invariant (mem, clock) == SegmentsMapped(world, old(mem), old(clock), ph, base, d, i)
        invariant first == FirstByte(ph, base, i) && last == LastByte(ph, base, i)
      {
        if ph[i].kind == LOAD {
          LoadSegment(ph[i], base, d);
          last := if To(ph[i], base) > last then To(ph[i], base) else last;
          first := if From(ph[i], base) < first then From(ph[i], base) else first;
        }
        i := i + 1;
      }
      FirstBeforeLast(ph, base, |ph|);
      ok, size := true, (last - first) % TOP;
    }

    // ---------------------------------------------------------- relocation

    /** Applies one table, entry by entry. */
    method RelocateTable(plt: bool, h: Handle, ph: seq<Phdr>, at: nat, n: nat) returns (ok: bool)
      modifies this`mem, this`clock
      ensures Progress(mem, clock, ok) == Run(world, plt, h, ph, at, n, old(mem), old(clock))
      ensures Confined(ph, h.base, old(mem), mem)
    {
      hide Confined;
      hide Entry;
      hide RelaAt;
      var i := 0;
      while i < n
        invariant 0 <= i <= n && Run(world, plt, h, ph, at, i, old(mem), old(clock)) == Progress(mem, clock, true)
      {
        var r := RelaAt(mem, at + RELA_SIZE * i);
        match Entry(plt, h, ph, r, mem, world.answers(clock)) {
          case None =>
            RunStops(world, plt, h, ph, at, i + 1, n, old(mem), old(clock));
            RunConfined(world, plt, h, ph, at, n, old(mem), old(clock));
            return false;
          case Some(m) =>
            mem := m;
        }
        clock := clock + 1;
        i := i + 1;
      }
      RunConfined(world, plt, h, ph, at, n, old(mem), old(clock));
      ok := true;
    }

    /** Collects the relocation tables of a dynamic table. */
    method FindTables(ph: seq<Phdr>, base: u64, dyn: nat) returns (t: Tables)
      ensures t == Scanned(mem, ph, base, dyn, NO_TABLES)
    {
      t := NO_TABLES;
      var at := dyn;
      while at + DYN_SIZE <= TOP && Peek(mem, at, 8) != 0
        invariant Scanned(mem, ph, base, at, t) == Scanned(mem, ph, base, dyn, NO_TABLES)
        decreases TOP - at
      {
        t := Noted(t, ph, base, Peek(mem, at, 8), Peek(mem, at + 8, 8));
        at := at + DYN_SIZE;
      }
    }

    /** Finds the object's relocation tables and applies them; on every outcome only its own segments change. */
    method Relocate(h: Handle, ph: seq<Phdr>, dyn: nat) returns (ok: bool)
      modifies this`mem, this`clock
      ensures Confined(ph, h.base, old(mem), mem)
      ensures Progress(mem, clock, ok) == Linking(world, h, ph, Scanned(old(mem), ph, h.base, dyn, NO_TABLES),
                                                  old(mem), old(clock))
    {
      hide Confined;
      hide Scanned;
      hide Peek;
      ConfinedHere(ph, h.base, mem);
      var t := FindTables(ph, h.base, dyn);
      if t.relaent != RELA_SIZE || t.pltrel != RELA { return false; }
      if t.relasz % RELA_SIZE != 0 || t.pltrelsz % RELA_SIZE != 0
         || (t.relasz != 0 && (t.rela == 0 || !RangeLoaded(ph, h.base, t.rela, t.relasz)))
         || (t.pltrelsz != 0 && (t.jmprel == 0 || !RangeLoaded(ph, h.base, t.jmprel, t.pltrelsz))) {
        return false;
      }
      if t.rela != 0 && t.relasz != 0 {
        ok := RelocateTable(false, h, ph, t.rela, t.relasz / RELA_SIZE);
        if !ok { return; }
      }
      if t.jmprel != 0 && t.pltrelsz != 0 {
        ghost var between := mem;
        ok := RelocateTable(true, h, ph, t.jmprel, t.pltrelsz / RELA_SIZE);
        ConfinedTwice(ph, h.base, old(mem), between, mem);
        if !ok { return; }
      }
      ok := true;
    }

    // -------------------------------------------------------- dynamic table

    method FindDynamic(ph: seq<Phdr>) returns (i: nat)
      ensures i == FirstDynamic(ph, 0)
    {
      i := 0;
      while i < |ph| && ph[i].kind != DYNAMIC
        invariant 0 <= i <= |ph| && FirstDynamic(ph, i) == FirstDynamic(ph, 0)
      {
        i := i + 1;
      }
    }

    /** Collects the symbol and string tables; the last entry of each kind wins. */
    method ReadSymbols(h: Handle, ph: seq<Phdr>, dyn: nat) returns (r: Handle)
      modifies this`clock
      ensures (r, clock) == Symbols(world, mem, old(clock), h, ph, dyn)
      ensures r.symtab == LoaderFacts.Located(mem, ph, h.base, dyn, SYMTAB, h.symtab)
      ensures r.strtab == LoaderFacts.Located(mem, ph, h.base, dyn, STRTAB, h.strtab)
    {
      hide Peek;
      hide DynamicPtr;
      LoaderFacts.SymbolsAreLast(world, mem, clock, h, ph, dyn);
      r := h;
      var at := dyn;
      while at + DYN_SIZE <= TOP && Peek(mem, at, 8) != 0
        invariant Symbols(world, mem, clock, r, ph, at) == Symbols(world, mem, old(clock), h, ph, dyn)
        invariant r.base == h.base
        decreases TOP - at
      {
        var tag, v := Peek(mem, at, 8), Peek(mem, at + 8, 8);
        if tag == SYMTAB { r := r.(symtab := DynamicPtr(ph, h.base, v)); }
        else if tag == STRTAB { r := r.(strtab := DynamicPtr(ph, h.base, v)); }
        else if tag == STRSZ { r := r.(strtabsz := v); }
        else if tag == HASH || tag == GNU_HASH { r := r.(symCount := world.answers(clock)); clock := clock + 1; }
        at := at + DYN_SIZE;
      }
      if r.symCount == 0 { r := r.(symCount := world.answers(clock)); clock := clock + 1; }
    }

    /** The library search path, DT_RUNPATH before DT_RPATH, the last entry of each. */
    method ReadSearchPath(h: Handle, dyn: nat) returns (r: Handle)
      ensures r == h.(rpath := SearchPath(mem, h, dyn, None, None))
      ensures var path := LoaderFacts.Named(mem, h, dyn, RUNPATH, None);
              r.rpath == if path.Some? then path else LoaderFacts.Named(mem, h, dyn, RPATH, None)
    {
      hide Peek;
      hide CString;
      LoaderFacts.SearchPathIsLast(mem, h, dyn, None, None);
      var rpath: Option<seq<byte>>, runpath: Option<seq<byte>> := None, None;
      var at := dyn;
      while at + DYN_SIZE <= TOP && Peek(mem, at, 8) != 0
        invariant SearchPath(mem, h, at, rpath, runpath) == SearchPath(mem, h, dyn, None, None)
        decreases TOP - at
      {
        var tag, v := Peek(mem, at, 8), Peek(mem, at + 8, 8);
        if (tag == RPATH || tag == RUNPATH) && h.strtab != 0 && v < h.strtabsz {
          var name := CString(mem, h.strtab + v, h.strtabsz - v);
          if name.Some? {
            if tag == RPATH { rpath := name; } else { runpath := name; }
          }
        }
        at := at + DYN_SIZE;
      }
      r := h.(rpath := if runpath.Some? then runpath else rpath);
    }

    method ReadTable(h: Handle, ph: seq<Phdr>, dyn: nat) returns (r: Handle)
      modifies this`clock
      ensures (r, clock) == Described(world, mem, old(clock), h, ph, dyn)
    {
      hide Symbols;
      hide SearchPath;
      r := ReadSymbols(h, ph, dyn);
      r := ReadSearchPath(r, dyn);
    }

    // --------------------------------------------------------------- lookup

    method FindPath(path: seq<byte>) returns (found: Option<Handle>)
      ensures found == LoaderSteps.Listed(handles, path)
    {
      var i := 0;
      while i < |handles|
        invariant 0 <= i <= |handles| && LoaderSteps.Listed(handles[i..], path) == LoaderSteps.Listed(handles, path)
      {
        if handles[i].path == path { return Some(handles[i]); }
        assert handles[i..][1..] == handles[i + 1..];
        i := i + 1;
      }
      found := None;
    }

    /** A dependency counts as loaded when its name occurs anywhere in a loaded path. */
    method IsLoaded(name: seq<byte>) returns (found: bool)
      ensures found == IsNamed(handles, name)
    {
      var i := 0;
      while i < |handles|
        invariant 0 <= i <= |handles| && forall k | 0 <= k < i :: !Occurs(handles[k].path, name)
      {
        if Occurs(handles[i].path, name) { return true; }
        i := i + 1;
      }
      found := false;
    }

    /**
      Where a dependency is looked for: its own path, the module directory, the search path if it is there, the
      library directory.
     */
    method FullPath(h: Handle, name: seq<byte>) returns (path: seq<byte>)
      modifies this`clock
      ensures (path, clock) == Sought(world, old(clock), h, name)
      ensures |path| < 383 ==> |name| <= |path| && OccursAt(path, name, |path| - |name|)
      ensures |path| <= 383 && LoaderFacts.FirstThere(world, old(clock), LoaderFacts.Candidates(h, name), path)
    {
      hide OccursAt, Clipped, LoaderFacts.FirstThere, LoaderFacts.Candidates;
      LoaderFacts.SoughtIsFirst(world, clock, h, name);
      LoaderFacts.SoughtEndsInName(world, clock, h, name);
      if SLASH in name { return Clipped(name); }
      if h.kernel { return Clipped(MODULES + name); }
      if h.rpath.Some? {
        var candidate := Clipped(h.rpath.value + [SLASH] + name);
        var probe := world.files(clock, candidate);
        clock := clock + 1;
        if probe.Some? { return candidate; }
      }
      path := Clipped(LIB + name);
    }

    // -------------------------------------------------------------- loading

    /** Whether the table asks for more than 64 libraries. */
    method AsksTooMuch(dyn: nat) returns (r: bool)
      ensures r == TooMany(mem, dyn, 0)
    {
      hide Peek;
      var at, count := dyn, 0;
      while at + DYN_SIZE <= TOP && Peek(mem, at, 8) != 0
        invariant TooMany(mem, at, count) == TooMany(mem, dyn, 0)
        decreases TOP - at
      {
        if Peek(mem, at, 8) == NEEDED {
          count := count + 1;
          if count > 64 { return true; }
        }
        at := at + DYN_SIZE;
      }
      r := false;
    }

    /** Loads what the object needs; each nested load starts from a strictly smaller window. */
    method Dependencies(h: Handle, dyn: nat) returns (ok: bool)
      requires Valid()
      modifies this
      ensures Valid() && Grown(old(V()), V(), h.kernel)
      ensures (S(), ok) == Needs(world, old(S()), h, dyn)
      ensures SmallFiles(world) ==> spilled == old(spilled)
      decreases Space(h.kernel).end - V().Next(h.kernel), 2
    {
      hide Sound;
      hide Grown;
      hide SmallFiles;
      hide Peek;
      hide CString;
      hide IsNamed;
      hide Sought;
      hide LoaderSteps.Load;
      GrownHere(V(), h.kernel);
      var at := dyn;
      while at + DYN_SIZE <= TOP && Peek(mem, at, 8) != 0
        invariant Valid() && Grown(old(V()), V(), h.kernel)
        invariant SmallFiles(world) ==> spilled == old(spilled)
        invariant Needs(world, S(), h, at) == Needs(world, old(S()), h, dyn)
        decreases TOP - at
      {
        if Peek(mem, at, 8) == NEEDED {
          var offset := Peek(mem, at + 8, 8);
          if h.strtab == 0 || offset >= h.strtabsz { return false; }
          var name := CString(mem, h.strtab + offset, h.strtabsz - offset);
          if name.None? { return false; }
          var found := IsLoaded(name.value);
          if !found {
            var path := FullPath(h, name.value);
            ghost var before := V();
            RoomShrinks(old(V()), before, h.kernel);
            NextIsPage(before, h.kernel);
            var r := Load(path, h.kernel);
            GrownTwice(old(V()), before, V(), h.kernel);
            if r.None? { return false; }
          }
        }
        at := at + DYN_SIZE;
      }
      ok := true;
    }

    /** Loads a shared object, or finds it already loaded. */
    method Load(path: seq<byte>, kernel: bool) returns (r: Option<u64>)
      requires Valid()
      modifies this
      ensures Valid() && Grown(old(V()), V(), kernel)
      ensures (S(), r) == LoaderSteps.Load(world, old(S()), path, kernel)
      ensures SmallFiles(world) ==> spilled == old(spilled)
      decreases Space(kernel).end - V().Next(kernel), 1
    {
      hide Sound;
      hide Grown;
      hide HeadOk;
      hide LoaderSteps.Place;
      hide Small;
      GrownHere(V(), kernel);
      var found := FindPath(path);
      if found.Some? {
        var base := found.value.base;
        refs := refs[base := if refs[base] == 0 then 1 else refs[base] + 1];
        return Some(base);
      }
      var file := world.files(clock, path);
      clock := clock + 1;
      if file.None? { return None; }
      var d := file.value;
      if |d| < EHDR_SIZE || !HeadOk(d) || Little(d, 16, 2) != 3 { return None; }
      r := Place(path, kernel, d);
    }

    /** Validates a file for the next free address of its window and copies its segments there. */
    method MapFile(kernel: bool, d: seq<byte>) returns (place: Option<Image>)
      requires Valid() && V().Next(kernel) < Space(kernel).end
      modifies this`mem, this`clock, this`spilled
      ensures place.None? ==> Valid() && Grown(old(V()), V(), kernel)
      ensures place.Some? ==> spilled == old(spilled) && Fits(old(V()), mem, d, kernel, place.value)
      ensures (S(), place) == Mapped(world, old(S()), d, kernel)
      ensures spilled == (old(spilled) || Wrapping(d, old(V().Next(kernel)), kernel))
    {
      hide Sound;
      hide Grown;
      hide Accepts;
      hide InWindow;
      hide High;
      hide FirstByte;
      hide LastByte;
      hide AllReachable;
      hide AnyWraps;
      hide Loads;
      hide Small;
      hide Pow256;
      hide SegmentOk;
      hide SameOutside;
      hide Readable;
      hide SegmentsMapped;
      GrownHere(V(), kernel);
      var base := if kernel then Space(true).start + kernelOffset else userNext;
      ghost var v0 := V();
      NextIsPage(v0, kernel);
      var ok, size := Validate(d, base, kernel);
      if !ok { return None; }
      AcceptedSegments(d, base, kernel);
      var ph := Headers(d);
      var mapped;
      ok, mapped := MapSegments(ph, base, d);
      NothingWraps(ph, base);
      if !ok { return None; }
      SegmentsFrame(world, v0.mem, old(clock), ph, base, d, |ph|);
      AcceptedHeaders(d, base, kernel);
      SizeCheckFiresIffWraps(ph, base, kernel);
      if mapped > size {
        spilled := true;
        Spilled(v0, V(), kernel);
        return None;
      }
      ImageHolds(ph, base, kernel);
      place := Some(Image(base, size));
    }

    /** Moves the window's next free address past a mapped image. */
    method Take(kernel: bool, image: Image, ghost was: View, ghost d: seq<byte>)
      requires Sound(was) && Fits(was, mem, d, kernel, image) && V() == was.(mem := mem) && S().Aligned()
      requires forall h <- handles :: h.base in refs
      modifies this`kernelOffset, this`userNext, this`kernelImages, this`userImages
      ensures Valid() && Grown(was, V(), kernel) && V().Next(kernel) == image.base + image.size
      ensures V().Images(kernel) == was.Images(kernel) + [image] && forall h <- handles :: h.base != image.base
      ensures S() == old(S()).Taken(kernel, image.size)
    {
      hide Sound;
      hide Grown;
      hide Fits;
      hide SameOutside;
      FitsBounds(was, mem, d, kernel, image);
      ghost var before := S();
      var taken := (image.size + PAGE - 1) / PAGE * PAGE;
      if kernel {
        kernelOffset := kernelOffset + taken;
        kernelImages := kernelImages + [image];
      } else {
        userNext := userNext + taken;
        userImages := userImages + [image];
      }
      assert S() == before.Taken(kernel, image.size);
      Bumped(was, V(), kernel, image);
    }

    /** Maps, links and lists a file at the next free address of its window. */
    method Place(path: seq<byte>, kernel: bool, d: seq<byte>) returns (r: Option<u64>)
      requires Valid() && (SmallFiles(world) ==> Small(d))
      modifies this
      ensures Valid() && Grown(old(V()), V(), kernel)
      ensures (S(), r) == LoaderSteps.Place(world, old(S()), path, kernel, d)
      ensures SmallFiles(world) ==> spilled == old(spilled)
      decreases Space(kernel).end - V().Next(kernel), 0
    {
      hide Sound;
      hide Grown;
      hide Fits;
      hide Placed;
      hide ImageEnd;
      hide Mapped;
      hide LoaderSteps.Place;
      hide LoaderSteps.Link;
      hide SmallFiles;
      hide Small;
      hide Wrapping;
      GrownHere(V(), kernel);
      PlaceByParts(world, S(), path, kernel, d);
      if kernel && kernelOffset >= 0x10000000 { return None; }
      if !kernel && userNext >= Space(false).end { return None; }
      ghost var v0 := V();
      NextIsPage(v0, kernel);
      if SmallFiles(world) { SmallFits(d, v0.Next(kernel), kernel); }
      var place := MapFile(kernel, d);
      if place.None? { return None; }
      var image := place.value;
      FitsBounds(v0, mem, d, kernel, image);
      Take(kernel, image, v0, d);
      var h := Handle(path, image.base, d, kernel, 0, 0, 0, 0, None);
      MakePlaced(h, v0, mem, image, V().Images(kernel));
      r := Link(h, v0);
    }

    /** Loads an object's dependencies, then relocates it. */
    method Bind(h: Handle, ph: seq<Phdr>, dyn: nat, ghost placed: Handle, ghost v0: View) returns (ok: bool)
      requires Valid() && Grown(v0, V(), h.kernel) && Placed(placed, V().Images(h.kernel)) && SameObject(placed, h)
      requires v0.Next(h.kernel) == h.base && ImageEnd(placed) == V().Next(h.kernel) && Readable(h.file)
      requires ph == Headers(h.file)
      modifies this
      ensures Valid() && Grown(v0, V(), h.kernel) && Later(old(V()), V(), h.kernel)
      ensures (S(), ok) == Bound(world, old(S()), h, ph, dyn)
      ensures SmallFiles(world) ==> spilled == old(spilled)
      decreases Space(h.kernel).end - V().Next(h.kernel), 3
    {
      hide Sound;
      hide Grown;
      hide Placed;
      hide ImageEnd;
      hide Later;
      hide Confined;
      hide Readable;
      hide SmallFiles;
      hide TooMany;
      hide Needs;
      hide Linking;
      hide Scanned;
      ghost var v1 := V();
      GrownHere(v1, h.kernel);
      GrownLists(v1, v1, h.kernel);
      var many := AsksTooMuch(dyn);
      if many { return false; }
      ok := Dependencies(h, dyn);
      ghost var v2 := V();
      GrownTwice(v0, v1, v2, h.kernel);
      GrownLists(v1, v2, h.kernel);
      if !ok { return; }
      ok := Relocate(h, ph, dyn);
      Rewritten(v0, v1, v2, V(), placed);
    }

    /** Reads an object's dynamic table, if it has one, and binds it. */
    method LinkTables(placed: Handle, ghost v0: View) returns (ok: bool, h: Handle)
      requires Valid() && Grown(v0, V(), placed.kernel) && Placed(placed, V().Images(placed.kernel))
      requires v0.Next(placed.kernel) == placed.base && ImageEnd(placed) == V().Next(placed.kernel)
      modifies this
      ensures Valid() && Grown(v0, V(), placed.kernel) && Later(old(V()), V(), placed.kernel)
      ensures Readable(placed.file) && (S(), ok, h) == Tied(world, old(S()), placed, Headers(placed.file))
      ensures SameObject(placed, h)
      ensures SmallFiles(world) ==> spilled == old(spilled)
      decreases Space(placed.kernel).end - V().Next(placed.kernel), 4
    {
      hide Sound;
      hide Grown;
      hide Placed;
      hide ImageEnd;
      hide Later;
      hide Readable;
      hide SmallFiles;
      hide Bound;
      hide Described;
      hide FirstDynamic;
      PlacedReads(placed, V().Images(placed.kernel));
      var ph := Headers(placed.file);
      GrownHere(V(), placed.kernel);
      GrownLists(V(), V(), placed.kernel);
      var i := FindDynamic(ph);
      if i == |ph| { return true, placed; }
      var dyn := (placed.base + ph[i].vaddr) % TOP;
      h := ReadTable(placed, ph, dyn);
      ok := Bind(h, ph, dyn, placed, v0);
    }

    /** Links an object whose segments are in place and puts it at the head of the list. */
    method Link(placed: Handle, ghost v0: View) returns (r: Option<u64>)
      requires Valid() && Grown(v0, V(), placed.kernel) && Placed(placed, V().Images(placed.kernel))
      requires v0.Next(placed.kernel) == placed.base && ImageEnd(placed) == V().Next(placed.kernel)
      requires forall h <- handles :: h.base != placed.base
      modifies this
      ensures Valid() && Grown(v0, V(), placed.kernel)
      ensures Readable(placed.file) && (S(), r) == LoaderSteps.Link(world, old(S()), placed, Headers(placed.file))
      ensures SmallFiles(world) ==> spilled == old(spilled)
      decreases Space(placed.kernel).end - V().Next(placed.kernel), 5
    {
      hide Sound;
      hide Grown;
      hide Placed;
      hide ImageEnd;
      hide Later;
      hide SmallFiles;
      hide Tied;
      hide Readable;
      ghost var v1 := V();
      var ok, h := LinkTables(placed, v0);
      if !ok { return None; }
      ghost var v3 := V();
      handles := [h] + handles;
      refs := refs[h.base := 1];
      AddHandle(v0, v1, v3, V(), placed, h);
      r := Some(h.base);
    }

    /**
      Any sequence of loads: images stay apart, and unless one wrapped every image keeps the bytes it had
      after the load that placed it. `stages` holds the loader as it was after each request.
     */
    method LoadAll(requests: seq<(seq<byte>, bool)>) returns (ghost stages: seq<View>)
      requires Valid()
      modifies this
      ensures Valid() && S() == AllLoaded(world, old(S()), requests)
      ensures |stages| == |requests| + 1 && stages[0] == old(V()) && stages[|requests|] == V()
      ensures forall i | 0 <= i <= |requests| ::
                stages[i].mem == AllLoaded(world, old(S()), requests[..i]).mem
                && stages[i].handles == AllLoaded(world, old(S()), requests[..i]).handles
      ensures !spilled ==> forall i | 0 <= i <= |requests| :: Kept(stages[i], V())
      ensures SmallFiles(world) ==> spilled == old(spilled)
    {
      hide LoaderSteps.Load;
      hide Sound;
      hide Grown;
      hide Kept;
      hide SmallFiles;
      hide AllLoaded;
      var i := 0;
      KeptHere(V());
      stages := [V()];
      NoneLoaded(world, S(), requests);
      while i < |requests|
        invariant 0 <= i <= |requests| && Valid()
        invariant |stages| == i + 1 && stages[0] == old(V()) && stages[i] == V()
        invariant !spilled ==> forall k | 0 <= k <= i :: Kept(stages[k], V())
        invariant forall k | 0 <= k <= i ::
                    stages[k].mem == AllLoaded(world, old(S()), requests[..k]).mem
                    && stages[k].handles == AllLoaded(world, old(S()), requests[..k]).handles
        invariant SmallFiles(world) ==> spilled == old(spilled)
        invariant S() == AllLoaded(world, old(S()), requests[..i])
      {
        OneMore(world, old(S()), requests, i);
        ghost var before := V();
        var _ := Load(requests[i].0, requests[i].1);
        StaysSpilled(before, V(), requests[i].1);
        KeptHere(V());
        if !spilled {
          GrownKeeps(before, V(), requests[i].1);
          KeptOnwards(stages, before, V());
        }
        stages := stages + [V()];
        i := i + 1;
      }
      assert requests[..i] == requests;
    }
  }

  lemma NoneLoaded(w: World, s: Sys, requests: seq<(seq<byte>, bool)>)
    requires s.Aligned()
    ensures AllLoaded(w, s, requests[..0]) == s
  {}

  lemma OneMore(w: World, s: Sys, requests: seq<(seq<byte>, bool)>, i: nat)
    requires s.Aligned() && i < |requests|
    ensures AllLoaded(w, s, requests[..i + 1]) ==
            LoaderSteps.Load(w, AllLoaded(w, s, requests[..i]), requests[i].0, requests[i].1).0
  {
    assert requests[..i + 1][..i] == requests[..i];
  }

  lemma KeptOnwards(stages: seq<View>, v: View, w: View)
    requires Kept(v, w) && forall k | 0 <= k < |stages| :: Kept(stages[k], v)
    ensures forall k | 0 <= k < |stages| :: Kept(stages[k], w)
  {
    hide Kept;
    forall k | 0 <= k < |stages| ensures Kept(stages[k], w) { KeptTwice(stages[k], v, w); }
  }

  /** Mapping a file at the next free address: the state afterwards, and its image unless it is refused. */
  ghost function Mapped(w: World, s: Sys, d: seq<byte>, kernel: bool): (Sys, Option<Image>)
    requires s.Aligned() && s.Room(kernel) > 0
  {
    var base: u64 := s.Next(kernel);
    var plan := Planned(d, base, kernel);
    if plan.None? || !plan.value.loads then (s, None)
    else
      var m := SegmentsMapped(w, s.mem, s.clock, plan.value.ph, base, d, |plan.value.ph|);
      (s.(mem := m.0, clock := m.1), if plan.value.overrun then None else Some(Image(base, plan.value.size)))
  }

  lemma PlaceByParts(w: World, s: Sys, path: seq<byte>, kernel: bool, d: seq<byte>)
    requires s.Aligned()
    ensures s.Room(kernel) == 0 ==> LoaderSteps.Place(w, s, path, kernel, d) == (s, None)
    ensures s.Room(kernel) > 0 ==>
              var m := Mapped(w, s, d, kernel);
              && (m.1.None? ==> LoaderSteps.Place(w, s, path, kernel, d) == (m.0, None))
              && (m.1.Some? ==> m.0.Aligned() && m.1.value.base == s.Next(kernel) && Readable(d))
              && (m.1.Some? ==>
                    LoaderSteps.Place(w, s, path, kernel, d) ==
                    LoaderSteps.Link(w, m.0.Taken(kernel, m.1.value.size),
                                     Handle(path, m.1.value.base, d, kernel, 0, 0, 0, 0, None), Headers(d)))
  {
    hide SegmentsMapped;
    hide LoaderSteps.Link;
    hide Accepts;
    if s.Room(kernel) > 0 && Accepts(d, s.Next(kernel), kernel) { AcceptedSegments(d, s.Next(kernel), kernel); }
  }

  /** Every image ever placed is still there with the bytes it had, and so is every listed object. */
  ghost predicate Kept(v: View, w: View) {
    && v.kernelImages <= w.kernelImages && v.userImages <= w.userImages && (forall h <- v.handles :: h in w.handles)
    && forall kernel: bool, i: nat :: i < |v.Images(kernel)| ==> SameBytes(v.mem, w.mem, v.Images(kernel)[i])
  }

  ghost predicate SameBytes(m: Memory, n: Memory, image: Image) {
    forall a | image.base <= a < image.base + image.size && a < TOP :: n[a] == m[a]
  }

  lemma StaysSpilled(v: View, w: View, kernel: bool)
    requires Grown(v, w, kernel)
    ensures v.spilled ==> w.spilled
  {}

  lemma KeptHere(v: View)
    ensures Kept(v, v)
  {}

  lemma KeptTwice(u: View, v: View, w: View)
    requires Kept(u, v) && Kept(v, w)
    ensures Kept(u, w)
  {
    forall kernel: bool, i: nat | i < |u.Images(kernel)| ensures SameBytes(u.mem, w.mem, u.Images(kernel)[i]) {
      assert SameBytes(u.mem, v.mem, u.Images(kernel)[i]) && v.Images(kernel)[i] == u.Images(kernel)[i];
      assert SameBytes(v.mem, w.mem, v.Images(kernel)[i]);
    }
  }

  /** Loading, linking and relocating new objects never changes a byte of an object placed before. */
  lemma GrownKeeps(v: View, w: View, kernel: bool)
    requires Sound(v) && Sound(w) && Grown(v, w, kernel) && !w.spilled
    ensures Kept(v, w)
  {
    hide HandlesOk;
    hide Tiled;
    forall k: bool, i: nat | i < |v.Images(k)| ensures SameBytes(v.mem, w.mem, v.Images(k)[i]) {
      TiledDisjoint(v.Images(k), Space(k).start, v.Next(k), i, i);
      NextIsPage(w, kernel);
      NextIsPage(v, kernel);
    }
    forall h | h in v.handles ensures h in w.handles {
      var i :| 0 <= i < |v.handles| && v.handles[i] == h;
      assert w.handles[|w.handles| - |v.handles| + i] == w.handles[|w.handles| - |v.handles|..][i];
    }
  }

  /** No segment reaches further than a gigabyte less a page above the object's base. */
  ghost predicate Small(d: seq<byte>) {
    Readable(d) ==> forall p <- Headers(d) :: p.kind == LOAD ==> p.vaddr + p.memsz <= 0x3ffff000
  }

  /** The file would be accepted at the base, and one of its segments wraps there. */
  ghost predicate Wrapping(d: seq<byte>, base: nat, kernel: bool) {
    base < TOP && Accepts(d, base, kernel) && AnyWraps(Headers(d), base)
  }

  lemma SmallFits(d: seq<byte>, base: nat, kernel: bool)
    requires Small(d) && base <= Space(kernel).end
    ensures !Wrapping(d, base, kernel)
  {
    if base < Space(kernel).end && Readable(d) { SmallFilesNeverWrap(Headers(d), base); }
    if base == Space(kernel).end && Accepts(d, base, kernel) { AcceptedHeaders(d, base, kernel); }
  }

  lemma NothingWraps(ph: seq<Phdr>, base: u64)
    ensures !Loads(ph, |ph|) ==> !AnyWraps(ph, base)
  {}

  ghost predicate SmallFiles(w: World) {
    forall t: nat, path: seq<byte> :: w.files(t, path).Some? ==> Small(w.files(t, path).value)
  }

  /** A file accepted at the next free address, mapped without touching anything outside its image. */
  ghost predicate Fits(v: View, mem: Memory, d: seq<byte>, kernel: bool, image: Image) {
    && image.base == v.Next(kernel) && Accepts(d, image.base, kernel)
    && var ph := Headers(d);
    && AllReachable(ph, image.base, |ph|) && !AnyWraps(ph, image.base)
    && image.base < High(ph, image.base, |ph|) == image.base + image.size <= Space(kernel).end && image.size % PAGE == 0
    && SameOutside(v.mem, mem, image.base, image.base + image.size)
  }

  lemma FitsBounds(v: View, mem: Memory, d: seq<byte>, kernel: bool, image: Image)
    requires Fits(v, mem, d, kernel, image)
    ensures image.base == v.Next(kernel) && image.size > 0 && image.size % PAGE == 0
    ensures image.base + image.size <= Space(kernel).end
    ensures SameOutside(v.mem, mem, image.base, image.base + image.size)
  {}

  /** Images and listed objects are only added to. */
  ghost predicate Later(v: View, w: View, kernel: bool) {
    Listed(v, w, kernel) && v.Images(kernel) <= w.Images(kernel) && v.Next(kernel) <= w.Next(kernel)
  }

  /** The end of a listed object's image. */
  ghost function ImageEnd(h: Handle): nat {
    if Readable(h.file) && AllReachable(Headers(h.file), h.base, |Headers(h.file)|)
    then High(Headers(h.file), h.base, |Headers(h.file)|) else 0
  }

  lemma PlacedReads(h: Handle, images: seq<Image>)
    requires Placed(h, images)
    ensures Readable(h.file) && Image(h.base, ImageEnd(h) - h.base) in images && h.base < ImageEnd(h)
  {
    AcceptedHeaders(h.file, h.base, h.kernel);
  }

  lemma MakePlaced(h: Handle, v: View, mem: Memory, image: Image, images: seq<Image>)
    requires Fits(v, mem, h.file, h.kernel, image) && h.base == image.base && images == v.Images(h.kernel) + [image]
    ensures Placed(h, images) && ImageEnd(h) == image.base + image.size
  {
    hide Accepts;
    AcceptedSegments(h.file, h.base, h.kernel);
    assert images[|images| - 1] == image;
  }

  lemma PlacedSame(h: Handle, g: Handle, images: seq<Image>)
    requires Placed(h, images) && g.file == h.file && g.base == h.base && g.kernel == h.kernel
    ensures Placed(g, images)
  {}

  lemma GrownLists(v: View, w: View, kernel: bool)
    requires Grown(v, w, kernel)
    ensures Later(v, w, kernel)
  {}

  lemma GrownHere(v: View, kernel: bool)
    ensures Grown(v, v, kernel)
  {}

  lemma {:induction false} FirstBeforeLast(ph: seq<Phdr>, base: u64, n: nat)
    requires n <= |ph| && AllReachable(ph, base, n)
    ensures Loads(ph, n) ==> FirstByte(ph, base, n) <= LastByte(ph, base, n)
  {
    if n > 0 { FirstBeforeLast(ph, base, n - 1); }
  }

  lemma NextIsPage(v: View, kernel: bool)
    requires Sound(v)
    ensures Space(kernel).start <= v.Next(kernel) <= Space(kernel).end && v.Next(kernel) % PAGE == 0
  {
    TiledBounds(v.Images(kernel), Space(kernel).start, v.Next(kernel));
  }

  lemma Spilled(v: View, w: View, kernel: bool)
    requires Sound(v) && w == v.(mem := w.mem, spilled := true)
    ensures Sound(w) && Grown(v, w, kernel)
  {}

  /** Every listed object lies below the next free address of its window. */
  lemma HandleBelow(v: View, h: Handle)
    requires Sound(v) && h in v.handles
    ensures Space(h.kernel).start <= h.base < v.Next(h.kernel) <= Space(h.kernel).end
  {
    assert Placed(h, v.Images(h.kernel));
    var ph := Headers(h.file);
    var image := Image(h.base, High(ph, h.base, |ph|) - h.base);
    var i :| 0 <= i < |v.Images(h.kernel)| && v.Images(h.kernel)[i] == image;
    TiledDisjoint(v.Images(h.kernel), Space(h.kernel).start, v.Next(h.kernel), i, i);
    TiledSizes(v.Images(h.kernel), Space(h.kernel).start, v.Next(h.kernel), i);
  }

  lemma {:induction false} TiledSizes(images: seq<Image>, start: nat, next: nat, i: nat)
    requires Tiled(images, start, next) && i < |images|
    ensures images[i].size > 0
    decreases |images|
  {
    if i < |images| - 1 { TiledSizes(images[..|images|-1], start, images[|images|-1].base, i); }
  }

  /** Taking the next image keeps everything and is above every listed object. */
  lemma Bumped(v: View, w: View, kernel: bool, image: Image)
    requires Sound(v) && image.base == v.Next(kernel) && image.size > 0 && image.size % PAGE == 0
    requires image.base + image.size <= Space(kernel).end
    requires w.handles == v.handles && w.spilled == v.spilled
    requires w.Images(kernel) == v.Images(kernel) + [image] && w.Next(kernel) == image.base + image.size
    requires w.Images(!kernel) == v.Images(!kernel) && w.Next(!kernel) == v.Next(!kernel)
    requires SameOutside(v.mem, w.mem, v.Next(kernel), w.Next(kernel))
    ensures Sound(w) && Grown(v, w, kernel)
    ensures forall h <- w.handles :: h.base != image.base
  {
    hide SameOutside;
    hide Accepts;
    assert w.Images(kernel)[..|w.Images(kernel)|-1] == v.Images(kernel);
    assert WindowOk(w.Images(kernel), w.Next(kernel), kernel) && WindowOk(w.Images(!kernel), w.Next(!kernel), !kernel);
    forall h | h in w.handles ensures Placed(h, w.Images(h.kernel)) && h.base != image.base {
      assert Placed(h, v.Images(h.kernel));
      HandleBelow(v, h);
      NextIsPage(v, kernel);
    }
    assert w.handles[0..] == w.handles;
  }

  /** Relocating inside the image taken first is still within what was taken. */
  lemma Rewritten(v0: View, v1: View, v2: View, v3: View, h: Handle)
    requires Grown(v0, v2, h.kernel) && Grown(v1, v2, h.kernel) && Sound(v2) && v3 == v2.(mem := v3.mem)
    requires Placed(h, v1.Images(h.kernel)) && Confined(Headers(h.file), h.base, v2.mem, v3.mem)
    requires v0.Next(h.kernel) == h.base && ImageEnd(h) == v1.Next(h.kernel)
    ensures Grown(v0, v3, h.kernel) && Sound(v3) && Later(v1, v3, h.kernel)
  {
    hide Accepts;
    hide Sound;
    hide SameOutside;
    PlacedReads(h, v1.Images(h.kernel));
    var ph := Headers(h.file);
    InsideImage(h, v1.Images(h.kernel));
    ConfinedToImage(ph, h.base, ImageEnd(h), v2.mem, v3.mem);
    SoundWithout(v2, v3);
    if !v3.spilled { SameOutsideWithin(v0.mem, v2.mem, v3.mem, h.base, h.base, ImageEnd(h), v2.Next(h.kernel)); }
  }

  lemma InsideImage(h: Handle, images: seq<Image>)
    requires Placed(h, images)
    ensures var ph := Headers(h.file);
            forall i | 0 <= i < |ph| ::
              ph[i].kind == LOAD && Reachable(ph[i], h.base) ==> To(ph[i], h.base) <= ImageEnd(h)
  {
    hide Accepts;
    PlacedReads(h, images);
    var ph := Headers(h.file);
    BoundsHold(ph, h.base, |ph|);
    forall i | 0 <= i < |ph| && ph[i].kind == LOAD ensures To(ph[i], h.base) <= ImageEnd(h) {
      assert !Wraps(ph[i], h.base);
    }
  }

  /** Soundness says nothing about the contents of memory. */
  lemma SoundWithout(v: View, w: View)
    requires Sound(v) && w == v.(mem := w.mem)
    ensures Sound(w)
  {
    hide Placed;
    assert forall h <- w.handles :: Placed(h, v.Images(h.kernel));
  }

  /** Listing the object just linked keeps the list free of repeated bases. */
  lemma AddHandle(v0: View, v1: View, v3: View, w: View, placed: Handle, h: Handle)
    requires Sound(v3) && Grown(v0, v3, h.kernel) && Later(v1, v3, h.kernel)
    requires w == v3.(handles := [h] + v3.handles) && Placed(placed, v1.Images(h.kernel))
    requires h.file == placed.file && h.base == placed.base && h.kernel == placed.kernel
    requires h.base == v0.Next(h.kernel) && ImageEnd(placed) == v1.Next(h.kernel)
    requires forall x <- v1.handles :: x.base != h.base
    ensures Sound(w) && Grown(v0, w, h.kernel)
  {
    hide Accepts;
    hide SameOutside;
    hide Placed;
    hide ImageEnd;
    hide WindowOk;
    hide HandlesOk;
    PlacedReads(placed, v1.Images(h.kernel));
    PlacedSame(placed, h, v1.Images(h.kernel));
    PlacedLonger(h, v1.Images(h.kernel), v3.Images(h.kernel));
    NewBase(v1, v3, h);
    HandlesMore(v3, w, h);
    ListedMore(v0, v3, w, h);
  }

  /** The base of the object being linked differs from that of every listed object. */
  lemma NewBase(v1: View, v3: View, h: Handle)
    requires Listed(v1, v3, h.kernel) && h.base < v1.Next(h.kernel) && forall x <- v1.handles :: x.base != h.base
    ensures forall i | 0 <= i < |v3.handles| :: v3.handles[i].base != h.base
  {}

  lemma HandlesMore(v: View, w: View, h: Handle)
    requires HandlesOk(v) && w == v.(handles := [h] + v.handles) && Placed(h, v.Images(h.kernel))
    requires forall i | 0 <= i < |v.handles| :: v.handles[i].base != h.base
    ensures HandlesOk(w)
  {
    hide Placed;
    assert forall i | 0 < i < |w.handles| :: w.handles[i] == v.handles[i - 1];
    forall x | x in w.handles ensures Placed(x, w.Images(x.kernel)) {
      if x in v.handles { assert Placed(x, v.Images(x.kernel)); }
    }
  }

  lemma ListedMore(v0: View, v: View, w: View, h: Handle)
    requires Listed(v0, v, h.kernel) && w == v.(handles := [h] + v.handles) && h.base == v0.Next(h.kernel)
    ensures Listed(v0, w, h.kernel)
  {}

  lemma PlacedLonger(h: Handle, images: seq<Image>, longer: seq<Image>)
    requires Placed(h, images) && images <= longer
    ensures Placed(h, longer)
  {}

  lemma RoomShrinks(v: View, w: View, kernel: bool)
    requires Grown(v, w, kernel)
    ensures v.Next(kernel) <= w.Next(kernel)
  {}
}
