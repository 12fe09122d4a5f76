/**
  Byte-addressed I/O over a sector device: an unaligned head, a direct loop on the
  caller's buffer, a bounce-buffer loop and a tail. Together they behave like
  slicing (read) or splicing (write) one flat byte array.
 */
module BlockIo {
  import opened Common

  const BOUNCE_MAX_BYTES := 0x400000
  const DIRECT_MIN_BYTES := 0x10000
  const PAGE_SIZE := 4096
  const UINT64_MAX := 0xFFFF_FFFF_FFFF_FFFF

  /** The value (size_t)-1 that the transfer functions return on failure. */
  const FAILED := -1

  function Min(a: nat, b: nat): nat { if a < b then a else b }

  /** `disk` after the first `done` bytes of `src` were spliced into `was` at `offset`. */
  ghost predicate Spliced(disk: seq<byte>, was: seq<byte>, src: seq<byte>, offset: nat, done: nat) {
    && |disk| == |was| && done <= |src|
    && (forall k {:trigger disk[k]} :: 0 <= k < |disk| && offset <= k < offset + done ==> disk[k] == src[k - offset])
    && (forall k {:trigger disk[k]} :: 0 <= k < |disk| && !(offset <= k < offset + done) ==> disk[k] == was[k])
  }

  /** An interrupted transfer: bytes outside the range are old, bytes inside are old or new. */
  ghost predicate Torn(disk: seq<byte>, was: seq<byte>, src: seq<byte>, offset: nat, length: nat) {
    && |disk| == |was| && length <= |src|
    && (forall k {:trigger disk[k]} :: 0 <= k < |disk| && offset <= k < offset + length ==>
          disk[k] == was[k] || disk[k] == src[k - offset])
    && (forall k {:trigger disk[k]} :: 0 <= k < |disk| && !(offset <= k < offset + length) ==> disk[k] == was[k])
  }

  /** The splice of a whole transfer that fits is prefix, source, suffix. */
  lemma SplicedIsConcat(disk: seq<byte>, was: seq<byte>, src: seq<byte>, offset: nat, length: nat)
    requires Spliced(disk, was, src, offset, length) && offset + length <= |was|
    ensures disk == was[..offset] + src[..length] + was[offset + length..]
  {}

  lemma WholeSectors(bytes: nat, size: nat)
    requires size > 0
    ensures 0 <= bytes / size && bytes / size * size == bytes - bytes % size
  {}

  /** Rounding a byte count down to whole sectors keeps it a multiple that the count bounds. */
  lemma RoundedDown(bytes: nat, size: nat)
    requires size > 0
    ensures var r: nat := bytes - bytes % size; r / size * size == r <= bytes && (bytes >= size ==> r >= size)
  {
    WholeSectors(bytes, size);
    assert bytes == bytes / size * size + bytes % size;
    var r := bytes - bytes % size;
    assert r == bytes / size * size;
    DividesExactly(bytes / size, size);
  }

  lemma DividesExactly(n: nat, size: nat)
    requires size > 0
    ensures n * size / size == n
  {
    var q := n * size / size;
    assert n * size == q * size + n * size % size;
    Distribute(n, -q, size);
    if n > q { Times(1, n - q, size); }
  }

  lemma ChunkFits(n: nat, middle: nat, most: nat, size: nat)
    requires 0 < n <= middle && n <= most && size > 0
    ensures size <= n * size <= middle * size && n * size <= most * size
    ensures (middle - n) * size == middle * size - n * size
  {
    Times(n, most, size);
    Times(n, middle, size);
    Times(1, n, size);
    var m: int := n;
    Distribute(middle, 0 - m, size);
  }

  class Device {
    const sectorSize: nat
    const maxSize: nat
    const canRead: bool
    const canWrite: bool
    const disk: array<byte>
    ghost var faults: nat   // failed allocations and backend calls so far

    constructor (sectorSize: nat, maxSize: nat, canRead: bool, canWrite: bool, disk: array<byte>)
      ensures this.sectorSize == sectorSize && this.maxSize == maxSize && this.canRead == canRead
      ensures this.canWrite == canWrite && this.disk == disk
    {
      this.sectorSize, this.maxSize, this.disk := sectorSize, maxSize, disk;
      this.canRead, this.canWrite := canRead, canWrite;
      faults := 0;
    }

    function WindowBytes(): (w: nat)
      ensures w >= sectorSize
      ensures w <= BOUNCE_MAX_BYTES || w == sectorSize
    {
      var w := if maxSize != 0 && maxSize != UINT64_MAX then Min(BOUNCE_MAX_BYTES, maxSize) else BOUNCE_MAX_BYTES;
      if w < sectorSize then sectorSize else w
    }

    /** Sectors of the device to `buffer`; a short count leaves arbitrary bytes in the target range only. */
    method BackendRead(buffer: array<byte>, at: nat, sectors: nat, sector: nat, ghost n: nat, ghost from: nat)
      returns (got: nat)
      requires buffer != disk && sectors > 0 && n == sectors * sectorSize && from == sector * sectorSize
      requires at + n <= buffer.Length
      modifies buffer, `faults
      ensures faults == if got == sectors then old(faults) else old(faults) + 1
      ensures got == sectors ==>
                from + n <= disk.Length && forall k :: at <= k < at + n ==> buffer[k] == disk[from + (k - at)]
      ensures forall k :: 0 <= k < buffer.Length && !(at <= k < at + n) ==> buffer[k] == old(buffer[k])
    {
      var bytes, first := sectors * sectorSize, sector * sectorSize;
      if * {
        if first + bytes <= disk.Length {
          forall k | 0 <= k < bytes { buffer[at + k] := disk[first + k]; }
          return sectors;
        }
      }
      var garbage := new byte[bytes];
      forall k | 0 <= k < bytes { buffer[at + k] := garbage[k]; }
      faults := faults + 1;
      got := 0;
    }

    /** Sectors of `buffer` to the device; a short count leaves each addressed byte either old or new. */
    method BackendWrite(buffer: array<byte>, at: nat, sectors: nat, sector: nat, ghost n: nat, ghost to: nat)
      returns (got: nat)
      requires buffer != disk && sectors > 0 && n == sectors * sectorSize && to == sector * sectorSize
      requires at + n <= buffer.Length
      modifies disk, `faults
      ensures faults == if got == sectors then old(faults) else old(faults) + 1
      ensures got == sectors ==> to + n <= disk.Length && Spliced(disk[..], old(disk[..]), buffer[at..], to, n)
      ensures got != sectors ==> Torn(disk[..], old(disk[..]), buffer[at..], to, n)
    {
      var bytes, first := sectors * sectorSize, sector * sectorSize;
      if * {
        if first + bytes <= disk.Length {
          forall k | 0 <= k < bytes { disk[first + k] := buffer[at + k]; }
          return sectors;
        }
      }
      var reached: set<nat> :| true;
      forall k | first <= k < first + bytes && k < disk.Length && k in reached { disk[k] := buffer[at + k - first]; }
      faults := faults + 1;
      got := 0;
    }

    /** The page-aligned scratch buffer: the cached one when it is big enough and free, a new one otherwise. */
    method AcquireBounce(bytes: nat) returns (bounce: array?<byte>)
      modifies `faults
      ensures bounce != null ==> fresh(bounce) && bounce.Length >= bytes && faults == old(faults)
      ensures bounce == null ==> faults == old(faults) + 1
    {
      if * {
        if bytes <= BOUNCE_MAX_BYTES { bounce := new byte[BOUNCE_MAX_BYTES]; return; }
      }
      if * { faults := faults + 1; return null; }
      var pages := (bytes + PAGE_SIZE - 1) / PAGE_SIZE;
      if pages == 0 { pages := 1; }
      bounce := new byte[pages * PAGE_SIZE];
    }

    /** How much of the caller's buffer is physically contiguous: any span up to the limit. */
    method DirectSpan(limit: nat) returns (span: nat)
      ensures span <= limit
    {
      span :| 0 <= span <= limit;
    }

    /**
      Reads `length` bytes at `offset` into `dest`. `granted` is the registry's answer
      to opening a ticket on exactly this range.
     */
    method Read(dest: array<byte>, offset: nat, length: nat, granted: bool) returns (status: int)
      requires dest != disk && length <= dest.Length
      modifies dest, `faults
      ensures length == 0 ==> status == 0 && faults == old(faults)
      ensures length != 0 ==> status == length || status == FAILED
      ensures length != 0 ==> (status == FAILED <==> !granted || sectorSize == 0 || !canRead || faults != old(faults))
      ensures status == length != 0 ==>
                offset + length <= disk.Length && dest[..length] == disk[offset..offset + length]
      ensures forall k :: length <= k < dest.Length ==> dest[k] == old(dest[k])
    {
      if length == 0 { return 0; }
      if !granted { return FAILED; }
      if sectorSize == 0 || !canRead { return FAILED; }
      var bounce := AcquireBounce(WindowBytes());
      if bounce == null { return FAILED; }
      var done, sector, ok := ReadHead(dest, bounce, offset, length);
      if !ok { return FAILED; }
      done, sector, ok := ReadDirect(dest, offset, length, done, sector);
      if !ok { return FAILED; }
      done, sector, ok := ReadMiddle(dest, bounce, offset, length, done, sector);
      if !ok { return FAILED; }
      ok := ReadTail(dest, bounce, offset, length, done, sector);
      if !ok { return FAILED; }
      status := length;
    }

    /** The first `done` bytes of the range have been delivered. */
    ghost predicate Delivered(dest: array<byte>, offset: nat, done: nat)
      reads dest, disk
    {
      && done <= dest.Length && offset + done <= disk.Length
      && forall k :: 0 <= k < done ==> dest[k] == disk[offset + k]
    }

    /** After the head the transfer is sector aligned, unless nothing remains. */
    ghost predicate Aligned(offset: nat, length: nat, done: nat, sector: nat)
      requires sectorSize > 0
    {
      done <= length && (done < length || offset % sectorSize == 0 ==> sector * sectorSize == offset + done)
    }

    method ReadHead(dest: array<byte>, bounce: array<byte>, offset: nat, length: nat)
      returns (done: nat, sector: nat, ok: bool)
      requires dest != disk && bounce != disk && dest != bounce && 0 < length <= dest.Length
      requires 0 < sectorSize <= bounce.Length
      modifies dest, bounce, `faults
      ensures faults == if ok then old(faults) else old(faults) + 1
      ensures ok ==> Aligned(offset, length, done, sector) && (done > 0 ==> Delivered(dest, offset, done))
      ensures forall k :: length <= k < dest.Length ==> dest[k] == old(dest[k])
    {
      sector, done := offset / sectorSize, 0;
      var inBlock := offset % sectorSize;
      assert sector * sectorSize + inBlock == offset;
      if inBlock != 0 {
        var head := Min(sectorSize - inBlock, length);
        var got := BackendRead(bounce, 0, 1, sector, sectorSize, sector * sectorSize);
        if got != 1 { return done, sector, false; }
        forall k | 0 <= k < head { dest[k] := bounce[inBlock + k]; }
        done := head;
        Distribute(sector, 1, sectorSize);
        sector := sector + 1;
      }
      ok := true;
    }

    method ReadDirect(dest: array<byte>, offset: nat, length: nat, done0: nat, sector0: nat)
      returns (done: nat, sector: nat, ok: bool)
      requires dest != disk && length <= dest.Length && sectorSize > 0
      requires Aligned(offset, length, done0, sector0) && (done0 > 0 ==> Delivered(dest, offset, done0))
      modifies dest, `faults
      ensures faults == if ok then old(faults) else old(faults) + 1
      ensures ok ==> Aligned(offset, length, done, sector) && (done > 0 ==> Delivered(dest, offset, done))
      ensures forall k :: length <= k < dest.Length ==> dest[k] == old(dest[k])
    {
      done, sector := done0, sector0;
      while length - done >= sectorSize
        invariant Aligned(offset, length, done, sector) && (done > 0 ==> Delivered(dest, offset, done))
        invariant faults == old(faults)
        invariant forall k :: length <= k < dest.Length ==> dest[k] == old(dest[k])
        decreases length - done
      {
        var limit := Min(length - done, WindowBytes());
        var span := DirectSpan(limit);
        RoundedDown(span, sectorSize);
        span := span - span % sectorSize;
        if span < sectorSize { break; }
        if span < DIRECT_MIN_BYTES && span != limit { break; }
        var sectors := span / sectorSize;
        if sectors == 0 { assert false; }
        var got := BackendRead(dest, done, sectors, sector, span, offset + done);
        if got != sectors { return done, sector, false; }
        Distribute(sector, sectors, sectorSize);
        done := done + span;
        sector := sector + sectors;
      }
      ok := true;
    }

    method ReadMiddle(dest: array<byte>, bounce: array<byte>, offset: nat, length: nat, done0: nat, sector0: nat)
      returns (done: nat, sector: nat, ok: bool)
      requires dest != disk && bounce != disk && dest != bounce && length <= dest.Length && sectorSize > 0
      requires WindowBytes() <= bounce.Length
      requires Aligned(offset, length, done0, sector0) && (done0 > 0 ==> Delivered(dest, offset, done0))
      modifies dest, bounce, `faults
      ensures faults == if ok then old(faults) else old(faults) + 1
      ensures ok ==> Aligned(offset, length, done, sector) && length - done < sectorSize
      ensures ok && done > 0 ==> Delivered(dest, offset, done)
      ensures forall k :: length <= k < dest.Length ==> dest[k] == old(dest[k])
    {
      done, sector := done0, sector0;
      var maxSectors := MaxSectors();
      var middle := (length - done) / sectorSize;
      WholeSectors(length - done, sectorSize);
      var most := Min(middle, maxSectors);
      while middle > 0
        invariant Aligned(offset, length, done, sector) && (done > 0 ==> Delivered(dest, offset, done))
        invariant 0 <= length - done - middle * sectorSize < sectorSize
        invariant most <= maxSectors && (middle > 0 ==> most > 0)
        invariant faults == old(faults)
        invariant forall k :: length <= k < dest.Length ==> dest[k] == old(dest[k])
      {
        var n := Min(middle, most);
        ChunkFits(n, middle, maxSectors, sectorSize);
        done, ok := ReadChunk(dest, bounce, offset, length, done, sector, n);
        if !ok { return; }
        Distribute(sector, n, sectorSize);
        sector, middle := sector + n, middle - n;
      }
      ok := true;
    }

    /** One bounce transfer of `n` sectors. */
    method ReadChunk(dest: array<byte>, bounce: array<byte>, offset: nat, length: nat, done0: nat, sector: nat, n: nat)
      returns (done: nat, ok: bool)
      requires dest != disk && bounce != disk && dest != bounce && length <= dest.Length && n > 0
      requires n * sectorSize <= bounce.Length && done0 + n * sectorSize <= length
      requires sector * sectorSize == offset + done0
      requires done0 > 0 ==> Delivered(dest, offset, done0)
      modifies dest, bounce, `faults
      ensures faults == if ok then old(faults) else old(faults) + 1
      ensures ok ==> done == done0 + n * sectorSize && (done > 0 ==> Delivered(dest, offset, done))
      ensures forall k :: length <= k < dest.Length ==> dest[k] == old(dest[k])
    {
      var bytes := n * sectorSize;
      done := done0;
      var got := BackendRead(bounce, 0, n, sector, bytes, offset + done);
      if got != n { return done, false; }
      forall k | 0 <= k < bytes { dest[done + k] := bounce[k]; }
      done, ok := done + bytes, true;
    }

    /** How many sectors one bounce transfer may move: they always fit the bounce buffer. */
    method MaxSectors() returns (n: nat)
      requires sectorSize > 0
      ensures n > 0 && n * sectorSize <= WindowBytes()
    {
      n := WindowBytes() / sectorSize;
      WholeSectors(WindowBytes(), sectorSize);
      if n < 1 { n := 1; }
    }

    method ReadTail(dest: array<byte>, bounce: array<byte>, offset: nat, length: nat, done: nat, sector: nat)
      returns (ok: bool)
      requires dest != disk && bounce != disk && dest != bounce && 0 < length <= dest.Length
      requires 0 < sectorSize <= bounce.Length
      requires Aligned(offset, length, done, sector) && (done > 0 ==> Delivered(dest, offset, done))
      requires length - done < sectorSize
      modifies dest, bounce, `faults
      ensures faults == if ok then old(faults) else old(faults) + 1
      ensures ok ==> Delivered(dest, offset, length)
      ensures forall k :: length <= k < dest.Length ==> dest[k] == old(dest[k])
    {
      if length > done {
        var got := BackendRead(bounce, 0, 1, sector, sectorSize, offset + done);
        if got != 1 { return false; }
        forall k | 0 <= k < length - done { dest[done + k] := bounce[k]; }
      }
      ok := true;
    }

    /**
      Writes the first `length` bytes of `src` at `offset`. Bytes of the disk outside the
      range keep their value even when a backend call tears or fails midway.
     */
    method Write(src: array<byte>, offset: nat, length: nat, granted: bool) returns (status: int)
      requires src != disk && length <= src.Length
      modifies disk, `faults
      ensures length == 0 ==> status == 0 && faults == old(faults)
      ensures length != 0 ==> status == length || status == FAILED
      ensures status == length ==> Spliced(disk[..], old(disk[..]), src[..], offset, length)
      ensures status == length != 0 ==>
              && offset + length <= disk.Length
              && disk[..] == old(disk[..])[..offset] + src[..length] + old(disk[..])[offset + length..]
      ensures status == FAILED ==> Torn(disk[..], old(disk[..]), src[..], offset, length)
      ensures length != 0 ==>
                (status == FAILED <==>
                   || !granted || sectorSize == 0 || !canWrite || faults != old(faults)
                   || (!canRead && (offset % sectorSize != 0 || (offset + length) % sectorSize != 0)))
    {
      if length == 0 { return 0; }
      if !granted { return FAILED; }
      if sectorSize == 0 || !canWrite { return FAILED; }
      var bounce := AcquireBounce(WindowBytes());
      if bounce == null { return FAILED; }
      ghost var was := disk[..];
      var done, sector, ok := WriteHead(src, bounce, offset, length, was);
      if !ok { return FAILED; }
      done, sector, ok := WriteDirect(src, offset, length, done, sector, was);
      if !ok { return FAILED; }
      done, sector, ok := WriteMiddle(src, bounce, offset, length, done, sector, was);
      if !ok { return FAILED; }
      EndsOnSector(offset, length, done, sector);
      ok := WriteTail(src, bounce, offset, length, done, sector, was);
      if !ok { return FAILED; }
      SplicedIsConcat(disk[..], was, src[..], offset, length);
      status := length;
    }

    /** Where whole sectors end the transfer, nothing is left for the last step exactly when the end is aligned. */
    lemma EndsOnSector(offset: nat, length: nat, done: nat, sector: nat)
      requires sectorSize > 0 && Aligned(offset, length, done, sector) && length - done < sectorSize
      ensures offset % sectorSize == 0 ==> ((offset + length) % sectorSize != 0 <==> length > done)
    {
      if offset % sectorSize == 0 { Remainder(offset + length, sectorSize, sector, length - done); }
    }

    /** The first `done` bytes of the range are on the disk and nothing else changed. */
    ghost predicate Stored(src: array<byte>, offset: nat, done: nat, was: seq<byte>)
      reads src, disk
    {
      Spliced(disk[..], was, src[..], offset, done) && (done > 0 ==> offset + done <= disk.Length)
    }

    /** A torn backend write of exactly the next bytes leaves a torn transfer. */
    lemma TornChunk(now: seq<byte>, before: seq<byte>, was: seq<byte>, src: seq<byte>, from: seq<byte>, offset: nat,
                    length: nat, done: nat, to: nat, n: nat)
      requires Spliced(before, was, src, offset, done) && Torn(now, before, from, to, n) && done <= length <= |src|
      requires forall k :: 0 <= k < n && to + k < |was| ==>
        from[k] == if offset + done <= to + k < offset + length then src[to + k - offset] else before[to + k]
      ensures Torn(now, was, src, offset, length)
    {
      forall k | 0 <= k < |now| && offset <= k < offset + length
        ensures now[k] == was[k] || now[k] == src[k - offset]
      {
        if to <= k < to + n { assert from[k - to] == from[k - to]; }
      }
      forall k | 0 <= k < |now| && !(offset <= k < offset + length) ensures now[k] == was[k] {
        if to <= k < to + n { assert from[k - to] == before[to + (k - to)]; }
      }
    }

    /** A complete backend write of exactly the next bytes extends the splice. */
    lemma SplicedChunk(now: seq<byte>, before: seq<byte>, was: seq<byte>, src: seq<byte>, from: seq<byte>,
                       offset: nat, done: nat, more: nat, to: nat, n: nat)
      requires Spliced(before, was, src, offset, done) && Spliced(now, before, from, to, n) && done + more <= |src|
      requires to <= offset + done && offset + done + more <= to + n
      requires forall k :: 0 <= k < n && to + k < |was| ==>
        from[k] == if offset + done <= to + k < offset + done + more then src[to + k - offset] else before[to + k]
      ensures Spliced(now, was, src, offset, done + more)
    {}

    /** Read-modify-write of the one sector that holds the next `more` bytes, which start `inBlock` bytes into it. */
    method PatchSector(src: array<byte>, bounce: array<byte>, offset: nat, length: nat, done: nat, sector: nat,
                       inBlock: nat, more: nat, ghost was: seq<byte>)
      returns (ok: bool)
      requires src != disk && bounce != disk && src != bounce && length <= src.Length
      requires 0 < sectorSize <= bounce.Length && canRead
      requires Stored(src, offset, done, was) && 0 < more && done + more <= length && inBlock + more <= sectorSize
      requires sector * sectorSize + inBlock == offset + done
      modifies disk, bounce, `faults
      ensures faults == if ok then old(faults) else old(faults) + 1
      ensures ok ==> Stored(src, offset, done + more, was)
      ensures !ok ==> Torn(disk[..], was, src[..], offset, length)
    {
      ghost var to := sector * sectorSize;
      ghost var before := disk[..];
      var got := BackendRead(bounce, 0, 1, sector, sectorSize, to);
      if got != 1 { return false; }
      forall k | 0 <= k < more { bounce[inBlock + k] := src[done + k]; }
      ghost var from := bounce[0..];
      assert forall k :: 0 <= k < sectorSize ==>
        from[k] == if offset + done <= to + k < offset + done + more then src[to + k - offset] else before[to + k];
      got := BackendWrite(bounce, 0, 1, sector, sectorSize, to);
      if got != 1 {
        TornChunk(disk[..], before, was, src[..], from, offset, done + more, done, to, sectorSize);
        return false;
      }
      SplicedChunk(disk[..], before, was, src[..], from, offset, done, more, to, sectorSize);
      ok := true;
    }

    method WriteHead(src: array<byte>, bounce: array<byte>, offset: nat, length: nat, ghost was: seq<byte>)
      returns (done: nat, sector: nat, ok: bool)
      requires src != disk && bounce != disk && src != bounce && 0 < length <= src.Length
      requires 0 < sectorSize <= bounce.Length
      requires was == disk[..]
      modifies disk, bounce, `faults
      ensures ok ==> faults == old(faults) && Aligned(offset, length, done, sector) && Stored(src, offset, done, was)
      ensures !ok <==> (!canRead && offset % sectorSize != 0) || faults != old(faults)
      ensures !ok ==> Torn(disk[..], was, src[..], offset, length)
    {
      sector, done := offset / sectorSize, 0;
      var inBlock := offset % sectorSize;
      assert sector * sectorSize + inBlock == offset;
      if inBlock != 0 {
        if !canRead { return done, sector, false; }
        var head := Min(sectorSize - inBlock, length);
        ok := PatchSector(src, bounce, offset, length, 0, sector, inBlock, head, was);
        if !ok { return; }
        done := head;
        Distribute(sector, 1, sectorSize);
        sector := sector + 1;
      }
      ok := true;
    }

    method WriteDirect(src: array<byte>, offset: nat, length: nat, done0: nat, sector0: nat, ghost was: seq<byte>)
      returns (done: nat, sector: nat, ok: bool)
      requires src != disk && length <= src.Length && sectorSize > 0
      requires Aligned(offset, length, done0, sector0) && Stored(src, offset, done0, was)
      modifies disk, `faults
      ensures ok ==> faults == old(faults) && Aligned(offset, length, done, sector) && Stored(src, offset, done, was)
      ensures !ok ==> faults != old(faults) && Torn(disk[..], was, src[..], offset, length)
    {
      done, sector := done0, sector0;
      while length - done >= sectorSize
        invariant Aligned(offset, length, done, sector) && Stored(src, offset, done, was)
        invariant faults == old(faults)
        decreases length - done
      {
        var limit := Min(length - done, WindowBytes());
        var span := DirectSpan(limit);
        RoundedDown(span, sectorSize);
        span := span - span % sectorSize;
        if span < sectorSize { break; }
        if span < DIRECT_MIN_BYTES && span != limit { break; }
        var sectors := span / sectorSize;
        if sectors == 0 { assert false; }
        ok := StoreChunk(src, src, done, offset, length, done, sector, sectors, span, was);
        if !ok { return; }
        Distribute(sector, sectors, sectorSize);
        done := done + span;
        sector := sector + sectors;
      }
      ok := true;
    }

    /** One backend write of the next whole sectors, from `buffer[at..]` which holds their bytes. */
    method StoreChunk(src: array<byte>, buffer: array<byte>, at: nat, offset: nat, length: nat, done: nat,
                      sector: nat, sectors: nat, n: nat, ghost was: seq<byte>)
      returns (ok: bool)
      requires src != disk && buffer != disk && length <= src.Length && sectors > 0 && n == sectors * sectorSize
      requires at + n <= buffer.Length && done + n <= length && sector * sectorSize == offset + done
      requires forall k :: at <= k < at + n ==> buffer[k] == src[done + (k - at)]
      requires Stored(src, offset, done, was)
      modifies disk, `faults
      ensures faults == if ok then old(faults) else old(faults) + 1
      ensures ok ==> Stored(src, offset, done + n, was)
      ensures !ok ==> Torn(disk[..], was, src[..], offset, length)
    {
      ghost var before := disk[..];
      ghost var from := buffer[at..];
      assert forall k :: 0 <= k < n ==> from[k] == buffer[at + k];
      var got := BackendWrite(buffer, at, sectors, sector, n, offset + done);
      if got != sectors {
        TornChunk(disk[..], before, was, src[..], from, offset, done + n, done, offset + done, n);
        return false;
      }
      SplicedChunk(disk[..], before, was, src[..], from, offset, done, n, offset + done, n);
      ok := true;
    }

    method WriteMiddle(src: array<byte>, bounce: array<byte>, offset: nat, length: nat, done0: nat, sector0: nat,
                       ghost was: seq<byte>)
      returns (done: nat, sector: nat, ok: bool)
      requires src != disk && bounce != disk && src != bounce && length <= src.Length && sectorSize > 0
      requires WindowBytes() <= bounce.Length
      requires Aligned(offset, length, done0, sector0) && Stored(src, offset, done0, was)
      modifies disk, bounce, `faults
      ensures ok ==> faults == old(faults) && Aligned(offset, length, done, sector) && Stored(src, offset, done, was)
      ensures ok ==> length - done < sectorSize
      ensures !ok ==> faults != old(faults) && Torn(disk[..], was, src[..], offset, length)
    {
      done, sector := done0, sector0;
      var maxSectors := MaxSectors();
      var middle := (length - done) / sectorSize;
      WholeSectors(length - done, sectorSize);
      var most := Min(middle, maxSectors);
      while middle > 0
        invariant Aligned(offset, length, done, sector) && Stored(src, offset, done, was)
        invariant 0 <= length - done - middle * sectorSize < sectorSize
        invariant most <= maxSectors && (middle > 0 ==> most > 0)
        invariant faults == old(faults)
      {
        var n := Min(middle, most);
        ChunkFits(n, middle, maxSectors, sectorSize);
        var bytes := n * sectorSize;
        forall k | 0 <= k < bytes { bounce[k] := src[done + k]; }
        ok := StoreChunk(src, bounce, 0, offset, length, done, sector, n, bytes, was);
        if !ok { return; }
        Distribute(sector, n, sectorSize);
        done, sector, middle := done + bytes, sector + n, middle - n;
      }
      ok := true;
    }

    method WriteTail(src: array<byte>, bounce: array<byte>, offset: nat, length: nat, done: nat, sector: nat,
                     ghost was: seq<byte>)
      returns (ok: bool)
      requires src != disk && bounce != disk && src != bounce && 0 < length <= src.Length
      requires 0 < sectorSize <= bounce.Length
      requires Aligned(offset, length, done, sector) && Stored(src, offset, done, was) && length - done < sectorSize
      modifies disk, bounce, `faults
      ensures ok ==> faults == old(faults) && Stored(src, offset, length, was)
      ensures !ok <==> (!canRead && length > done) || faults != old(faults)
      ensures !ok ==> Torn(disk[..], was, src[..], offset, length)
    {
      if length > done {
        if !canRead { return false; }
        ok := PatchSector(src, bounce, offset, length, done, sector, 0, length - done, was);
        return;
      }
      ok := true;
    }

    /** A read of the range just written returns the bytes written. */
    method WriteThenRead(src: array<byte>, dest: array<byte>, offset: nat, length: nat, granted: bool)
      returns (wrote: int, read: int)
      requires src != disk && dest != disk && src != dest && 0 < length <= src.Length && length <= dest.Length
      modifies disk, dest, `faults
      ensures wrote == length == read ==> dest[..length] == src[..length]
    {
      wrote := Write(src, offset, length, granted);
      read := Read(dest, offset, length, granted);
    }
  }
}
