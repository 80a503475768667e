/**
 An open file (filesys/openfile): reading and writing any range of bytes of a file
 on a disk that only transfers whole sectors.
 */
module OpenFiles {
  import opened Words
  import opened SynchDisks
  import opened FileHeaders

  // --------------------------------------------- a file as a byte sequence

  /** The sector that holds block `b` of the file. */
  ghost function BlockData(d: Disk, h: Header, b: nat): (s: seq<byte>)
    requires IsDisk(d) && GoodHeader(h) && b < h.numSectors
    ensures |s| == 512
  {
    d[h.dataSectors[b]]
  }

  /** The first `n` blocks of the file, one after the other. */
  ghost function Concatenated(d: Disk, h: Header, n: nat): (b: seq<byte>)
    requires IsDisk(d) && GoodHeader(h) && n <= Max(0, h.numSectors)
    ensures |b| == n * 512
  {
    if n == 0 then [] else Concatenated(d, h, n - 1) + BlockData(d, h, n - 1)
  }

  /** The contents of the file with header `h`: its data sectors, cut off at its length. */
  ghost function FileBytes(d: Disk, h: Header): (b: seq<byte>)
    requires IsDisk(d) && GoodHeader(h)
    ensures |b| == Max(0, h.numBytes)
  {
    Concatenated(d, h, Max(0, h.numSectors))[..Max(0, h.numBytes)]
  }

  /** `n` is the most that a request for `numBytes` bytes at `position` can get out of a file of `length` bytes. */
  predicate Transfers(length: int, numBytes: int, position: nat, n: nat)
  {
    if numBytes <= 0 || position >= length then n == 0
    else n <= numBytes && position + n <= length && (n == numBytes || position + n == length)
  }

  /** Exactly the numbers up to `n` are wanted and there. */
  lemma TransfersMost(length: int, numBytes: int, position: nat, n: nat, m: nat)
    requires Transfers(length, numBytes, position, n) && m > 0
    ensures m <= n <==> m <= numBytes && position + m <= length
  {
  }

  /** The bytes at `position` are those of `data`, as far as they are in the file, and the others are as before. */
  ghost predicate Overwritten(before: seq<byte>, position: nat, data: seq<byte>, after: seq<byte>)
  {
    && |after| == |before|
    && forall k | 0 <= k < |before| ::
         after[k] == if position <= k < position + |data| then data[k - position] else before[k]
  }

  lemma SpliceOverwrites(before: seq<byte>, position: nat, data: seq<byte>, n: nat)
    requires n <= |data| && Transfers(|before|, |data|, position, n)
    ensures Overwritten(before, position, data, Splice(before, position, data[..n]))
  {
    forall k | 0 <= k < |before|
      ensures Splice(before, position, data[..n])[k]
           == if position <= k < position + |data| then data[k - position] else before[k]
    {
      if n > 0 {
        SpliceAt(before, position, data[..n], k);
      }
    }
  }

  /** The number of bytes a request for `numBytes` bytes at `position` transfers. */
  function Clip(length: int, numBytes: int, position: nat): (n: nat)
    ensures Transfers(length, numBytes, position, n)
  {
    if numBytes <= 0 || position >= length then 0
    else if position + numBytes > length then length - position
    else numBytes
  }

  function Slice<T>(s: seq<T>, position: nat, n: nat): seq<T>
    requires n == 0 || position + n <= |s|
  {
    if n == 0 then [] else s[position..position + n]
  }

  /** `s` with the bytes at `position` replaced by `data`. */
  function Splice<T>(s: seq<T>, position: nat, data: seq<T>): (r: seq<T>)
    requires data == [] || position + |data| <= |s|
    ensures |r| == |s|
  {
    if data == [] then s else s[..position] + data + s[position + |data|..]
  }

  /** Outside the data sectors of `h` the two disks agree. */
  ghost predicate OnlyBlocksChange(d: Disk, d': Disk, h: Header)
    requires IsDisk(d) && IsDisk(d') && GoodHeader(h)
  {
    forall s | 0 <= s < NUM_SECTORS && s !in Blocks(h) :: d'[s] == d[s]
  }

  lemma {:induction false} ConcatenatedAt(d: Disk, h: Header, n: nat, b: nat, r: nat)
    requires IsDisk(d) && GoodHeader(h) && b < n <= h.numSectors && r < 512
    ensures Concatenated(d, h, n)[b * 512 + r] == BlockData(d, h, b)[r]
  {
    if b < n - 1 {
      ConcatenatedAt(d, h, n - 1, b, r);
    }
  }

  /** Byte `k` of the file is byte `r` of its block `b`. */
  lemma LocateByte(h: Header, k: nat) returns (b: nat, r: nat)
    requires GoodHeader(h) && k < h.numBytes
    ensures k == b * 512 + r && r < 512 && b < h.numSectors
  {
    b, r := k / 512, k % 512;
  }

  /** Byte `k` of a file is in the sector that the header names for it. */
  lemma ByteWhere(d: Disk, h: Header, k: nat)
    requires IsDisk(d) && GoodHeader(h) && k < h.numBytes
    ensures k / 512 < h.numSectors && FileBytes(d, h)[k] == d[h.dataSectors[k / 512]][k % 512]
  {
    var b, r := LocateByte(h, k);
    ByteOfFile(d, h, b, r);
  }

  lemma ByteOfFile(d: Disk, h: Header, b: nat, r: nat)
    requires IsDisk(d) && GoodHeader(h) && r < 512 && b * 512 + r < h.numBytes
    ensures b < h.numSectors && FileBytes(d, h)[b * 512 + r] == BlockData(d, h, b)[r]
  {
    ConcatenatedAt(d, h, h.numSectors, b, r);
  }

  /** The bytes at `position` begin in block `first` and end in block `last`. */
  ghost predicate Spans(first: nat, last: nat, position: nat, n: nat)
  {
    && first * 512 <= position < (first + 1) * 512
    && last * 512 < position + n <= (last + 1) * 512
    && first <= last
  }

  /** `buf` holds the blocks `first`, `first + 1`, ... of the file, one after the other. */
  ghost predicate HoldsBlocks(d: Disk, h: Header, buf: seq<byte>, first: nat, count: nat)
    requires IsDisk(d) && GoodHeader(h)
    requires first + count <= Max(0, h.numSectors) && |buf| >= count * 512
  {
    forall b | first <= b < first + count ::
      buf[(b - first) * 512..(b - first + 1) * 512] == BlockData(d, h, b)
  }

  lemma SliceOfBlocks(d: Disk, h: Header, buf: seq<byte>, first: nat, count: nat, position: nat, n: nat)
    requires IsDisk(d) && GoodHeader(h)
    requires first + count <= Max(0, h.numSectors) && |buf| >= count * 512
    requires HoldsBlocks(d, h, buf, first, count)
    requires first * 512 <= position && position + n <= (first + count) * 512
    requires position + n <= h.numBytes
    ensures var off := position - first * 512;
            buf[off..off + n] == FileBytes(d, h)[position..position + n]
  {
    var off := position - first * 512;
    var got, want := buf[off..off + n], FileBytes(d, h)[position..position + n];
    forall j | 0 <= j < n
      ensures got[j] == want[j]
    {
      HeldByte(d, h, buf, first, count, position + j);
    }
  }

  lemma HeldByte(d: Disk, h: Header, buf: seq<byte>, first: nat, count: nat, k: nat)
    requires IsDisk(d) && GoodHeader(h)
    requires first + count <= Max(0, h.numSectors) && |buf| >= count * 512
    requires HoldsBlocks(d, h, buf, first, count)
    requires first * 512 <= k < (first + count) * 512 && k < h.numBytes
    ensures buf[k - first * 512] == FileBytes(d, h)[k]
  {
    var b, r := LocateByte(h, k);
    ByteOfFile(d, h, b, r);
    InImage(buf, b - first, r);
  }

  lemma NothingCopied<T>(s: seq<T>, at: nat)
    requires at <= |s|
    ensures s == s[..at] + [] + s[at..]
  {
  }

  lemma InImage(image: seq<byte>, i: nat, r: nat)
    requires r < 512 && (i + 1) * 512 <= |image|
    ensures image[i * 512..(i + 1) * 512][r] == image[i * 512 + r]
  {
  }

  /** Every byte of the file that falls in the buffer has its final value there. */
  ghost predicate BufferImage(contents: seq<byte>, position: nat, data: seq<byte>, first: nat, count: nat,
                              image: seq<byte>)
    requires data != [] && position + |data| <= |contents|
    requires |image| == count * 512
  {
    forall k | first * 512 <= k < (first + count) * 512 && k < |contents| ::
      image[k - first * 512] == Splice(contents, position, data)[k]
  }

  /** The part of block `b` that lies within the file is in its place in the buffer. */
  ghost predicate BlockLoaded(contents: seq<byte>, first: nat, b: nat, image: seq<byte>)
    requires first <= b && (b - first + 1) * 512 <= |image|
  {
    forall k | b * 512 <= k < (b + 1) * 512 && k < |contents| ::
      image[k - first * 512] == contents[k]
  }

  lemma FilledImage(contents: seq<byte>, position: nat, data: seq<byte>, first: nat, last: nat,
                    around: seq<byte>, image: seq<byte>)
    requires data != [] && position + |data| <= |contents|
    requires Spans(first, last, position, |data|)
    requires |around| == (1 + last - first) * 512
    requires position != first * 512 ==> BlockLoaded(contents, first, first, around)
    requires position + |data| != (last + 1) * 512 ==> BlockLoaded(contents, first, last, around)
    requires var off := position - first * 512;
             image == around[..off] + data + around[off + |data|..]
    ensures BufferImage(contents, position, data, first, 1 + last - first, image)
  {
    forall k | first * 512 <= k < (last + 1) * 512 && k < |contents|
      ensures image[k - first * 512] == Splice(contents, position, data)[k]
    {
      if k < position || k >= position + |data| {
        assert around[k - first * 512] == contents[k];
      }
      FilledByte(contents, position, data, first * 512, around, image, k);
    }
  }

  lemma FilledByte(contents: seq<byte>, position: nat, data: seq<byte>, at: nat,
                   around: seq<byte>, image: seq<byte>, k: nat)
    requires data != [] && at <= position && position + |data| <= |contents| && position + |data| - at <= |around|
    requires image == around[..position - at] + data + around[position - at + |data|..]
    requires at <= k < at + |around| && k < |contents|
    requires k < position || k >= position + |data| ==> around[k - at] == contents[k]
    ensures image[k - at] == Splice(contents, position, data)[k]
  {
    SpliceAt(contents, position, data, k);
    SpliceAt(around, position - at, data, k - at);
  }

  lemma SpliceAt<T>(s: seq<T>, position: nat, data: seq<T>, k: nat)
    requires data != [] && position + |data| <= |s| && k < |s|
    ensures Splice(s, position, data)[k] == if position <= k < position + |data| then data[k - position] else s[k]
  {
  }

  /** Blocks `first` up to `last` of the file hold the buffer, the others are as before. */
  ghost predicate BlocksWritten(d: Disk, d': Disk, h: Header, first: nat, last: nat, image: seq<byte>)
    requires IsDisk(d) && IsDisk(d') && GoodHeader(h)
    requires first <= last <= Max(0, h.numSectors) && (last - first) * 512 <= |image|
  {
    forall b | 0 <= b < h.numSectors ::
      BlockData(d', h, b) ==
      if first <= b < last then image[(b - first) * 512..(b - first + 1) * 512] else BlockData(d, h, b)
  }

  lemma WriteOneBlock(d0: Disk, d: Disk, h: Header, first: nat, i: nat, image: seq<byte>)
    requires IsDisk(d0) && IsDisk(d) && GoodHeader(h)
    requires first <= i < h.numSectors && (i - first + 1) * 512 <= |image|
    requires OnlyBlocksChange(d0, d, h) && BlocksWritten(d0, d, h, first, i, image)
    ensures var d' := d[h.dataSectors[i] := image[(i - first) * 512..(i - first + 1) * 512]];
            IsDisk(d') && OnlyBlocksChange(d0, d', h) && BlocksWritten(d0, d', h, first, i + 1, image)
  {
    assert Blocks(h)[i] == h.dataSectors[i];
    var d' := d[h.dataSectors[i] := image[(i - first) * 512..(i - first + 1) * 512]];
    forall b | 0 <= b < h.numSectors
      ensures BlockData(d', h, b) ==
              if first <= b < i + 1 then image[(b - first) * 512..(b - first + 1) * 512] else BlockData(d, h, b)
    {
      assert b != i ==> BlockData(d', h, b) == BlockData(d, h, b);
    }
  }

  lemma WrittenIsSplice(d: Disk, d': Disk, h: Header, position: nat, data: seq<byte>, first: nat, count: nat,
                        image: seq<byte>)
    requires IsDisk(d) && IsDisk(d') && GoodHeader(h)
    requires data != [] && position + |data| <= h.numBytes
    requires first + count <= Max(0, h.numSectors) && |image| == count * 512
    requires first * 512 <= position && position + |data| <= (first + count) * 512
    requires BufferImage(FileBytes(d, h), position, data, first, count, image)
    requires BlocksWritten(d, d', h, first, first + count, image)
    ensures FileBytes(d', h) == Splice(FileBytes(d, h), position, data)
  {
    var got, want := FileBytes(d', h), Splice(FileBytes(d, h), position, data);
    forall k | 0 <= k < h.numBytes
      ensures got[k] == want[k]
    {
      WrittenByte(d, d', h, position, data, first, count, image, k);
    }
  }

  lemma WrittenByte(d: Disk, d': Disk, h: Header, position: nat, data: seq<byte>, first: nat, count: nat,
                    image: seq<byte>, k: nat)
    requires IsDisk(d) && IsDisk(d') && GoodHeader(h)
    requires data != [] && position + |data| <= h.numBytes && k < h.numBytes
    requires first + count <= Max(0, h.numSectors) && |image| == count * 512
    requires first * 512 <= position && position + |data| <= (first + count) * 512
    requires BufferImage(FileBytes(d, h), position, data, first, count, image)
    requires BlocksWritten(d, d', h, first, first + count, image)
    ensures FileBytes(d', h)[k] == Splice(FileBytes(d, h), position, data)[k]
  {
    var b, r := LocateByte(h, k);
    if first <= b < first + count {
      WrittenInside(d, d', h, first, count, image, b, r);
    } else {
      WrittenOutside(d, d', h, first, count, image, b, r);
    }
    SpliceByte(FileBytes(d, h), position, data, first, count, image, k, FileBytes(d', h)[k]);
  }

  lemma SpliceByte(contents: seq<byte>, position: nat, data: seq<byte>, first: nat, count: nat, image: seq<byte>,
                   k: nat, b: byte)
    requires data != [] && position + |data| <= |contents| && |image| == count * 512 && k < |contents|
    requires first * 512 <= position && position + |data| <= (first + count) * 512
    requires BufferImage(contents, position, data, first, count, image)
    requires b == if first * 512 <= k < (first + count) * 512 then image[k - first * 512] else contents[k]
    ensures b == Splice(contents, position, data)[k]
  {
    if k < first * 512 || k >= (first + count) * 512 {
      SpliceAt(contents, position, data, k);
    }
  }

  lemma WrittenInside(d: Disk, d': Disk, h: Header, first: nat, count: nat, image: seq<byte>, b: nat, r: nat)
    requires IsDisk(d) && IsDisk(d') && GoodHeader(h) && r < 512 && b * 512 + r < h.numBytes
    requires first + count <= Max(0, h.numSectors) && |image| == count * 512 && first <= b < first + count
    requires BlocksWritten(d, d', h, first, first + count, image)
    ensures FileBytes(d', h)[b * 512 + r] == image[(b - first) * 512 + r]
  {
    ByteOfFile(d', h, b, r);
    assert BlockData(d', h, b) == image[(b - first) * 512..(b - first + 1) * 512];
    InImage(image, b - first, r);
  }

  lemma WrittenOutside(d: Disk, d': Disk, h: Header, first: nat, count: nat, image: seq<byte>, b: nat, r: nat)
    requires IsDisk(d) && IsDisk(d') && GoodHeader(h) && r < 512 && b * 512 + r < h.numBytes
    requires first + count <= Max(0, h.numSectors) && |image| == count * 512 && !(first <= b < first + count)
    requires BlocksWritten(d, d', h, first, first + count, image)
    ensures FileBytes(d', h)[b * 512 + r] == FileBytes(d, h)[b * 512 + r]
  {
    ByteOfFile(d', h, b, r);
    ByteOfFile(d, h, b, r);
    assert BlockData(d', h, b) == BlockData(d, h, b);
  }

  lemma LoadedFromSlice(contents: seq<byte>, first: nat, b: nat, n: nat, before: seq<byte>, after: seq<byte>)
    requires first <= b && (b - first + 1) * 512 <= |before|
    requires b * 512 < |contents| && n == Clip(|contents|, 512, b * 512)
    requires var at := (b - first) * 512;
             after == before[..at] + contents[b * 512..b * 512 + n] + before[at + n..]
    ensures BlockLoaded(contents, first, b, after)
    ensures after[..(b - first) * 512] == before[..(b - first) * 512]
  {
    forall k | b * 512 <= k < (b + 1) * 512 && k < |contents|
      ensures after[k - first * 512] == contents[k]
    {
      assert contents[b * 512..b * 512 + n][k - b * 512] == contents[k];
    }
  }

  // ------------------------------------------------------------ the class

  class OpenFile {
    const disk: SynchDisk
    const hdr: FileHeader
    var seekPosition: nat

    ghost predicate Valid()
      reads disk, hdr
    {
      disk.Valid() && GoodHeader(hdr.Value())
    }

    ghost function Contents(): seq<byte>
      requires Valid()
      reads disk, hdr
    {
      FileBytes(disk.sectors, hdr.Value())
    }

    constructor (d: SynchDisk, sector: int)
      requires d.Valid() && 0 <= sector < NUM_SECTORS
      ensures disk == d && fresh(hdr) && seekPosition == 0
      ensures hdr.Value() == DecodeHeader(d.sectors[sector])
    {
      disk := d;
      hdr := new FileHeader();
      seekPosition := 0;
      new;
      hdr.FetchFrom(d, sector);
    }

    method ReadAt(into: array<byte>, at: nat, numBytes: int, position: nat) returns (n: nat)
      requires Valid()
      requires at + Clip(hdr.numBytes, numBytes, position) <= into.Length
      modifies into
      ensures n == Clip(hdr.numBytes, numBytes, position) && Transfers(hdr.numBytes, numBytes, position, n)
      ensures into[..] == old(into[..at]) + Slice(Contents(), position, n) + old(into[at + n..])
      ensures forall k | at <= k < at + n :: into[k] == Contents()[position + (k - at)]
    {
      var fileLength := hdr.numBytes;
      if numBytes <= 0 || position >= fileLength {
        NothingCopied(into[..], at);
        return 0;
      }
      n := if position + numBytes > fileLength then fileLength - position else numBytes;
      var data := ReadRange(position, n);
      CopyBytes(data, into, at);
    }

    method ReadRange(position: nat, n: nat) returns (data: seq<byte>)
      requires Valid() && n > 0 && position + n <= hdr.numBytes
      ensures data == Contents()[position..position + n]
    {
      var firstSector, lastSector := SectorRange(hdr.numBytes, position, n);
      var numSectors := 1 + lastSector - firstSector;
      var buf := LoadBlocks(firstSector, numSectors);
      var off := position - firstSector * 512;
      SliceOfBlocks(disk.sectors, hdr.Value(), buf[..], firstSector, numSectors, position, n);
      data := buf[off..off + n];
    }

    /** Reads in all the full and partial sectors a request needs. */
    method LoadBlocks(first: nat, count: nat) returns (buf: array<byte>)
      requires Valid() && first + count <= Max(0, hdr.numSectors)
      ensures fresh(buf) && buf.Length == count * 512
      ensures HoldsBlocks(disk.sectors, hdr.Value(), buf[..], first, count)
    {
      buf := new byte[count * 512];
      for i := first to first + count
        invariant HoldsBlocks(disk.sectors, hdr.Value(), buf[..], first, i - first)
      {
        ghost var before := buf[..];
        disk.ReadSector(hdr.ByteToSector(i * 512), buf, (i - first) * 512);
        forall b | first <= b < i + 1
          ensures buf[..][(b - first) * 512..(b - first + 1) * 512] == BlockData(disk.sectors, hdr.Value(), b)
        {
          if b < i {
            assert before[(b - first) * 512..(b - first + 1) * 512] == BlockData(disk.sectors, hdr.Value(), b);
          }
        }
      }
    }

    method WriteAt(from: seq<byte>, numBytes: int, position: nat) returns (n: nat)
      requires Valid()
      requires Clip(hdr.numBytes, numBytes, position) <= |from|
      modifies disk
      ensures Valid()
      ensures n == Clip(hdr.numBytes, numBytes, position) && Transfers(hdr.numBytes, numBytes, position, n)
      ensures Contents() == Splice(old(Contents()), position, from[..n])
      ensures OnlyBlocksChange(old(disk.sectors), disk.sectors, hdr.Value())
    {
      var fileLength := hdr.numBytes;
      if numBytes <= 0 || position >= fileLength {
        return 0;
      }
      n := if position + numBytes > fileLength then fileLength - position else numBytes;

      var firstSector, lastSector := SectorRange(hdr.numBytes, position, n);
      var numSectors := 1 + lastSector - firstSector;

      var buf := FillBuffer(from[..n], position, firstSector, lastSector);
      StoreBlocks(buf, firstSector, numSectors);
      WrittenIsSplice(old(disk.sectors), disk.sectors, hdr.Value(), position, from[..n], firstSector, numSectors,
                      buf[..]);
    }

    /** The buffer to be written: the new bytes, with the old ones around them in a partly replaced sector. */
    method FillBuffer(data: seq<byte>, position: nat, firstSector: nat, lastSector: nat) returns (buf: array<byte>)
      requires Valid()
      requires data != [] && position + |data| <= hdr.numBytes
      requires Spans(firstSector, lastSector, position, |data|)
      ensures fresh(buf) && buf.Length == (1 + lastSector - firstSector) * 512
      ensures BufferImage(Contents(), position, data, firstSector, 1 + lastSector - firstSector, buf[..])
    {
      buf := new byte[(1 + lastSector - firstSector) * 512];
      LoadEdges(buf, position, |data|, firstSector, lastSector);
      ghost var contents, around := Contents(), buf[..];
      CopyBytes(data, buf, position - firstSector * 512);
      FilledImage(contents, position, data, firstSector, lastSector, around, buf[..]);
    }

    /** Reads the first and the last sector, if they are to be partially modified. */
    method LoadEdges(buf: array<byte>, position: nat, n: nat, firstSector: nat, lastSector: nat)
      requires Valid() && n > 0 && position + n <= hdr.numBytes && Spans(firstSector, lastSector, position, n)
      requires buf.Length == (1 + lastSector - firstSector) * 512
      modifies buf
      ensures position != firstSector * 512 ==> BlockLoaded(Contents(), firstSector, firstSector, buf[..])
      ensures position + n != (lastSector + 1) * 512 ==> BlockLoaded(Contents(), firstSector, lastSector, buf[..])
    {
      var firstAligned := position == firstSector * 512;
      var lastAligned := position + n == (lastSector + 1) * 512;
      if !firstAligned {
        LoadOne(buf, firstSector, firstSector);
      }
      if !lastAligned && (firstSector != lastSector || firstAligned) {
        LoadOne(buf, firstSector, lastSector);
      }
    }

    /** Reads block `b` of the file into its place in a buffer that starts with block `first`. */
    method LoadOne(buf: array<byte>, first: nat, b: nat)
      requires Valid() && first <= b && b * 512 < hdr.numBytes
      requires (b - first + 1) * 512 <= buf.Length
      modifies buf
      ensures BlockLoaded(Contents(), first, b, buf[..])
      ensures buf[..(b - first) * 512] == old(buf[..(b - first) * 512])
    {
      var n := ReadAt(buf, (b - first) * 512, 512, b * 512);
      LoadedFromSlice(Contents(), first, b, n, old(buf[..]), buf[..]);
    }

    method StoreBlocks(buf: array<byte>, first: nat, count: nat)
      requires Valid() && first + count <= Max(0, hdr.numSectors)
      requires buf.Length == count * 512
      modifies disk
      ensures Valid()
      ensures OnlyBlocksChange(old(disk.sectors), disk.sectors, hdr.Value())
      ensures BlocksWritten(old(disk.sectors), disk.sectors, hdr.Value(), first, first + count, buf[..])
    {
      ghost var d, h, image := disk.sectors, hdr.Value(), buf[..];
      for i := first to first + count
        invariant disk.Valid()
        invariant OnlyBlocksChange(d, disk.sectors, h)
        invariant BlocksWritten(d, disk.sectors, h, first, i, image)
      {
        WriteOneBlock(d, disk.sectors, h, first, i, image);
        StoreOne(buf, (i - first) * 512, i);
      }
    }

    /** Block `i` of the file becomes the sector's worth of bytes at `at`. */
    method StoreOne(buf: array<byte>, at: nat, i: nat)
      requires Valid() && i < hdr.numSectors && at + 512 <= buf.Length
      modifies disk
      ensures disk.Valid() && disk.sectors == old(disk.sectors)[hdr.dataSectors[i] := buf[..][at..at + 512]]
    {
      assert buf[at..at + 512] == buf[..][at..at + 512];
      disk.WriteSector(hdr.ByteToSector(i * 512), buf, at);
    }

    method Read(into: array<byte>, at: nat, numBytes: int) returns (n: nat)
      requires Valid()
      requires at + Clip(hdr.numBytes, numBytes, seekPosition) <= into.Length
      modifies this, into
      ensures n == Clip(hdr.numBytes, numBytes, old(seekPosition)) && seekPosition == old(seekPosition) + n
      ensures into[..] == old(into[..at]) + Slice(Contents(), old(seekPosition), n) + old(into[at + n..])
    {
      n := ReadAt(into, at, numBytes, seekPosition);
      seekPosition := seekPosition + n;
    }

    method Write(from: seq<byte>, numBytes: int) returns (n: nat)
      requires Valid()
      requires Clip(hdr.numBytes, numBytes, seekPosition) <= |from|
      modifies this, disk
      ensures Valid()
      ensures n == Clip(hdr.numBytes, numBytes, old(seekPosition)) && seekPosition == old(seekPosition) + n
      ensures Contents() == Splice(old(Contents()), old(seekPosition), from[..n])
      ensures OnlyBlocksChange(old(disk.sectors), disk.sectors, hdr.Value())
    {
      n := WriteAt(from, numBytes, seekPosition);
      seekPosition := seekPosition + n;
    }
  }

  /** The first and the last block that a request touches. */
  method SectorRange(length: int, position: nat, n: nat) returns (first: nat, last: nat)
    requires n > 0 && position + n <= length
    ensures Spans(first, last, position, n) && last * 512 < length
  {
    first := position / 512;
    last := (position + n - 1) / 512;
  }

  method CopyBytes(from: seq<byte>, into: array<byte>, at: nat)
    requires at + |from| <= into.Length
    modifies into
    ensures into[..] == old(into[..at]) + from + old(into[at + |from|..])
  {
    forall j | 0 <= j < |from| {
      into[at + j] := from[j];
    }
  }

  /** Reads the file from its start over what is in memory. */
  method ReadOver(file: OpenFile, memory: seq<byte>) returns (raw: seq<byte>)
    requires file.Valid()
    ensures var n := Clip(file.hdr.numBytes, |memory|, 0);
            |raw| == |memory| && raw == file.Contents()[..n] + memory[n..]
  {
    var buffer := Buffered(memory);
    var n := file.ReadAt(buffer, 0, |memory|, 0);
    raw := buffer[..];
  }

  method Buffered(memory: seq<byte>) returns (buffer: array<byte>)
    ensures fresh(buffer) && buffer[..] == memory
  {
    buffer := new byte[|memory|](j requires 0 <= j < |memory| => memory[j]);
  }
}
