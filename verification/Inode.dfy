/** Files over FAT chains (filesys/inode.c): reading, overwriting and growing a file behave as on a
    flat byte sequence. The disk is an array of 512-byte sectors. */
module Inode {
  import opened Basics
  import opened Fat

  newtype byte = x: int | 0 <= x < 256

  type Disk = seq<seq<byte>>

  function ZeroSector(): (z: seq<byte>)
    ensures |z| == 512 && forall i :: 0 <= i < 512 ==> z[i] == 0
  {
    seq(512, _ => 0)
  }

  const INT32_MAX: int := 0x7FFF_FFFF

  // ---------- the bytes of a file ----------

  function SectorOf(ds: nat, c: nat): int { ds + c - 1 }

  /** Every cluster of C has a sector on the disk, and sectors are whole. */
  ghost predicate Placed(d: Disk, ds: nat, c: seq<nat>) {
    && (forall i :: 0 <= i < |c| ==> 0 <= SectorOf(ds, c[i]) < |d|)
    && (forall s :: 0 <= s < |d| ==> |d[s]| == 512)
  }

  /** The byte at offset P of the file stored in the clusters C. */
  ghost function ByteAt(d: Disk, ds: nat, c: seq<nat>, p: int): byte
    requires Placed(d, ds, c) && 0 <= p < 512 * |c|
  {
    d[SectorOf(ds, c[p / 512])][p % 512]
  }

  /** The first N bytes of that file. */
  ghost function FileBytes(d: Disk, ds: nat, c: seq<nat>, n: nat): seq<byte>
    requires Placed(d, ds, c) && n <= 512 * |c|
  {
    seq(n, p requires 0 <= p < n => ByteAt(d, ds, c, p))
  }

  /** Which cluster of a file holds byte P, and where. */
  function Nth(p: nat): nat { p / 512 }
  function Ofs(p: nat): nat { p % 512 }

  /** S is not the sector of any cluster of C. */
  ghost predicate Outside(ds: nat, c: seq<nat>, s: int) {
    forall i :: 0 <= i < |c| ==> s != SectorOf(ds, c[i])
  }

  lemma ReadStep(d: Disk, ds: nat, c: seq<nat>, offset: nat, chunk: nat)
    requires Placed(d, ds, c) && offset / 512 < |c| && offset % 512 + chunk <= 512
    ensures offset + chunk <= 512 * |c|
    ensures forall p :: offset <= p < offset + chunk ==>
      ByteAt(d, ds, c, p) == d[SectorOf(ds, c[offset / 512])][offset % 512 + (p - offset)]
  {
    forall p | offset <= p < offset + chunk
      ensures ByteAt(d, ds, c, p) == d[SectorOf(ds, c[offset / 512])][offset % 512 + (p - offset)]
    {
      assert p / 512 == offset / 512;
    }
  }

  /** Replacing part of one sector of a file changes exactly that byte range of the file. */
  lemma WriteStep(d: Disk, d': Disk, ds: nat, c: seq<nat>, offset: nat, src: seq<byte>)
    requires Placed(d, ds, c) && NoDup(c)
    requires offset / 512 < |c| && offset % 512 + |src| <= 512
    requires var s := SectorOf(ds, c[offset / 512]);
             d' == d[s := Patch(d[s], offset % 512, src)]
    ensures Placed(d', ds, c) && offset + |src| <= 512 * |c|
    ensures forall p :: 0 <= p < 512 * |c| ==>
      ByteAt(d', ds, c, p) == if offset <= p < offset + |src| then src[p - offset] else ByteAt(d, ds, c, p)
  {
    var q := offset / 512;
    forall p | 0 <= p < 512 * |c|
      ensures ByteAt(d', ds, c, p) == if offset <= p < offset + |src| then src[p - offset] else ByteAt(d, ds, c, p)
    {
      if p / 512 != q {
        assert c[p / 512] != c[q];
      }
    }
  }

  /** SECTOR with the bytes from OFS on replaced by SRC. */
  function Patch(sector: seq<byte>, ofs: nat, src: seq<byte>): (r: seq<byte>)
    requires ofs + |src| <= |sector|
    ensures |r| == |sector|
    ensures forall i :: 0 <= i < |sector| ==> r[i] == if ofs <= i < ofs + |src| then src[i - ofs] else sector[i]
  {
    sector[..ofs] + src + sector[ofs + |src|..]
  }

  // ---------- the on-disk inode ----------

  const INODE_MAGIC: nat := 0x494e_4f44

  function Le32(x: nat): (b: seq<byte>)
    requires x < 0x1_0000_0000
    ensures |b| == 4
  {
    [(x % 256) as byte, (x / 256 % 256) as byte, (x / 65536 % 256) as byte, (x / 16777216) as byte]
  }

  function Un32(b: seq<byte>): (x: nat)
    requires |b| == 4
    ensures x < 0x1_0000_0000
  {
    b[0] as nat + 256 * (b[1] as nat) + 65536 * (b[2] as nat) + 16777216 * (b[3] as nat)
  }

  lemma Le32RoundTrip(x: nat)
    requires x < 0x1_0000_0000
    ensures Un32(Le32(x)) == x
  {
    var a, b := x / 256, x / 65536;
    assert b == a / 256 && x / 16777216 == b / 256;
    assert x == 256 * a + x % 256 && a == 256 * b + a % 256 && b == 256 * (b / 256) + b % 256;
  }

  /** struct inode_disk: start, length, magic, isdir with its padding, and 496 unused bytes. */
  function EncodeInode(start: nat, length: nat, isDir: bool): (r: seq<byte>)
    requires start < 0x1_0000_0000 && length < 0x1_0000_0000
    ensures |r| == 512
  {
    Le32(start) + Le32(length) + Le32(INODE_MAGIC) + [if isDir then 1 else 0] + ZeroSector()[13..]
  }

  function DecodeStart(sector: seq<byte>): nat
    requires |sector| == 512
  {
    Un32(sector[0..4])
  }

  function DecodeLength(sector: seq<byte>): int
    requires |sector| == 512
  {
    if Un32(sector[4..8]) <= INT32_MAX then Un32(sector[4..8]) else Un32(sector[4..8]) - 0x1_0000_0000
  }

  function DecodeIsDir(sector: seq<byte>): bool
    requires |sector| == 512
  {
    sector[12] != 0
  }

  /** What inode_flush writes is what inode_open reads back. */
  lemma InodeRoundTrip(start: nat, length: nat, isDir: bool)
    requires start < 0x1_0000_0000 && length <= INT32_MAX
    ensures var s := EncodeInode(start, length, isDir);
            DecodeStart(s) == start && DecodeLength(s) == length && DecodeIsDir(s) == isDir
  {
    hide Le32, Un32;
    Le32RoundTrip(start);
    Le32RoundTrip(length);
    var s := EncodeInode(start, length, isDir);
    assert s[0..4] == Le32(start);
    assert s[4..8] == Le32(length);
  }

  // ---------- the file system and its open files ----------

  /** Every cluster of every chain is below LIMIT, the first one without a sector. */
  ghost predicate OnDisk(chains: Chains, limit: int) {
    forall h, i :: h in chains && 0 <= i < |chains[h]| ==> chains[h][i] < limit
  }

  class Volume {
    const fs: FatFs
    const disk: array<seq<byte>>
    const dataStart: nat

    /** Clusters from here on have no sector. */
    ghost function Limit(): int { disk.Length + 1 - dataStart }

    ghost predicate Valid()
      reads this, fs, fs.fat, disk
    {
      && fs.Valid()
      && fs.fat as object != disk as object
      && 1 <= dataStart && OnDisk(fs.chains, Limit())
      && forall s :: 0 <= s < disk.Length ==> |disk[s]| == 512
    }

    constructor (fs: FatFs, disk: array<seq<byte>>, dataStart: nat)
      requires fs.Valid() && fs.fat as object != disk as object
      requires 1 <= dataStart && OnDisk(fs.chains, disk.Length + 1 - dataStart)
      requires forall s :: 0 <= s < disk.Length ==> |disk[s]| == 512
      ensures Valid() && this.fs == fs && this.disk == disk && this.dataStart == dataStart
    {
      this.fs, this.disk, this.dataStart := fs, disk, dataStart;
    }
  }

  // ---------- the sizes on a disk of D sectors ----------

  /** fat_boot_create's fat_sectors: one table sector holds 128 entries. */
  function FatSectors(d: nat): nat
    requires d > 0
  {
    (d - 1) / (512 / 4 + 1) + 1
  }

  /** fat_fs_init's fat_length and data_start. */
  function FatLength(d: nat): nat
    requires d > 0
  {
    FatSectors(d) * 512 / 4
  }

  function DataStart(d: nat): nat
    requires d > 0
  {
    1 + FatSectors(d)
  }

  /** Every cluster of the table has a sector exactly when the disk size is a multiple of 129 sectors. */
  lemma TableFitsDiskIff(d: nat)
    requires d > 0
    ensures (forall c :: 1 <= c < FatLength(d) ==> SectorOf(DataStart(d), c) < d) <==> d % 129 == 0
  {
    var last := FatLength(d) - 1;
    assert FatLength(d) == 128 * FatSectors(d);
    assert SectorOf(DataStart(d), last) == 129 * FatSectors(d) - 1;
  }

  /** On a 10 MB disk it does not: the table's last cluster lies behind the disk. */
  lemma TableOverrunsDisk()
    ensures 1 <= FatLength(20480) - 1 && SectorOf(DataStart(20480), FatLength(20480) - 1) >= 20480
  {
  }

  /** fat_create on an empty disk. */
  method Format(disk: array<seq<byte>>) returns (vol: Volume)
    requires 0 < disk.Length && FatLength(disk.Length) <= EOCHAIN
    requires forall s :: 0 <= s < disk.Length ==> |disk[s]| == 512
    ensures vol.Valid() && vol.disk == disk && vol.fs.chains == map[]
    ensures vol.dataStart == DataStart(disk.Length) && vol.fs.fat.Length == FatLength(disk.Length)
  {
    hide WellFormed, Reserved;
    var fs := new FatFs(FatLength(disk.Length));
    vol := new Volume(fs, disk, DataStart(disk.Length));
  }

  class Inode {
    const vol: Volume
    const sector: nat
    ghost const meta: nat
    var start: nat
    var length: int
    var denyWriteCnt: nat
    const isDir: bool

    /** inode_open: the metadata is whatever the sector holds. */
    constructor Open(vol: Volume, sector: nat, ghost meta: nat)
      requires vol.Valid()
      requires meta in vol.fs.chains && sector == SectorOf(vol.dataStart, meta) && sector < vol.disk.Length
      requires var s := vol.disk[sector];
               && DecodeStart(s) != meta && (DecodeStart(s) == 0 || DecodeStart(s) in vol.fs.chains)
               && 0 <= DecodeLength(s)
      ensures Valid() && this.vol == vol && this.sector == sector && this.meta == meta
      ensures start == DecodeStart(vol.disk[sector]) && length == DecodeLength(vol.disk[sector])
      ensures isDir == DecodeIsDir(vol.disk[sector]) && denyWriteCnt == 0
    {
      this.vol, this.sector, this.meta := vol, sector, meta;
      start := DecodeStart(vol.disk[sector]);
      length := DecodeLength(vol.disk[sector]);
      isDir := DecodeIsDir(vol.disk[sector]);
      denyWriteCnt := 0;
    }

    /** The clusters that hold the data. */
    ghost function Chain(): seq<nat>
      reads this, vol.fs
    {
      if start in vol.fs.chains then vol.fs.chains[start] else []
    }

    ghost predicate Valid()
      reads this, vol, vol.fs, vol.fs.fat, vol.disk
    {
      && vol.Valid()
      && meta in vol.fs.chains && sector == SectorOf(vol.dataStart, meta) && meta != start
      && (start == 0 || start in vol.fs.chains)
      && 0 <= length <= INT32_MAX
    }

    /** The chain reaches as far as the recorded length. */
    ghost predicate Covers()
      reads this, vol, vol.fs, vol.disk
    {
      Placed(vol.disk[..], vol.dataStart, Chain()) && length <= 512 * |Chain()|
    }

    ghost function Bytes(): seq<byte>
      requires Valid() && Covers()
      reads this, vol, vol.fs, vol.fs.fat, vol.disk
    {
      FileBytes(vol.disk[..], vol.dataStart, Chain(), length)
    }

    /** The sector holding byte offset POS, or -1. */
    method ByteToSector(pos: nat) returns (s: int)
      requires Valid()
      ensures s == if pos <= length && pos / 512 < |Chain()| then SectorOf(vol.dataStart, Chain()[pos / 512]) else -1
    {
      hide Linked, AllLinked, AllApart, Covered, OnChain;
      NoChainAtZero(vol.fs.fat[..], vol.fs.chains);
      if pos > length {
        return -1;
      }
      var sectors := pos / 512;
      var clst := start;
      if clst == 0 || clst == EOCHAIN {
        return -1;
      }
      ghost var c := Chain();
      ghost var i := 0;
      ChainStep(vol.fs.fat[..], vol.fs.chains, start, 0);
      while sectors > 0
        invariant 0 <= i < |c| && c[i] == clst < vol.fs.fat.Length
        invariant 0 <= sectors && i + sectors == pos / 512
        invariant vol.fs.fat[clst] == if i == |c| - 1 then EOCHAIN else c[i + 1]
        invariant i < |c| - 1 ==> c[i + 1] != EOCHAIN
      {
        clst := vol.fs.fat[clst];
        if clst == EOCHAIN {
          return -1;
        }
        i := i + 1;
        ChainStep(vol.fs.fat[..], vol.fs.chains, start, i);
        sectors := sectors - 1;
      }
      s := SectorOf(vol.dataStart, clst);
    }

    /** No cluster is left to hand out; the sector before the data area is on the disk. */
    ghost predicate TableFull()
      reads vol, vol.fs, vol.fs.fat, vol.disk
    {
      && 2 <= vol.fs.lastClst && vol.fs.lastClst + 1 < vol.fs.fat.Length
      && NextFree(vol.fs.fat[..], vol.fs.lastClst) == 0 && 1 <= vol.dataStart <= vol.disk.Length
    }

    /** One round of the growth loop: append a cluster and zero its sector. On a FULL table no cluster is
        appended, and the sector of cluster 0, the last one of the table itself, is zeroed. */
    method GrowByOne(ghost n: nat, ghost full: bool)
      requires Valid() && n > 0 && if full then TableFull()
        else start != 0 && AllocOk(vol.fs.fat[..], vol.fs.lastClst, n, vol.Limit())
      modifies vol.fs, vol.fs.fat, vol.disk
      ensures Valid()
      ensures full ==> TableFull() && vol.fs.chains == old(vol.fs.chains) && vol.fs.fat[..] == old(vol.fs.fat[..])
      ensures full ==> vol.disk[..] == old(vol.disk[..])[vol.dataStart - 1 := ZeroSector()]
      ensures !full ==> AllocOk(vol.fs.fat[..], vol.fs.lastClst, n - 1, vol.Limit())
      ensures !full ==> |Chain()| == |old(Chain())| + 1 && old(Chain()) <= Chain()
      ensures !full ==> vol.fs.chains == old(vol.fs.chains)[start := Chain()]
      ensures !full ==> Zeroed(old(vol.disk[..]), vol.disk[..], vol.dataStart, Chain()[|old(Chain())|..])
    {
      hide WellFormed, NextFree, AllocOk;
      ghost var before := vol.fs.fat[..];
      ghost var d := vol.disk[..];
      if !full { AllocStep(before, vol.fs.lastClst, n, vol.Limit()); }
      if start in vol.fs.chains { HeadOnChain(before, vol.fs.chains, start); }
      var new_ := vol.fs.CreateChain(start, start);
      vol.disk[SectorOf(vol.dataStart, new_)] := ZeroSector();
      assert vol.disk[..] == d[SectorOf(vol.dataStart, new_) := ZeroSector()];
      assert full ==> new_ == 0 && vol.fs.fat[..] == before;
      if !full {
        ZeroOne(d, vol.dataStart, new_);
        assert Chain()[|old(Chain())|..] == [new_];
        GrownUse(before, vol.fs.fat[..], old(Chain()), new_);
        AllocOkSameUse(before[new_ := EOCHAIN], vol.fs.fat[..], vol.fs.lastClst, n - 1, vol.Limit());
      }
    }

    /** A file without data gets its first cluster; that cluster is not zeroed. On a FULL table it gets none. */
    method GiveFirstCluster(ghost n: nat, ghost full: bool)
      requires Valid()
      requires if full then TableFull()
        else AllocOk(vol.fs.fat[..], vol.fs.lastClst, (if start == 0 then 1 else 0) + n, vol.Limit())
      modifies this`start, vol.fs, vol.fs.fat
      ensures Valid()
      ensures full ==> TableFull() && start == old(start)
      ensures full ==> vol.fs.chains == old(vol.fs.chains) && vol.fs.fat[..] == old(vol.fs.fat[..])
      ensures !full ==> AllocOk(vol.fs.fat[..], vol.fs.lastClst, n, vol.Limit())
      ensures !full ==> start != 0 && (old(start) != 0 ==> start == old(start))
      ensures !full ==> (old(start) == 0 ==> start !in old(vol.fs.chains))
      ensures !full ==> start in vol.fs.chains && vol.fs.chains == old(vol.fs.chains)[start := Chain()]
      ensures !full ==> Chain() == if old(start) == 0 then [start] else old(Chain())
    {
      hide WellFormed, NextFree, AllocOk;
      NoChainAtZero(vol.fs.fat[..], vol.fs.chains);
      if start == 0 {
        if !full { AllocStep(vol.fs.fat[..], vol.fs.lastClst, n + 1, vol.Limit()); }
        start := vol.fs.CreateChain(0, 0);
      }
    }

    /** The extension block of inode_write_at: allocates and zeroes the clusters NEWLENGTH needs. On a FULL
        table the length grows all the same, without a cluster behind it. */
    method Extend(newLength: int, ghost full: bool)
      requires Valid() && length < newLength <= INT32_MAX
      requires if full then TableFull()
        else AllocOk(vol.fs.fat[..], vol.fs.lastClst,
                     (if start == 0 then 1 else 0) + GrowthClusters(length, newLength), vol.Limit())
      modifies this`start, this`length, vol.fs, vol.fs.fat, vol.disk
      ensures Valid() && length == newLength
      ensures full ==> start == old(start) && vol.fs.chains == old(vol.fs.chains) && Chain() == old(Chain())
      ensures full ==> vol.fs.fat[..] == old(vol.fs.fat[..])
      ensures full ==> vol.disk[..] == if GrowthClusters(old(length), newLength) == 0 then old(vol.disk[..])
        else old(vol.disk[..])[vol.dataStart - 1 := ZeroSector()]
      ensures !full ==> start != 0 && (old(start) != 0 ==> start == old(start))
      ensures !full ==> start in vol.fs.chains && vol.fs.chains == old(vol.fs.chains)[start := Chain()]
      ensures !full ==> (old(start) == 0 ==> start !in old(vol.fs.chains))
      ensures !full ==>
        Extended(if old(start) == 0 then [start] else old(Chain()), Chain(),
                 GrowthClusters(old(length), newLength), old(vol.disk[..]), vol.disk[..], vol.dataStart)
    {
      hide WellFormed, SectorOf, NextFree, AllocOk, Zeroed, Linked, Extended, OnDisk, Reserved, TableFull;
      var lastUsed := length % 512;
      var remain := newLength - length;
      var lastRemain := 512 - lastUsed;
      ghost var todo := GrowthClusters(length, newLength);
      GiveFirstCluster(todo, full);
      label AfterFirst:
      ghost var b, d := Chain(), vol.disk[..];
      length := length + if remain < lastRemain then remain else lastRemain;
      remain := remain - lastRemain;
      ghost var beyond := remain;
      ExtendedNone(b, d, vol.dataStart);
      ghost var done := 0;
      ghost var chains, fat := vol.fs.chains, vol.fs.fat[..];
      if full { FullSector(); }
      while remain > 0
        invariant Valid() && start == old@AfterFirst(start) && (!full ==> start in chains)
        invariant 0 <= done <= todo && remain == beyond - 512 * done && (done == 0 || remain > -512)
        invariant length == if remain <= 0 then newLength else newLength - remain
        invariant full ==> TableFull() && vol.fs.chains == chains && vol.fs.fat[..] == fat
        invariant full ==> 0 <= vol.dataStart - 1 < |d|
        invariant full ==> vol.disk[..] == if done == 0 then d else d[vol.dataStart - 1 := ZeroSector()]
        invariant !full ==> start in vol.fs.chains && vol.fs.chains == chains[start := Chain()]
        invariant !full ==> AllocOk(vol.fs.fat[..], vol.fs.lastClst, todo - done, vol.Limit())
        invariant !full ==> Extended(b, Chain(), done, d, vol.disk[..], vol.dataStart)
      {
        ghost var c, e := Chain(), vol.disk[..];
        GrowByOne(todo - done, full);
        if !full { ExtendedMore(b, c, Chain(), done, d, e, vol.disk[..], vol.dataStart); }
        var addSize := if remain < 512 then remain else 512;
        length := length + addSize;
        remain := remain - 512;
        done := done + 1;
      }
    }

    lemma FullSector()
      requires TableFull()
      ensures 0 <= vol.dataStart - 1 < vol.disk.Length
    {
    }

    /** Where byte POS lies, and how many of LEFT bytes can be moved there at once; the same lines in both
        copy loops. */
    method NextChunk(pos: nat, left: int) returns (s: int, ofs: nat, chunk: int)
      requires Valid() && length <= 512 * |Chain()| && left > 0
      ensures ofs == Ofs(pos) < 512 && chunk <= left && chunk <= length - pos && ofs + chunk <= 512
      ensures chunk == (var m := if length - pos < 512 - ofs then length - pos else 512 - ofs; if left < m then left else m)
      ensures chunk > 0 ==>
        && Nth(pos) < |Chain()| && s == SectorOf(vol.dataStart, Chain()[Nth(pos)])
        && 0 <= s < vol.disk.Length && |vol.disk[s]| == 512
    {
      hide WellFormed, SectorOf;
      s := ByteToSector(pos);
      ofs := pos % 512;
      var inodeLeft, sectorLeft := length - pos, 512 - ofs;
      var minLeft := if inodeLeft < sectorLeft then inodeLeft else sectorLeft;
      chunk := if left < minLeft then left else minLeft;
      if chunk > 0 {
        InChain(pos, length, |Chain()|);
        SectorInRange(vol.disk[..], vol.dataStart, vol.fs.fat[..], vol.fs.chains, start, pos / 512);
      }
    }

    /** Writes one chunk: a whole sector directly, part of one through the bounce buffer. */
    method PutChunk(s: nat, ofs: nat, src: seq<byte>, allocOk: bool) returns (ok: bool)
      requires vol.Valid() && s < vol.disk.Length && 0 < |src| && ofs + |src| <= 512
      modifies vol.disk
      ensures ok == (allocOk || |src| == 512)
      ensures vol.Valid() && |old(vol.disk[s])| == 512
      ensures vol.disk[..] == if ok then old(vol.disk[..])[s := Patch(old(vol.disk[s]), ofs, src)] else old(vol.disk[..])
    {
      hide WellFormed;
      var sectorLeft := 512 - ofs;
      if ofs == 0 && |src| == 512 {
        assert src == Patch(vol.disk[s], ofs, src);
        vol.disk[s] := src;
      } else {
        if !allocOk {
          return false;
        }
        var bounce := if ofs > 0 || |src| < sectorLeft then vol.disk[s] else ZeroSector();
        bounce := Patch(bounce, ofs, src);
        vol.disk[s] := bounce;
      }
      ok := true;
    }

    /** The copy loop of inode_write_at: overwrites bytes of the file, one sector at a time. With a bounce
        buffer it stops only at SIZE or at the end of the file, without one at the first partial sector. */
    method WriteData(buffer: array<byte>, size: int, offset: nat, allocOk: bool) returns (n: nat)
      requires Valid() && Covers() && size <= buffer.Length
      modifies vol.disk
      ensures Valid() && n <= buffer.Length
      ensures size <= 0 || length <= offset ==> n == 0
      ensures n > 0 ==> n <= size && offset + n <= length
      ensures allocOk && size > 0 && offset < length ==> n > 0 && (n == size || offset + n == length)
      ensures !allocOk && offset % 512 != 0 ==> n == 0
      ensures !allocOk && offset % 512 == 0 ==> n % 512 == 0 && (size - n < 512 || length - offset - n < 512)
      ensures Written(old(vol.disk[..]), vol.disk[..], vol.dataStart, Chain(), offset, buffer[..n])
    {
      hide WellFormed, SectorOf, Written, Placed, Patch, ByteAt, OnDisk, Reserved, Aligned, Nth, Ofs;
      n := 0;
      var left, pos := size, offset;
      ghost var d, c := vol.disk[..], Chain();
      if start in vol.fs.chains { ChainDistinct(vol.fs.fat[..], vol.fs.chains, start); }
      WrittenNone(d, vol.dataStart, c, offset);
      assert buffer[..0] == [];
      AlignedStart(offset);
      while left > 0
        invariant Valid() && n <= buffer.Length && (n > 0 ==> offset + n <= length)
        invariant pos == offset + n && left == size - n && (left >= 0 || n == 0)
        invariant !allocOk ==> Aligned(offset, n)
        invariant Written(d, vol.disk[..], vol.dataStart, c, offset, buffer[..n])
      {
        var s, ofs, chunk := NextChunk(pos, left);
        if chunk <= 0 {
          break;
        }
        ghost var e := vol.disk[..];
        var src := buffer[n..n + chunk];
        if !allocOk { AlignedNext(offset, n, chunk, left, length - pos); }
        var ok := PutChunk(s, ofs, src, allocOk);
        if !ok {
          break;
        }
        WrittenMore(d, e, vol.disk[..], vol.dataStart, c, offset, buffer[..n], src);
        OneChunk(buffer[..], n, chunk);
        left := left - chunk;
        pos := pos + chunk;
        n := n + chunk;
      }
      if !allocOk { AlignedEnd(offset, n); }
    }

    /** What can be written without a bounce buffer. */
    function WholePart(offset: nat, size: int): int { if offset % 512 == 0 then size - size % 512 else 0 }

    lemma WholeSectors(offset: nat, size: nat, n: nat)
      requires n <= size && (offset % 512 != 0 ==> n == 0) && (offset % 512 == 0 ==> n % 512 == 0 && size - n < 512)
      ensures n == WholePart(offset, size)
    {
    }

    /** N bytes were moved from OFFSET in whole sectors. */
    predicate Aligned(offset: nat, n: nat) { n % 512 == 0 && (offset % 512 != 0 ==> n == 0) }

    lemma AlignedStart(offset: nat)
      ensures Aligned(offset, 0)
    {
    }

    /** The next chunk of K bytes is a whole sector, or less than one is left. */
    lemma AlignedNext(offset: nat, n: nat, k: nat, left: int, inodeLeft: int)
      requires Aligned(offset, n)
      requires k == (var m := if inodeLeft < 512 - Ofs(offset + n) then inodeLeft else 512 - Ofs(offset + n);
                     if left < m then left else m)
      ensures k == 512 ==> Aligned(offset, n + k)
      ensures k != 512 && offset % 512 == 0 ==> left < 512 || inodeLeft < 512
    {
    }

    lemma AlignedEnd(offset: nat, n: nat)
      requires Aligned(offset, n)
      ensures n % 512 == 0 && (offset % 512 != 0 ==> n == 0)
    {
    }

    lemma InChain(pos: nat, length: nat, k: nat)
      requires pos < length <= 512 * k
      ensures pos / 512 < k
    {
    }

    lemma OneChunk(b: seq<byte>, n: nat, chunk: nat)
      requires n + chunk <= |b|
      ensures b[..n + chunk] == b[..n] + b[n..n + chunk]
    {
    }

    /** What a write to [0, EXTENDSIZE) demands: growth starts from a length that is zero or not a
        multiple of 512 (see GrowthCoversIff), and enough clusters with a sector can be
        allocated (see Fat.AllocOkIff). */
    ghost predicate CanGrowTo(extendSize: int)
      reads this, vol, vol.fs, vol.fs.fat
    {
      extendSize > length >= 0 ==>
        && (length == 0 || length % 512 != 0) && Tight(length, |Chain()|)
        && AllocOk(vol.fs.fat[..], vol.fs.lastClst,
                   (if start == 0 then 1 else 0) + GrowthClusters(length, extendSize), vol.Limit())
    }

    /** The guarded extension block. */
    method ExtendIfNeeded(extendSize: int)
      requires Valid() && Covers() && extendSize <= INT32_MAX && CanGrowTo(extendSize)
      modifies this`start, this`length, vol.fs, vol.fs.fat, vol.disk
      ensures Valid() && Covers()
      ensures length == if extendSize > old(length) then extendSize else old(length)
      ensures Tight(old(length), |old(Chain())|) ==> Tight(length, |Chain()|)
      ensures vol.fs.chains == if start == 0 then old(vol.fs.chains) else old(vol.fs.chains)[start := Chain()]
      ensures old(start) != 0 ==> start == old(start)
      ensures old(start) == 0 ==> start !in old(vol.fs.chains)
      ensures var b := if old(start) == 0 && start != 0 then [start] else old(Chain());
              Extended(b, Chain(), |Chain()| - |b|, old(vol.disk[..]), vol.disk[..], vol.dataStart)
    {
      hide WellFormed, SectorOf, Placed, AllocOk, Extended;
      HeadsInRange(vol.fs.fat[..], vol.fs.chains);
      ghost var d, c := vol.disk[..], Chain();
      if extendSize > length {
        GrowthCoversIff(length, |c|, extendSize);
        Extend(extendSize, false);
        ExtendedSize(if old(start) == 0 then [start] else c, Chain(), GrowthClusters(old(length), extendSize), d, vol.disk[..], vol.dataStart);
      } else {
        ExtendedNone(c, d, vol.dataStart);
      }
      ChainPlaced(vol.disk[..], vol.dataStart, vol.fs.fat[..], vol.fs.chains, start);
    }

    /** inode_flush. */
    method Flush()
      requires Valid()
      modifies vol.disk
      ensures Valid() && 0 <= start < 0x1_0000_0000 && sector < vol.disk.Length
      ensures vol.disk[..] == old(vol.disk[..])[sector := EncodeInode(start, length, isDir)]
      ensures Outside(vol.dataStart, Chain(), sector)
    {
      hide WellFormed, Linked, SectorOf;
      HeadsInRange(vol.fs.fat[..], vol.fs.chains);
      MetaOutside(vol.disk[..], vol.dataStart, vol.fs.fat[..], vol.fs.chains, start, meta);
      vol.disk[sector] := EncodeInode(start, length, isDir);
    }

    /** inode_write_at. */
    method WriteAt(buffer: array<byte>, size: int, offset: nat, allocOk: bool) returns (n: nat)
      requires Valid() && Covers() && size <= buffer.Length && offset + size <= INT32_MAX
      requires CanGrowTo(offset + size)
      modifies this`start, this`length, vol.fs, vol.fs.fat, vol.disk
      ensures Valid() && Covers() && n <= buffer.Length && n <= if size > 0 then size else 0
      ensures denyWriteCnt != 0 ==> n == 0 && unchanged(this) && unchanged(vol.fs) && unchanged(vol.fs.fat) && unchanged(vol.disk)
      ensures denyWriteCnt == 0 ==>
        && length == (if offset + size > old(length) then offset + size else old(length))
        && (allocOk ==> n == if size > 0 then size else 0)
        && (!allocOk && size > 0 ==> n == WholePart(offset, size))
        && (Tight(old(length), |old(Chain())|) ==> Tight(length, |Chain()|))
        && vol.fs.chains == (if start == 0 then old(vol.fs.chains) else old(vol.fs.chains)[start := Chain()])
        && (old(start) != 0 ==> start == old(start)) && (old(start) == 0 ==> start !in old(vol.fs.chains))
        && 0 <= start < 0x1_0000_0000 && sector < vol.disk.Length
        && vol.disk[sector] == EncodeInode(start, length, isDir)
        && WriteEffect(old(vol.disk[..]), vol.disk[..], vol.dataStart,
                       if old(start) == 0 && start != 0 then [start] else old(Chain()), Chain(),
                       offset, buffer[..n], sector)
    {
      hide WellFormed, SectorOf, Written, Placed, CanGrowTo, Extended, WriteEffect, WholePart;
      if denyWriteCnt != 0 {
        return 0;
      }
      ghost var d0, c0 := vol.disk[..], Chain();
      ExtendIfNeeded(offset + size);
      ghost var d1 := vol.disk[..];
      n := WriteData(buffer, size, offset, allocOk);
      if size > 0 && !allocOk { WholeSectors(offset, size, n); }
      ghost var d2 := vol.disk[..];
      Flush();
      ghost var b := if old(start) == 0 && start != 0 then [start] else c0;
      Compose(d0, d1, d2, vol.disk[..], vol.dataStart, b, Chain(), |Chain()| - |b|, offset, buffer[..n], sector);
      ChainPlaced(vol.disk[..], vol.dataStart, vol.fs.fat[..], vol.fs.chains, start);
    }

    /** Reads one chunk: a whole sector directly, part of one through the bounce buffer. */
    method GetChunk(buffer: array<byte>, at: nat, s: nat, ofs: nat, chunk: nat, allocOk: bool) returns (ok: bool)
      requires s < vol.disk.Length && |vol.disk[s]| == 512 && 0 < chunk && ofs + chunk <= 512 && at + chunk <= buffer.Length
      modifies buffer
      ensures ok == (allocOk || chunk == 512)
      ensures ok ==> buffer[..at + chunk] == old(buffer[..at]) + vol.disk[s][ofs..ofs + chunk]
      ensures !ok ==> buffer[..] == old(buffer[..])
      ensures forall i :: at + chunk <= i < buffer.Length ==> buffer[i] == old(buffer[i])
    {
      if ofs == 0 && chunk == 512 {
        CopyInto(buffer, at, vol.disk[s]);
      } else {
        if !allocOk {
          return false;
        }
        var bounce := vol.disk[s];
        CopyInto(buffer, at, bounce[ofs..ofs + chunk]);
      }
      ok := true;
    }

    /** Reads SIZE bytes from OFFSET, stopping at the end of the file. ALLOCOK is false when no bounce
        buffer can be allocated for a partial sector; the read then stops early. */
    method ReadAt(buffer: array<byte>, size: int, offset: nat, allocOk: bool) returns (n: nat)
      requires Valid() && Covers()
      requires size <= buffer.Length
      modifies buffer
      ensures n <= buffer.Length
      ensures size <= 0 || length <= offset ==> n == 0
      ensures n > 0 ==> n <= size && offset + n <= length
      ensures allocOk && size > 0 && offset < length ==> n > 0 && (n == size || offset + n == length)
      ensures !allocOk && offset % 512 != 0 ==> n == 0
      ensures !allocOk && offset % 512 == 0 ==> n % 512 == 0 && (size - n < 512 || length - offset - n < 512)
      ensures forall i :: 0 <= i < n ==> buffer[i] == ByteAt(vol.disk[..], vol.dataStart, Chain(), offset + i)
      ensures n > 0 ==> buffer[..n] == Bytes()[offset..offset + n]
      ensures forall i :: n <= i < buffer.Length ==> buffer[i] == old(buffer[i])
    {
      hide WellFormed, SectorOf, ByteAt, OnDisk, Reserved, Aligned, Got, Nth, Ofs;
      n := 0;
      var left, pos := size, offset;
      ghost var d, c := vol.disk[..], Chain();
      AlignedStart(offset);
      GotNothing(d, vol.dataStart, c, offset);
      assert buffer[..0] == [];
      while left > 0
        invariant 0 <= n <= buffer.Length && (n > 0 ==> offset + n <= length)
        invariant pos == offset + n && left == size - n && (left >= 0 || n == 0)
        invariant !allocOk ==> Aligned(offset, n)
        invariant Got(d, vol.dataStart, c, offset, buffer[..n])
        invariant forall i :: n <= i < buffer.Length ==> buffer[i] == old(buffer[i])
      {
        var s, ofs, chunk := NextChunk(pos, left);
        if chunk <= 0 {
          break;
        }
        GotMore(d, vol.dataStart, c, offset, buffer[..n], chunk);
        if !allocOk { AlignedNext(offset, n, chunk, left, length - pos); }
        var ok := GetChunk(buffer, n, s, ofs, chunk, allocOk);
        if !ok {
          break;
        }
        left := left - chunk;
        pos := pos + chunk;
        n := n + chunk;
      }
      if !allocOk { AlignedEnd(offset, n); }
      GotEach(d, vol.dataStart, c, offset, buffer[..n]);
      if n > 0 { SliceIs(d, vol.dataStart, c, offset, buffer[..n], length); }
    }
  }

  /** B are the bytes from OFFSET on. */
  ghost predicate Got(d: Disk, ds: nat, c: seq<nat>, offset: nat, b: seq<byte>)
    requires Placed(d, ds, c)
  {
    (|b| > 0 ==> offset + |b| <= 512 * |c|)
    && forall i :: 0 <= i < |b| ==> b[i] == ByteAt(d, ds, c, offset + i)
  }

  lemma GotNothing(d: Disk, ds: nat, c: seq<nat>, offset: nat)
    requires Placed(d, ds, c)
    ensures Got(d, ds, c, offset, [])
  {
  }

  lemma GotMore(d: Disk, ds: nat, c: seq<nat>, offset: nat, b: seq<byte>, chunk: nat)
    requires Placed(d, ds, c) && Got(d, ds, c, offset, b) && chunk > 0
    requires Nth(offset + |b|) < |c| && Ofs(offset + |b|) + chunk <= 512
    ensures var s, ofs := SectorOf(ds, c[Nth(offset + |b|)]), Ofs(offset + |b|);
            0 <= s < |d| && |d[s]| == 512 && Got(d, ds, c, offset, b + d[s][ofs..ofs + chunk])
  {
    ReadStep(d, ds, c, offset + |b|, chunk);
    hide ByteAt, SectorOf;
  }

  lemma GotEach(d: Disk, ds: nat, c: seq<nat>, offset: nat, b: seq<byte>)
    requires Placed(d, ds, c) && Got(d, ds, c, offset, b)
    ensures |b| > 0 ==> offset + |b| <= 512 * |c|
    ensures forall i :: 0 <= i < |b| ==> b[i] == ByteAt(d, ds, c, offset + i)
  {
  }

  lemma SliceIs(d: Disk, ds: nat, c: seq<nat>, offset: nat, b: seq<byte>, length: nat)
    requires Placed(d, ds, c) && length <= 512 * |c| && offset + |b| <= length && Got(d, ds, c, offset, b)
    ensures b == FileBytes(d, ds, c, length)[offset..offset + |b|]
  {
    hide ByteAt;
  }

  /** How many clusters the growth loop adds when a file of LENGTH bytes is extended to NEWLENGTH: the
      code always counts the rest of the last sector, a whole sector when LENGTH is a multiple of 512. */
  function GrowthClusters(length: nat, newLength: nat): nat {
    var beyond := newLength - length - (512 - length % 512);
    if beyond <= 0 then 0 else (beyond + 511) / 512
  }

  /** Whether K clusters are exactly what LENGTH bytes need (a file may keep one cluster when empty). */
  predicate Tight(length: nat, k: nat) {
    k == (length + 511) / 512 || (length == 0 && k == 1)
  }

  /** Growing a file leaves its chain long enough for its new length exactly when the old length was
      zero or not a multiple of the sector size. */
  lemma GrowthCoversIff(length: nat, k: nat, newLength: nat)
    requires Tight(length, k) && newLength > length
    ensures var base := if k == 0 then 1 else k;
            newLength <= 512 * (base + GrowthClusters(length, newLength)) <==> length == 0 || length % 512 != 0
    ensures length == 0 || length % 512 != 0 ==>
      Tight(newLength, (if k == 0 then 1 else k) + GrowthClusters(length, newLength))
  {
  }

  method CopyInto(buffer: array<byte>, at: nat, src: seq<byte>)
    requires at + |src| <= buffer.Length
    modifies buffer
    ensures forall i :: 0 <= i < buffer.Length ==>
      buffer[i] == if at <= i < at + |src| then src[i - at] else old(buffer[i])
  {
    forall i | 0 <= i < |src| {
      buffer[at + i] := src[i];
    }
  }

  /** The sectors of the clusters ADDED are zeroed and every other sector is as it was. */
  ghost predicate Zeroed(d: Disk, d': Disk, ds: nat, added: seq<nat>) {
    && |d'| == |d|
    && forall s :: 0 <= s < |d| ==> d'[s] == if Outside(ds, added, s) then d[s] else ZeroSector()
  }

  /** C is B with K more clusters, which are zeroed on the disk; nothing else changed. */
  ghost predicate Extended(b: seq<nat>, c: seq<nat>, k: int, d: Disk, d': Disk, ds: nat) {
    b <= c && |c| == |b| + k && Zeroed(d, d', ds, c[|b|..])
  }

  lemma ExtendedNone(b: seq<nat>, d: Disk, ds: nat)
    ensures Extended(b, b, 0, d, d, ds)
  {
  }

  lemma ExtendedSize(b: seq<nat>, c: seq<nat>, k: int, d: Disk, d': Disk, ds: nat)
    requires Extended(b, c, k, d, d', ds)
    ensures k == |c| - |b|
  {
  }

  lemma ExtendedMore(b: seq<nat>, c: seq<nat>, c': seq<nat>, k: int, d: Disk, e: Disk, f: Disk, ds: nat)
    requires Extended(b, c, k, d, e, ds)
    requires c <= c' && |c'| == |c| + 1 && Zeroed(e, f, ds, c'[|c|..])
    ensures Extended(b, c', k + 1, d, f, ds)
  {
    hide Zeroed;
    ZeroMore(d, e, f, ds, c[|b|..], c'[|c|..]);
    assert c'[|b|..] == c[|b|..] + c'[|c|..];
  }

  /** The bytes SRC were written at OFFSET of the file C, and nothing else changed. */
  ghost predicate Written(d: Disk, d': Disk, ds: nat, c: seq<nat>, offset: nat, src: seq<byte>) {
    && |d'| == |d| && Placed(d, ds, c) && Placed(d', ds, c) && NoDup(c)
    && (forall p :: 0 <= p < 512 * |c| ==>
        ByteAt(d', ds, c, p) == if offset <= p < offset + |src| then src[p - offset] else ByteAt(d, ds, c, p))
    && (forall s :: 0 <= s < |d| && Outside(ds, c, s) ==> d'[s] == d[s])
  }

  /** The whole effect of a write, byte by byte: B are the clusters the file had before the growth
      loop, C the ones it has now, META the sector of its own on-disk inode. */
  ghost predicate WriteEffect(d: Disk, d': Disk, ds: nat, b: seq<nat>, c: seq<nat>,
                              offset: nat, src: seq<byte>, meta: nat) {
    && |d'| == |d| && b <= c && Placed(d, ds, c) && Placed(d', ds, c)
    && (forall p :: 0 <= p < 512 * |c| ==>
        ByteAt(d', ds, c, p) ==
          if offset <= p < offset + |src| then src[p - offset]
          else if p < 512 * |b| then ByteAt(d, ds, c, p) else 0)
    && (forall s :: 0 <= s < |d| && s != meta && Outside(ds, c, s) ==> d'[s] == d[s])
  }

  /** Extension, copying and the metadata flush together. */
  lemma Compose(d0: Disk, d1: Disk, d2: Disk, d3: Disk, ds: nat, b: seq<nat>, c: seq<nat>, k: int,
                offset: nat, src: seq<byte>, meta: nat)
    requires Extended(b, c, k, d0, d1, ds) && Written(d1, d2, ds, c, offset, src)
    requires meta < |d2| && Outside(ds, c, meta) && |d3| == |d2| && |d3[meta]| == 512
    requires forall s :: 0 <= s < |d3| && s != meta ==> d3[s] == d2[s]
    requires forall s :: 0 <= s < |d0| ==> |d0[s]| == 512
    ensures WriteEffect(d0, d3, ds, b, c, offset, src, meta)
  {
    forall p | 0 <= p < 512 * |c|
      ensures ByteAt(d3, ds, c, p) == ByteAt(d2, ds, c, p)
      ensures ByteAt(d1, ds, c, p) == if p < 512 * |b| then ByteAt(d0, ds, c, p) else 0
    {
      ZeroedByte(d0, d1, ds, b, c, p);
    }
    forall s | 0 <= s < |d0| && s != meta && Outside(ds, c, s) ensures d3[s] == d0[s] {
      OutsideTail(ds, c, |b|, s);
    }
  }

  lemma OutsideTail(ds: nat, c: seq<nat>, k: nat, s: int)
    requires k <= |c| && Outside(ds, c, s)
    ensures Outside(ds, c[k..], s)
  {
  }

  lemma ZeroedByte(d: Disk, d': Disk, ds: nat, b: seq<nat>, c: seq<nat>, p: nat)
    requires b <= c && NoDup(c) && Placed(d, ds, c) && Placed(d', ds, c)
    requires Zeroed(d, d', ds, c[|b|..]) && p < 512 * |c|
    ensures ByteAt(d', ds, c, p) == if p < 512 * |b| then ByteAt(d, ds, c, p) else 0
  {
    var s := SectorOf(ds, c[p / 512]);
    if p < 512 * |b| {
      forall i | 0 <= i < |c[|b|..]| ensures s != SectorOf(ds, c[|b|..][i]) {
        assert c[|b| + i] != c[p / 512];
      }
    } else {
      assert c[|b|..][p / 512 - |b|] == c[p / 512];
    }
  }

  lemma HeadsInRange(fat: Table, chains: Chains)
    requires WellFormed(fat, chains)
    ensures 0 !in chains && forall h :: h in chains ==> |chains[h]| > 0 && h < 0x1_0000_0000
  {
    hide AllApart, Covered, Linked;
    NoChainAtZero(fat, chains);
    forall h | h in chains ensures h < 0x1_0000_0000 {
      ChainStep(fat, chains, h, 0);
    }
  }

  /** A file's own inode sector holds none of its data. */
  lemma MetaOutside(d: Disk, ds: nat, fat: Table, chains: Chains, h: nat, meta: nat)
    requires WellFormed(fat, chains) && meta in chains && meta != h
    requires 1 <= ds && OnDisk(chains, |d| + 1 - ds)
    ensures 0 <= SectorOf(ds, meta) < |d|
    ensures Outside(ds, if h in chains then chains[h] else [], SectorOf(ds, meta))
  {
    hide Covered;
    assert Linked(fat, chains[meta]) && chains[meta][0] == meta;
    assert meta in chains[meta];
    if h in chains {
      assert Apart(chains[meta], chains[h]);
    }
  }

  lemma WrittenNone(d: Disk, ds: nat, c: seq<nat>, offset: nat)
    requires Placed(d, ds, c) && NoDup(c)
    ensures Written(d, d, ds, c, offset, [])
  {
  }

  lemma WrittenMore(d: Disk, e: Disk, f: Disk, ds: nat, c: seq<nat>, offset: nat, done: seq<byte>, src: seq<byte>)
    requires Written(d, e, ds, c, offset, done)
    requires var pos := offset + |done|;
             && Nth(pos) < |c| && Ofs(pos) + |src| <= 512
             && 0 <= SectorOf(ds, c[Nth(pos)]) < |e| && |e[SectorOf(ds, c[Nth(pos)])]| == 512
             && f == e[SectorOf(ds, c[Nth(pos)]) := Patch(e[SectorOf(ds, c[Nth(pos)])], Ofs(pos), src)]
    ensures Written(d, f, ds, c, offset, done + src)
  {
    hide ByteAt, Patch;
    WriteStep(e, f, ds, c, offset + |done|, src);
  }

  lemma SectorInRange(d: Disk, ds: nat, fat: Table, chains: Chains, h: nat, i: nat)
    requires WellFormed(fat, chains) && h in chains && i < |chains[h]|
    requires 1 <= ds && OnDisk(chains, |d| + 1 - ds)
    ensures 0 <= SectorOf(ds, chains[h][i]) < |d|
  {
    hide AllApart, Covered;
    assert Linked(fat, chains[h]);
  }

  lemma ChainDistinct(fat: Table, chains: Chains, h: nat)
    requires WellFormed(fat, chains) && h in chains
    ensures NoDup(chains[h])
  {
  }

  lemma ZeroOne(d: Disk, ds: nat, r: nat)
    requires 0 <= SectorOf(ds, r) < |d|
    ensures Zeroed(d, d[SectorOf(ds, r) := ZeroSector()], ds, [r])
  {
    assert forall s :: Outside(ds, [r], s) <==> s != SectorOf(ds, [r][0]);
  }

  lemma ZeroMore(d: Disk, e: Disk, f: Disk, ds: nat, a: seq<nat>, b: seq<nat>)
    requires Zeroed(d, e, ds, a) && Zeroed(e, f, ds, b)
    ensures Zeroed(d, f, ds, a + b)
  {
    forall s | 0 <= s < |d| ensures f[s] == if Outside(ds, a + b, s) then d[s] else ZeroSector() {
      OutsideConcat(ds, a, b, s);
    }
  }

  lemma OutsideConcat(ds: nat, a: seq<nat>, b: seq<nat>, s: int)
    ensures Outside(ds, a + b, s) <==> Outside(ds, a, s) && Outside(ds, b, s)
  {
    if Outside(ds, a + b, s) {
      forall i | 0 <= i < |a| ensures s != SectorOf(ds, a[i]) { assert (a + b)[i] == a[i]; }
      forall i | 0 <= i < |b| ensures s != SectorOf(ds, b[i]) { assert (a + b)[|a| + i] == b[i]; }
    }
  }

  lemma AllocStep(fat: Table, last: nat, n: nat, limit: int)
    requires AllocOk(fat, last, n, limit) && n > 0
    ensures 2 <= last && last + 1 < |fat| && 0 < NextFree(fat, last) < limit
    ensures AllocOk(fat[NextFree(fat, last) := EOCHAIN], NextFree(fat, last), n - 1, limit)
  {
  }

  lemma GrownUse(before: Table, after: Table, c: seq<nat>, r: nat)
    requires Grown(before, after, c, r) && r >= 2 && before[c[|c| - 1]] != 0
    ensures SameUse(before[r := EOCHAIN], after)
  {
  }

  lemma HeadOnChain(fat: Table, chains: Chains, h: nat)
    requires WellFormed(fat, chains) && h in chains
    ensures |chains[h]| > 0 && h in chains[h]
    ensures chains[h][|chains[h]| - 1] < |fat| && fat[chains[h][|chains[h]| - 1]] != 0
  {
    hide AllApart, Covered, Linked;
    assert Linked(fat, chains[h]);
    LastOf(fat, chains[h]);
  }

  lemma NoChainAtZero(fat: Table, chains: Chains)
    requires WellFormed(fat, chains)
    ensures 0 !in chains && EOCHAIN !in chains
    ensures forall h :: h in chains ==> |chains[h]| > 0 && chains[h][0] == h
  {
    hide AllApart, Covered, Linked;
    forall h | h in chains ensures |chains[h]| > 0 && chains[h][0] == h && h != 0 && h != EOCHAIN {
      assert Linked(fat, chains[h]);
      LastOf(fat, chains[h]);
      PathInRange(fat, chains[h]);
      assert chains[h][0] in chains[h];
    }
  }

  lemma ChainStep(fat: Table, chains: Chains, h: nat, i: nat)
    requires WellFormed(fat, chains) && h in chains && i < |chains[h]|
    ensures 2 <= chains[h][i] < |fat|
    ensures fat[chains[h][i]] == if i == |chains[h]| - 1 then EOCHAIN else chains[h][i + 1]
    ensures i < |chains[h]| - 1 ==> chains[h][i + 1] != EOCHAIN
  {
    hide AllApart, Covered;
    assert Linked(fat, chains[h]);
  }

  lemma ChainPlaced(d: Disk, ds: nat, fat: Table, chains: Chains, h: nat)
    requires WellFormed(fat, chains)
    requires 1 <= ds && OnDisk(chains, |d| + 1 - ds)
    requires forall s :: 0 <= s < |d| ==> |d[s]| == 512
    ensures h in chains ==> Placed(d, ds, chains[h])
    ensures Placed(d, ds, [])
  {
    hide AllApart, Covered;
    if h in chains {
      assert Linked(fat, chains[h]);
    }
  }

  // ---------- what reads and writes mean for the byte sequence ----------

  /** The file content after a write, as a sequence: the old content, stretched by GAP if the write
      ends past it, with SRC patched in at OFFSET. GAP is what the last old cluster already held,
      then zeros for clusters the growth loop added. */
  ghost function Gap(d: Disk, ds: nat, b: seq<nat>, oldLength: nat, newLength: nat): seq<byte>
    requires Placed(d, ds, b) && oldLength <= newLength
  {
    seq(newLength - oldLength, i requires 0 <= i < newLength - oldLength =>
      if oldLength + i < 512 * |b| then ByteAt(d, ds, b, oldLength + i) else 0)
  }

  lemma PrefixPlaced(d: Disk, ds: nat, b: seq<nat>, c: seq<nat>)
    requires Placed(d, ds, c) && b <= c
    ensures Placed(d, ds, b)
    ensures forall p :: 0 <= p < 512 * |b| ==> ByteAt(d, ds, b, p) == ByteAt(d, ds, c, p)
  {
    forall i | 0 <= i < |b| ensures 0 <= SectorOf(ds, b[i]) < |d| {
      assert b[i] == c[i];
    }
  }

  /** A write refines patching a flat byte sequence. */
  lemma WriteRefines(d: Disk, d': Disk, ds: nat, b: seq<nat>, c: seq<nat>, oldLength: nat, newLength: nat,
                     offset: nat, src: seq<byte>, meta: nat)
    requires WriteEffect(d, d', ds, b, c, offset, src, meta)
    requires oldLength <= 512 * |b| && oldLength <= newLength <= 512 * |c| && offset + |src| <= newLength
    ensures Placed(d, ds, b)
    ensures FileBytes(d', ds, c, newLength) ==
      Patch(FileBytes(d, ds, b, oldLength) + Gap(d, ds, b, oldLength, newLength), offset, src)
  {
    hide Placed, ByteAt;
    PrefixPlaced(d, ds, b, c);
    var flat := FileBytes(d, ds, b, oldLength) + Gap(d, ds, b, oldLength, newLength);
    forall p | 0 <= p < newLength
      ensures FileBytes(d', ds, c, newLength)[p] == Patch(flat, offset, src)[p]
    {
      assert flat[p] == if p < 512 * |b| then ByteAt(d, ds, c, p) else 0;
    }
  }

  /** A write that stays inside the file is exactly a patch of its content. */
  lemma OverwriteRefines(d: Disk, d': Disk, ds: nat, c: seq<nat>, length: nat, offset: nat, src: seq<byte>, meta: nat)
    requires WriteEffect(d, d', ds, c, c, offset, src, meta)
    requires offset + |src| <= length <= 512 * |c|
    ensures FileBytes(d', ds, c, length) == Patch(FileBytes(d, ds, c, length), offset, src)
  {
    hide Placed, ByteAt, WriteEffect;
    WriteRefines(d, d', ds, c, c, length, length, offset, src, meta);
    assert FileBytes(d, ds, c, length) + Gap(d, ds, c, length, length) == FileBytes(d, ds, c, length);
  }

  /** Every other file keeps every byte: H is any other chain that does not hold the writer's inode. */
  lemma OtherFilesKept(d: Disk, d': Disk, ds: nat, b: seq<nat>, offset: nat, src: seq<byte>,
                       fat: Table, chains: Chains, start: nat, h: nat, meta: nat)
    requires WellFormed(fat, chains) && start in chains && h in chains && meta in chains
    requires h != start && h != meta
    requires 0 <= SectorOf(ds, meta)
    requires WriteEffect(d, d', ds, b, chains[start], offset, src, SectorOf(ds, meta))
    requires 1 <= ds && OnDisk(chains, |d| + 1 - ds)
    ensures Placed(d, ds, chains[h]) && Placed(d', ds, chains[h])
    ensures forall p :: 0 <= p < 512 * |chains[h]| ==> ByteAt(d', ds, chains[h], p) == ByteAt(d, ds, chains[h], p)
  {
    hide WellFormed, Linked;
    var e := chains[h];
    ChainPlaced(d, ds, fat, chains, h);
    ChainPlaced(d', ds, fat, chains, h);
    forall p | 0 <= p < 512 * |e| ensures ByteAt(d', ds, e, p) == ByteAt(d, ds, e, p) {
      OtherClusterOutside(ds, fat, chains, start, h, p / 512, meta);
    }
  }

  lemma OtherClusterOutside(ds: nat, fat: Table, chains: Chains, start: nat, h: nat, i: nat, meta: nat)
    requires WellFormed(fat, chains) && start in chains && h in chains && meta in chains
    requires h != start && h != meta && i < |chains[h]|
    ensures Outside(ds, chains[start], SectorOf(ds, chains[h][i]))
    ensures SectorOf(ds, chains[h][i]) != SectorOf(ds, meta)
  {
    hide Covered;
    assert chains[h][i] in chains[h];
    assert Apart(chains[h], chains[start]) && Apart(chains[h], chains[meta]);
    assert Linked(fat, chains[meta]) && chains[meta][0] == meta;
    assert meta in chains[meta];
  }

  /** inode_write_at followed by inode_read_at of the same range gives the bytes written. */
  method WriteThenRead(ino: Inode, src: array<byte>, dst: array<byte>, offset: nat) returns (n: nat)
    requires ino.Valid() && ino.Covers() && ino.denyWriteCnt == 0
    requires src != dst && dst.Length == src.Length && offset + src.Length <= INT32_MAX
    requires ino.CanGrowTo(offset + src.Length)
    modifies ino`start, ino`length, ino.vol.fs, ino.vol.fs.fat, ino.vol.disk, dst
    ensures n == src.Length && src[..] == old(src[..])
    ensures dst[..] == src[..]
  {
    hide WellFormed, Placed, Inode.CanGrowTo, SectorOf;
    ghost var was := src[..];
    var m := ino.WriteAt(src, src.Length, offset, true);
    ghost var d, c := ino.vol.disk[..], ino.Chain();
    n := ino.ReadAt(dst, dst.Length, offset, true);
    forall i | 0 <= i < n ensures dst[i] == src[i] {
      assert dst[i] == ByteAt(d, ino.vol.dataStart, c, offset + i);
      assert was[..m][offset + i - offset] == src[i];
    }
  }
}
