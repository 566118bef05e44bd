/** What inode_write_at means for all files of a volume together: a run of writes over several open inodes
    behaves like writes to independent byte sequences. */
module Files {
  import opened Basics
  import opened Fat
  import opened I = Inode

  /** The disk, the table and its chains. */
  datatype Fs = Fs(d: Disk, ds: nat, fat: Table, chains: Chains)

  /** An open inode. */
  datatype File = File(start: nat, length: nat, meta: nat)

  ghost predicate FsOk(v: Fs) {
    && WellFormed(v.fat, v.chains) && 1 <= v.ds && OnDisk(v.chains, |v.d| + 1 - v.ds)
    && forall s :: 0 <= s < |v.d| ==> |v.d[s]| == 512
  }

  ghost function ChainOf(v: Fs, f: File): seq<nat> { if f.start in v.chains then v.chains[f.start] else [] }

  ghost predicate FileOk(v: Fs, f: File) {
    && f.meta in v.chains && f.meta != f.start && (f.start == 0 || f.start in v.chains)
    && Placed(v.d, v.ds, ChainOf(v, f)) && f.length <= 512 * |ChainOf(v, f)|
  }

  /** The inodes and the data of two files are different clusters. */
  predicate Separate(f: File, g: File) {
    f.meta != g.meta && f.start != g.meta && g.start != f.meta && (f.start == g.start ==> f.start == 0)
  }

  ghost predicate AllOk(v: Fs, files: map<nat, File>) {
    && FsOk(v)
    && (forall id :: id in files ==> FileOk(v, files[id]))
    && (forall i, j :: i in files && j in files && i != j ==> Separate(files[i], files[j]))
  }

  ghost function Content(v: Fs, f: File): seq<byte>
    requires FileOk(v, f)
  {
    FileBytes(v.d, v.ds, ChainOf(v, f), f.length)
  }

  /** What Inode.WriteAt promises of a write of SRC at OFFSET that stores all of it. */
  ghost predicate Wrote(v: Fs, w: Fs, f: File, g: File, offset: nat, src: seq<byte>) {
    && FsOk(w) && FileOk(w, g) && w.ds == v.ds && g.meta == f.meta
    && g.length == (if offset + |src| > f.length then offset + |src| else f.length)
    && w.chains == (if g.start == 0 then v.chains else v.chains[g.start := ChainOf(w, g)])
    && (f.start != 0 ==> g.start == f.start) && (f.start == 0 ==> g.start !in v.chains)
    && WriteEffect(v.d, w.d, v.ds, if f.start == 0 && g.start != 0 then [g.start] else ChainOf(v, f), ChainOf(w, g),
                   offset, src, SectorOf(v.ds, f.meta))
  }

  /** The written file: SRC at OFFSET, the old bytes elsewhere; a hole between the old end and OFFSET may hold
      anything. */
  ghost predicate Overlaid(old_: seq<byte>, new_: seq<byte>, offset: nat, src: seq<byte>) {
    && |new_| == (if offset + |src| > |old_| then offset + |src| else |old_|)
    && (forall i :: 0 <= i < |src| ==> new_[offset + i] == src[i])
    && (forall i :: 0 <= i < |old_| && !(offset <= i < offset + |src|) ==> new_[i] == old_[i])
  }

  lemma WriterContent(v: Fs, w: Fs, f: File, g: File, offset: nat, src: seq<byte>)
    requires FsOk(v) && FileOk(v, f) && Wrote(v, w, f, g, offset, src)
    ensures Overlaid(Content(v, f), Content(w, g), offset, src)
  {
    hide WellFormed, Placed, OnDisk, ByteAt, SectorOf;
    var b := if f.start == 0 && g.start != 0 then [g.start] else ChainOf(v, f);
    NoChainAtZero(v.fat, v.chains);
    var c := ChainOf(w, g);
    PrefixPlaced(v.d, v.ds, b, c);
    forall p | 0 <= p < f.length ensures ByteAt(v.d, v.ds, c, p) == Content(v, f)[p] {}
  }

  /** Other files keep their chains and stay separate. */
  lemma OtherChain(v: Fs, w: Fs, f: File, g: File, offset: nat, src: seq<byte>, h: File)
    requires FsOk(v) && FileOk(v, f) && FileOk(v, h) && Separate(f, h) && Wrote(v, w, f, g, offset, src)
    ensures ChainOf(w, h) == ChainOf(v, h) && Separate(g, h)
    ensures h.meta in w.chains && (h.start != 0 ==> h.start in w.chains && h.start != g.start)
  {
    hide WellFormed, Placed, OnDisk, WriteEffect;
    NoChainAtZero(v.fat, v.chains);
    NoChainAtZero(w.fat, w.chains);
  }

  lemma OtherContent(v: Fs, w: Fs, f: File, g: File, offset: nat, src: seq<byte>, h: File)
    requires FsOk(v) && FileOk(v, f) && FileOk(v, h) && Separate(f, h) && Wrote(v, w, f, g, offset, src)
    ensures FileOk(w, h) && Separate(g, h) && Content(w, h) == Content(v, h)
  {
    hide WellFormed, WriteEffect, OnDisk, ByteAt, SectorOf;
    OtherChain(v, w, f, g, offset, src, h);
    var c := ChainOf(v, h);
    assert |w.d| == |v.d| by { SameSize(v, w, f, g, offset, src); }
    forall p | 0 <= p < 512 * |c| ensures ByteAt(w.d, w.ds, c, p) == ByteAt(v.d, v.ds, c, p) {
      OtherByte(v, w, f, g, offset, src, h, p);
    }
  }

  lemma SameSize(v: Fs, w: Fs, f: File, g: File, offset: nat, src: seq<byte>)
    requires Wrote(v, w, f, g, offset, src)
    ensures |w.d| == |v.d|
  {
  }

  lemma OtherByte(v: Fs, w: Fs, f: File, g: File, offset: nat, src: seq<byte>, h: File, p: nat)
    requires FsOk(v) && FileOk(v, f) && FileOk(v, h) && Separate(f, h) && Wrote(v, w, f, g, offset, src)
    requires h.start in v.chains && p < 512 * |v.chains[h.start]| && Placed(w.d, w.ds, v.chains[h.start])
    ensures ByteAt(w.d, w.ds, v.chains[h.start], p) == ByteAt(v.d, v.ds, v.chains[h.start], p)
  {
    hide WellFormed, OnDisk, Outside, Linked;
    OtherChain(v, w, f, g, offset, src, h);
    NoChainAtZero(w.fat, w.chains);
    var i, e := p / 512, v.chains[h.start];
    assert w.chains[h.start] == e && h.start != f.meta;
    if g.start in w.chains {
      OtherClusterOutside(w.ds, w.fat, w.chains, g.start, h.start, i, f.meta);
    } else {
      OtherClusterOutside(w.ds, w.fat, w.chains, f.meta, h.start, i, f.meta);
      assert Outside(w.ds, [], SectorOf(w.ds, e[i])) by { OutsideNothing(w.ds, SectorOf(w.ds, e[i])); }
    }
  }

  lemma OutsideNothing(ds: nat, s: int)
    ensures Outside(ds, [], s)
  {
  }

  // ---------- every run of writes ----------

  datatype Write = Write(id: nat, offset: nat, src: seq<byte>)

  /** One write keeps every file in order. */
  lemma WriteKeeps(v: Fs, w: Fs, files: map<nat, File>, id: nat, g: File, offset: nat, src: seq<byte>)
    requires AllOk(v, files) && id in files && Wrote(v, w, files[id], g, offset, src)
    ensures AllOk(w, files[id := g])
    ensures forall j :: j in files && j != id ==>
      FileOk(w, files[j]) && FileOk(v, files[j]) && Content(w, files[j]) == Content(v, files[j])
    ensures FileOk(v, files[id]) && FileOk(w, g) && Overlaid(Content(v, files[id]), Content(w, g), offset, src)
  {
    hide FsOk, FileOk, Content, Separate, Overlaid;
    assert FsOk(w) && FileOk(w, g) by { WroteOk(v, w, files[id], g, offset, src); }
    WriterContent(v, w, files[id], g, offset, src);
    forall j | j in files && j != id
      ensures FileOk(w, files[j]) && Separate(g, files[j]) && Separate(files[j], g)
      ensures Content(w, files[j]) == Content(v, files[j]) {
      OtherContent(v, w, files[id], g, offset, src, files[j]);
      SeparateBoth(g, files[j]);
    }
  }

  lemma WroteOk(v: Fs, w: Fs, f: File, g: File, offset: nat, src: seq<byte>)
    requires Wrote(v, w, f, g, offset, src)
    ensures FsOk(w) && FileOk(w, g)
  {
  }

  lemma SeparateBoth(f: File, g: File)
    ensures Separate(f, g) <==> Separate(g, f)
  {
  }

  ghost predicate IsRun(vs: seq<Fs>, fs: seq<map<nat, File>>, ws: seq<Write>) {
    && |vs| == |ws| + 1 && |fs| == |ws| + 1
    && forall i :: 0 <= i < |ws| ==> Stepped(vs[i], vs[i + 1], fs[i], fs[i + 1], ws[i])
  }

  ghost predicate Stepped(v: Fs, w: Fs, files: map<nat, File>, files': map<nat, File>, op: Write) {
    && op.id in files && op.id in files' && files' == files[op.id := files'[op.id]]
    && Wrote(v, w, files[op.id], files'[op.id], op.offset, op.src)
  }

  /** The byte that the last of the first N writes to byte I of file ID stored. */
  function Last(ws: seq<Write>, n: nat, id: nat, i: nat): Option<byte>
    requires n <= |ws|
  {
    if n == 0 then None
    else if ws[n - 1].id == id && ws[n - 1].offset <= i < ws[n - 1].offset + |ws[n - 1].src| then
      Some(ws[n - 1].src[i - ws[n - 1].offset])
    else Last(ws, n - 1, id, i)
  }

  /** How long those writes leave file ID. */
  function Length(ws: seq<Write>, n: nat, id: nat, length: nat): nat
    requires n <= |ws|
  {
    if n == 0 then length
    else
      var before, op := Length(ws, n - 1, id, length), ws[n - 1];
      if op.id == id && op.offset + |op.src| > before then op.offset + |op.src| else before
  }

  lemma {:induction false} LastInside(ws: seq<Write>, n: nat, id: nat, i: nat, length: nat)
    requires n <= |ws|
    ensures Last(ws, n, id, i).Some? ==> i < Length(ws, n, id, length)
    ensures Length(ws, n, id, length) >= length
  {
    if n > 0 { LastInside(ws, n - 1, id, i, length); }
  }

  ghost predicate AsWritten(was: seq<byte>, now: seq<byte>, ws: seq<Write>, n: nat, id: nat, i: nat)
    requires n <= |ws| && i < |now|
  {
    match Last(ws, n, id, i)
    case Some(b) => now[i] == b
    case None => i < |was| ==> now[i] == was[i]
  }

  /** Over every run of writes to the open files of a volume, growth included, each file reads as if it were
      alone: every byte is the last one written there, or the original one, whatever was written to others. */
  lemma {:induction false} LastWriteWins(vs: seq<Fs>, fs: seq<map<nat, File>>, ws: seq<Write>, n: nat, id: nat)
    requires IsRun(vs, fs, ws) && n <= |ws| && AllOk(vs[0], fs[0]) && id in fs[0]
    ensures AllOk(vs[n], fs[n]) && id in fs[n] && FileOk(vs[0], fs[0][id]) && FileOk(vs[n], fs[n][id])
    ensures var was, now := Content(vs[0], fs[0][id]), Content(vs[n], fs[n][id]);
            && |now| == Length(ws, n, id, |was|) >= |was|
            && forall i: nat :: i < |now| ==> AsWritten(was, now, ws, n, id, i)
  {
    hide FsOk, FileOk, Content, Separate, Wrote;
    if n > 0 {
      LastWriteWins(vs, fs, ws, n - 1, id);
      var op := ws[n - 1];
      assert Stepped(vs[n - 1], vs[n - 1 + 1], fs[n - 1], fs[n - 1 + 1], op);
      WriteKeeps(vs[n - 1], vs[n], fs[n - 1], op.id, fs[n][op.id], op.offset, op.src);
      var was, mid, now := Content(vs[0], fs[0][id]), Content(vs[n - 1], fs[n - 1][id]), Content(vs[n], fs[n][id]);
      forall i: nat | i < |now| ensures AsWritten(was, now, ws, n, id, i) {
        if i < |mid| { assert AsWritten(was, mid, ws, n - 1, id, i); }
        LastInside(ws, n - 1, id, i, |was|);
        if op.id == id && op.offset <= i < op.offset + |op.src| { assert now[op.offset + (i - op.offset)] == op.src[i - op.offset]; }
      }
    }
  }

  // ---------- the code ----------

  ghost function ViewOf(vol: Volume): Fs
    reads vol, vol.fs, vol.fs.fat, vol.disk
  {
    Fs(vol.disk[..], vol.dataStart, vol.fs.fat[..], vol.fs.chains)
  }

  ghost function FileOf(ino: Inode): File
    requires 0 <= ino.length
    reads ino
  {
    File(ino.start, ino.length, ino.meta)
  }

  /** inode_write_at is one such write. */
  method WriteFile(ino: Inode, buffer: array<byte>, offset: nat)
    requires ino.Valid() && ino.Covers() && ino.denyWriteCnt == 0 && offset + buffer.Length <= INT32_MAX
    requires ino.CanGrowTo(offset + buffer.Length)
    modifies ino`start, ino`length, ino.vol.fs, ino.vol.fs.fat, ino.vol.disk
    ensures 0 <= ino.length
    ensures Wrote(old(ViewOf(ino.vol)), ViewOf(ino.vol), old(FileOf(ino)), FileOf(ino), offset, old(buffer[..]))
  {
    hide WellFormed, OnDisk, WriteEffect, Inode.CanGrowTo;
    var n := ino.WriteAt(buffer, buffer.Length, offset, true);
    assert buffer[..n] == old(buffer[..]);
  }

  /** inode_read_at returns a slice of the file's content. */
  method ReadFile(ino: Inode, buffer: array<byte>, offset: nat) returns (n: nat)
    requires ino.Valid() && ino.Covers()
    modifies buffer
    ensures ino.Valid() && n <= buffer.Length
    ensures buffer.Length == 0 || ino.length <= offset ==> n == 0
    ensures buffer.Length > 0 && offset < ino.length ==> n > 0 && (n == buffer.Length || offset + n == ino.length)
    ensures FileOk(ViewOf(ino.vol), FileOf(ino)) && |Content(ViewOf(ino.vol), FileOf(ino))| == ino.length
    ensures n > 0 ==> offset + n <= ino.length && buffer[..n] == Content(ViewOf(ino.vol), FileOf(ino))[offset..offset + n]
  {
    hide WellFormed, OnDisk;
    n := ino.ReadAt(buffer, buffer.Length, offset, true);
  }
}
