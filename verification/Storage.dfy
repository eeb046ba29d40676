/**
 * Reading and writing a torrent's bytes across its files: a range given by
 * (piece, offset, length) is spread over consecutive files.
 */
module Storage {
  import opened Geometry

  datatype IoMode = Read | Prefetch | Write

  const EINVAL: int := 22

  // ---- files laid end to end ----------------------------------------------

  function Concat(files: seq<seq<Byte>>): seq<Byte> {
    if files == [] then [] else files[0] + Concat(files[1..])
  }

  function Splice<T>(s: seq<T>, at: nat, data: seq<T>): (r: seq<T>)
    requires at + |data| <= |s|
    ensures |r| == |s|
  {
    s[..at] + data + s[at + |data|..]
  }

  predicate Fits(spans: seq<FileSpan>, files: seq<seq<Byte>>) {
    && |spans| == |files|
    && forall i :: 0 <= i < |spans| ==> |files[i]| == spans[i].length
  }

  lemma {:induction false} TiledAt(spans: seq<FileSpan>, from: nat, to: nat, i: nat)
    requires Tiled(spans, from, to) && i < |spans|
    ensures from <= spans[i].offset <= spans[i].End() <= to
    ensures i + 1 < |spans| ==> spans[i + 1].offset == spans[i].End()
    ensures i + 1 == |spans| ==> spans[i].End() == to
  {
    if i > 0 {
      TiledAt(spans[1..], spans[0].End(), to, i - 1);
    } else if |spans| > 1 {
      TiledAt(spans[1..], spans[0].End(), to, 0);
    }
  }

  lemma {:induction false} TiledOrder(spans: seq<FileSpan>, from: nat, to: nat, i: nat, j: nat)
    requires Tiled(spans, from, to) && i < j < |spans|
    ensures spans[i].End() <= spans[j].offset
    decreases j
  {
    TiledAt(spans, from, to, j - 1);
    if i < j - 1 {
      TiledOrder(spans, from, to, i, j - 1);
    }
  }

  lemma {:induction false} ConcatLength(spans: seq<FileSpan>, files: seq<seq<Byte>>, from: nat, to: nat)
    requires Tiled(spans, from, to) && Fits(spans, files)
    ensures |Concat(files)| == to - from
  {
    if spans != [] {
      ConcatLength(spans[1..], files[1..], spans[0].End(), to);
    }
  }

  /** Part of one file is the same part of the concatenation, at the file's offset. */
  lemma {:induction false} ConcatSlice(spans: seq<FileSpan>, files: seq<seq<Byte>>, from: nat, to: nat, i: nat, lo: nat, n: nat)
    requires Tiled(spans, from, to) && Fits(spans, files)
    requires i < |spans| && lo + n <= spans[i].length
    ensures |Concat(files)| == to - from
    ensures from <= spans[i].offset && spans[i].offset + lo + n <= to
    ensures Concat(files)[spans[i].offset + lo - from..spans[i].offset + lo + n - from] == files[i][lo..lo + n]
  {
    ConcatLength(spans, files, from, to);
    TiledAt(spans, from, to, i);
    if i > 0 {
      TiledAt(spans, from, to, 0);
      ConcatSlice(spans[1..], files[1..], spans[0].End(), to, i - 1, lo, n);
      var at := spans[i].offset + lo - from;
      var rest := Concat(files[1..]);
      var k := |files[0]|;
      TiledOrder(spans, from, to, 0, i);
      assert Concat(files)[at..at + n] == rest[at - k..at - k + n];
    }
  }

  lemma SpliceLeft<T>(a: seq<T>, b: seq<T>, at: nat, data: seq<T>)
    requires at + |data| <= |a|
    ensures Splice(a + b, at, data) == Splice(a, at, data) + b
  {
  }

  lemma SpliceRight<T>(a: seq<T>, b: seq<T>, at: nat, data: seq<T>)
    requires |a| <= at && at + |data| <= |a| + |b|
    ensures Splice(a + b, at, data) == a + Splice(b, at - |a|, data)
  {
  }

  /** Splicing bytes into one file splices them into the concatenation, at the file's offset. */
  lemma {:induction false} ConcatSplice(spans: seq<FileSpan>, files: seq<seq<Byte>>, from: nat, to: nat, i: nat, lo: nat, data: seq<Byte>)
    requires Tiled(spans, from, to) && Fits(spans, files)
    requires i < |spans| && lo + |data| <= spans[i].length
    ensures |Concat(files)| == to - from
    ensures from <= spans[i].offset && spans[i].offset + lo + |data| <= to
    ensures Concat(files[i := Splice(files[i], lo, data)]) ==
            Splice(Concat(files), spans[i].offset + lo - from, data)
  {
    ConcatLength(spans, files, from, to);
    TiledAt(spans, from, to, i);
    var updated := files[i := Splice(files[i], lo, data)];
    var at := spans[i].offset + lo - from;
    if i > 0 {
      TiledOrder(spans, from, to, 0, i);
      ConcatSplice(spans[1..], files[1..], spans[0].End(), to, i - 1, lo, data);
      assert updated[1..] == files[1..][i - 1 := Splice(files[i], lo, data)];
      SpliceRight(files[0], Concat(files[1..]), at, data);
    } else {
      assert updated[1..] == files[1..];
      SpliceLeft(files[0], Concat(files[1..]), lo, data);
    }
  }

  // ---- the search for a file ----------------------------------------------

  /** Orders an offset against a file: below it, past it, or inside it. */
  function CompareOffsetToFile(offset: nat, file: FileSpan): int {
    if offset < file.offset then -1
    else if offset >= file.offset + file.length then 1
    else 0
  }

  /**
   * Every offset inside the torrent lies in exactly one file, and the
   * comparator is monotone along the file table, so a binary search finds it.
   */
  lemma {:induction false} UniqueFile(spans: seq<FileSpan>, from: nat, to: nat, offset: nat) returns (k: nat)
    requires Tiled(spans, from, to) && from <= offset < to
    ensures k < |spans| && CompareOffsetToFile(offset, spans[k]) == 0
    ensures forall i :: 0 <= i < k ==> CompareOffsetToFile(offset, spans[i]) == 1
    ensures forall i :: k < i < |spans| ==> CompareOffsetToFile(offset, spans[i]) == -1
  {
    if offset < spans[0].End() {
      k := 0;
      forall i | 0 < i < |spans|
        ensures CompareOffsetToFile(offset, spans[i]) == -1
      {
        TiledOrder(spans, from, to, 0, i);
      }
    } else {
      var r := UniqueFile(spans[1..], spans[0].End(), to, offset);
      k := r + 1;
      forall i | 0 <= i < |spans| && i != k
        ensures CompareOffsetToFile(offset, spans[i]) == if i < k then 1 else -1
      {
        if i > 0 {
          assert spans[i] == spans[1..][i - 1];
        }
      }
    }
  }

  /** bsearch() over the file table. */
  method FindFile(spans: seq<FileSpan>, offset: nat, ghost total: nat) returns (index: nat)
    requires Tiled(spans, 0, total) && offset < total
    ensures index < |spans|
    ensures spans[index].offset <= offset < spans[index].End()
    ensures forall i :: 0 <= i < |spans| && i != index ==> CompareOffsetToFile(offset, spans[i]) != 0
  {
    ghost var k := UniqueFile(spans, 0, total, offset);
    var lo, hi := 0, |spans|;
    while true
      invariant 0 <= lo <= k < hi <= |spans|
      decreases hi - lo
    {
      var mid := (lo + hi) / 2;
      var c := CompareOffsetToFile(offset, spans[mid]);
      if c < 0 {
        hi := mid;
      } else if c > 0 {
        lo := mid + 1;
      } else {
        return mid;
      }
    }
    assert false;
  }

  // ---- one transfer over flat bytes ---------------------------------------

  /**
   * A transfer moved `n` bytes between `buf[at..]` and offset `g` of one flat
   * byte string: a write turned `flat0` into `flat1`, a read `buf0` into `buf1`.
   */
  ghost predicate Moved(mode: IoMode, flat0: seq<Byte>, buf0: seq<Byte>, flat1: seq<Byte>, buf1: seq<Byte>,
                        g: nat, at: nat, n: nat)
    requires g + n <= |flat0| && (mode != Prefetch ==> at + n <= |buf0|)
  {
    && |flat1| == |flat0|
    && |buf1| == |buf0|
    && (forall i :: 0 <= i < |flat0| ==>
          flat1[i] == if mode == Write && g <= i < g + n then buf0[at + i - g] else flat0[i])
    && (forall k :: 0 <= k < |buf0| ==>
          buf1[k] == if mode == Read && at <= k < at + n then flat0[g + k - at] else buf0[k])
  }

  /** Two transfers that continue each other are one transfer. */
  lemma MovedTwice(mode: IoMode, flat0: seq<Byte>, buf0: seq<Byte>, flat1: seq<Byte>, buf1: seq<Byte>,
                   flat2: seq<Byte>, buf2: seq<Byte>, g: nat, m: nat, n: nat)
    requires g + m + n <= |flat0| && (mode != Prefetch ==> m + n <= |buf0|)
    requires Moved(mode, flat0, buf0, flat1, buf1, g, 0, m)
    requires Moved(mode, flat1, buf1, flat2, buf2, g + m, m, n)
    ensures Moved(mode, flat0, buf0, flat2, buf2, g, 0, m + n)
  {
  }

  /** What a finished transfer means: a splice of the bytes, or a copy of them. */
  lemma MovedIsSplice(mode: IoMode, flat0: seq<Byte>, buf0: seq<Byte>, flat1: seq<Byte>, buf1: seq<Byte>, g: nat, n: nat)
    requires g + n <= |flat0| && (mode != Prefetch ==> n <= |buf0|)
    requires Moved(mode, flat0, buf0, flat1, buf1, g, 0, n)
    ensures flat1 == if mode == Write then Splice(flat0, g, buf0[..n]) else flat0
    ensures buf1 == if mode == Read then Splice(buf0, 0, flat0[g..g + n]) else buf0
  {
  }

  // ---- the disk -----------------------------------------------------------

  /** The files of one torrent. A file's content always has the file's full length. */
  class TorrentFiles {
    const torrent: Torrent
    var files: seq<seq<Byte>>

    ghost predicate Valid()
      reads this
    {
      && Tiled(torrent.files, 0, torrent.totalSize)
      && Fits(torrent.files, files)
    }

    /** The torrent's bytes as a single string: its files, concatenated. */
    ghost function Flat(): (r: seq<Byte>)
      requires Valid()
      reads this
      ensures |r| == torrent.totalSize
    {
      ConcatLength(torrent.files, files, 0, torrent.totalSize);
      Concat(files)
    }

    constructor (torrent: Torrent, files: seq<seq<Byte>>)
      requires Tiled(torrent.files, 0, torrent.totalSize) && Fits(torrent.files, files)
      ensures Valid() && this.torrent == torrent && this.files == files
    {
      this.torrent, this.files := torrent, files;
    }

    method Pread(file: nat, fileOffset: nat, buf: array<Byte>, at: nat, n: nat)
      requires Valid() && file < |torrent.files|
      requires fileOffset + n <= torrent.files[file].length
      requires at + n <= buf.Length
      modifies buf
      ensures torrent.files[file].offset + fileOffset + n <= torrent.totalSize
      ensures Moved(Read, Flat(), old(buf[..]), Flat(), buf[..], torrent.files[file].offset + fileOffset, at, n)
    {
      ConcatSlice(torrent.files, files, 0, torrent.totalSize, file, fileOffset, n);
      var content := files[file];
      forall k | at <= k < at + n {
        buf[k] := content[fileOffset + k - at];
      }
      assert buf[..] == Splice(old(buf[..]), at, content[fileOffset..fileOffset + n]);
    }

    method Pwrite(file: nat, fileOffset: nat, buf: array<Byte>, at: nat, n: nat)
      requires Valid() && file < |torrent.files|
      requires fileOffset + n <= torrent.files[file].length
      requires at + n <= buf.Length
      modifies this`files
      ensures Valid()
      ensures torrent.files[file].offset + fileOffset + n <= torrent.totalSize
      ensures Moved(Write, old(Flat()), buf[..], Flat(), buf[..], torrent.files[file].offset + fileOffset, at, n)
    {
      ghost var data := buf[..][at..at + n];
      ConcatSplice(torrent.files, files, 0, torrent.totalSize, file, fileOffset, data);
      assert data == buf[at..at + n];
      files := files[file := Splice(files[file], fileOffset, buf[at..at + n])];
    }

    /** Transfers bytes between `buf[at..at + n]` and one file, at global offset `g`. */
    method ReadOrWriteBytes(mode: IoMode, file: nat, fileOffset: nat, buf: array<Byte>, at: nat, n: nat, ghost g: nat)
      returns (err: int)
      requires Valid() && file < |torrent.files|
      requires torrent.files[file].length == 0 || fileOffset < torrent.files[file].length
      requires fileOffset + n <= torrent.files[file].length
      requires g == torrent.files[file].offset + fileOffset
      requires g + n <= torrent.totalSize
      requires mode != Prefetch ==> at + n <= buf.Length
      modifies this`files, buf
      ensures Valid() && err == 0
      ensures Moved(mode, old(Flat()), old(buf[..]), Flat(), buf[..], g, at, n)
    {
      err := 0;
      if torrent.files[file].length == 0 {
        assert n == 0;
      } else if mode == Read {
        Pread(file, fileOffset, buf, at, n);
      } else if mode == Write {
        Pwrite(file, fileOffset, buf, at, n);
      }
    }

    /**
     * One pass of the loop of ReadOrWritePiece: a transfer that has moved `at`
     * bytes moves up to `left` more, as many as the current file holds.
     */
    method Pass(mode: IoMode, file: nat, fileOffset: nat, buf: array<Byte>, at: nat, left: nat,
                ghost g: nat, ghost flat0: seq<Byte>, ghost buf0: seq<Byte>)
      returns (err: int, n: nat)
      requires Valid() && file < |torrent.files|
      requires torrent.files[file].length == 0 || fileOffset < torrent.files[file].length
      requires fileOffset <= torrent.files[file].length
      requires g + at == torrent.files[file].offset + fileOffset
      requires g + at + left <= torrent.totalSize == |flat0|
      requires |buf0| == buf.Length
      requires mode != Prefetch ==> at + left <= buf.Length
      requires Moved(mode, flat0, buf0, Flat(), buf[..], g, 0, at)
      modifies this`files, buf
      ensures Valid() && err == 0 && n <= left
      ensures n < left ==> file + 1 < |torrent.files| && torrent.files[file + 1].offset == g + at + n
      ensures Moved(mode, flat0, buf0, Flat(), buf[..], g, 0, at + n)
    {
      var room := torrent.files[file].length - fileOffset;
      n := if left < room then left else room;
      err := ReadOrWriteBytes(mode, file, fileOffset, buf, at, n, g + at);
      MovedTwice(mode, flat0, buf0, old(Flat()), old(buf[..]), Flat(), buf[..], g, at, n);
      TiledAt(torrent.files, 0, torrent.totalSize, file);
    }

    /** The loop of ReadOrWritePiece, entered at a position inside one file. */
    method Spread(mode: IoMode, firstFile: nat, firstOffset: nat, buf: array<Byte>, buflen: nat, ghost g: nat)
      returns (err: int)
      requires Valid() && firstFile < |torrent.files|
      requires firstOffset < torrent.files[firstFile].length
      requires g == torrent.files[firstFile].offset + firstOffset
      requires g + buflen <= torrent.totalSize
      requires mode != Prefetch ==> buflen <= buf.Length
      modifies this`files, buf
      ensures Valid() && err == 0
      ensures Moved(mode, old(Flat()), old(buf[..]), Flat(), buf[..], g, 0, buflen)
    {
      var file: nat, fileOffset: nat := firstFile, firstOffset;
      var at: nat, left: nat := 0, buflen;
      ghost var flat0, buf0 := Flat(), buf[..];
      err := 0;
      while left > 0
        invariant at + left == buflen
        invariant left > 0 ==> file < |torrent.files| && torrent.files[file].offset + fileOffset == g + at
        invariant left > 0 ==> fileOffset == 0 || fileOffset < torrent.files[file].length
        invariant Valid() && err == 0
        invariant Moved(mode, flat0, buf0, Flat(), buf[..], g, 0, at)
        decreases |torrent.files| - file
      {
        var n;
        err, n := Pass(mode, file, fileOffset, buf, at, left, g, flat0, buf0);
        at, left, file, fileOffset := at + n, left - n, file + 1, 0;
      }
    }

    /**
     * Spreads one transfer over consecutive files. The effect is that of one
     * transfer at the same global offset of the concatenated files.
     */
    method ReadOrWritePiece(mode: IoMode, piece: nat, pieceOffset: nat, buf: array<Byte>, buflen: nat) returns (err: int)
      requires Valid()
      requires piece < torrent.pieceCount ==> torrent.InRange(piece, pieceOffset, buflen)
      requires mode != Prefetch ==> buflen <= buf.Length
      modifies this`files, buf
      ensures Valid()
      ensures err == if piece >= torrent.pieceCount then EINVAL else 0
      ensures err != 0 ==> files == old(files) && buf[..] == old(buf[..])
      ensures err == 0 ==>
                Moved(mode, old(Flat()), old(buf[..]), Flat(), buf[..], torrent.PieceOffset(piece, pieceOffset), 0, buflen)
    {
      if piece >= torrent.pieceCount {
        return EINVAL;
      }
      var g := torrent.PieceOffset(piece, pieceOffset);
      var file := FindFile(torrent.files, g, torrent.totalSize);
      err := Spread(mode, file, g - torrent.files[file].offset, buf, buflen, g);
    }

    method IoRead(piece: nat, begin: nat, len: nat, buf: array<Byte>) returns (err: int)
      requires Valid()
      requires piece < torrent.pieceCount ==> torrent.InRange(piece, begin, len)
      requires len <= buf.Length
      modifies this`files, buf
      ensures Valid() && Flat() == old(Flat())
      ensures err == if piece >= torrent.pieceCount then EINVAL else 0
      ensures err == 0 ==>
                buf[..] == Splice(old(buf[..]), 0,
                                  Flat()[torrent.PieceOffset(piece, begin)..torrent.PieceOffset(piece, begin) + len])
      ensures err != 0 ==> buf[..] == old(buf[..])
    {
      err := ReadOrWritePiece(Read, piece, begin, buf, len);
      if err == 0 {
        MovedIsSplice(Read, old(Flat()), old(buf[..]), Flat(), buf[..], torrent.PieceOffset(piece, begin), len);
      }
    }

    method IoWrite(piece: nat, begin: nat, len: nat, buf: array<Byte>) returns (err: int)
      requires Valid()
      requires piece < torrent.pieceCount ==> torrent.InRange(piece, begin, len)
      requires len <= buf.Length
      modifies this`files, buf
      ensures Valid() && buf[..] == old(buf[..])
      ensures err == if piece >= torrent.pieceCount then EINVAL else 0
      ensures err == 0 ==> Flat() == Splice(old(Flat()), torrent.PieceOffset(piece, begin), buf[..len])
      ensures err != 0 ==> Flat() == old(Flat())
    {
      err := ReadOrWritePiece(Write, piece, begin, buf, len);
      if err == 0 {
        MovedIsSplice(Write, old(Flat()), old(buf[..]), Flat(), buf[..], torrent.PieceOffset(piece, begin), len);
      }
    }
  }
}
