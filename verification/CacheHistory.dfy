/**
 * Whole runs of the cache against a store that simply remembers bytes:
 * whatever is flushed or trimmed on the way, every read gets the same answer.
 */
module CacheHistory {
  import opened Geometry
  import opened Storage
  import opened CacheBlocks
  import opened CacheReads
  import opened BlockCache

  datatype Op =
    | Write(tor: int, piece: nat, offset: nat, data: seq<Byte>)
    | Read(tor: int, piece: nat, offset: nat, len: nat)
    | Limit(maxBytes: int)
    | Done
    | File(tor: int, file: nat)
    | Whole(tor: int)

  type Memory = map<int, seq<Byte>>

  /** Writes carry whole blocks; reads ask for any bytes there are; limits are not negative. */
  ghost predicate OpOk(torrents: Torrents, op: Op) {
    match op
    case Write(tor, piece, offset, data) =>
      && tor in torrents && torrents[tor].Valid() && piece < torrents[tor].pieceCount
      && offset % torrents[tor].blockSize == 0
      && torrents[tor].BlockOf(piece, offset) < torrents[tor].BlockCount()
      && |data| == torrents[tor].BlockBytes(torrents[tor].BlockOf(piece, offset))
    case Read(tor, piece, offset, len) => PlaceOk(torrents, Place(tor, piece, offset, len))
    case Limit(maxBytes) => maxBytes >= 0
    case Done => true
    case File(tor, file) => tor in torrents && file < |torrents[tor].files|
    case Whole(tor) => tor in torrents
  }

  predicate MemoryOk(torrents: Torrents, mem: Memory) {
    mem.Keys == torrents.Keys && forall id :: id in torrents ==> |mem[id]| == torrents[id].totalSize
  }

  lemma OpInRange(torrents: Torrents, op: Op)
    requires OpOk(torrents, op) && op.Write?
    ensures var t := torrents[op.tor];
            && t.InRange(op.piece, op.offset, |op.data|)
            && t.PieceOffset(op.piece, op.offset) == t.BlockStart(t.BlockOf(op.piece, op.offset))
  {
    BlockOfIsGlobal(torrents[op.tor], op.piece, op.offset);
    BlockInside(torrents[op.tor], torrents[op.tor].BlockOf(op.piece, op.offset));
  }

  // ---- the plain store ----------------------------------------------------

  ghost function PlainStep(torrents: Torrents, mem: Memory, op: Op): (r: Memory)
    requires OpOk(torrents, op) && MemoryOk(torrents, mem)
    ensures MemoryOk(torrents, r)
  {
    if op.Write? then
      OpInRange(torrents, op);
      mem[op.tor := Splice(mem[op.tor], torrents[op.tor].PieceOffset(op.piece, op.offset), op.data)]
    else mem
  }

  ghost function PlainAnswer(torrents: Torrents, mem: Memory, op: Op): seq<Byte>
    requires OpOk(torrents, op) && MemoryOk(torrents, mem)
  {
    if op.Read? then
      var g := torrents[op.tor].PieceOffset(op.piece, op.offset);
      mem[op.tor][g..g + op.len]
    else []
  }

  ghost predicate OpsOk(torrents: Torrents, ops: seq<Op>) {
    forall i :: 0 <= i < |ops| ==> OpOk(torrents, ops[i])
  }

  /** The memory after a run, and what its reads answered. */
  ghost function PlainRun(torrents: Torrents, mem: Memory, ops: seq<Op>): (r: (Memory, seq<seq<Byte>>))
    requires OpsOk(torrents, ops) && MemoryOk(torrents, mem)
    ensures MemoryOk(torrents, r.0)
  {
    if ops == [] then (mem, [])
    else
      var last := |ops| - 1;
      var (before, answers) := PlainRun(torrents, mem, ops[..last]);
      (PlainStep(torrents, before, ops[last]), answers + [PlainAnswer(torrents, before, ops[last])])
  }

  lemma PlainRunStep(torrents: Torrents, mem: Memory, ops: seq<Op>, i: nat)
    requires OpsOk(torrents, ops) && MemoryOk(torrents, mem) && i < |ops|
    ensures OpsOk(torrents, ops[..i]) && OpsOk(torrents, ops[..i + 1])
    ensures var (before, answers) := PlainRun(torrents, mem, ops[..i]);
            PlainRun(torrents, mem, ops[..i + 1])
            == (PlainStep(torrents, before, ops[i]), answers + [PlainAnswer(torrents, before, ops[i])])
  {
    assert ops[..i + 1][..i] == ops[..i];
  }

  // ---- the cache ----------------------------------------------------------

  ghost function Seen(cache: Cache): (r: Memory)
    requires cache.Valid()
    reads cache, cache.disks.Values
    ensures MemoryOk(cache.torrents, r)
  {
    map id | id in cache.torrents :: cache.Logical(id)
  }

  method WriteStep(cache: Cache, op: Op, now: int, done: PieceDone)
    requires cache.Valid() && OpOk(cache.torrents, op) && op.Write?
    modifies cache, cache.disks.Values
    ensures cache.Valid() && Seen(cache) == PlainStep(cache.torrents, old(Seen(cache)), op)
  {
    OpInRange(cache.torrents, op);
    var err := cache.WriteBlock(op.tor, op.piece, op.offset, |op.data|, op.data, now, done);
  }

  /** With these blocks cached, the operation does not read amiss. */
  ghost predicate Sees(torrents: Torrents, blocks: seq<CacheBlock>, op: Op)
    requires OpOk(torrents, op)
  {
    op.Read? ==> BlocksOk(torrents, blocks) && ReadsRight(torrents, blocks, Place(op.tor, op.piece, op.offset, op.len))
  }

  /** A read that starts where a block starts and stays inside it sees right whatever is cached. */
  lemma SeesAlways(torrents: Torrents, blocks: seq<CacheBlock>, op: Op)
    requires OpOk(torrents, op) && BlocksOk(torrents, blocks) && op.Read?
    requires op.len == 0 || Aligned(torrents, Place(op.tor, op.piece, op.offset, op.len))
    ensures Sees(torrents, blocks, op)
  {
    SafeIn(torrents, blocks, Place(op.tor, op.piece, op.offset, op.len));
  }

  /** Reads into a new buffer and returns what it holds. */
  method ReadBytes(cache: Cache, at: Place) returns (answer: seq<Byte>)
    requires cache.Valid() && PlaceOk(cache.torrents, at)
    modifies cache.disks.Values
    ensures cache.Valid() && forall id :: id in cache.torrents ==> cache.Logical(id) == old(cache.Logical(id))
    ensures ReadsRight(cache.torrents, cache.blocks, at) ==>
              var g := StartOf(cache.torrents, at); answer == cache.Logical(at.tor)[g..g + at.len]
  {
    var setme := new Byte[at.len];
    var err := cache.ReadBlock(at.tor, at.piece, at.offset, at.len, setme);
    answer := setme[..];
  }

  method ReadStep(cache: Cache, op: Op) returns (answer: seq<Byte>)
    requires cache.Valid() && OpOk(cache.torrents, op) && op.Read?
    modifies cache.disks.Values
    ensures cache.Valid() && Seen(cache) == old(Seen(cache))
    ensures Sees(cache.torrents, cache.blocks, op) ==> answer == PlainAnswer(cache.torrents, old(Seen(cache)), op)
  {
    answer := ReadBytes(cache, Place(op.tor, op.piece, op.offset, op.len));
  }

  /** Limit changes and flushes. */
  method QuietStep(cache: Cache, op: Op, now: int, done: PieceDone)
    requires cache.Valid() && OpOk(cache.torrents, op) && !op.Write? && !op.Read?
    modifies cache, cache.disks.Values
    ensures cache.Valid() && forall id :: id in cache.torrents ==> cache.Logical(id) == old(cache.Logical(id))
  {
    var err;
    ghost var flushed, kept;
    match op
    case Limit(maxBytes) => err, flushed, kept := cache.SetLimit(maxBytes, now, done);
    case Done => err, flushed, kept := cache.FlushDone(now, done);
    case File(tor, file) => err := cache.FlushFile(tor, file, done);
    case Whole(tor) => err := cache.FlushTorrent(tor, done);
  }

  method Step(cache: Cache, op: Op, now: int, done: PieceDone) returns (answer: seq<Byte>)
    requires cache.Valid() && OpOk(cache.torrents, op)
    modifies cache, cache.disks.Values
    ensures cache.Valid()
    ensures Seen(cache) == PlainStep(cache.torrents, old(Seen(cache)), op)
    ensures op.Read? ==> cache.blocks == old(cache.blocks)
    ensures old(Sees(cache.torrents, cache.blocks, op)) ==> answer == PlainAnswer(cache.torrents, old(Seen(cache)), op)
  {
    answer := [];
    if op.Write? {
      WriteStep(cache, op, now, done);
    } else if op.Read? {
      answer := ReadStep(cache, op);
    } else {
      QuietStep(cache, op, now, done);
      assert Seen(cache) == old(Seen(cache));
    }
  }

  /** The answers of a run are those of the plain store, but for reads that did not see right at their time. */
  ghost predicate AnswersAgree(torrents: Torrents, ops: seq<Op>, cached: seq<seq<CacheBlock>>,
                               answers: seq<seq<Byte>>, plain: seq<seq<Byte>>)
    requires OpsOk(torrents, ops)
  {
    && |cached| == |ops| == |answers| == |plain|
    && forall i :: 0 <= i < |ops| && Sees(torrents, cached[i], ops[i]) ==> answers[i] == plain[i]
  }

  lemma AgreeMore(torrents: Torrents, ops: seq<Op>, cached: seq<seq<CacheBlock>>, answers: seq<seq<Byte>>, plain: seq<seq<Byte>>,
                  i: nat, blocks: seq<CacheBlock>, answer: seq<Byte>, right: seq<Byte>)
    requires i < |ops| && OpsOk(torrents, ops) && OpsOk(torrents, ops[..i]) && OpsOk(torrents, ops[..i + 1])
    requires AnswersAgree(torrents, ops[..i], cached, answers, plain)
    requires Sees(torrents, blocks, ops[i]) ==> answer == right
    ensures AnswersAgree(torrents, ops[..i + 1], cached + [blocks], answers + [answer], plain + [right])
  {
  }

  /**
   * Caching is invisible: over every run of writes, reads, limit changes and
   * flushes, with any clock and any news of finished pieces, each read that
   * sees right at its time answers what a plain store would answer. `cached`
   * is what was in the cache before each operation.
   */
  method Replay(cache: Cache, ops: seq<Op>, clock: nat -> int, done: nat -> PieceDone)
    returns (answers: seq<seq<Byte>>, ghost cached: seq<seq<CacheBlock>>)
    requires cache.Valid() && OpsOk(cache.torrents, ops)
    modifies cache, cache.disks.Values
    ensures cache.Valid()
    ensures Seen(cache) == PlainRun(cache.torrents, old(Seen(cache)), ops).0
    ensures AnswersAgree(cache.torrents, ops, cached, answers, PlainRun(cache.torrents, old(Seen(cache)), ops).1)
    ensures Traced(cache.torrents, ops, cached + [cache.blocks]) && (cached + [cache.blocks])[0] == old(cache.blocks)
  {
    answers, cached := [], [];
    ghost var mem, first := Seen(cache), cache.blocks;
    for i := 0 to |ops|
      invariant cache.Valid()
      invariant OpsOk(cache.torrents, ops[..i]) && |cached| == i
      invariant Seen(cache) == PlainRun(cache.torrents, mem, ops[..i]).0
      invariant AnswersAgree(cache.torrents, ops[..i], cached, answers, PlainRun(cache.torrents, mem, ops[..i]).1)
      invariant Traced(cache.torrents, ops[..i], cached + [cache.blocks]) && (cached + [cache.blocks])[0] == first
    {
      PlainRunStep(cache.torrents, mem, ops, i);
      ghost var blocks := cache.blocks;
      var answer := Step(cache, ops[i], clock(i), done(i));
      AgreeMore(cache.torrents, ops, cached, answers, PlainRun(cache.torrents, mem, ops[..i]).1, i, blocks, answer,
                PlainAnswer(cache.torrents, PlainRun(cache.torrents, mem, ops[..i]).0, ops[i]));
      TracedMore(cache.torrents, ops, cached, i, blocks, cache.blocks);
      answers, cached := answers + [answer], cached + [blocks];
    }
    assert ops[..|ops|] == ops;
  }

  /** Every cache on the way is in order, and reads leave it as it is. */
  ghost predicate Traced(torrents: Torrents, ops: seq<Op>, cached: seq<seq<CacheBlock>>) {
    && |cached| == |ops| + 1
    && (forall i :: 0 <= i < |cached| ==> BlocksOk(torrents, cached[i]) && Sorted(cached[i]))
    && forall i :: 0 <= i < |ops| && ops[i].Read? ==> cached[i + 1] == cached[i]
  }

  lemma TracedMore(torrents: Torrents, ops: seq<Op>, cached: seq<seq<CacheBlock>>, i: nat, was: seq<CacheBlock>, now: seq<CacheBlock>)
    requires i < |ops| && Traced(torrents, ops[..i], cached + [was]) && BlocksOk(torrents, now) && Sorted(now)
    requires ops[i].Read? ==> now == was
    ensures Traced(torrents, ops[..i + 1], (cached + [was]) + [now])
  {
    var a, b := cached + [was], (cached + [was]) + [now];
    assert |a| == i + 1 && a[i] == was;
    forall j | 0 <= j < |ops[..i + 1]| && ops[..i + 1][j].Read?
      ensures b[j + 1] == b[j]
    {
      if j < i {
        assert ops[..i][j].Read? && a[j + 1] == a[j];
      }
    }
  }
}
