/**
 * Byte extents laid over a flat byte string: what a reader should see when
 * some bytes are newer in a cache than on disk.
 */
module Overlay {
  import opened Geometry
  import opened PtrArray
  import opened Storage

  /** Bytes that replace those of torrent `tor` from offset `start` on. */
  datatype Extent = Extent(tor: int, start: nat, data: seq<Byte>) {
    function End(): nat { start + |data| }

    predicate Covers(id: int, g: int) { tor == id && start <= g < End() }
  }

  /** Extents of one torrent lie in order and do not overlap. */
  ghost predicate Apart(es: seq<Extent>) {
    forall i, j :: 0 <= i < j < |es| && es[i].tor == es[j].tor ==> es[i].End() <= es[j].start
  }

  ghost predicate Inside(es: seq<Extent>, id: int, size: nat) {
    forall i :: 0 <= i < |es| && es[i].tor == id ==> es[i].End() <= size
  }

  /** Byte `g` of torrent `id`: from the extent that covers it, else from below. */
  ghost function ByteAt(es: seq<Extent>, id: int, flat: seq<Byte>, g: nat): Byte
    requires g < |flat|
  {
    if exists e :: e in es && e.Covers(id, g) then
      var e :| e in es && e.Covers(id, g);
      e.data[g - e.start]
    else
      flat[g]
  }

  ghost function View(es: seq<Extent>, id: int, flat: seq<Byte>): (r: seq<Byte>)
    ensures |r| == |flat|
  {
    seq(|flat|, g requires 0 <= g < |flat| => ByteAt(es, id, flat, g))
  }

  lemma CoverUnique(es: seq<Extent>, id: int, g: nat, d: Extent, e: Extent)
    requires Apart(es) && d in es && e in es && d.Covers(id, g) && e.Covers(id, g)
    ensures d == e
  {
    var i :| 0 <= i < |es| && es[i] == d;
    var j :| 0 <= j < |es| && es[j] == e;
  }

  lemma Covered(es: seq<Extent>, id: int, flat: seq<Byte>, e: Extent, g: nat)
    requires Apart(es) && e in es && g < |flat| && e.Covers(id, g)
    ensures View(es, id, flat)[g] == e.data[g - e.start]
  {
    var d :| d in es && d.Covers(id, g) && ByteAt(es, id, flat, g) == d.data[g - d.start];
    CoverUnique(es, id, g, d, e);
  }

  /** Where no extent reaches, the view is what lies below. */
  lemma ViewBeside(es: seq<Extent>, id: int, flat: seq<Byte>, lo: nat, hi: nat)
    requires lo <= hi <= |flat|
    requires forall i :: 0 <= i < |es| && es[i].tor == id ==> es[i].End() <= lo || hi <= es[i].start
    ensures View(es, id, flat)[lo..hi] == flat[lo..hi]
  {
  }

  /** The byte is covered by no extent at all. */
  ghost predicate Bare(es: seq<Extent>, id: int, g: nat) {
    forall e :: e in es ==> !e.Covers(id, g)
  }

  lemma ApartErase(es: seq<Extent>, begin: nat, end: nat)
    requires Apart(es) && begin <= end <= |es|
    ensures Apart(Erase(es, begin, end))
  {
  }

  /** A new extent hides exactly the bytes it covers. */
  lemma ViewAfterInsert(es: seq<Extent>, id: int, flat: seq<Byte>, pos: nat, e: Extent)
    requires pos <= |es| && Apart(Insert(es, e, pos)) && Inside(Insert(es, e, pos), id, |flat|)
    ensures e.tor == id ==>
              && e.End() <= |flat|
              && View(Insert(es, e, pos), id, flat) == Splice(View(es, id, flat), e.start, e.data)
    ensures e.tor != id ==> View(Insert(es, e, pos), id, flat) == View(es, id, flat)
  {
    assert Insert(es, e, pos)[pos] == e;
    forall g | 0 <= g < |flat|
      ensures View(Insert(es, e, pos), id, flat)[g]
              == if e.Covers(id, g) then e.data[g - e.start] else View(es, id, flat)[g]
    {
      ByteAfterInsert(es, id, flat, pos, e, g);
    }
  }

  lemma ByteAfterInsert(es: seq<Extent>, id: int, flat: seq<Byte>, pos: nat, e: Extent, g: nat)
    requires pos <= |es| && Apart(Insert(es, e, pos)) && g < |flat|
    ensures View(Insert(es, e, pos), id, flat)[g]
            == if e.Covers(id, g) then e.data[g - e.start] else View(es, id, flat)[g]
  {
    var es' := Insert(es, e, pos);
    ApartErase(es', pos, pos + 1);
    assert Erase(es', pos, pos + 1) == es;
    InsertMembers(es, e, pos);
    if e.Covers(id, g) {
      Covered(es', id, flat, e, g);
    } else if Bare(es, id, g) {
      assert Bare(es', id, g);
    } else {
      var d :| d in es && d.Covers(id, g);
      Covered(es, id, flat, d, g);
      Covered(es', id, flat, d, g);
    }
  }

  /** New data in place of an extent's old data, at the same position. */
  lemma ViewAfterReplace(es: seq<Extent>, id: int, flat: seq<Byte>, pos: nat, data: seq<Byte>)
    requires pos < |es| && |data| == |es[pos].data| && Apart(es) && Inside(es, id, |flat|)
    ensures var es' := es[pos := es[pos].(data := data)];
            && Apart(es') && Inside(es', id, |flat|)
            && (es[pos].tor == id ==>
                  es[pos].End() <= |flat| && View(es', id, flat) == Splice(View(es, id, flat), es[pos].start, data))
            && (es[pos].tor != id ==> View(es', id, flat) == View(es, id, flat))
  {
    var e := es[pos].(data := data);
    var es' := es[pos := e];
    forall g | 0 <= g < |flat|
      ensures View(es', id, flat)[g] == if e.Covers(id, g) then data[g - e.start] else View(es, id, flat)[g]
    {
      if e.Covers(id, g) {
        Covered(es', id, flat, es'[pos], g);
      } else if i :| 0 <= i < |es| && es[i].Covers(id, g) {
        Covered(es, id, flat, es[i], g);
        Covered(es', id, flat, es'[i], g);
      } else {
        assert Bare(es, id, g) && Bare(es', id, g);
      }
    }
  }

  // ---- runs of touching extents -------------------------------------------

  /** Each extent starts where the one before it ends. */
  ghost predicate Touching(es: seq<Extent>) {
    forall i :: 0 < i < |es| ==> es[i].tor == es[0].tor && es[i].start == es[i - 1].End()
  }

  function Joined(es: seq<Extent>): seq<Byte> {
    if es == [] then [] else Joined(es[..|es| - 1]) + es[|es| - 1].data
  }

  lemma JoinedStep(es: seq<Extent>, i: nat)
    requires i < |es|
    ensures Joined(es[..i + 1]) == Joined(es[..i]) + es[i].data
  {
    assert es[..i + 1][..i] == es[..i];
  }

  lemma {:induction false} JoinedLength(es: seq<Extent>)
    requires es != [] && Touching(es)
    ensures es[0].start + |Joined(es)| == es[|es| - 1].End()
  {
    if |es| > 1 {
      JoinedLength(es[..|es| - 1]);
    } else {
      assert Joined(es[..0]) == [];
    }
  }

  /** A byte lies under the joined data just if one of the extents covers it, with the same value. */
  lemma {:induction false} JoinedByte(es: seq<Extent>, g: nat) returns (i: nat)
    requires es != [] && Touching(es)
    requires es[0].start <= g < es[0].start + |Joined(es)|
    ensures i < |es| && es[i].Covers(es[0].tor, g)
    ensures Joined(es)[g - es[0].start] == es[i].data[g - es[i].start]
  {
    var last := |es| - 1;
    JoinedLength(es);
    if last > 0 {
      JoinedLength(es[..last]);
      if g < es[last].start {
        i := JoinedByte(es[..last], g);
      } else {
        i := last;
      }
    } else {
      assert Joined(es[..0]) == [];
      i := 0;
    }
  }

  lemma {:induction false} TouchingInside(es: seq<Extent>, i: nat)
    requires Touching(es) && i < |es|
    ensures es[i].tor == es[0].tor && es[0].start <= es[i].start
    ensures es[i].End() <= es[0].start + |Joined(es)|
  {
    JoinedLength(es[..i + 1]);
    JoinedLength(es);
    EndsAscend(es, i, |es| - 1);
  }

  lemma {:induction false} EndsAscend(es: seq<Extent>, i: nat, j: nat)
    requires Touching(es) && i <= j < |es|
    ensures es[i].End() <= es[j].End()
  {
    if i < j {
      EndsAscend(es, i, j - 1);
    }
  }

  /**
   * Moving a run of touching extents down into the flat bytes, as one write,
   * leaves the view of every torrent as it was.
   */
  lemma FlushKeepsView(es: seq<Extent>, run: seq<Extent>, rest: seq<Extent>, flat: seq<Byte>, pos: nat, n: nat,
                       id: int, start: nat, data: seq<Byte>)
    requires Apart(es) && Inside(es, id, |flat|)
    requires 0 < n && pos + n <= |es| && run == es[pos..pos + n] && rest == Erase(es, pos, pos + n)
    requires Touching(run) && id == run[0].tor && start == run[0].start && data == Joined(run)
    ensures start + |data| <= |flat|
    ensures View(rest, id, Splice(flat, start, data)) == View(es, id, flat)
  {
    JoinedLength(run);
    TouchingInside(run, n - 1);
    assert run[n - 1] == es[pos + n - 1];
    ApartErase(es, pos, pos + n);
    EraseMembers(es, pos, pos + n);
    var below := Splice(flat, start, data);
    forall g | 0 <= g < |flat|
      ensures View(rest, id, below)[g] == View(es, id, flat)[g]
    {
      forall d, e | d in run && e in rest
        ensures !(d.Covers(id, g) && e.Covers(id, g))
      {
        if d.Covers(id, g) {
          NotErased(es, pos, n, id, g, d, e);
        }
      }
      SameByte(es, rest, run, id, flat, below, g);
    }
  }

  /** The byte at `g` before and after the extents of `run` have gone down into `below`. */
  lemma SameByte(es: seq<Extent>, rest: seq<Extent>, run: seq<Extent>, id: int, flat: seq<Byte>, below: seq<Byte>, g: nat)
    requires Apart(es) && Apart(rest) && run != [] && Touching(run) && run[0].tor == id
    requires forall e :: e in es <==> e in rest || e in run
    requires forall d, e :: d in run && e in rest ==> !(d.Covers(id, g) && e.Covers(id, g))
    requires g < |flat| == |below|
    requires below[g] == if run[0].start <= g < run[0].start + |Joined(run)| then Joined(run)[g - run[0].start] else flat[g]
    ensures View(rest, id, below)[g] == View(es, id, flat)[g]
  {
    if run[0].start <= g < run[0].start + |Joined(run)| {
      var i := JoinedByte(run, g);
      Covered(es, id, flat, run[i], g);
      assert Bare(rest, id, g);
    } else {
      RunBare(run, g);
      if Bare(rest, id, g) {
        assert Bare(es, id, g);
      } else {
        var e :| e in rest && e.Covers(id, g);
        Covered(rest, id, below, e, g);
        Covered(es, id, flat, e, g);
      }
    }
  }

  lemma RunBare(run: seq<Extent>, g: nat)
    requires run != [] && Touching(run)
    requires !(run[0].start <= g < run[0].start + |Joined(run)|)
    ensures Bare(run, run[0].tor, g)
  {
    forall e | e in run
      ensures !e.Covers(run[0].tor, g)
    {
      var i :| 0 <= i < |run| && run[i] == e;
      TouchingInside(run, i);
    }
  }

  lemma NotErased(es: seq<Extent>, pos: nat, n: nat, id: int, g: nat, d: Extent, e: Extent)
    requires Apart(es) && pos + n <= |es|
    requires d in es[pos..pos + n] && d.Covers(id, g) && e in Erase(es, pos, pos + n)
    ensures !e.Covers(id, g)
  {
    var i :| 0 <= i < n && es[pos..pos + n][i] == d;
    var k :| 0 <= k < |es| - n && Erase(es, pos, pos + n)[k] == e;
    var j := if k < pos then k else k + n;
    assert es[j] == e && es[pos + i] == d && j != pos + i;
  }

  /** Extents of another torrent make no difference. */
  lemma FlushKeepsOthers(es: seq<Extent>, id: int, flat: seq<Byte>, pos: nat, n: nat)
    requires Apart(es) && pos + n <= |es|
    requires forall i :: pos <= i < pos + n ==> es[i].tor != id
    ensures View(Erase(es, pos, pos + n), id, flat) == View(es, id, flat)
  {
    var rest := Erase(es, pos, pos + n);
    ApartErase(es, pos, pos + n);
    EraseMembers(es, pos, pos + n);
    forall g | 0 <= g < |flat|
      ensures View(rest, id, flat)[g] == View(es, id, flat)[g]
    {
      if Bare(rest, id, g) {
        assert Bare(es, id, g);
      } else {
        var e :| e in rest && e.Covers(id, g);
        Covered(rest, id, flat, e, g);
        Covered(es, id, flat, e, g);
      }
    }
  }
}
