/**
 * Bandwidth limits in a tree: a transfer is clamped by every limited node on
 * the way up, and charged to all of them.
 */
module Bandwidths {
  datatype Direction = Up | Down

  /** One direction of one node. `charged` and `allotment` are for the proof: piece bytes since the last allocation. */
  datatype Band = Band(isLimited: bool, honorParentLimits: bool, bytesLeft: nat, desiredSpeed: nat)

  const UINT_RANGE: nat := 0x1_0000_0000

  function Min(a: nat, b: nat): nat { if a < b then a else b }

  /** What a limited band may use until the next allocation. The product is cut to an unsigned int before it is divided. */
  function Allotment(desiredSpeed: nat, periodMsec: nat): nat {
    (desiredSpeed * periodMsec) % UINT_RANGE / 1000
  }

  lemma Quotients(x: nat)
    ensures (x % UINT_RANGE) / 1000 == x / 1000 <==> x < UINT_RANGE
  {
    if x >= UINT_RANGE {
      var d := x - x % UINT_RANGE;
      assert d >= UINT_RANGE;
    }
  }

  /** So a fast band gets its speed's worth only if the product fits. */
  lemma AllotmentFits(desiredSpeed: nat, periodMsec: nat)
    ensures Allotment(desiredSpeed, periodMsec) == desiredSpeed * periodMsec / 1000
            <==> desiredSpeed * periodMsec < UINT_RANGE
  {
    Quotients(desiredSpeed * periodMsec);
  }

  /** Clamp harder when the measured speed comes close to the limit. */
  function Slowed(byteCount: nat, current: nat, desired: nat): (r: nat)
    ensures r <= byteCount
    ensures desired >= 1 && current > desired ==> r == 0
  {
    var ratio := Ratio(current, desired);
    if ratio > 1.0 then 0
    else if ratio > 0.9 then Scaled(byteCount, 0.8)
    else if ratio > 0.8 then Scaled(byteCount, 0.9)
    else byteCount
  }

  function Ratio(current: nat, desired: nat): (r: real)
    ensures desired >= 1 && current > desired ==> r > 1.0
  {
    if desired >= 1 then
      AboveOne(current as real, desired as real);
      current as real / desired as real
    else 0.0
  }

  lemma AboveOne(a: real, b: real)
    requires b >= 1.0
    ensures a > b ==> a / b > 1.0
  {
    var q := a / b;
    assert q * b == a;
    assert q <= 1.0 ==> q * b <= b;
  }

  function Scaled(byteCount: nat, factor: real): (r: nat)
    requires 0.0 <= factor <= 1.0
    ensures r <= byteCount
  {
    var product := byteCount as real * factor;
    assert 0.0 <= product <= byteCount as real;
    product.Floor
  }

  /** One node on the way up, as the clamp sees it: the speeds are those of the download direction, whichever way is clamped. */
  datatype Level = Level(band: Band, desired: nat, current: nat) {
    function Allows(byteCount: nat): (r: nat)
      ensures r <= byteCount && (band.isLimited ==> r <= band.bytesLeft)
    {
      if !band.isLimited then byteCount
      else if Min(byteCount, band.bytesLeft) == 0 then 0
      else Slowed(Min(byteCount, band.bytesLeft), current, desired)
    }

    /** Well below the speed limit. */
    predicate Calm() {
      Ratio(current, desired) <= 0.8
    }

    predicate Overrun() {
      desired >= 1 && current > desired
    }
  }

  /** What the nodes up the chain let through. */
  function ClampOver(levels: seq<Level>, byteCount: nat): nat
    requires levels != []
    decreases |levels|
  {
    var n := levels[0].Allows(byteCount);
    if |levels| > 1 && levels[0].band.honorParentLimits && n > 0 then ClampOver(levels[1..], n) else n
  }

  /** The `i`th limit counts: it is one, and everything below it honours its parent's limits. */
  ghost predicate Counts(levels: seq<Level>, i: nat) {
    i < |levels| && levels[i].band.isLimited && forall j :: 0 <= j < i ==> levels[j].band.honorParentLimits
  }

  lemma CountsAbove(levels: seq<Level>, i: nat)
    requires levels != []
    ensures |levels| > 1 && levels[0].band.honorParentLimits ==> Counts(levels[1..], i) == Counts(levels, i + 1)
    ensures !levels[0].band.honorParentLimits ==> !Counts(levels, i + 1)
  {
    if |levels| > 1 && levels[0].band.honorParentLimits && Counts(levels[1..], i) {
      forall j | 0 <= j < i + 1
        ensures levels[j].band.honorParentLimits
      {
        assert j > 0 ==> levels[j] == levels[1..][j - 1];
      }
    }
  }

  /** Never more than asked for, nor than any limit that counts has left; nothing where one is overrun. */
  lemma {:induction false} ClampBounds(levels: seq<Level>, byteCount: nat, i: nat)
    requires levels != [] && Counts(levels, i)
    ensures ClampOver(levels, byteCount) <= byteCount && ClampOver(levels, byteCount) <= levels[i].band.bytesLeft
    ensures levels[i].Overrun() ==> ClampOver(levels, byteCount) == 0
    decreases |levels|
  {
    var n := levels[0].Allows(byteCount);
    if i > 0 {
      CountsAbove(levels, i - 1);
      assert levels[0].band.honorParentLimits;
      ClampBounds(levels[1..], n, i - 1);
    } else {
      ClampShrinks(levels, byteCount);
    }
  }

  lemma {:induction false} ClampShrinks(levels: seq<Level>, byteCount: nat)
    requires levels != []
    ensures ClampOver(levels, byteCount) <= levels[0].Allows(byteCount)
    decreases |levels|
  {
    var n := levels[0].Allows(byteCount);
    if |levels| > 1 && levels[0].band.honorParentLimits && n > 0 {
      ClampShrinks(levels[1..], n);
    }
  }

  ghost predicate AllCalm(levels: seq<Level>) {
    forall i: nat :: Counts(levels, i) ==> levels[i].Calm()
  }

  ghost predicate LeftOfSome(levels: seq<Level>, n: nat) {
    exists i: nat :: Counts(levels, i) && n == levels[i].band.bytesLeft
  }

  /** Well below all limits, it is the least of what was asked for and what the limits that count have left. */
  lemma {:induction false} ClampIsLeast(levels: seq<Level>, byteCount: nat)
    requires levels != [] && AllCalm(levels)
    ensures ClampOver(levels, byteCount) == byteCount || LeftOfSome(levels, ClampOver(levels, byteCount))
    decreases |levels|
  {
    var n := levels[0].Allows(byteCount);
    assert levels[0].band.isLimited ==> Counts(levels, 0);
    assert n == byteCount || (Counts(levels, 0) && n == levels[0].band.bytesLeft);
    if |levels| > 1 && levels[0].band.honorParentLimits && n > 0 {
      forall i: nat | Counts(levels[1..], i)
        ensures levels[1..][i].Calm()
      {
        CountsAbove(levels, i);
        assert levels[1..][i] == levels[i + 1];
      }
      ClampIsLeast(levels[1..], n);
      if ClampOver(levels[1..], n) != n {
        var i: nat :| Counts(levels[1..], i) && levels[1..][i].band.bytesLeft == ClampOver(levels[1..], n);
        CountsAbove(levels, i);
        assert Counts(levels, i + 1) && levels[1..][i] == levels[i + 1];
      }
    }
  }

  /** Piece bytes charged to one direction of a limited node since the last allocation, and what was allotted then. */
  datatype Ledger = Ledger(charged: nat, allotted: nat)

  /** All that transfers change of a node. */
  datatype Account = Account(up: Band, down: Band, upLedger: Ledger, downLedger: Ledger) {
    function Of(dir: Direction): Band { if dir == Up then up else down }

    function LedgerOf(dir: Direction): Ledger { if dir == Up then upLedger else downLedger }

    /** What was charged and what is left is what was allotted. */
    predicate Balanced(dir: Direction) {
      LedgerOf(dir).charged + Of(dir).bytesLeft == LedgerOf(dir).allotted
    }

    /** What is left is what was allotted less what was charged, or nothing. */
    predicate Settled(dir: Direction) {
      Of(dir).bytesLeft == LedgerOf(dir).allotted - Min(LedgerOf(dir).allotted, LedgerOf(dir).charged)
    }
  }

  /** A band and its ledger after a transfer. */
  function Charged(band: Band, byteCount: nat, isPieceData: bool): Band {
    if band.isLimited && isPieceData then band.(bytesLeft := band.bytesLeft - Min(band.bytesLeft, byteCount)) else band
  }

  function Booked(band: Band, ledger: Ledger, byteCount: nat, isPieceData: bool): Ledger {
    if band.isLimited && isPieceData then Ledger(ledger.charged + byteCount, ledger.allotted) else ledger
  }

  function AfterUse(a: Account, dir: Direction, byteCount: nat, isPieceData: bool): Account {
    if dir == Up then
      a.(up := Charged(a.up, byteCount, isPieceData), upLedger := Booked(a.up, a.upLedger, byteCount, isPieceData))
    else
      a.(down := Charged(a.down, byteCount, isPieceData), downLedger := Booked(a.down, a.downLedger, byteCount, isPieceData))
  }

  class Bandwidth {
    var parent: Bandwidth?
    var up: Band
    var down: Band
    /** This node and its ancestors, upward. */
    ghost var chain: seq<Bandwidth>
    ghost var upLedger: Ledger
    ghost var downLedger: Ledger

    ghost function Nodes(): set<object>
      reads this
    {
      set b | b in chain
    }

    ghost predicate Valid()
      reads this, Nodes()
      decreases |chain|
    {
      && chain != [] && chain[0] == this
      && if parent == null then chain == [this]
         else
           && parent in chain && chain == [this] + parent.chain
           && parent.Nodes() <= Nodes()
           && this !in parent.chain && parent.Valid()
    }

    function BandOf(dir: Direction): Band
      reads this
    {
      if dir == Up then up else down
    }

    ghost function State(): Account
      reads this
    {
      Account(up, down, upLedger, downLedger)
    }

    constructor ()
      ensures Valid() && chain == [this] && parent == null
      ensures up == down == Band(false, true, 0, 0) && upLedger == downLedger == Ledger(0, 0)
    {
      parent := null;
      up := Band(false, true, 0, 0);
      down := Band(false, true, 0, 0);
      upLedger := Ledger(0, 0);
      downLedger := Ledger(0, 0);
      new;
      chain := [this];
    }

    /** tr_bandwidthSetParent() on a node without children; where the node stands among the parent's children is left out. */
    method SetParent(newParent: Bandwidth?)
      requires newParent != null ==> newParent.Valid() && this !in newParent.chain
      modifies `parent, `chain
      ensures Valid() && parent == newParent && chain == [this] + if newParent == null then [] else newParent.chain
    {
      parent := newParent;
      if newParent == null {
        chain := [this];
      } else {
        chain := [this] + newParent.chain;
        assert newParent == newParent.chain[0] == chain[1];
      }
    }

    /** The chain as the clamp sees it, given the speeds measured along it. */
    ghost function Levels(dir: Direction, speeds: seq<nat>): (r: seq<Level>)
      reads this, Nodes()
      requires |speeds| == |chain|
      ensures |r| == |chain|
    {
      seq(|chain|, i requires 0 <= i < |chain| && |speeds| == |chain| reads this, Nodes() =>
        Level(chain[i].BandOf(dir), chain[i].down.desiredSpeed, speeds[i]))
    }

    /** tr_bandwidthClamp(), given the speeds measured along the chain. */
    method Clamp(dir: Direction, byteCount: nat, speeds: seq<nat>) returns (n: nat)
      requires Valid() && |speeds| == |chain|
      ensures n == ClampOver(Levels(dir, speeds), byteCount)
      decreases |chain|
    {
      n := byteCount;
      if BandOf(dir).isLimited {
        n := Min(n, BandOf(dir).bytesLeft);
        if n > 0 {
          n := Slowed(n, speeds[0], down.desiredSpeed);
        }
      }
      if parent != null && BandOf(dir).honorParentLimits && n > 0 {
        assert Levels(dir, speeds)[1..] == parent.Levels(dir, speeds[1..]);
        n := parent.Clamp(dir, n, speeds[1..]);
      }
    }

    /** What is done to one node. */
    method UseHere(dir: Direction, byteCount: nat, isPieceData: bool)
      modifies `up, `down, `upLedger, `downLedger
      ensures State() == AfterUse(old(State()), dir, byteCount, isPieceData)
    {
      if dir == Up {
        upLedger := Booked(up, upLedger, byteCount, isPieceData);
        up := Charged(up, byteCount, isPieceData);
      } else {
        downLedger := Booked(down, downLedger, byteCount, isPieceData);
        down := Charged(down, byteCount, isPieceData);
      }
    }

    /** tr_bandwidthUsed(): the bytes left of every limited node up the chain go down, but not below zero. */
    method Used(dir: Direction, byteCount: nat, isPieceData: bool)
      requires Valid()
      modifies Nodes()
      ensures Valid() && chain == old(chain)
      ensures forall i :: 0 <= i < |chain| ==>
                chain[i].State() == AfterUse(old(chain[i].State()), dir, byteCount, isPieceData)
                && chain[i].chain == old(chain[i].chain) && chain[i].parent == old(chain[i].parent)
      decreases |chain|
    {
      UseHere(dir, byteCount, isPieceData);
      if parent != null {
        parent.Used(dir, byteCount, isPieceData);
        assert forall i :: 0 < i < |chain| ==> chain[i] == parent.chain[i - 1];
      }
    }

    /** tr_bandwidthAllocate()'s share for this node: its limit starts anew. */
    method Allot(dir: Direction, periodMsec: nat)
      modifies `up, `down, `upLedger, `downLedger
      ensures parent == old(parent) && chain == old(chain)
      ensures BandOf(dir).isLimited ==> State().Balanced(dir)
      ensures State().LedgerOf(dir).charged == 0 || !BandOf(dir).isLimited
      ensures BandOf(dir) == if old(BandOf(dir)).isLimited
                             then old(BandOf(dir)).(bytesLeft := Allotment(old(BandOf(dir)).desiredSpeed, periodMsec))
                             else old(BandOf(dir))
      ensures State().Of(if dir == Up then Down else Up) == old(State()).Of(if dir == Up then Down else Up)
    {
      var band := BandOf(dir);
      if band.isLimited {
        band := band.(bytesLeft := Allotment(band.desiredSpeed, periodMsec));
        if dir == Up {
          up, upLedger := band, Ledger(0, band.bytesLeft);
        } else {
          down, downLedger := band, Ledger(0, band.bytesLeft);
        }
      }
    }

    /** The `i`th limit up the chain counts: everything below it honours its parent's limits. */
    ghost predicate Honoured(dir: Direction, i: nat)
      reads this, Nodes()
      requires i < |chain|
    {
      forall j :: 0 <= j < i ==> chain[j].BandOf(dir).honorParentLimits
    }

    /** One piece transfer of at most what the clamp allowed: it fits every limit that counts, and is charged to all. */
    method Transfer(dir: Direction, wanted: nat, sent: nat, speeds: seq<nat>) returns (moved: nat)
      requires Valid() && |speeds| == |chain|
      modifies Nodes()
      ensures Valid() && chain == old(chain)
      ensures moved == Min(ClampOver(old(Levels(dir, speeds)), wanted), sent)
      ensures forall i :: 0 <= i < |chain| && old(Honoured(dir, i)) && old(chain[i].BandOf(dir).isLimited)
                ==> moved <= old(chain[i].BandOf(dir).bytesLeft)
      ensures forall i :: 0 <= i < |chain| ==>
                chain[i].State() == AfterUse(old(chain[i].State()), dir, moved, true)
                && chain[i].chain == old(chain[i].chain) && chain[i].parent == old(chain[i].parent)
    {
      var allowed := Clamp(dir, wanted, speeds);
      moved := Min(allowed, sent);
      forall i | 0 <= i < |chain| && Honoured(dir, i) && chain[i].BandOf(dir).isLimited
        ensures moved <= chain[i].BandOf(dir).bytesLeft
      {
        assert Counts(Levels(dir, speeds), i);
        ClampBounds(Levels(dir, speeds), wanted, i);
      }
      Used(dir, moved, true);
    }
  }

  /** Books stay balanced just if the transfer is no more than what is left, which is what clamping and honouring secure. */
  lemma UseBalances(a: Account, dir: Direction, byteCount: nat)
    requires a.Of(dir).isLimited ==> a.Balanced(dir)
    ensures a.Of(dir).isLimited
            ==> (AfterUse(a, dir, byteCount, true).Balanced(dir) <==> byteCount <= a.Of(dir).bytesLeft)
  {
  }

  /** Whatever is charged, a limited node is left with what it was allotted less that, or with nothing. */
  lemma UseSettles(a: Account, dir: Direction, byteCount: nat)
    requires a.Of(dir).isLimited && a.Settled(dir)
    ensures AfterUse(a, dir, byteCount, true).Settled(dir)
  {
  }
}
