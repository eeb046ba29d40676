/**
 * The address blocklist: ranges are sorted, merged in place behind a moving
 * keep position, and searched by bisection.
 */
module Blocklist {
  import opened PtrArray
  import opened Sorting

  /** An IPv4 address in host order. */
  type Address = a: int | 0 <= a < 0x1_0000_0000

  /** Both ends are in the range; nothing makes `begin` the lower one. */
  datatype IpRange = IpRange(begin: Address, end: Address) {
    predicate Has(a: Address) { begin <= a <= end }
  }

  function CompareByFirstAddress(a: IpRange, b: IpRange): int {
    if a.begin != b.begin then (if a.begin < b.begin then -1 else 1) else 0
  }

  function CompareAddressToRange(a: Address, r: IpRange): int {
    if a < r.begin then -1 else if a > r.end then 1 else 0
  }

  /** Some range has the address. */
  predicate Blocked(ranges: seq<IpRange>, a: Address) {
    exists i :: 0 <= i < |ranges| && ranges[i].Has(a)
  }

  /** No range is upside down. */
  predicate Proper(ranges: seq<IpRange>) {
    forall r :: r in ranges ==> r.begin <= r.end
  }

  predicate Ascending(ranges: seq<IpRange>) {
    forall i, j :: 0 <= i < j < |ranges| ==> ranges[i].begin <= ranges[j].begin
  }

  /** Each range ends before the later ones begin. */
  predicate Separate(ranges: seq<IpRange>) {
    forall i, j :: 0 <= i < j < |ranges| ==> ranges[i].end < ranges[j].begin
  }

  // ---- sorting ------------------------------------------------------------

  lemma OrderTotal(all: set<IpRange>)
    ensures Total(CompareByFirstAddress, all) && Transitive(CompareByFirstAddress, all)
  {
  }

  lemma SortedAscends(s: seq<IpRange>)
    requires SortedBy(s, CompareByFirstAddress)
    ensures Ascending(s)
  {
    forall i, j | 0 <= i < j < |s|
      ensures s[i].begin <= s[j].begin
    {
      SortedAt(s, CompareByFirstAddress, i, j);
    }
  }

  lemma SameBlocked(s: seq<IpRange>, t: seq<IpRange>)
    requires forall r :: r in s <==> r in t
    ensures forall a: Address :: Blocked(s, a) <==> Blocked(t, a)
  {
    forall a: Address
      ensures Blocked(s, a) <==> Blocked(t, a)
    {
      if Blocked(s, a) {
        var i :| 0 <= i < |s| && s[i].Has(a);
        assert s[i] in t;
      }
      if Blocked(t, a) {
        var i :| 0 <= i < |t| && t[i].Has(a);
        assert t[i] in s;
      }
    }
  }

  /** qsort() on the rules */
  method SortRanges(ranges: array<IpRange>)
    modifies ranges
    ensures Ascending(ranges[..]) && multiset(ranges[..]) == old(multiset(ranges[..]))
    ensures forall a: Address :: Blocked(ranges[..], a) <==> Blocked(old(ranges[..]), a)
  {
    ghost var was := ranges[..];
    var sorted := QSort(ranges[..], CompareByFirstAddress);
    SameMembers(sorted, was);
    var all := set r | r in was;
    OrderTotal(all);
    QSortSorted(was, CompareByFirstAddress, all);
    SortedAscends(sorted);
    SameBlocked(sorted, was);
    forall i | 0 <= i < ranges.Length {
      ranges[i] := sorted[i];
    }
    assert ranges[..] == sorted;
  }

  // ---- merging ------------------------------------------------------------

  /** What the merge has made of the first `done` rules: they stand in `kept`, none of which begins after the rest. */
  ghost predicate Merged(was: seq<IpRange>, kept: seq<IpRange>, done: nat)
    requires done <= |was|
  {
    && kept != [] && Ascending(kept) && Separate(kept)
    && (forall k, r :: 0 <= k < |kept| && done <= r < |was| ==> kept[k].begin <= was[r].begin)
    && forall a: Address :: Blocked(kept, a) <==> Blocked(was[..done], a)
  }

  lemma MergeFirst(was: seq<IpRange>)
    requires was != [] && Ascending(was)
    ensures Merged(was, was[..1], 1)
  {
  }

  lemma BlockedLast(s: seq<IpRange>, r: IpRange, a: Address)
    ensures Blocked(s + [r], a) <==> Blocked(s, a) || r.Has(a)
  {
    if Blocked(s, a) {
      var i :| 0 <= i < |s| && s[i].Has(a);
      assert (s + [r])[i].Has(a);
    }
    if r.Has(a) {
      assert (s + [r])[|s|].Has(a);
    }
  }

  lemma TakeNext(was: seq<IpRange>, done: nat, a: Address)
    requires done < |was|
    ensures Blocked(was[..done + 1], a) <==> Blocked(was[..done], a) || was[done].Has(a)
  {
    assert was[..done + 1] == was[..done] + [was[done]];
    BlockedLast(was[..done], was[done], a);
  }

  lemma MergeAppend(was: seq<IpRange>, kept: seq<IpRange>, done: nat)
    requires done < |was| && Ascending(was) && Merged(was, kept, done)
    requires kept[|kept| - 1].end < was[done].begin
    ensures Merged(was, kept + [was[done]], done + 1)
  {
    forall a: Address
      ensures Blocked(kept + [was[done]], a) <==> Blocked(was[..done + 1], a)
    {
      BlockedLast(kept, was[done], a);
      TakeNext(was, done, a);
    }
    AppendSeparate(kept, was[done]);
  }

  lemma AppendSeparate(kept: seq<IpRange>, r: IpRange)
    requires kept != [] && Ascending(kept) && Separate(kept)
    requires kept[|kept| - 1].begin <= r.begin && kept[|kept| - 1].end < r.begin
    ensures Ascending(kept + [r]) && Separate(kept + [r])
  {
    forall i, j | 0 <= i < j < |kept + [r]|
      ensures (kept + [r])[i].end < (kept + [r])[j].begin && (kept + [r])[i].begin <= (kept + [r])[j].begin
    {
      if j == |kept| && i < |kept| - 1 {
        assert kept[i].end < kept[|kept| - 1].begin;
      }
    }
  }

  /** The last kept range is stretched to `end`, or left as it is. */
  lemma MergeStretch(was: seq<IpRange>, kept: seq<IpRange>, done: nat, last: IpRange)
    requires done < |was| && Ascending(was) && Merged(was, kept, done)
    requires kept[|kept| - 1].end >= was[done].begin
    requires last.begin == kept[|kept| - 1].begin
    requires last.end == if kept[|kept| - 1].end < was[done].end then was[done].end else kept[|kept| - 1].end
    ensures Merged(was, kept[|kept| - 1 := last], done + 1)
  {
    var n := |kept| - 1;
    var now := kept[n := last];
    assert kept == kept[..n] + [kept[n]] && now == kept[..n] + [last];
    forall a: Address
      ensures Blocked(now, a) <==> Blocked(was[..done + 1], a)
    {
      BlockedLast(kept[..n], kept[n], a);
      BlockedLast(kept[..n], last, a);
      TakeNext(was, done, a);
    }
  }

  /** One pass of the merge loop: rule `r` is kept, or swallowed by the last one kept. */
  method MergePass(ranges: array<IpRange>, keep: nat, r: nat, ghost was: seq<IpRange>) returns (last: nat)
    requires keep < r < ranges.Length == |was| && Ascending(was)
    requires ranges[r..] == was[r..] && Merged(was, ranges[..keep + 1], r)
    modifies ranges
    ensures keep <= last <= r && ranges[r + 1..] == was[r + 1..]
    ensures Merged(was, ranges[..last + 1], r + 1)
    ensures Proper(was) && Proper(old(ranges[..keep + 1])) ==> Proper(ranges[..last + 1])
  {
    ghost var kept := ranges[..keep + 1];
    assert ranges[r] == ranges[r..][0] == was[r];
    if ranges[keep].end < ranges[r].begin {
      MergeAppend(was, kept, r);
      last := keep + 1;
      ranges[last] := ranges[r];
      assert ranges[..last + 1] == kept + [was[r]];
    } else {
      last := keep;
      if ranges[keep].end < ranges[r].end {
        ranges[keep] := IpRange(ranges[keep].begin, ranges[r].end);
      }
      MergeStretch(was, kept, r, ranges[keep]);
      assert ranges[..last + 1] == kept[keep := ranges[keep]];
    }
    assert ranges[r + 1..] == was[r..][1..];
  }

  /** The merge loop, in place: `keep` is the last rule kept. */
  method MergeRanges(ranges: array<IpRange>) returns (count: nat)
    requires ranges.Length > 0 && Ascending(ranges[..])
    modifies ranges
    ensures 0 < count <= ranges.Length
    ensures Ascending(ranges[..count]) && Separate(ranges[..count])
    ensures forall a: Address :: Blocked(ranges[..count], a) <==> Blocked(old(ranges[..]), a)
    ensures Proper(old(ranges[..])) ==> Proper(ranges[..count])
  {
    ghost var was := ranges[..];
    var keep := 0;
    MergeFirst(was);
    assert ranges[..1] == was[..1];
    for r := 1 to ranges.Length
      invariant 0 <= keep < r && ranges[r..] == was[r..]
      invariant Merged(was, ranges[..keep + 1], r)
      invariant Proper(was) ==> Proper(ranges[..keep + 1])
    {
      keep := MergePass(ranges, keep, r, was);
    }
    assert was[..ranges.Length] == was;
    count := keep + 1;
  }

  // ---- lookup -------------------------------------------------------------

  /** bsearch() for the range that has an address */
  method Lookup(rules: seq<IpRange>, a: Address) returns (found: bool)
    requires Ascending(rules) && Separate(rules)
    ensures found <==> Blocked(rules, a)
  {
    var low, high := 0, |rules|;
    while low < high
      invariant 0 <= low <= high <= |rules|
      invariant forall i :: 0 <= i < low || high <= i < |rules| ==> !rules[i].Has(a)
    {
      var mid := (low + high) / 2;
      var c := CompareAddressToRange(a, rules[mid]);
      if c == 0 {
        return true;
      } else if c < 0 {
        high := mid;
      } else {
        low := mid + 1;
      }
    }
    found := false;
  }

  /** _tr_blocklistSetContent() on parsed rules */
  method SetContent(ranges: array<IpRange>) returns (rules: seq<IpRange>)
    modifies ranges
    ensures Ascending(rules) && Separate(rules)
    ensures forall a: Address :: Blocked(rules, a) <==> Blocked(old(ranges[..]), a)
    ensures Proper(old(ranges[..])) ==> Proper(rules)
  {
    if ranges.Length == 0 {
      return [];
    }
    ghost var was := ranges[..];
    SortRanges(ranges);
    SameMembers(ranges[..], was);
    var count := MergeRanges(ranges);
    rules := ranges[..count];
  }
}
