/**
 * Printing puts a tree into a normal form: keys ascending, nothing else
 * changed. Only qsort's promises are used, so keys have to be distinct.
 */
module BencodeCanon {
  import opened BencodeText
  import opened Bencode
  import opened BencodeWalk
  import opened BencodePrint
  import opened PtrArray
  import opened Sorting

  // ---- key order ----------------------------------------------------------

  lemma {:induction false} StrCmpOrder(a: Text, b: Text)
    ensures StrCmp(a, b) == 0 <==> a == b
    ensures StrCmp(a, b) < 0 <==> StrCmp(b, a) > 0
  {
    if a != [] && b != [] && a[0] == b[0] {
      StrCmpOrder(a[1..], b[1..]);
      assert a == [a[0]] + a[1..] && b == [b[0]] + b[1..];
    }
  }

  lemma {:induction false} StrCmpTransitive(a: Text, b: Text, c: Text)
    requires StrCmp(a, b) <= 0 && StrCmp(b, c) <= 0
    ensures StrCmp(a, c) <= 0
  {
    if a != [] && b != [] && c != [] && a[0] == b[0] == c[0] {
      StrCmpTransitive(a[1..], b[1..], c[1..]);
    }
  }

  lemma KeyOrderTotal(items: seq<Benc>, all: set<nat>)
    ensures Total(KeyOrder(items), all) && Transitive(KeyOrder(items), all)
  {
    var compare := KeyOrder(items);
    forall i, j | i in all && j in all
      ensures compare(i, j) <= 0 || compare(j, i) <= 0
    {
      StrCmpOrder(KeyAt(items, i), KeyAt(items, j));
    }
    forall i, j, k | i in all && j in all && k in all && compare(i, j) <= 0 && compare(j, k) <= 0
      ensures compare(i, k) <= 0
    {
      StrCmpTransitive(KeyAt(items, i), KeyAt(items, j), KeyAt(items, k));
    }
  }

  // ---- trees whose keys are distinct --------------------------------------

  predicate IsKeyAt(items: seq<Benc>, i: nat) { i < |items| && i % 2 == 0 }

  /** The keys are strings without NULs, no two of them alike. */
  ghost predicate DictKeys(items: seq<Benc>) {
    && |items| % 2 == 0
    && (forall i: nat :: IsKeyAt(items, i) ==> items[i].Str? && NUL !in items[i].s)
    && forall i: nat, j: nat :: IsKeyAt(items, i) && IsKeyAt(items, j) && i != j ==> items[i] != items[j]
  }

  ghost predicate KeysOk(v: Benc) {
    match v
    case List(items) => forall c :: c in items ==> KeysOk(c)
    case Dict(items) => DictKeys(items) && forall c :: c in items ==> KeysOk(c)
    case _ => true
  }

  /** The keys ascend strictly. */
  ghost predicate Ascending(items: seq<Benc>) {
    forall i: nat, j: nat :: i < j && IsKeyAt(items, i) && IsKeyAt(items, j)
      ==> StrCmp(KeyAt(items, i), KeyAt(items, j)) < 0
  }

  /** Normal form: integers, strings, and containers with ascending keys. */
  ghost predicate Canonical(v: Benc) {
    match v
    case Bool(_) => false
    case List(items) => forall c :: c in items ==> Canonical(c)
    case Dict(items) =>
      && |items| % 2 == 0
      && (forall i: nat :: IsKeyAt(items, i) ==> items[i].Str?)
      && Ascending(items)
      && forall c :: c in items ==> Canonical(c)
    case _ => true
  }

  lemma {:induction false} KeysOkProper(v: Benc)
    requires KeysOk(v)
    ensures Proper(v)
  {
    if IsContainer(v) {
      forall c | c in v.items
        ensures Proper(c)
      {
        KeysOkProper(c);
      }
      if v.Dict? {
        assert forall i :: 0 <= i < |v.items| && i % 2 == 0 ==> IsKeyAt(v.items, i);
      }
    }
  }

  lemma {:induction false} CanonicalProper(v: Benc)
    requires Canonical(v)
    ensures Proper(v)
  {
    if IsContainer(v) {
      forall c | c in v.items
        ensures Proper(c)
      {
        CanonicalProper(c);
      }
      if v.Dict? {
        assert forall i :: 0 <= i < |v.items| && i % 2 == 0 ==> IsKeyAt(v.items, i);
      }
    }
  }

  lemma NulFreeCString(s: Text)
    requires NUL !in s
    ensures CString(s) == s
  {
    assert IndexOf(s, NUL, 0) == |s|;
  }

  lemma DistinctKeyOrder(items: seq<Benc>, i: nat, j: nat)
    requires DictKeys(items) && IsKeyAt(items, i) && IsKeyAt(items, j) && i != j
    ensures StrCmp(KeyAt(items, i), KeyAt(items, j)) != 0
  {
    NulFreeCString(items[i].s);
    NulFreeCString(items[j].s);
    StrCmpOrder(items[i].s, items[j].s);
  }

  // ---- the children of a tree in normal form ------------------------------

  lemma {:induction false} CanonAllAt(v: Benc, order: seq<nat>, k: nat)
    requires Proper(v) && IndexList(order, |Children(v)|) && k < |order|
    ensures Children(v)[order[k]] in Children(v)
    ensures CanonAll(v, order)[k] == Canon(Children(v)[order[k]])
  {
    assert Children(v)[order[k]] in Children(v);
    if k > 0 {
      CanonAllAt(v, order[1..], k - 1);
    }
  }

  lemma {:induction false} PairedAt(keys: seq<nat>, k: nat)
    requires k < |keys|
    ensures |Paired(keys)| == 2 * |keys|
    ensures Paired(keys)[2 * k] == keys[k] && Paired(keys)[2 * k + 1] == keys[k] + 1
  {
    PairedLength(keys);
    if k > 0 {
      PairedAt(keys[1..], k - 1);
    }
  }

  lemma {:induction false} PairedLength(keys: seq<nat>)
    ensures |Paired(keys)| == 2 * |keys|
  {
    if keys != [] {
      PairedLength(keys[1..]);
    }
  }

  lemma EvensDistinct(items: seq<Benc>)
    ensures Distinct(KeyIndices(items))
  {
  }

  /** The order of a dict's keys, as qsort leaves them. */
  function SortedIndices(items: seq<Benc>): seq<nat> {
    QSort(KeyIndices(items), KeyOrder(items))
  }

  lemma SortedIndicesAscend(items: seq<Benc>, a: nat, b: nat)
    requires DictKeys(items) && a < b < |SortedIndices(items)|
    ensures var keys := SortedIndices(items); StrCmp(KeyAt(items, keys[a]), KeyAt(items, keys[b])) < 0
  {
    var keys := SortedIndices(items);
    var all := set i | i in KeyIndices(items);
    KeyOrderTotal(items, all);
    QSortSorted(KeyIndices(items), KeyOrder(items), all);
    SortedAt(keys, KeyOrder(items), a, b);
    SortedKeys(items, keys);
    EvensDistinct(items);
    DistinctPermutes(KeyIndices(items), keys);
    DistinctKeyOrder(items, keys[a], keys[b]);
  }

  lemma CanonKey(v: Benc, k: nat)
    requires Proper(v) && v.Dict? && k < |SortedIndices(v.items)|
    ensures |Canon(v).items| == |v.items| == 2 * |SortedIndices(v.items)|
    ensures SortedIndices(v.items)[k] + 1 < |v.items|
    ensures Canon(v).items[2 * k] == v.items[SortedIndices(v.items)[k]]
    ensures v.items[SortedIndices(v.items)[k] + 1] in v.items
    ensures Canon(v).items[2 * k + 1] == Canon(v.items[SortedIndices(v.items)[k] + 1])
    ensures v.items[SortedIndices(v.items)[k]].Str?
  {
    var keys := SortedIndices(v.items);
    SortedKeys(v.items, keys);
    OrderIndices(v, true);
    PairedAt(keys, k);
    CanonAllAt(v, Order(v, true), 2 * k);
    CanonAllAt(v, Order(v, true), 2 * k + 1);
  }

  lemma CanonAscendingAt(v: Benc, a: nat, b: nat)
    requires Proper(v) && v.Dict? && DictKeys(v.items) && a < b < |SortedIndices(v.items)|
    ensures StrCmp(KeyAt(Canon(v).items, 2 * a), KeyAt(Canon(v).items, 2 * b)) < 0
  {
    CanonKey(v, a);
    CanonKey(v, b);
    SortedIndicesAscend(v.items, a, b);
  }

  lemma AscendingByPairs(items: seq<Benc>, n: nat)
    requires |items| == 2 * n
    requires forall a: nat, b: nat :: a < b < n ==> StrCmp(KeyAt(items, 2 * a), KeyAt(items, 2 * b)) < 0
    ensures Ascending(items)
  {
    forall i: nat, j: nat | i < j && IsKeyAt(items, i) && IsKeyAt(items, j)
      ensures StrCmp(KeyAt(items, i), KeyAt(items, j)) < 0
    {
      var a, b := i / 2, j / 2;
      assert i == 2 * a && j == 2 * b;
    }
  }

  lemma CanonAscending(v: Benc)
    requires KeysOk(v) && v.Dict?
    ensures Proper(v) && Ascending(Canon(v).items)
  {
    KeysOkProper(v);
    CanonSize(v);
    var n := |SortedIndices(v.items)|;
    forall a: nat, b: nat | a < b < n
      ensures StrCmp(KeyAt(Canon(v).items, 2 * a), KeyAt(Canon(v).items, 2 * b)) < 0
    {
      CanonAscendingAt(v, a, b);
    }
    AscendingByPairs(Canon(v).items, n);
  }

  lemma CanonSize(v: Benc)
    requires Proper(v) && IsContainer(v)
    ensures |Canon(v).items| == |v.items|
    ensures v.Dict? ==> |v.items| == 2 * |SortedIndices(v.items)|
  {
    OrderIndices(v, true);
    if v.Dict? {
      SortedKeys(v.items, SortedIndices(v.items));
    }
  }

  lemma CanonMember(v: Benc, c: Benc)
    requires Proper(v) && IsContainer(v) && c in Canon(v).items
    ensures exists d :: d in v.items && c == Canon(d)
  {
    OrderIndices(v, true);
    var k :| 0 <= k < |Canon(v).items| && Canon(v).items[k] == c;
    CanonAllAt(v, Order(v, true), k);
  }

  /** What a parser gets back from printed text is in normal form. */
  lemma {:induction false} CanonIsCanonical(v: Benc)
    requires KeysOk(v)
    ensures Proper(v) && Canonical(Canon(v))
  {
    KeysOkProper(v);
    if IsContainer(v) {
      forall c | c in Canon(v).items
        ensures Canonical(c)
      {
        CanonMember(v, c);
        var d :| d in v.items && c == Canon(d);
        CanonIsCanonical(d);
      }
      if v.Dict? {
        CanonAscending(v);
        CanonKeys(v);
      }
    }
  }

  lemma CanonKeys(v: Benc)
    requires Proper(v) && v.Dict?
    ensures |Canon(v).items| % 2 == 0
    ensures forall i: nat :: IsKeyAt(Canon(v).items, i) ==> Canon(v).items[i].Str?
  {
    CanonSize(v);
    forall i: nat | IsKeyAt(Canon(v).items, i)
      ensures Canon(v).items[i].Str?
    {
      CanonKey(v, i / 2);
    }
  }

  // ---- a tree in normal form is printed as it stands ----------------------

  lemma AscendingPair(items: seq<Benc>, i: nat, j: nat)
    requires Ascending(items) && IsKeyAt(items, i) && IsKeyAt(items, j)
    ensures StrCmp(KeyAt(items, i), KeyAt(items, j)) <= 0 <==> i <= j
  {
    StrCmpOrder(KeyAt(items, i), KeyAt(items, j));
    if i < j {
      assert StrCmp(KeyAt(items, i), KeyAt(items, j)) < 0;
    } else if j < i {
      assert StrCmp(KeyAt(items, j), KeyAt(items, i)) < 0;
    }
  }

  lemma EvenIsKey(items: seq<Benc>, i: nat)
    requires |items| % 2 == 0 && i in KeyIndices(items)
    ensures IsKeyAt(items, i)
  {
  }

  lemma EvensSorted(items: seq<Benc>)
    requires Ascending(items) && |items| % 2 == 0
    ensures SortedBy(KeyIndices(items), KeyOrder(items))
  {
    var evens, compare := KeyIndices(items), KeyOrder(items);
    forall i, j | 0 <= i < j < |evens|
      ensures compare(evens[i], evens[j]) <= 0
    {
      AscendingPair(items, evens[i], evens[j]);
    }
    SortedByPairs(evens, compare);
  }

  lemma AscendingSorted(items: seq<Benc>)
    requires Ascending(items) && |items| % 2 == 0
    ensures SortedIndices(items) == KeyIndices(items)
  {
    var evens, compare := KeyIndices(items), KeyOrder(items);
    EvensSorted(items);
    var all := set i | i in evens;
    KeyOrderTotal(items, all);
    QSortSorted(evens, compare, all);
    forall x, y | x in evens && y in evens && compare(x, y) <= 0 && compare(y, x) <= 0
      ensures x == y
    {
      EvenIsKey(items, x);
      EvenIsKey(items, y);
      AscendingPair(items, x, y);
      AscendingPair(items, y, x);
    }
    SortedUnique(evens, SortedIndices(items), compare);
  }

  lemma OrderAscending(items: seq<Benc>, k: nat)
    requires |items| % 2 == 0 && k < |items|
    ensures |Paired(KeyIndices(items))| == |items| && Paired(KeyIndices(items))[k] == k
  {
    PairedAt(KeyIndices(items), k / 2);
  }

  lemma PairedEvens(items: seq<Benc>)
    requires |items| % 2 == 0
    ensures Paired(KeyIndices(items)) == UpTo(|items|)
  {
    PairedLength(KeyIndices(items));
    forall k: nat | k < |items|
      ensures Paired(KeyIndices(items))[k] == k
    {
      OrderAscending(items, k);
    }
  }

  lemma CanonicalOrder(v: Benc)
    requires Canonical(v)
    ensures Proper(v) && Order(v, true) == UpTo(|Children(v)|)
  {
    CanonicalProper(v);
    if v.Dict? {
      AscendingSorted(v.items);
      PairedEvens(v.items);
    }
  }

  lemma {:induction false} CanonFixes(v: Benc)
    requires Canonical(v)
    ensures Proper(v) && Canon(v) == v
  {
    CanonicalOrder(v);
    if IsContainer(v) {
      OrderIndices(v, true);
      forall k | 0 <= k < |v.items|
        ensures CanonAll(v, Order(v, true))[k] == v.items[k]
      {
        CanonAllAt(v, Order(v, true), k);
        CanonFixes(v.items[k]);
      }
    }
  }

  /** From the `k`th child on, the normal form prints as the tree it was made from. */
  lemma {:induction false} PrintCanonFrom(v: Benc, w: Benc, k: nat)
    requires KeysOk(v) && IsContainer(v) && Proper(v) && w == Canon(v) && Proper(w)
    requires k <= |v.items| == |w.items| == |Order(v, true)| && IndexList(Order(v, true), |v.items|)
    requires forall d :: d in v.items ==> Proper(d) && Proper(Canon(d)) && Print(Canon(d)) == Print(d)
    ensures PrintChildren(w, UpTo(|w.items|)[k..]) == PrintChildren(v, Order(v, true)[k..])
    decreases |v.items| - k
  {
    if k < |v.items| {
      PrintCanonFrom(v, w, k + 1);
      CanonAllAt(v, Order(v, true), k);
      assert UpTo(|w.items|)[k..][1..] == UpTo(|w.items|)[k + 1..];
      assert Order(v, true)[k..][1..] == Order(v, true)[k + 1..];
    }
  }

  /** Printing the normal form gives the same text again. */
  lemma {:induction false} PrintCanon(v: Benc)
    requires KeysOk(v)
    ensures Proper(v) && Proper(Canon(v)) && Print(Canon(v)) == Print(v)
  {
    CanonIsCanonical(v);
    CanonicalOrder(Canon(v));
    if IsContainer(v) {
      forall d | d in v.items
        ensures Proper(d) && Proper(Canon(d)) && Print(Canon(d)) == Print(d)
      {
        PrintCanon(d);
      }
      CanonSize(v);
      OrderIndices(v, true);
      PrintCanonFrom(v, Canon(v), 0);
      assert UpTo(|v.items|)[0..] == UpTo(|v.items|) && Order(v, true)[0..] == Order(v, true);
    }
  }

  /**
   * Parsing the printed form of a tree with distinct keys consumes exactly
   * that text, gives a tree in normal form, and printing that reproduces the
   * text. The parser's loop and the printer's walk are both in this statement.
   */
  lemma ReprintReproduces(v: Benc, rest: Text) returns (w: Benc)
    requires KeysOk(v) && Short(v)
    ensures Proper(v) && ParseValue(Print(v) + rest, 0) == Ok(w, |Print(v)|)
    ensures Canonical(w) && Proper(w) && Print(w) == Print(v)
    ensures Canonical(v) ==> w == v
  {
    KeysOkProper(v);
    RoundTrip(v, rest);
    CanonIsCanonical(v);
    PrintCanon(v);
    w := Canon(v);
    if Canonical(v) {
      CanonFixes(v);
    }
  }

  /** Two trees print alike exactly when their normal forms are the same. */
  lemma PrintDecides(v: Benc, w: Benc)
    requires KeysOk(v) && Short(v) && KeysOk(w) && Short(w)
    ensures Proper(v) && Proper(w)
    ensures Print(v) == Print(w) <==> Canon(v) == Canon(w)
  {
    PrintCanon(v);
    PrintCanon(w);
    RoundTrip(v, []);
    RoundTrip(w, []);
  }

  // ---- what the parser builds ---------------------------------------------

  /** A dict under construction has a string in every key position so far. */
  predicate FrameOk(frame: Frame) {
    && (forall c :: c in frame.items ==> Proper(c))
    && (frame.isDict ==> forall i :: 0 <= i < |frame.items| && i % 2 == 0 ==> frame.items[i].Str?)
  }

  lemma PushOk(frame: Frame, v: Benc)
    requires FrameOk(frame) && Proper(v) && (frame.ExpectsKey() ==> v.Str?)
    ensures FrameOk(frame.Push(v))
  {
  }

  lemma CloseOk(frame: Frame)
    requires FrameOk(frame) && !(frame.isDict && |frame.items| % 2 == 1)
    ensures Proper(frame.Close())
  {
  }

  /** Every tree the parser builds has a string before each dict value. */
  lemma {:induction false} ParsedProper(buf: Text, pos: nat)
    requires pos <= |buf| && ParseValue(buf, pos).Ok?
    ensures Proper(ParseValue(buf, pos).value)
    ensures pos < |buf| && IsDigit(buf[pos]) ==> ParseValue(buf, pos).value.Str?
    decreases |buf| - pos, 1
  {
    if buf[pos] == LOWER_L || buf[pos] == LOWER_D {
      ParsedItemsProper(buf, pos + 1, Frame(buf[pos] == LOWER_D, []));
    } else if !Starts(buf[pos]) && buf[pos] != LOWER_E {
      ParsedProper(buf, pos + 1);
    }
  }

  lemma {:induction false} ParsedItemsProper(buf: Text, pos: nat, frame: Frame)
    requires pos <= |buf| && FrameOk(frame) && ParseItems(buf, pos, frame).Ok?
    ensures Proper(ParseItems(buf, pos, frame).value)
    decreases |buf| - pos, 2
  {
    if buf[pos] == LOWER_E {
      CloseOk(frame);
    } else if !Starts(buf[pos]) {
      ParsedItemsProper(buf, pos + 1, frame);
    } else {
      ParsedProper(buf, pos);
      var parsed := ParseValue(buf, pos);
      PushOk(frame, parsed.value);
      ParsedItemsProper(buf, parsed.end, frame.Push(parsed.value));
    }
  }
}
