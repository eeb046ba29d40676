/**
 * Printing bencode with the walker, and parsing it back.
 */
module BencodePrint {
  import opened BencodeText
  import opened Bencode
  import opened BencodeWalk
  import opened PtrArray
  import opened Sorting

  // ---- the text of a tree -------------------------------------------------

  /** What the save callbacks append. */
  function Save(e: Event): Text {
    match e
    case OnInt(_, i) => [LOWER_I] + Signed(i) + [LOWER_E]
    case OnBool(_, b) => [LOWER_I] + Signed(if b then 1 else 0) + [LOWER_E]
    case OnStr(_, s) => Digits(|s|) + [COLON] + s
    case OnListBegin(_) => [LOWER_L]
    case OnDictBegin(_) => [LOWER_D]
    case OnEnd(_) => [LOWER_E]
  }

  function SaveAll(events: seq<Event>): Text {
    if events == [] then [] else SaveAll(events[..|events| - 1]) + Save(events[|events| - 1])
  }

  /** The text of one subtree, dicts in key order. */
  function Print(v: Benc): Text
    requires Proper(v)
    decreases v, 1
  {
    OrderIndices(v, true);
    match v
    case Int(i) => [LOWER_I] + Signed(i) + [LOWER_E]
    case Bool(b) => [LOWER_I] + Signed(if b then 1 else 0) + [LOWER_E]
    case Str(s) => Digits(|s|) + [COLON] + s
    case List(_) => [LOWER_L] + PrintChildren(v, Order(v, true)) + [LOWER_E]
    case Dict(_) => [LOWER_D] + PrintChildren(v, Order(v, true)) + [LOWER_E]
  }

  function PrintChildren(v: Benc, order: seq<nat>): Text
    requires Proper(v) && IndexList(order, |Children(v)|)
    decreases v, 0, |order|
  {
    if order == [] then []
    else
      assert Children(v)[order[0]] in Children(v);
      Print(Children(v)[order[0]]) + PrintChildren(v, order[1..])
  }

  lemma TextAssoc(a: Text, b: Text, c: Text)
    ensures (a + b) + c == a + (b + c)
  {
  }

  lemma {:induction false} SaveAppends(a: seq<Event>, b: seq<Event>)
    ensures SaveAll(a + b) == SaveAll(a) + SaveAll(b)
  {
    if b == [] {
      assert a + b == a;
    } else {
      var front, e := b[..|b| - 1], b[|b| - 1];
      assert b == front + [e];
      assert a + b == (a + front) + [e];
      SaveAppends(a, front);
      SaveLast(a + front, e);
      SaveLast(front, e);
      TextAssoc(SaveAll(a), SaveAll(front), Save(e));
    }
  }

  lemma SaveLast(events: seq<Event>, e: Event)
    ensures SaveAll(events + [e]) == SaveAll(events) + Save(e)
  {
    assert (events + [e])[..|events|] == events;
  }

  lemma SaveOne(e: Event)
    ensures SaveAll([e]) == Save(e)
  {
    assert [e][..0] == [];
  }

  lemma SaveThree(a: seq<Event>, b: seq<Event>, c: seq<Event>)
    ensures SaveAll(a + b + c) == SaveAll(a) + SaveAll(b) + SaveAll(c)
  {
    SaveAppends(a + b, c);
    SaveAppends(a, b);
  }

  lemma LeafSave(v: Benc, path: Path)
    requires Proper(v) && !IsContainer(v)
    ensures SaveAll(Events(v, path, true)) == Print(v)
  {
    LeafEvents(v, path, true);
    SaveOne(Begin(v, path)[0]);
  }

  /** The save callbacks of a walk write the tree's text. */
  lemma {:induction false} EventsSave(v: Benc, path: Path)
    requires Proper(v)
    ensures SaveAll(Events(v, path, true)) == Print(v)
    decreases v, 1
  {
    if !IsContainer(v) {
      LeafSave(v, path);
    } else {
      OrderIndices(v, true);
      var order := Order(v, true);
      ChildEventsSave(v, order, path);
      ContainerSave(v, ChildEvents(v, order, path, true), path);
    }
  }

  lemma ContainerSave(v: Benc, inner: seq<Event>, path: Path)
    requires IsContainer(v)
    ensures SaveAll(Begin(v, path) + inner + End(v, path))
            == [if v.Dict? then LOWER_D else LOWER_L] + SaveAll(inner) + [LOWER_E]
  {
    SaveThree(Begin(v, path), inner, End(v, path));
    SaveOne(Begin(v, path)[0]);
    SaveOne(OnEnd(path));
  }

  lemma {:induction false} ChildEventsSave(v: Benc, order: seq<nat>, path: Path)
    requires Proper(v) && IndexList(order, |Children(v)|)
    ensures SaveAll(ChildEvents(v, order, path, true)) == PrintChildren(v, order)
    decreases v, 0, |order|
  {
    if order != [] {
      var c := Children(v)[order[0]];
      assert c in Children(v);
      SaveAppends(Events(c, path + [order[0]], true), ChildEvents(v, order[1..], path, true));
      EventsSave(c, path + [order[0]]);
      ChildEventsSave(v, order[1..], path);
    }
  }

  /** tr_bencToBuf(), benc format. */
  method ToBuf(top: Benc) returns (text: Text)
    requires Proper(top)
    ensures text == Print(top)
  {
    var events := Walk(top, true);
    text := WriteAll(events);
    EventsSave(top, []);
  }

  method WriteAll(events: seq<Event>) returns (text: Text)
    ensures text == SaveAll(events)
  {
    text := [];
    for k := 0 to |events|
      invariant text == SaveAll(events[..k])
    {
      SavePrefix(events, k);
      text := text + Save(events[k]);
    }
    assert events[..|events|] == events;
  }

  lemma SavePrefix(events: seq<Event>, k: nat)
    requires k < |events|
    ensures SaveAll(events[..k + 1]) == SaveAll(events[..k]) + Save(events[k])
  {
    assert events[..k + 1] == events[..k] + [events[k]];
    SaveLast(events[..k], events[k]);
  }

  // ---- parsing it back ----------------------------------------------------

  /** Strings are short enough for their length to survive as an int. */
  predicate Short(v: Benc) {
    match v
    case Str(s) => |s| < 0x8000_0000
    case List(items) => forall c :: c in items ==> Short(c)
    case Dict(items) => forall c :: c in items ==> Short(c)
    case _ => true
  }

  /** The tree a parser gets back: booleans are integers, and dicts are in key order. */
  function Canon(v: Benc): Benc
    requires Proper(v)
    decreases v, 1
  {
    OrderIndices(v, true);
    match v
    case Bool(b) => Int(if b then 1 else 0)
    case List(_) => List(CanonAll(v, Order(v, true)))
    case Dict(_) => Dict(CanonAll(v, Order(v, true)))
    case _ => v
  }

  function CanonAll(v: Benc, order: seq<nat>): (r: seq<Benc>)
    requires Proper(v) && IndexList(order, |Children(v)|)
    ensures |r| == |order|
    decreases v, 0, |order|
  {
    if order == [] then []
    else
      assert Children(v)[order[0]] in Children(v);
      [Canon(Children(v)[order[0]])] + CanonAll(v, order[1..])
  }

  /** Keys and values alternate: the first listed child is a key just if `key` says so. */
  predicate Alternates(order: seq<nat>, key: bool) {
    order == [] || ((order[0] % 2 == 0) == key && Alternates(order[1..], !key))
  }

  lemma {:induction false} PairedAlternates(keys: seq<nat>)
    requires forall k :: 0 <= k < |keys| ==> keys[k] % 2 == 0
    ensures Alternates(Paired(keys), true)
  {
    if keys != [] {
      PairedAlternates(keys[1..]);
      assert Paired(keys)[1..][1..] == Paired(keys[1..]);
    }
  }

  lemma OrderAlternates(v: Benc)
    requires Proper(v) && v.Dict?
    ensures Alternates(Order(v, true), true) && |Order(v, true)| % 2 == 0
  {
    var keys := QSort(KeyIndices(v.items), KeyOrder(v.items));
    SortedKeys(v.items, keys);
    PairedAlternates(keys);
    PairedIndices(keys, |v.items|);
  }

  /** Printed text starts a value, and starts a string just if the value is one. */
  lemma PrintStarts(v: Benc)
    requires Proper(v)
    ensures Print(v) != [] && Starts(Print(v)[0]) && (IsDigit(Print(v)[0]) <==> v.Str?)
  {
    if v.Str? {
      DigitsLengthStarts(|v.s|);
    }
  }

  lemma DigitsLengthStarts(n: nat)
    ensures Digits(n) != [] && IsDigit(Digits(n)[0])
  {
    DigitsParse(n);
  }

  /** Wherever a tree's text stands, a parser reads just that text and gets the tree back. */
  lemma {:induction false} ParsePrinted(v: Benc, buf: Text, pos: nat)
    requires Proper(v) && Short(v) && Infix(buf, pos, Print(v))
    ensures ParseValue(buf, pos) == Ok(Canon(v), pos + |Print(v)|)
    decreases v, 1
  {
    if IsContainer(v) {
      var order := Order(v, true);
      OpenPrinted(v, order, buf, pos);
      ParsePrintedItems(v, order, buf, pos + 1, Frame(v.Dict?, []));
      FilledAll(v, order, pos);
    } else {
      ParsePrintedLeaf(v, buf, pos);
    }
  }

  lemma ParsePrintedLeaf(v: Benc, buf: Text, pos: nat)
    requires Proper(v) && Short(v) && !IsContainer(v) && Infix(buf, pos, Print(v))
    ensures ParseValue(buf, pos) == Ok(Canon(v), pos + |Print(v)|)
  {
    match v
    case Int(i) => IntAt(buf, pos, i);
    case Bool(b) => IntAt(buf, pos, if b then 1 else 0);
    case Str(s) => StrAt(buf, pos, s);
  }

  lemma IntAt(buf: Text, pos: nat, i: Int64)
    requires Infix(buf, pos, [LOWER_I] + Signed(i) + [LOWER_E])
    ensures ParseValue(buf, pos) == Ok(Int(i), pos + |[LOWER_I] + Signed(i) + [LOWER_E]|)
  {
    ParsePrintedInt(buf, pos, i);
  }

  lemma StrNode(buf: Text, pos: nat, start: nat, s: Text)
    requires pos < |buf| && IsDigit(buf[pos]) && ParseStr(buf, pos) == Some((start, |s|))
    requires InitStr(buf, start, |s|) == s
    ensures ParseValue(buf, pos) == Ok(Str(s), start + |s|)
  {
  }

  lemma StrAt(buf: Text, pos: nat, s: Text)
    requires Infix(buf, pos, Digits(|s|) + [COLON] + s) && |s| < 0x8000_0000
    ensures ParseValue(buf, pos) == Ok(Str(s), pos + |Digits(|s|) + [COLON] + s|)
  {
    ParsePrintedStr(buf, pos, s);
    StrNode(buf, pos, pos + |Digits(|s|)| + 1, s);
  }

  function Opening(isDict: bool): Octet { if isDict then LOWER_D else LOWER_L }

  lemma ContainerText(v: Benc, order: seq<nat>)
    requires Proper(v) && IsContainer(v) && order == Order(v, true)
    ensures IndexList(order, |Children(v)|)
    ensures Print(v) == [Opening(v.Dict?)] + (PrintChildren(v, order) + [LOWER_E])
    ensures |Print(v)| == |PrintChildren(v, order)| + 2
  {
    OrderIndices(v, true);
    TextAssoc([Opening(v.Dict?)], PrintChildren(v, order), [LOWER_E]);
  }

  lemma OpenAt(buf: Text, pos: nat, isDict: bool, rest: Text)
    requires Infix(buf, pos, [Opening(isDict)] + rest)
    ensures pos < |buf| && Infix(buf, pos + 1, rest)
    ensures ParseValue(buf, pos) == ParseItems(buf, pos + 1, Frame(isDict, []))
  {
    InfixParts(buf, pos, [Opening(isDict)], rest);
    InfixAt(buf, pos, Opening(isDict));
  }

  lemma OpenPrinted(v: Benc, order: seq<nat>, buf: Text, pos: nat)
    requires Proper(v) && IsContainer(v) && order == Order(v, true) && Infix(buf, pos, Print(v))
    ensures IndexList(order, |Children(v)|) && |Print(v)| == |PrintChildren(v, order)| + 2
    ensures pos < |buf| && Infix(buf, pos + 1, PrintChildren(v, order) + [LOWER_E])
    ensures ParseValue(buf, pos) == ParseItems(buf, pos + 1, Frame(v.Dict?, []))
    ensures Keyed(v, order, Frame(v.Dict?, []))
  {
    ContainerText(v, order);
    OpenAt(buf, pos, v.Dict?, PrintChildren(v, order) + [LOWER_E]);
    KeyedStart(v, order);
  }

  lemma KeyedStart(v: Benc, order: seq<nat>)
    requires Proper(v) && IsContainer(v) && order == Order(v, true)
    ensures Keyed(v, order, Frame(v.Dict?, []))
  {
    if v.Dict? {
      OrderAlternates(v);
    }
  }

  lemma ItemStep(buf: Text, pos: nat, frame: Frame, c: Benc, end: nat, r: ParseResult)
    requires pos < |buf| && Starts(buf[pos]) && (frame.ExpectsKey() ==> IsDigit(buf[pos]))
    requires ParseValue(buf, pos) == Ok(c, end)
    requires end <= |buf| && ParseItems(buf, end, frame.Push(c)) == r
    ensures ParseItems(buf, pos, frame) == r
  {
  }

  lemma PrintStep(v: Benc, order: seq<nat>, c: Benc)
    requires Proper(v) && IndexList(order, |Children(v)|) && order != []
    requires c == Children(v)[order[0]] && c in Children(v)
    ensures PrintChildren(v, order) == Print(c) + PrintChildren(v, order[1..])
  {
  }

  lemma InfixRegroup(buf: Text, pos: nat, a: Text, b: Text, c: Text)
    requires Infix(buf, pos, (a + b) + c)
    ensures Infix(buf, pos, a) && Infix(buf, pos + |a|, b + c)
  {
    TextAssoc(a, b, c);
    InfixParts(buf, pos, a, b + c);
  }

  lemma PrintedStarts(c: Benc, buf: Text, pos: nat)
    requires Proper(c) && Infix(buf, pos, Print(c))
    ensures pos < |buf| && Starts(buf[pos]) && (IsDigit(buf[pos]) <==> c.Str?)
  {
    PrintStarts(c);
    InfixHead(buf, pos, Print(c));
  }

  lemma ItemsDone(buf: Text, pos: nat, frame: Frame)
    requires Infix(buf, pos, [LOWER_E]) && !(frame.isDict && |frame.items| % 2 == 1)
    ensures ParseItems(buf, pos, frame) == Ok(frame.Close(), pos + 1)
  {
    InfixAt(buf, pos, LOWER_E);
  }

  /** The dict part of what a frame and the children still to come look like. */
  predicate Keyed(v: Benc, order: seq<nat>, frame: Frame) {
    && frame.isDict == v.Dict?
    && (v.Dict? ==> Alternates(order, |frame.items| % 2 == 0) && |frame.items| % 2 == |order| % 2)
  }

  lemma KeyedNext(v: Benc, order: seq<nat>, frame: Frame, c: Benc)
    requires Proper(v) && Keyed(v, order, frame) && order != [] && IndexList(order, |Children(v)|)
    ensures Keyed(v, order[1..], frame.Push(c)) && IndexList(order[1..], |Children(v)|)
    ensures frame.ExpectsKey() ==> Children(v)[order[0]].Str?
  {
  }

  lemma ChildShort(v: Benc, c: Benc)
    requires Short(v) && c in Children(v)
    ensures Short(c)
  {
  }

  lemma CanonFirst(v: Benc, order: seq<nat>, items: seq<Benc>)
    requires Proper(v) && IndexList(order, |Children(v)|) && order != []
    ensures Children(v)[order[0]] in Children(v)
    ensures items + CanonAll(v, order)
            == (items + [Canon(Children(v)[order[0]])]) + CanonAll(v, order[1..])
  {
    assert Children(v)[order[0]] in Children(v);
  }

  /** The parser's result for the listed children of `v`, put into `frame`. */
  function Filled(v: Benc, order: seq<nat>, frame: Frame, pos: nat): ParseResult
    requires Proper(v) && IndexList(order, |Children(v)|)
  {
    Ok(Frame(frame.isDict, frame.items + CanonAll(v, order)).Close(), pos + |PrintChildren(v, order)| + 1)
  }

  lemma FilledAll(v: Benc, order: seq<nat>, pos: nat)
    requires Proper(v) && IsContainer(v) && order == Order(v, true)
    ensures IndexList(order, |Children(v)|)
    ensures Filled(v, order, Frame(v.Dict?, []), pos + 1) == Ok(Canon(v), pos + |Print(v)|)
  {
    OrderIndices(v, true);
    assert [] + CanonAll(v, order) == CanonAll(v, order);
  }

  lemma FilledNone(v: Benc, frame: Frame, pos: nat)
    requires Proper(v)
    ensures Filled(v, [], frame, pos) == Ok(frame.Close(), pos + 1)
    ensures PrintChildren(v, []) + [LOWER_E] == [LOWER_E]
  {
    assert frame.items + [] == frame.items;
  }

  lemma FilledNext(v: Benc, order: seq<nat>, frame: Frame, pos: nat, c: Benc)
    requires Proper(v) && IndexList(order, |Children(v)|) && order != []
    requires c == Children(v)[order[0]] && c in Children(v)
    ensures Filled(v, order, frame, pos) == Filled(v, order[1..], frame.Push(Canon(c)), pos + |Print(c)|)
  {
    CanonFirst(v, order, frame.items);
  }

  /** The parser has read a container's text up to the listed children. */
  predicate Before(v: Benc, order: seq<nat>, buf: Text, pos: nat, frame: Frame) {
    && Proper(v) && Short(v) && IsContainer(v) && IndexList(order, |Children(v)|)
    && Infix(buf, pos, PrintChildren(v, order) + [LOWER_E])
    && Keyed(v, order, frame)
  }

  /** `c`, the first of the listed children, ends at `end`. */
  predicate FirstIs(v: Benc, order: seq<nat>, buf: Text, pos: nat, frame: Frame, c: Benc, end: nat)
    requires Proper(v)
  {
    && order != [] && IndexList(order, |Children(v)|) && c in Children(v) && c == Children(v)[order[0]]
    && end == pos + |Print(c)| <= |buf|
    && pos < |buf| && Starts(buf[pos]) && (frame.ExpectsKey() ==> IsDigit(buf[pos]))
  }

  lemma FirstParts(v: Benc, order: seq<nat>, buf: Text, pos: nat, frame: Frame) returns (c: Benc, end: nat)
    requires Before(v, order, buf, pos, frame) && order != []
    ensures FirstIs(v, order, buf, pos, frame, c, end)
    ensures Short(c) && Infix(buf, pos, Print(c))
    ensures Before(v, order[1..], buf, end, frame.Push(Canon(c)))
  {
    c := Children(v)[order[0]];
    end := pos + |Print(c)|;
    ChildShort(v, c);
    PrintStep(v, order, c);
    InfixRegroup(buf, pos, Print(c), PrintChildren(v, order[1..]), [LOWER_E]);
    PrintedStarts(c, buf, pos);
    KeyedNext(v, order, frame, Canon(c));
  }

  lemma {:induction false} ParsePrintedItems(v: Benc, order: seq<nat>, buf: Text, pos: nat, frame: Frame)
    requires Before(v, order, buf, pos, frame)
    ensures ParseItems(buf, pos, frame) == Filled(v, order, frame, pos)
    decreases v, 0, |order|
  {
    if order == [] {
      FilledNone(v, frame, pos);
      ItemsDone(buf, pos, frame);
    } else {
      var c, end := FirstParts(v, order, buf, pos, frame);
      ParsePrinted(c, buf, pos);
      ParsePrintedItems(v, order[1..], buf, end, frame.Push(Canon(c)));
      FilledNext(v, order, frame, pos, c);
      ItemStep(buf, pos, frame, Canon(c), end, Filled(v, order, frame, pos));
    }
  }

  lemma InfixHead(buf: Text, pos: nat, t: Text)
    requires Infix(buf, pos, t) && t != []
    ensures pos < |buf| && buf[pos] == t[0]
  {
    assert buf[pos] == buf[pos..pos + |t|][0];
  }

  /**
   * Parsing printed text takes exactly that text, whatever follows it, and
   * gives the tree with booleans as integers and dicts in key order.
   */
  lemma RoundTrip(v: Benc, rest: Text)
    requires Proper(v) && Short(v)
    ensures ParseValue(Print(v) + rest, 0) == Ok(Canon(v), |Print(v)|)
  {
    assert (Print(v) + rest)[0..0 + |Print(v)|] == Print(v);
    ParsePrinted(v, Print(v) + rest, 0);
  }
}
