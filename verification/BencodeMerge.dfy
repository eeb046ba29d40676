/**
 * Merging dictionaries: values of the source win over the target's, except
 * that a list never replaces anything, and dicts merge into dicts.
 */
module BencodeMerge {
  import opened BencodeText
  import opened Bencode
  import opened BencodeWalk
  import opened BencodeCanon
  import opened BencodeDict

  predicate IsLeaf(v: Benc) { !IsContainer(v) }

  /** The first `n` entries of `source` merged into `target`. */
  function Merge(target: seq<Benc>, source: Benc, n: nat): seq<Benc>
    requires source.Dict? && 2 * n <= |source.items|
    decreases source, 0, n
  {
    if n == 0 then target
    else
      assert source.items[2 * n - 1] in source.items;
      MergeEntry(Merge(target, source, n - 1), source.items[2 * n - 2], source.items[2 * n - 1])
  }

  function MergeAll(target: seq<Benc>, source: Benc): seq<Benc>
    requires source.Dict?
    decreases source, 1
  {
    Merge(target, source, |source.items| / 2)
  }

  /** One pass of the merge loop. */
  function MergeEntry(target: seq<Benc>, keyNode: Benc, v: Benc): seq<Benc>
    decreases v, 3
  {
    if !keyNode.Str? then target
    else
      var key := CString(keyNode.s);
      match FindAt(target, key, 0)
      case None => if IsLeaf(v) then Put(target, key, v) else Add(target, key, Copy(v))
      case Some(i) =>
        if IsLeaf(v) then Put(target, key, v)
        else if v.Dict? && target[i + 1].Dict? then target[i + 1 := Dict(MergeAll(target[i + 1].items, v))]
        else target
  }

  /** A copy is rebuilt from an empty container. */
  function Copy(v: Benc): Benc
    decreases v, 2
  {
    match v
    case Dict(_) => Dict(MergeAll([], v))
    case List(_) => List(CopyItems(v, |v.items|))
    case _ => v
  }

  /** The copies of the first `n` items of a list. */
  function CopyItems(v: Benc, n: nat): seq<Benc>
    requires v.List? && n <= |v.items|
    decreases v, 0, n
  {
    if n == 0 then []
    else
      assert v.items[n - 1] in v.items;
      CopyItems(v, n - 1) + [Copy(v.items[n - 1])]
  }

  // ---- the loops ----------------------------------------------------------

  /** tr_bencMergeDicts() */
  method MergeDicts(target: seq<Benc>, source: Benc) returns (r: seq<Benc>)
    requires source.Dict?
    ensures r == MergeAll(target, source)
    decreases source, 1
  {
    r := target;
    for i := 0 to |source.items| / 2
      invariant r == Merge(target, source, i)
    {
      var keyNode, v := source.items[2 * i], source.items[2 * i + 1];
      assert v in source.items;
      if keyNode.Str? {
        r := MergeOne(r, CString(keyNode.s), v, keyNode);
      }
    }
  }

  method MergeOne(target: seq<Benc>, key: Text, v: Benc, ghost keyNode: Benc) returns (r: seq<Benc>)
    requires keyNode.Str? && key == CString(keyNode.s)
    ensures r == MergeEntry(target, keyNode, v)
    decreases v, 3
  {
    if IsLeaf(v) {
      r := DictPut(target, key, v);
      return;
    }
    var at := DictIndexOf(target, key);
    if at.None? {
      var copy := CopyNode(v);
      r := Add(target, key, copy);
    } else if v.Dict? && target[at.value + 1].Dict? {
      var inner := MergeDicts(target[at.value + 1].items, v);
      r := target[at.value + 1 := Dict(inner)];
    } else {
      r := target;
    }
  }

  method CopyNode(v: Benc) returns (r: Benc)
    ensures r == Copy(v)
    decreases v, 2
  {
    if v.Dict? {
      var items := MergeDicts([], v);
      r := Dict(items);
    } else if v.List? {
      var items := ListCopy(v);
      r := List(items);
    } else {
      r := v;
    }
  }

  /** tr_bencListCopy() into an empty list */
  method ListCopy(source: Benc) returns (r: seq<Benc>)
    requires source.List?
    ensures r == CopyItems(source, |source.items|)
    decreases source, 1
  {
    r := [];
    for i := 0 to |source.items|
      invariant r == CopyItems(source, i)
    {
      assert source.items[i] in source.items;
      var c := CopyNode(source.items[i]);
      r := r + [c];
    }
  }

  // ---- copying is the identity --------------------------------------------

  lemma PrefixKeys(items: seq<Benc>, n: nat)
    requires DictKeys(items) && 2 * n <= |items|
    ensures DictKeys(items[..2 * n])
  {
    var front := items[..2 * n];
    assert forall i: nat :: IsKeyAt(front, i) ==> IsKeyAt(items, i) && front[i] == items[i];
  }

  lemma NewKey(items: seq<Benc>, n: nat)
    requires DictKeys(items) && 2 * n < |items|
    ensures DictKeys(items[..2 * n])
    ensures items[2 * n].Str? && NUL !in items[2 * n].s && CString(items[2 * n].s) == items[2 * n].s
    ensures FindAt(items[..2 * n], items[2 * n].s, 0).None?
  {
    PrefixKeys(items, n);
    assert IsKeyAt(items, 2 * n);
    NulFreeCString(items[2 * n].s);
    forall i: nat | IsKeyAt(items[..2 * n], i)
      ensures items[..2 * n][i] != items[2 * n]
    {
      assert IsKeyAt(items, i);
    }
    NoEntry(items[..2 * n], items[2 * n].s);
  }

  lemma NoEntry(items: seq<Benc>, key: Text)
    requires forall i: nat :: IsKeyAt(items, i) ==> items[i] != Str(key)
    ensures FindAt(items, key, 0).None?
  {
    assert FindAt(items, key, 0).Some? ==> IsKeyAt(items, FindAt(items, key, 0).value);
  }

  lemma {:induction false} MergeIntoEmpty(v: Benc, n: nat)
    requires KeysOk(v) && v.Dict? && 2 * n <= |v.items|
    ensures Merge([], v, n) == v.items[..2 * n]
    decreases v, 0, n
  {
    if n > 0 {
      MergeIntoEmpty(v, n - 1);
      assert v.items[2 * n - 1] in v.items;
      CopyIsIdentity(v.items[2 * n - 1]);
      NewKey(v.items, n - 1);
      NewEntry(v.items[..2 * n - 2], v.items[2 * n - 2], v.items[2 * n - 1]);
      assert v.items[..2 * n] == v.items[..2 * n - 2] + [v.items[2 * n - 2], v.items[2 * n - 1]];
    }
  }

  lemma NewEntry(target: seq<Benc>, keyNode: Benc, v: Benc)
    requires keyNode.Str? && CString(keyNode.s) == keyNode.s && FindAt(target, keyNode.s, 0).None? && Copy(v) == v
    ensures MergeEntry(target, keyNode, v) == target + [keyNode, v]
  {
  }

  lemma {:induction false} CopyItemsIdentity(v: Benc, n: nat)
    requires KeysOk(v) && v.List? && n <= |v.items|
    ensures CopyItems(v, n) == v.items[..n]
    decreases v, 0, n
  {
    if n > 0 {
      CopyItemsIdentity(v, n - 1);
      assert v.items[n - 1] in v.items;
      CopyIsIdentity(v.items[n - 1]);
    }
  }

  /** Copying a tree with distinct keys gives the same tree, in the same order. */
  lemma {:induction false} CopyIsIdentity(v: Benc)
    requires KeysOk(v)
    ensures Copy(v) == v
    decreases v, 1
  {
    if v.Dict? {
      MergeIntoEmpty(v, |v.items| / 2);
      assert v.items[..2 * (|v.items| / 2)] == v.items;
    } else if v.List? {
      CopyItemsIdentity(v, |v.items|);
      assert v.items[..|v.items|] == v.items;
    }
  }

  // ---- merging as an operation on maps ------------------------------------

  /** What a key's value becomes when the source has `v` for it. */
  function Merged(was: Option<Benc>, v: Benc): Option<Benc> {
    if IsLeaf(v) || was.None? then Some(v)
    else if v.Dict? && was.value.Dict? then Some(Dict(MergeAll(was.value.items, v)))
    else was
  }

  lemma EntryIsUpdate(target: seq<Benc>, keyNode: Benc, v: Benc, k: Text)
    requires DictKeys(target) && keyNode.Str? && NUL !in keyNode.s && KeysOk(v)
    ensures DictKeys(MergeEntry(target, keyNode, v))
    ensures Find(MergeEntry(target, keyNode, v), k)
            == if k == keyNode.s then Merged(Find(target, k), v) else Find(target, k)
  {
    var key := keyNode.s;
    NulFreeCString(key);
    CopyIsIdentity(v);
    if IsLeaf(v) {
      PutIsUpdate(target, key, v, k);
    } else if FindAt(target, key, 0).None? {
      AddFind(target, key, v, k);
    } else {
      var i := FindAt(target, key, 0).value;
      if v.Dict? && target[i + 1].Dict? {
        ReplaceFind(target, i, Dict(MergeAll(target[i + 1].items, v)), k);
      }
    }
  }

  /** Merging the first `n` entries changes just their keys. */
  lemma {:induction false} MergeFind(target: seq<Benc>, source: Benc, n: nat, k: Text)
    requires DictKeys(target) && source.Dict? && KeysOk(source) && 2 * n <= |source.items|
    ensures DictKeys(Merge(target, source, n))
    ensures Find(Merge(target, source, n), k)
            == match Find(source.items[..2 * n], k)
               case None => Find(target, k)
               case Some(v) => Merged(Find(target, k), v)
  {
    if n > 0 {
      MergeFind(target, source, n - 1, k);
      SourceStep(source, n, k);
      EntryIsUpdate(Merge(target, source, n - 1), source.items[2 * n - 2], source.items[2 * n - 1], k);
    }
  }

  lemma SourceStep(source: Benc, n: nat, k: Text)
    requires source.Dict? && KeysOk(source) && 0 < n && 2 * n <= |source.items|
    ensures var keyNode, v := source.items[2 * n - 2], source.items[2 * n - 1];
            && keyNode.Str? && NUL !in keyNode.s && v in source.items && KeysOk(v)
            && Find(source.items[..2 * n - 2], keyNode.s).None?
            && Find(source.items[..2 * n], k) == if k == keyNode.s then Some(v) else Find(source.items[..2 * n - 2], k)
  {
    var keyNode, v := source.items[2 * n - 2], source.items[2 * n - 1];
    assert v in source.items;
    NewKey(source.items, n - 1);
    AddFind(source.items[..2 * n - 2], keyNode.s, v, k);
    assert source.items[..2 * n] == source.items[..2 * n - 2] + [keyNode, v];
  }

  /** tr_bencMergeDicts() as a map operation, for every key. */
  lemma MergeIsUpdate(target: seq<Benc>, source: Benc, k: Text)
    requires DictKeys(target) && source.Dict? && KeysOk(source)
    ensures DictKeys(MergeAll(target, source))
    ensures Find(MergeAll(target, source), k)
            == match Find(source.items, k)
               case None => Find(target, k)
               case Some(v) => Merged(Find(target, k), v)
  {
    MergeFind(target, source, |source.items| / 2, k);
    assert source.items[..2 * (|source.items| / 2)] == source.items;
  }

  /** A dict's keys are distinct all the way down if those of each value are. */
  lemma KeysOkByFind(items: seq<Benc>)
    requires DictKeys(items)
    requires forall k :: Find(items, k).Some? ==> KeysOk(Find(items, k).value)
    ensures KeysOk(Dict(items))
  {
    forall c | c in items
      ensures KeysOk(c)
    {
      var i: nat :| i < |items| && items[i] == c;
      var j := i - i % 2;
      assert IsKeyAt(items, j);
      if i != j {
        FindEntry(items, items[j].s, c, j);
      }
    }
  }

  lemma FoundKeysOk(items: seq<Benc>, k: Text)
    requires KeysOk(Dict(items)) && Find(items, k).Some?
    ensures KeysOk(Find(items, k).value)
  {
    EntryFound(items, k);
    assert Find(items, k).value in items;
  }

  /** Merging keeps the keys distinct in every dict of the tree. */
  lemma {:induction false} MergeKeepsKeys(target: seq<Benc>, source: Benc)
    requires KeysOk(Dict(target)) && source.Dict? && KeysOk(source)
    ensures KeysOk(Dict(MergeAll(target, source)))
    decreases source
  {
    var r := MergeAll(target, source);
    MergeIsUpdate(target, source, []);
    forall k | Find(r, k).Some?
      ensures KeysOk(Find(r, k).value)
    {
      MergeIsUpdate(target, source, k);
      if Find(target, k).Some? {
        FoundKeysOk(target, k);
      }
      if Find(source.items, k).Some? {
        FoundKeysOk(source.items, k);
        MergedKeysOk(source, Find(target, k), Find(source.items, k).value);
      }
    }
    KeysOkByFind(r);
  }

  lemma {:induction false} MergedKeysOk(source: Benc, was: Option<Benc>, v: Benc)
    requires source.Dict? && v in source.items && KeysOk(v) && (was.Some? ==> KeysOk(was.value))
    ensures KeysOk(Merged(was, v).value)
    decreases source, 0
  {
    if v.Dict? && was.Some? && was.value.Dict? {
      MergeKeepsKeys(was.value.items, v);
    }
  }

  // ---- merging twice ------------------------------------------------------

  /** Merging an entry that has been merged already changes nothing. */
  lemma {:induction false} EntryAbsorbed(m: seq<Benc>, keyNode: Benc, v: Benc, was: Option<Benc>)
    requires DictKeys(m) && keyNode.Str? && NUL !in keyNode.s && KeysOk(v)
    requires Find(m, keyNode.s) == Merged(was, v) && (was.Some? ==> KeysOk(was.value))
    ensures MergeEntry(m, keyNode, v) == m
    decreases v, 2
  {
    NulFreeCString(keyNode.s);
    var i := FindAt(m, keyNode.s, 0).value;
    if v.Dict? && m[i + 1].Dict? {
      if was.None? {
        CopyIsIdentity(v);
        MergeTwice([], v);
      } else {
        MergeTwice(was.value.items, v);
      }
    }
  }

  /** Merging the same dict a second time changes nothing, not even the order of the entries. */
  lemma {:induction false} MergeTwice(target: seq<Benc>, source: Benc)
    requires KeysOk(Dict(target)) && source.Dict? && KeysOk(source)
    ensures MergeAll(MergeAll(target, source), source) == MergeAll(target, source)
    decreases source, 1
  {
    MergeAgain(target, source, |source.items| / 2);
  }

  lemma {:induction false} MergeAgain(target: seq<Benc>, source: Benc, n: nat)
    requires KeysOk(Dict(target)) && source.Dict? && KeysOk(source) && 2 * n <= |source.items|
    ensures Merge(MergeAll(target, source), source, n) == MergeAll(target, source)
    decreases source, 0, n
  {
    if n > 0 {
      MergeAgain(target, source, n - 1);
      AgainStep(target, source, n);
    }
  }

  lemma {:induction false} AgainStep(target: seq<Benc>, source: Benc, n: nat)
    requires KeysOk(Dict(target)) && source.Dict? && KeysOk(source) && 0 < n && 2 * n <= |source.items|
    ensures var m := MergeAll(target, source);
            MergeEntry(m, source.items[2 * n - 2], source.items[2 * n - 1]) == m
    decreases source, 0, 0
  {
    var keyNode, v := source.items[2 * n - 2], source.items[2 * n - 1];
    SourceStep(source, n, keyNode.s);
    MergeIsUpdate(target, source, keyNode.s);
    FindEntry(source.items, keyNode.s, v, 2 * n - 2);
    if Find(target, keyNode.s).Some? {
      FoundKeysOk(target, keyNode.s);
    }
    EntryAbsorbed(MergeAll(target, source), keyNode, v, Find(target, keyNode.s));
  }
}
