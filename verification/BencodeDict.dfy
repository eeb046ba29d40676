/**
 * Dictionary operations. A dict is an array of alternating keys and values in
 * no particular order; with distinct keys it behaves as a map.
 */
module BencodeDict {
  import opened BencodeText
  import opened Bencode
  import opened BencodeWalk
  import opened BencodeCanon

  // ---- lookup -------------------------------------------------------------

  function FindAt(items: seq<Benc>, key: Text, from: nat): (r: Option<nat>)
    ensures r.Some? ==> from <= r.value && r.value + 1 < |items| && items[r.value] == Str(key)
    ensures r.Some? ==> r.value % 2 == from % 2
    decreases |items| - from
  {
    if from + 1 >= |items| then None
    else if items[from] == Str(key) then Some(from)
    else FindAt(items, key, from + 2)
  }

  /** dictIndexOf() */
  method DictIndexOf(items: seq<Benc>, key: Text) returns (r: Option<nat>)
    ensures r == FindAt(items, key, 0)
  {
    var i := 0;
    while i + 1 < |items|
      invariant FindAt(items, key, 0) == FindAt(items, key, i)
    {
      if items[i].Str? && |items[i].s| == |key| && items[i].s == key {
        return Some(i);
      }
      i := i + 2;
    }
    return None;
  }

  /** tr_bencDictFind() */
  function Find(items: seq<Benc>, key: Text): Option<Benc> {
    match FindAt(items, key, 0)
    case None => None
    case Some(i) => Some(items[i + 1])
  }

  /** `i` holds the key `key`, and its value is `v`. */
  predicate EntryAt(items: seq<Benc>, key: Text, v: Benc, i: nat) {
    IsKeyAt(items, i) && i + 1 < |items| && items[i] == Str(key) && items[i + 1] == v
  }

  lemma {:induction false} FindAtIs(items: seq<Benc>, key: Text, from: nat, i: nat)
    requires DictKeys(items) && IsKeyAt(items, i) && items[i] == Str(key) && from <= i && from % 2 == 0
    ensures FindAt(items, key, from) == Some(i)
    decreases |items| - from
  {
    if from < i {
      assert IsKeyAt(items, from);
      FindAtIs(items, key, from + 2, i);
    }
  }

  lemma FindEntry(items: seq<Benc>, key: Text, v: Benc, i: nat)
    requires DictKeys(items) && EntryAt(items, key, v, i)
    ensures Find(items, key) == Some(v) && FindAt(items, key, 0) == Some(i)
  {
    FindAtIs(items, key, 0, i);
  }

  /** The entry a lookup found. */
  lemma EntryFound(items: seq<Benc>, key: Text)
    requires DictKeys(items) && Find(items, key).Some?
    ensures FindAt(items, key, 0).Some?
    ensures EntryAt(items, key, Find(items, key).value, FindAt(items, key, 0).value)
  {
  }

  /** Lookups of `key` agree if every entry for it in one dict has its like in the other. */
  lemma SameFind(a: seq<Benc>, b: seq<Benc>, key: Text)
    requires DictKeys(a) && DictKeys(b)
    requires forall v, i :: EntryAt(a, key, v, i) ==> exists j :: EntryAt(b, key, v, j)
    requires forall v, j :: EntryAt(b, key, v, j) ==> exists i :: EntryAt(a, key, v, i)
    ensures Find(a, key) == Find(b, key)
  {
    if Find(a, key).Some? {
      EntryFound(a, key);
      var v := Find(a, key).value;
      assert EntryAt(a, key, v, FindAt(a, key, 0).value);
      var j :| EntryAt(b, key, v, j);
      FindEntry(b, key, v, j);
    } else if Find(b, key).Some? {
      EntryFound(b, key);
      var v := Find(b, key).value;
      assert EntryAt(b, key, v, FindAt(b, key, 0).value);
      var i :| EntryAt(a, key, v, i);
      FindEntry(a, key, v, i);
    }
  }

  // ---- adding, replacing and removing -------------------------------------

  /** tr_bencDictAdd() with its value filled in: no check whether the key is there already. */
  function Add(items: seq<Benc>, key: Text, v: Benc): seq<Benc> {
    items + [Str(key), v]
  }

  /** The removed entry's place is taken by the last entry. */
  function RemoveAt(items: seq<Benc>, i: nat): seq<Benc>
    requires i + 1 < |items|
  {
    var n := |items|;
    if i + 2 < n then items[i := items[n - 2]][i + 1 := items[n - 1]][..n - 2] else items[..n - 2]
  }

  /** tr_bencDictRemove() */
  method DictRemove(items: seq<Benc>, key: Text) returns (r: seq<Benc>, found: bool)
    ensures r == Remove(items, key) && found == Find(items, key).Some?
  {
    var at := DictIndexOf(items, key);
    if at.None? {
      return items, false;
    }
    var i, n := at.value, |items|;
    r := items;
    if i + 2 < n {
      r := r[i := r[n - 2]];
      r := r[i + 1 := r[n - 1]];
    }
    r := r[..n - 2];
    return r, true;
  }

  function Remove(items: seq<Benc>, key: Text): seq<Benc> {
    match FindAt(items, key, 0)
    case None => items
    case Some(i) => RemoveAt(items, i)
  }

  predicate SameType(a: Benc, b: Benc) {
    (a.Int? && b.Int?) || (a.Bool? && b.Bool?) || (a.Str? && b.Str?) || (a.List? && b.List?) || (a.Dict? && b.Dict?)
  }

  /**
   * tr_bencDictAddInt(), -Bool, -Str and -Raw: a value of the same type is
   * overwritten in place; one of another type is removed and the new one
   * goes to the end.
   */
  function Put(items: seq<Benc>, key: Text, v: Benc): seq<Benc> {
    match FindAt(items, key, 0)
    case None => Add(items, key, v)
    case Some(i) => if SameType(items[i + 1], v) then items[i + 1 := v] else Add(RemoveAt(items, i), key, v)
  }

  method DictPut(items: seq<Benc>, key: Text, v: Benc) returns (r: seq<Benc>)
    ensures r == Put(items, key, v)
  {
    var at := DictIndexOf(items, key);
    r := items;
    if at.Some? && !SameType(items[at.value + 1], v) {
      var found: bool;
      r, found := DictRemove(items, key);
      at := None;
    }
    if at.None? {
      r := r + [Str(key), v];
    } else {
      r := r[at.value + 1 := v];
    }
  }

  lemma AddKeys(items: seq<Benc>, key: Text, v: Benc)
    requires DictKeys(items) && NUL !in key && Find(items, key).None?
    ensures DictKeys(Add(items, key, v))
  {
    var r := Add(items, key, v);
    forall i: nat | IsKeyAt(items, i)
      ensures items[i] != Str(key)
    {
      if items[i] == Str(key) {
        FindAtIs(items, key, 0, i);
      }
    }
    forall i: nat | IsKeyAt(r, i)
      ensures r[i] == if i < |items| then items[i] else Str(key)
      ensures i < |items| ==> IsKeyAt(items, i)
    {
    }
  }

  lemma AddFind(items: seq<Benc>, key: Text, v: Benc, k: Text)
    requires DictKeys(items) && NUL !in key && Find(items, key).None?
    ensures DictKeys(Add(items, key, v))
    ensures Find(Add(items, key, v), k) == if k == key then Some(v) else Find(items, k)
  {
    AddKeys(items, key, v);
    var r := Add(items, key, v);
    if k == key {
      assert EntryAt(r, key, v, |items|);
      FindEntry(r, key, v, |items|);
    } else {
      forall w, i | EntryAt(items, k, w, i)
        ensures exists j :: EntryAt(r, k, w, j)
      {
        assert EntryAt(r, k, w, i);
      }
      forall w, i | EntryAt(r, k, w, i)
        ensures exists j :: EntryAt(items, k, w, j)
      {
        assert EntryAt(items, k, w, i);
      }
      SameFind(r, items, k);
    }
  }

  /** Where the entries of `RemoveAt(items, i)` come from: the last entry moves to `i`. */
  function Source(items: seq<Benc>, i: nat, j: nat): nat
    requires |items| >= 2
  {
    if j == i then |items| - 2 else j
  }

  lemma RemovedEntry(items: seq<Benc>, i: nat, j: nat)
    requires DictKeys(items) && IsKeyAt(items, i) && IsKeyAt(RemoveAt(items, i), j)
    ensures j + 1 < |RemoveAt(items, i)| == |items| - 2
    ensures IsKeyAt(items, Source(items, i, j)) && Source(items, i, j) != i
    ensures RemoveAt(items, i)[j] == items[Source(items, i, j)]
    ensures RemoveAt(items, i)[j + 1] == items[Source(items, i, j) + 1]
  {
  }

  lemma RemoveKeys(items: seq<Benc>, i: nat)
    requires DictKeys(items) && IsKeyAt(items, i)
    ensures DictKeys(RemoveAt(items, i))
  {
    var r := RemoveAt(items, i);
    forall j: nat | IsKeyAt(r, j)
      ensures r[j].Str? && NUL !in r[j].s
    {
      RemovedEntry(items, i, j);
    }
    forall j: nat, k: nat | IsKeyAt(r, j) && IsKeyAt(r, k) && j != k
      ensures r[j] != r[k]
    {
      RemovedEntry(items, i, j);
      RemovedEntry(items, i, k);
    }
  }

  lemma KeptEntry(items: seq<Benc>, i: nat, k: Text, w: Benc, j: nat)
    requires DictKeys(items) && IsKeyAt(items, i) && EntryAt(items, k, w, j) && j != i
    ensures EntryAt(RemoveAt(items, i), k, w, if j == |items| - 2 then i else j)
  {
  }

  /** Removal takes out the one entry and keeps the others. */
  lemma RemoveAtFind(items: seq<Benc>, i: nat, k: Text)
    requires DictKeys(items) && IsKeyAt(items, i)
    ensures DictKeys(RemoveAt(items, i))
    ensures Find(RemoveAt(items, i), k) == if Str(k) == items[i] then None else Find(items, k)
  {
    RemoveKeys(items, i);
    var r := RemoveAt(items, i);
    if Str(k) == items[i] {
      if Find(r, k).Some? {
        EntryFound(r, k);
        RemovedEntry(items, i, FindAt(r, k, 0).value);
      }
    } else {
      forall w, j | EntryAt(items, k, w, j)
        ensures exists j' :: EntryAt(r, k, w, j')
      {
        KeptEntry(items, i, k, w, j);
      }
      forall w, j | EntryAt(r, k, w, j)
        ensures exists j' :: EntryAt(items, k, w, j')
      {
        RemovedEntry(items, i, j);
        assert EntryAt(items, k, w, Source(items, i, j));
      }
      SameFind(r, items, k);
    }
  }

  lemma ReplaceFind(items: seq<Benc>, i: nat, v: Benc, k: Text)
    requires DictKeys(items) && IsKeyAt(items, i)
    ensures DictKeys(items[i + 1 := v])
    ensures Find(items[i + 1 := v], k) == if Str(k) == items[i] then Some(v) else Find(items, k)
  {
    var r := items[i + 1 := v];
    assert forall j: nat :: IsKeyAt(r, j) ==> IsKeyAt(items, j) && r[j] == items[j];
    if Str(k) == items[i] {
      FindEntry(r, k, v, i);
    } else {
      forall w, j | EntryAt(items, k, w, j)
        ensures exists j' :: EntryAt(r, k, w, j')
      {
        assert EntryAt(r, k, w, j);
      }
      forall w, j | EntryAt(r, k, w, j)
        ensures exists j' :: EntryAt(items, k, w, j')
      {
        assert EntryAt(items, k, w, j);
      }
      SameFind(r, items, k);
    }
  }

  /** Removing deletes one key from the map. */
  lemma RemoveIsDelete(items: seq<Benc>, key: Text, k: Text)
    requires DictKeys(items)
    ensures DictKeys(Remove(items, key))
    ensures Find(Remove(items, key), k) == if k == key then None else Find(items, k)
  {
    match FindAt(items, key, 0) {
      case None =>
      case Some(i) => RemoveAtFind(items, i, k);
    }
  }

  /** Putting is a map update, whether the entry is overwritten, moved or new. */
  lemma PutIsUpdate(items: seq<Benc>, key: Text, v: Benc, k: Text)
    requires DictKeys(items) && NUL !in key
    ensures DictKeys(Put(items, key, v))
    ensures Find(Put(items, key, v), k) == if k == key then Some(v) else Find(items, k)
  {
    match FindAt(items, key, 0) {
      case None => AddFind(items, key, v, k);
      case Some(i) =>
        if SameType(items[i + 1], v) {
          ReplaceFind(items, i, v, k);
        } else {
          RemoveAtFind(items, i, key);
          RemoveAtFind(items, i, k);
          AddFind(RemoveAt(items, i), key, v, k);
        }
    }
  }
}
