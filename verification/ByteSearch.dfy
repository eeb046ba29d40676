/**
 * Looking for a pattern in bytes that come in pieces: what is kept between
 * two searches is enough to find it where one search of everything would.
 */
module ByteSearch {
  type Byte = bv8

  predicate OccursAt(s: seq<Byte>, pattern: seq<Byte>, at: nat) {
    at + |pattern| <= |s| && s[at..at + |pattern|] == pattern
  }

  predicate NotBefore(s: seq<Byte>, pattern: seq<Byte>, n: nat) {
    forall k: nat :: k < n ==> !OccursAt(s, pattern, k)
  }

  /** evbuffer_search(): the first place of the pattern, or -1. */
  function Search(s: seq<Byte>, pattern: seq<Byte>): (at: int)
    ensures at >= 0 ==> OccursAt(s, pattern, at) && NotBefore(s, pattern, at)
    ensures at < 0 ==> at == -1 && forall k: nat :: !OccursAt(s, pattern, k)
  {
    SearchFrom(s, pattern, 0)
  }

  function SearchFrom(s: seq<Byte>, pattern: seq<Byte>, from: nat): (at: int)
    requires NotBefore(s, pattern, from)
    ensures at >= 0 ==> OccursAt(s, pattern, at) && NotBefore(s, pattern, at)
    ensures at < 0 ==> at == -1 && forall k: nat :: !OccursAt(s, pattern, k)
    decreases |s| - from
  {
    if from + |pattern| > |s| then -1
    else if OccursAt(s, pattern, from) then from
    else SearchFrom(s, pattern, from + 1)
  }

  lemma FoundFirst(s: seq<Byte>, pattern: seq<Byte>, at: nat)
    requires OccursAt(s, pattern, at) && NotBefore(s, pattern, at)
    ensures Search(s, pattern) == at
  {
    assert Search(s, pattern) >= 0;
  }

  lemma NotFound(s: seq<Byte>, pattern: seq<Byte>, n: nat)
    requires NotBefore(s, pattern, n) && n + |pattern| > |s|
    ensures Search(s, pattern) < 0
  {
  }

  /** `s` is the end of `t`. */
  predicate Suffix(s: seq<Byte>, t: seq<Byte>) {
    |s| <= |t| && s == t[|t| - |s|..]
  }

  /** The last `n` bytes, or all of fewer. */
  function Kept(s: seq<Byte>, n: nat): (r: seq<Byte>)
    ensures Suffix(r, s)
  {
    if |s| > n then s[|s| - n..] else s
  }

  function Flattened(pieces: seq<seq<Byte>>): seq<Byte> {
    if pieces == [] then [] else pieces[0] + Flattened(pieces[1..])
  }

  datatype Outcome = Missing | FoundFrom(rest: seq<Byte>)

  /** Search; while the pattern is not there, keep the last `keep` bytes and add the next piece. */
  function InPieces(buffer: seq<Byte>, pieces: seq<seq<Byte>>, pattern: seq<Byte>, keep: nat): Outcome
    decreases |pieces|
  {
    var at := Search(buffer, pattern);
    if at >= 0 then FoundFrom(buffer[at..] + Flattened(pieces))
    else if pieces == [] then Missing
    else InPieces(Kept(buffer, keep) + pieces[0], pieces[1..], pattern, keep)
  }

  function AtOnce(s: seq<Byte>, pattern: seq<Byte>): Outcome {
    var at := Search(s, pattern);
    if at >= 0 then FoundFrom(s[at..]) else Missing
  }

  /** However the bytes are cut up, the pattern is found where it first is in all of them. */
  lemma {:induction false} PiecesFind(buffer: seq<Byte>, pieces: seq<seq<Byte>>, pattern: seq<Byte>, keep: nat)
    requires |pattern| <= keep + 1
    ensures InPieces(buffer, pieces, pattern, keep) == AtOnce(buffer + Flattened(pieces), pattern)
    decreases |pieces|
  {
    var at, rest := Search(buffer, pattern), Flattened(pieces);
    if at >= 0 {
      FoundInFront(buffer, rest, pattern, at);
    } else if pieces == [] {
      assert buffer + rest == buffer;
    } else {
      PiecesFind(Kept(buffer, keep) + pieces[0], pieces[1..], pattern, keep);
      NextPiece(Kept(buffer, keep), pieces);
      KeptIsEnough(buffer, rest, pattern, keep);
    }
  }

  lemma NextPiece(kept: seq<Byte>, pieces: seq<seq<Byte>>)
    requires pieces != []
    ensures (kept + pieces[0]) + Flattened(pieces[1..]) == kept + Flattened(pieces)
  {
  }

  lemma FoundInFront(buffer: seq<Byte>, rest: seq<Byte>, pattern: seq<Byte>, at: nat)
    requires at == Search(buffer, pattern)
    ensures AtOnce(buffer + rest, pattern) == FoundFrom(buffer[at..] + rest)
  {
    var all := buffer + rest;
    forall k: nat | k <= at
      ensures OccursAt(all, pattern, k) == OccursAt(buffer, pattern, k)
    {
      assert all[k..k + |pattern|] == buffer[k..k + |pattern|];
    }
    FoundFirst(all, pattern, at);
    assert all[at..] == buffer[at..] + rest;
  }

  /** A pattern that is not in the buffer cannot begin in the part that is dropped. */
  lemma KeptIsEnough(buffer: seq<Byte>, rest: seq<Byte>, pattern: seq<Byte>, keep: nat)
    requires |pattern| <= keep + 1 && Search(buffer, pattern) < 0
    ensures AtOnce(Kept(buffer, keep) + rest, pattern) == AtOnce(buffer + rest, pattern)
  {
    var all := buffer + rest;
    var d := |buffer| - |Kept(buffer, keep)|;
    forall k: nat | k < d
      ensures !OccursAt(all, pattern, k)
    {
      assert !OccursAt(buffer, pattern, k);
      assert all[k..k + |pattern|] == buffer[k..k + |pattern|];
    }
    assert all[d..] == Kept(buffer, keep) + rest;
    CutOff(all, pattern, d);
  }

  /** What comes before the pattern does not matter. */
  lemma CutOff(all: seq<Byte>, pattern: seq<Byte>, d: nat)
    requires d <= |all| && NotBefore(all, pattern, d)
    ensures AtOnce(all[d..], pattern) == AtOnce(all, pattern)
  {
    var cut := all[d..];
    var at := Search(cut, pattern);
    if at >= 0 {
      Shifted(all, cut, pattern, d, at);
      forall k: nat | k < d + at
        ensures !OccursAt(all, pattern, k)
      {
        if k >= d {
          Shifted(all, cut, pattern, d, k - d);
        }
      }
      FoundFirst(all, pattern, d + at);
      assert all[d + at..] == cut[at..];
    } else {
      forall k: nat
        ensures !OccursAt(all, pattern, k)
      {
        if k >= d {
          Shifted(all, cut, pattern, d, k - d);
        }
      }
    }
  }

  lemma Shifted(all: seq<Byte>, cut: seq<Byte>, pattern: seq<Byte>, d: nat, k: nat)
    requires d <= |all| && cut == all[d..]
    ensures OccursAt(all, pattern, d + k) == OccursAt(cut, pattern, k)
  {
    if k + |pattern| <= |cut| {
      assert all[d + k..d + k + |pattern|] == cut[k..k + |pattern|];
    }
  }
}
