/**
 * Bencoded values and their parser. The parser keeps its own stack of open
 * containers instead of recursing; it is proved to accept and build exactly
 * what a recursive-descent parser does.
 */
module Bencode {
  import opened BencodeText

  /** A dict's children alternate between keys and values. */
  datatype Benc =
    | Int(i: Int64)
    | Bool(b: bool)
    | Str(s: Text)
    | List(items: seq<Benc>)
    | Dict(items: seq<Benc>)

  /** Malformed is EILSEQ; Incomplete means the text ended too early. */
  datatype Error = Malformed | Incomplete

  datatype ParseResult = Ok(value: Benc, end: nat) | Err(error: Error)

  /** A container whose end has not been read yet. */
  datatype Frame = Frame(isDict: bool, items: seq<Benc>) {
    function Push(v: Benc): Frame { Frame(isDict, items + [v]) }

    /** Dictionary keys must be strings. */
    predicate ExpectsKey() { isDict && |items| % 2 == 0 }

    function Close(): Benc { if isDict then Dict(items) else List(items) }
  }

  predicate Starts(c: Octet) {
    c == LOWER_I || c == LOWER_L || c == LOWER_D || IsDigit(c)
  }

  // ---- the grammar, by recursive descent ----------------------------------

  /** One value at or after `pos`; text that starts nothing is passed over. */
  function ParseValue(buf: Text, pos: nat): (r: ParseResult)
    requires pos <= |buf|
    ensures r.Ok? ==> pos < r.end <= |buf|
    decreases |buf| - pos, 1
  {
    if pos == |buf| then Err(Incomplete)
    else if buf[pos] == LOWER_I then
      match ParseInt(buf, pos)
      case None => Err(Malformed)
      case Some((i, end)) => Ok(Int(i), end)
    else if buf[pos] == LOWER_L then ParseItems(buf, pos + 1, Frame(false, []))
    else if buf[pos] == LOWER_D then ParseItems(buf, pos + 1, Frame(true, []))
    else if buf[pos] == LOWER_E then Err(Malformed)
    else if IsDigit(buf[pos]) then
      match ParseStr(buf, pos)
      case None => Err(Malformed)
      case Some((start, len)) => Ok(Str(InitStr(buf, start, len)), start + len)
    else ParseValue(buf, pos + 1)
  }

  /** The rest of an open container, up to and including its end. */
  function ParseItems(buf: Text, pos: nat, frame: Frame): (r: ParseResult)
    requires pos <= |buf|
    ensures r.Ok? ==> pos < r.end <= |buf|
    decreases |buf| - pos, 2
  {
    if pos == |buf| then Err(Incomplete)
    else if buf[pos] == LOWER_E then
      if frame.isDict && |frame.items| % 2 == 1 then Err(Malformed) else Ok(frame.Close(), pos + 1)
    else if !Starts(buf[pos]) then ParseItems(buf, pos + 1, frame)
    else if frame.ExpectsKey() && !IsDigit(buf[pos]) then Err(Malformed)
    else
      match ParseValue(buf, pos)
      case Err(e) => Err(e)
      case Ok(v, end) => ParseItems(buf, end, frame.Push(v))
  }

  // ---- the parser with its own stack --------------------------------------

  /** What the text comes to when the containers on the stack, innermost last, are still open around `inner`. */
  function Resume(buf: Text, inner: ParseResult, stack: seq<Frame>): ParseResult
    requires inner.Ok? ==> inner.end <= |buf|
    decreases |stack|
  {
    match inner
    case Err(e) => Err(e)
    case Ok(v, end) =>
      if stack == [] then inner
      else
        var top := stack[|stack| - 1];
        Resume(buf, ParseItems(buf, end, top.Push(v)), stack[..|stack| - 1])
  }

  /** What parsing on from `pos` with the given open containers comes to. */
  function Pending(buf: Text, pos: nat, stack: seq<Frame>): ParseResult
    requires pos <= |buf|
  {
    if stack == [] then ParseValue(buf, pos)
    else Resume(buf, ParseItems(buf, pos, stack[|stack| - 1]), stack[..|stack| - 1])
  }

  /** A finished value goes to the innermost open container, or is the result. */
  function Deliver(v: Benc, stack: seq<Frame>): seq<Frame>
    requires stack != []
  {
    stack[..|stack| - 1] + [stack[|stack| - 1].Push(v)]
  }

  lemma DeliverPending(buf: Text, pos: nat, v: Benc, end: nat, stack: seq<Frame>)
    requires pos < |buf| && pos < end <= |buf| && Starts(buf[pos]) && ParseValue(buf, pos) == Ok(v, end)
    requires stack != [] && (stack[|stack| - 1].ExpectsKey() ==> IsDigit(buf[pos]))
    ensures Pending(buf, pos, stack) == Pending(buf, end, Deliver(v, stack))
  {
    var top := stack[|stack| - 1];
    var next := Deliver(v, stack);
    assert next[..|next| - 1] == stack[..|stack| - 1];
  }

  lemma OpenPending(buf: Text, pos: nat, stack: seq<Frame>)
    requires pos < |buf| && (buf[pos] == LOWER_L || buf[pos] == LOWER_D)
    requires stack != [] ==> !stack[|stack| - 1].ExpectsKey()
    ensures Pending(buf, pos, stack) == Pending(buf, pos + 1, stack + [Frame(buf[pos] == LOWER_D, [])])
  {
    var next := stack + [Frame(buf[pos] == LOWER_D, [])];
    assert next[..|next| - 1] == stack;
    var inner := ParseItems(buf, pos + 1, Frame(buf[pos] == LOWER_D, []));
    assert ParseValue(buf, pos) == inner;
    if stack != [] {
      assert ParseItems(buf, pos, stack[|stack| - 1])
          == match inner case Err(e) => Err(e) case Ok(v, end) => ParseItems(buf, end, stack[|stack| - 1].Push(v));
    }
  }

  /** An error in the innermost container is the result. */
  lemma ErrorPending(buf: Text, pos: nat, stack: seq<Frame>, e: Error)
    requires pos <= |buf|
    requires if stack == [] then ParseValue(buf, pos) == Err(e) else ParseItems(buf, pos, stack[|stack| - 1]) == Err(e)
    ensures Pending(buf, pos, stack) == Err(e)
  {
  }

  lemma ClosePending(buf: Text, pos: nat, stack: seq<Frame>)
    requires pos < |buf| && buf[pos] == LOWER_E && stack != []
    requires var top := stack[|stack| - 1]; !(top.isDict && |top.items| % 2 == 1)
    ensures var top, rest := stack[|stack| - 1], stack[..|stack| - 1];
            Pending(buf, pos, stack)
            == if rest == [] then Ok(top.Close(), pos + 1) else Pending(buf, pos + 1, Deliver(top.Close(), rest))
  {
    var top, rest := stack[|stack| - 1], stack[..|stack| - 1];
    if rest != [] {
      var next := Deliver(top.Close(), rest);
      assert next[..|next| - 1] == rest[..|rest| - 1];
    }
  }

  /**
   * tr_bencParse(): one loop and a stack. `getNode` refuses a key that is not
   * a string before the node's own text is looked at any further.
   */
  method Parse(buf: Text) returns (r: ParseResult)
    ensures r == ParseValue(buf, 0)
  {
    var pos: nat := 0;
    var stack: seq<Frame> := [];
    while pos != |buf|
      invariant pos <= |buf|
      invariant ParseValue(buf, 0) == Pending(buf, pos, stack)
      decreases |buf| - pos
    {
      if buf[pos] == LOWER_I {
        var parsed := ParseInt(buf, pos);
        if parsed.None? || (stack != [] && stack[|stack| - 1].ExpectsKey()) {
          ErrorPending(buf, pos, stack, Malformed);
          return Err(Malformed);
        }
        var (i, end) := parsed.value;
        if stack == [] {
          return Ok(Int(i), end);
        }
        DeliverPending(buf, pos, Int(i), end, stack);
        pos, stack := end, Deliver(Int(i), stack);
      } else if buf[pos] == LOWER_L || buf[pos] == LOWER_D {
        if stack != [] && stack[|stack| - 1].ExpectsKey() {
          ErrorPending(buf, pos, stack, Malformed);
          return Err(Malformed);
        }
        OpenPending(buf, pos, stack);
        pos, stack := pos + 1, stack + [Frame(buf[pos] == LOWER_D, [])];
      } else if buf[pos] == LOWER_E {
        if stack == [] {
          return Err(Malformed);
        }
        var top, rest := stack[|stack| - 1], stack[..|stack| - 1];
        if top.isDict && |top.items| % 2 == 1 {
          ErrorPending(buf, pos, stack, Malformed);
          return Err(Malformed);
        }
        ClosePending(buf, pos, stack);
        if rest == [] {
          return Ok(top.Close(), pos + 1);
        }
        pos, stack := pos + 1, Deliver(top.Close(), rest);
      } else if IsDigit(buf[pos]) {
        var parsed := ParseStr(buf, pos);
        if parsed.None? {
          ErrorPending(buf, pos, stack, Malformed);
          return Err(Malformed);
        }
        var (start, len) := parsed.value;
        var v := Str(InitStr(buf, start, len));
        if stack == [] {
          return Ok(v, start + len);
        }
        DeliverPending(buf, pos, v, start + len, stack);
        pos, stack := start + len, Deliver(v, stack);
      } else {
        pos := pos + 1;
      }
    }
    ErrorPending(buf, pos, stack, Incomplete);
    return Err(Incomplete);
  }
}
