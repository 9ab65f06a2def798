/** The `pb` parameter codec of `GoogleMapsDataParser`: a wire string is a run of
    `!`-separated tokens; `<tag>m<n>` opens a nested message made of the next `n`
    tokens, `<tag><t><value>` with `t` one of `bdefisuvxyz` is a scalar. */
module Codec {
  import opened Wrappers
  import opened Text
  import opened Document

  /** The exception `parse` raises for a token it cannot read. */
  datatype Error = UnknownParamFormat(token: string)

  /** The scalar type characters; `m` is not among them. */
  const TypeChars: set<char> := {'b', 'd', 'e', 'f', 'i', 's', 'u', 'v', 'x', 'y', 'z'}

  /** What the two token patterns make of a token. */
  datatype Token =
    | Header(tag: string, length: nat)
    | ScalarToken(tag: string, kind: char, value: string)
    | Unrecognised

  /** What `(.*)$` captures of `rest`: `.` stops at a newline and `$` also
      matches just before a final newline, so one trailing newline is dropped
      and any other newline makes the pattern fail. */
  function LineRest(rest: string): (r: Option<string>)
    ensures r.Some? ==> '\n' !in r.value && r.value <= rest
    ensures '\n' !in rest ==> r == Some(rest)
  {
    if '\n' !in rest then Some(rest)
    else if rest[|rest| - 1] == '\n' && '\n' !in rest[..|rest| - 1] then Some(rest[..|rest| - 1])
    else None
  }

  /** `^(\d+)m(\d+)` is tried first, then `^(\d+)([bdefisuvxyz])(.*)$`. The
      header pattern is not anchored at the end: whatever follows the count's
      digits is ignored. */
  function Classify(token: string): Token
  {
    var tag := LeadingDigits(token);
    var after := token[|tag|..];
    if tag != [] && after != [] && after[0] == 'm' && LeadingDigits(after[1..]) != [] then
      Header(tag, DigitsToNat(LeadingDigits(after[1..])))
    else if tag != [] && after != [] && after[0] in TypeChars && LineRest(after[1..]).Some? then
      ScalarToken(tag, after[0], LineRest(after[1..]).value)
    else
      Unrecognised
  }

  function Min(a: int, b: int): int {
    if a < b then a else b
  }

  /** The key a field with `tag` is stored under, and the next duplicate counter:
      the bare tag the first time, `<tag>_<dup>` when the tag is already present. */
  function Slot(acc: Doc, tag: string, dup: nat): (string, nat)
  {
    if tag in Keys(acc) then (tag + "_" + NatToString(dup), dup + 1) else (tag, dup)
  }

  /** `parse(tokens)`: the document the token range decodes to, or the error
      naming the token that stopped it. */
  function ParseSpec(tokens: seq<string>): Result<Doc, Error>
    decreases |tokens|, 1, 0
  {
    ParseFrom(tokens, 0, [], 1)
  }

  /** The `parse` loop from index `i` on, with `acc` the `result` dict built so
      far and `dup` the `duplicate_index` counter. A header's child range is the
      next `length` tokens, cut off at the end of the range; scanning resumes
      after it, or stops when the count overshoots. */
  function ParseFrom(tokens: seq<string>, i: nat, acc: Doc, dup: nat): Result<Doc, Error>
    requires i <= |tokens|
    decreases |tokens|, 0, |tokens| - i
  {
    if i == |tokens| then Success(acc)
    else
      match Classify(tokens[i])
      case Header(tag, length) =>
        var end := Min(|tokens|, i + 1 + length);
        var child := ParseSpec(tokens[i + 1..end]);
        if child.Failure? then Failure(child.error)
        else
          var slot := Slot(acc, tag, dup);
          ParseFrom(tokens, end, Put(acc, slot.0, Msg(child.value)), slot.1)
      case ScalarToken(tag, kind, value) =>
        var slot := Slot(acc, tag, dup);
        ParseFrom(tokens, i + 1, Put(acc, slot.0, Scalar([kind] + value)), slot.1)
      case Unrecognised =>
        Failure(UnknownParamFormat(tokens[i]))
  }

  /** One step of the loop at a header token. */
  lemma ParseFromHeader(tokens: seq<string>, i: nat, acc: Doc, dup: nat, tag: string, length: nat, end: nat, child: Result<Doc, Error>)
    requires i < |tokens| && Classify(tokens[i]) == Header(tag, length)
    requires end == Min(|tokens|, i + 1 + length)
    requires child == ParseSpec(tokens[i + 1..end])
    ensures child.Failure? ==> ParseFrom(tokens, i, acc, dup) == Failure(child.error)
    ensures child.Success? ==>
      ParseFrom(tokens, i, acc, dup)
      == ParseFrom(tokens, end, Put(acc, Slot(acc, tag, dup).0, Msg(child.value)), Slot(acc, tag, dup).1)
  {
    var slot := Slot(acc, tag, dup);
    assert ParseFrom(tokens, i, acc, dup)
      == if child.Failure? then Failure(child.error)
         else ParseFrom(tokens, end, Put(acc, slot.0, Msg(child.value)), slot.1);
  }

  /** One step of the loop at a scalar token. */
  lemma ParseFromScalar(tokens: seq<string>, i: nat, acc: Doc, dup: nat, tag: string, kind: char, value: string)
    requires i < |tokens| && Classify(tokens[i]) == ScalarToken(tag, kind, value)
    ensures ParseFrom(tokens, i, acc, dup)
      == ParseFrom(tokens, i + 1, Put(acc, Slot(acc, tag, dup).0, Scalar([kind] + value)), Slot(acc, tag, dup).1)
  {
  }

  /** `parse`: one pass over the token range with an index, the result dict and
      the duplicate counter shared by all tags; nested messages recurse on the
      (possibly truncated) slice after their header. */
  method Parse(messages: seq<string>) returns (r: Result<Doc, Error>)
    ensures r == ParseSpec(messages)
    decreases |messages|
  {
    var count := |messages|;
    var result: Doc := [];
    var i := 0;
    var duplicateIndex: nat := 1;
    while i < count
      invariant 0 <= i
      invariant ParseSpec(messages) == ParseFrom(messages, Min(i, count), result, duplicateIndex)
      decreases count - i
    {
      var message := messages[i];
      ghost var next: nat := i + 1;
      assert Min(i, count) == i;
      match Classify(message) {
        case Header(key, length) =>
          next := Min(count, i + 1 + length);
          var parsed := Parse(messages[i + 1..Min(count, i + 1 + length)]);
          ParseFromHeader(messages, i, result, duplicateIndex, key, length, next, parsed);
          if parsed.Failure? {
            return Failure(parsed.error);
          }
          result, duplicateIndex := Store(result, duplicateIndex, key, Msg(parsed.value));
          i := i + length;
        case ScalarToken(key, kind, value) =>
          ParseFromScalar(messages, i, result, duplicateIndex, key, kind, value);
          var computed := [kind] + value;
          result, duplicateIndex := Store(result, duplicateIndex, key, Scalar(computed));
        case Unrecognised =>
          return Failure(UnknownParamFormat(message));
      }
      i := i + 1;
      assert Min(i, count) == next;
    }
    return Success(result);
  }

  /** Stores a parsed value under its tag, or under `<tag>_<dup>` when the tag
      is already present, moving the shared counter on in that case only. */
  method Store(result: Doc, duplicateIndex: nat, key: string, value: Field) returns (result': Doc, duplicateIndex': nat)
    ensures result' == Put(result, Slot(result, key, duplicateIndex).0, value)
    ensures duplicateIndex' == Slot(result, key, duplicateIndex).1
    ensures key in Keys(result) <==> duplicateIndex' == duplicateIndex + 1
    ensures Get(result', Slot(result, key, duplicateIndex).0) == Some(value)
    ensures DistinctKeys(result) ==> DistinctKeys(result')
  {
    if key in Keys(result) {
      result' := Put(result, key + "_" + NatToString(duplicateIndex), value);
      duplicateIndex' := duplicateIndex + 1;
    } else {
      result' := Put(result, key, value);
      duplicateIndex' := duplicateIndex;
    }
    PutGet(result, Slot(result, key, duplicateIndex).0, value, Slot(result, key, duplicateIndex).0);
    if DistinctKeys(result) {
      PutDistinct(result, Slot(result, key, duplicateIndex).0, value);
    }
  }

  /** `count_elements(d)`: the number of tokens `d`'s fields flatten to, which is
      the count written into the header of a message holding `d`. */
  function Count(d: Doc): nat
    decreases Msg(d), 0, |d| + 1
  {
    CountFrom(d, 0)
  }

  /** The share of the fields from index `i` on. */
  function CountFrom(d: Doc, i: nat): nat
    requires i <= |d|
    decreases Msg(d), 0, |d| - i
  {
    if i == |d| then 0 else Weight(d[i].1) + CountFrom(d, i + 1)
  }

  /** The two kinds of Python sequence `is_list` compares. Python's `==`
      between a `list` and a `range` is false whatever their elements, since
      neither type compares equal to the other. */
  datatype PySequence = PyList(items: seq<string>) | PyRange(stop: nat)

  predicate PyEqual(a: PySequence, b: PySequence) {
    match (a, b)
    case (PyList(x), PyList(y)) => x == y
    case (PyRange(m), PyRange(n)) => m == n
    case _ => false
  }

  /** `is_list(elements)`: false when empty, else whether the key list equals
      `range(len(elements))`. */
  predicate IsList(d: Doc) {
    if |d| == 0 then false else PyEqual(PyList(Keys(d)), PyRange(|d|))
  }

  /** `is_list` holds of no document, so its branches in `count_elements` and
      `transform` are never taken. */
  lemma IsListNever(d: Doc)
    ensures !IsList(d)
  {
  }

  /** One value's share of `count_elements`: 1 for a scalar; for a message, its
      own header plus its contents. The list case is left out, since `IsList`
      never holds. */
  function Weight(f: Field): nat
    decreases f, 1
  {
    match f
    case Scalar(_) => 1
    case Msg(c) => 1 + Count(c)
  }

  /** `count_elements(elements, initial)`: a loop adding each value's share to
      `initial`, recursing into nested messages with `initial` 1. */
  method CountElements(elements: Doc, initial: int) returns (n: int)
    ensures n == initial + Count(elements)
    decreases Msg(elements)
  {
    n := initial;
    for k := 0 to |elements|
      invariant n + CountFrom(elements, k) == initial + Count(elements)
    {
      match elements[k].1
      case Msg(value) =>
        IsListNever(value);
        var inner := CountElements(value, 1);
        n := n + inner;
      case Scalar(_) =>
        n := n + 1;
    }
  }

  /** The tag a key goes on the wire with: `^(\d+)_(\d+)` keeps only the leading
      digits, so a synthetic duplicate key is sent as its bare tag. */
  function RealKey(key: string): string
  {
    var tag := LeadingDigits(key);
    var after := key[|tag|..];
    if tag != [] && after != [] && after[0] == '_' && LeadingDigits(after[1..]) != [] then tag else key
  }

  /** `transform(key, value)`: one field's segment of the wire string. */
  function EncodeField(key: string, f: Field): string
    decreases f, 2
  {
    var tag := RealKey(key);
    match f
    case Scalar(s) => tag + s
    case Msg(c) =>
      tag + "m" + NatToString(Count(c)) + (if c != [] then [Bang] + EncodeImpl(c) else [])
  }

  /** The segments of the fields from index `i` on, in insertion order. */
  function SegmentsFrom(d: Doc, i: nat): seq<string>
    requires i <= |d|
    decreases Msg(d), 0, |d| - i
  {
    if i == |d| then [] else [EncodeField(d[i].0, d[i].1)] + SegmentsFrom(d, i + 1)
  }

  /** `_encode_impl(d)`: the field segments joined by `!`. */
  function EncodeImpl(d: Doc): string
    decreases Msg(d), 1
  {
    Join(SegmentsFrom(d, 0))
  }

  /** `encode(d)`: the wire string always starts with `!`. */
  function Encode(d: Doc): string
  {
    [Bang] + EncodeImpl(d)
  }

  /** `decode(wire)`: tokenise, then parse the whole token list. */
  function Decode(wire: string): Result<Doc, Error>
  {
    ParseSpec(Tokens(wire))
  }
}
