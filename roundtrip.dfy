/** `decode(encode(d)) == d` for the documents the wire format can carry
    faithfully. */
module RoundTrip {
  import opened Wrappers
  import opened Text
  import opened Document
  import opened Codec
  import opened Encoding
  import opened ParseFacts

  /** A document `encode` writes in a form `decode` reads back unchanged: keys
      are distinct bare tags, and every scalar is a type character followed by
      text with neither `!` nor a newline. */
  predicate Canonical(d: Doc)
    decreases Msg(d), 0
  {
    DistinctKeys(d) && forall i :: 0 <= i < |d| ==> IsDigits(d[i].0) && FieldCanonical(d[i].1)
  }

  predicate FieldCanonical(f: Field)
    decreases f, 1
  {
    match f
    case Scalar(s) => ScalarText(s) && Bang !in s
    case Msg(c) => Canonical(c)
  }

  lemma {:induction false} CanonicalWireSafe(d: Doc)
    requires Canonical(d)
    ensures WireSafe(d)
    decreases Msg(d), 0
  {
    forall i | 0 <= i < |d|
      ensures d[i].0 != [] && Bang !in d[i].0 && FieldWireSafe(d[i].1)
    {
      DigitsHaveNoBang(d[i].0);
      match d[i].1 {
        case Scalar(_) =>
        case Msg(c) => CanonicalWireSafe(c);
      }
    }
  }

  lemma DigitsHaveNoBang(s: string)
    requires IsDigits(s)
    ensures s != [] && Bang !in s
  {
    assert forall j :: 0 <= j < |s| ==> IsDigit(s[j]);
  }

  /** A bare tag goes on the wire as it is. */
  lemma RealKeyOfTag(key: string)
    requires IsDigits(key)
    ensures RealKey(key) == key
  {
    BareNotSynthetic(key);
  }

  /** The round trip: a canonical document survives `encode` then `decode`. */
  lemma DecodeEncode(d: Doc)
    requires Canonical(d)
    ensures Decode(Encode(d)) == Success(d)
  {
    CanonicalWireSafe(d);
    TokensOfEncode(d);
    ParseFlatten(d);
  }

  /** `parse` reads a canonical document back from its token list. */
  lemma {:induction false} ParseFlatten(d: Doc)
    requires Canonical(d)
    ensures ParseSpec(Flatten(d)) == Success(d)
    decreases Msg(d), 1
  {
    var tokens := Flatten(d);
    assert tokens[0..] == tokens;
    assert d[..0] == [];
    ParseFlattenFrom(tokens, 0, d, 0);
  }

  /** Parsing from the start of field `k`'s tokens, with the first `k` fields
      already stored, completes the document. */
  lemma {:induction false} ParseFlattenFrom(tokens: seq<string>, i: nat, d: Doc, k: nat)
    requires Canonical(d) && k <= |d|
    requires i + |FlattenFrom(d, k)| == |tokens| && tokens[i..] == FlattenFrom(d, k)
    ensures ParseFrom(tokens, i, d[..k], 1) == Success(d)
    decreases Msg(d), 0, |d| - k
  {
    if k == |d| {
      assert d[..k] == d;
    } else {
      var next := FieldStep(tokens, i, d, k);
      ParseFlattenFrom(tokens, next, d, k + 1);
    }
  }

  /** One field's tokens are parsed back into that field, appended to the
      fields before it, and parsing resumes at the next field's tokens. */
  lemma {:induction false} FieldStep(tokens: seq<string>, i: nat, d: Doc, k: nat) returns (next: nat)
    requires Canonical(d) && k < |d|
    requires i + |FlattenFrom(d, k)| == |tokens| && tokens[i..] == FlattenFrom(d, k)
    ensures next == i + |FieldTokens(d[k].0, d[k].1)|
    ensures next + |FlattenFrom(d, k + 1)| == |tokens| && tokens[next..] == FlattenFrom(d, k + 1)
    ensures ParseFrom(tokens, i, d[..k], 1) == ParseFrom(tokens, next, d[..k + 1], 1)
    decreases Msg(d), 0, |d| - k, 0
  {
    next := i + |FieldTokens(d[k].0, d[k].1)|;
    FieldSlices(tokens, i, d, k);
    FieldParse(tokens, i, next, d, k);
  }

  /** The parse step over one field's tokens, split by the field's kind. */
  lemma {:induction false} FieldParse(tokens: seq<string>, i: nat, next: nat, d: Doc, k: nat)
    requires Canonical(d) && k < |d|
    requires next == i + |FieldTokens(d[k].0, d[k].1)| && next <= |tokens|
    requires tokens[i] == FieldTokens(d[k].0, d[k].1)[0]
    requires tokens[i + 1..next] == FieldTokens(d[k].0, d[k].1)[1..]
    ensures ParseFrom(tokens, i, d[..k], 1) == ParseFrom(tokens, next, d[..k + 1], 1)
    decreases Msg(d), 0, |d| - k, 0, 0
  {
    FreshKey(d, k);
    match d[k].1 {
      case Scalar(s) => ScalarField(tokens, i, next, d, k, s);
      case Msg(c) => MsgField(tokens, i, next, d, k, c);
    }
  }

  lemma ScalarField(tokens: seq<string>, i: nat, next: nat, d: Doc, k: nat, s: string)
    requires Canonical(d) && k < |d| && d[k].1 == Scalar(s) && d[k].0 !in Keys(d[..k])
    requires next == i + |FieldTokens(d[k].0, d[k].1)| && next <= |tokens|
    requires tokens[i] == FieldTokens(d[k].0, d[k].1)[0]
    ensures ParseFrom(tokens, i, d[..k], 1) == ParseFrom(tokens, next, d[..k + 1], 1)
  {
    var key := d[k].0;
    assert d[..k + 1] == d[..k] + [(key, Scalar(s))];
    ScalarStep(tokens, i, next, d[..k], d[..k + 1], key, s);
  }

  lemma {:induction false} MsgField(tokens: seq<string>, i: nat, next: nat, d: Doc, k: nat, c: Doc)
    requires Canonical(d) && k < |d| && d[k].1 == Msg(c) && d[k].0 !in Keys(d[..k])
    requires next == i + |FieldTokens(d[k].0, d[k].1)| && next <= |tokens|
    requires tokens[i] == FieldTokens(d[k].0, d[k].1)[0]
    requires tokens[i + 1..next] == FieldTokens(d[k].0, d[k].1)[1..]
    ensures ParseFrom(tokens, i, d[..k], 1) == ParseFrom(tokens, next, d[..k + 1], 1)
    decreases Msg(d), 0, |d| - k, 0, 0, 0
  {
    var key := d[k].0;
    assert d[..k + 1] == d[..k] + [(key, Msg(c))];
    FlattenCount(c);
    assert FieldTokens(key, Msg(c))[1..] == Flatten(c);
    ParseFlatten(c);
    HeaderStep(tokens, i, next, d[..k], d[..k + 1], key, c);
  }

  /** Where field `k`'s tokens and the later fields' tokens sit in the list. */
  lemma FieldSlices(tokens: seq<string>, i: nat, d: Doc, k: nat)
    requires k < |d|
    requires i + |FlattenFrom(d, k)| == |tokens| && tokens[i..] == FlattenFrom(d, k)
    ensures
      var toks := FieldTokens(d[k].0, d[k].1);
      && tokens[i] == toks[0]
      && tokens[i + 1..i + |toks|] == toks[1..]
      && i + |toks| + |FlattenFrom(d, k + 1)| == |tokens|
      && tokens[i + |toks|..] == FlattenFrom(d, k + 1)
  {
    var toks := FieldTokens(d[k].0, d[k].1);
    var rest := FlattenFrom(d, k + 1);
    assert tokens[i..] == toks + rest;
    assert tokens[i] == tokens[i..][0];
    assert tokens[i + 1..i + |toks|] == tokens[i..][1..|toks|];
    assert tokens[i + |toks|..] == tokens[i..][|toks|..];
  }

  /** A canonical scalar token is stored under its fresh key. */
  lemma ScalarStep(tokens: seq<string>, i: nat, next: nat, acc: Doc, after: Doc, key: string, s: string)
    requires i < |tokens| && next == i + 1
    requires IsDigits(key) && key !in Keys(acc) && FieldCanonical(Scalar(s))
    requires tokens[i] == FieldTokens(key, Scalar(s))[0]
    requires after == acc + [(key, Scalar(s))]
    ensures ParseFrom(tokens, i, acc, 1) == ParseFrom(tokens, next, after, 1)
  {
    RealKeyOfTag(key);
    assert tokens[i] == key + [s[0]] + s[1..];
    ClassifyScalar(key, s[0], s[1..]);
    ParseFromScalar(tokens, i, acc, 1, key, s[0], s[1..]);
    assert [s[0]] + s[1..] == s;
    PutNew(acc, key, Scalar(s));
  }

  /** A canonical header token is stored, with the message read from the
      tokens it counts, under its fresh key. */
  lemma HeaderStep(tokens: seq<string>, i: nat, next: nat, acc: Doc, after: Doc, key: string, c: Doc)
    requires next == i + 1 + Count(c) && next <= |tokens|
    requires IsDigits(key) && key !in Keys(acc)
    requires tokens[i] == FieldTokens(key, Msg(c))[0]
    requires ParseSpec(tokens[i + 1..next]) == Success(c)
    requires after == acc + [(key, Msg(c))]
    ensures ParseFrom(tokens, i, acc, 1) == ParseFrom(tokens, next, after, 1)
  {
    var n := Count(c);
    RealKeyOfTag(key);
    assert tokens[i] == key + "m" + NatToString(n) + [];
    ClassifyHeader(key, n, []);
    ParseFromHeader(tokens, i, acc, 1, key, n, next, Success(c));
    PutNew(acc, key, Msg(c));
  }

  /** Field `k`'s key is not among the first `k`. */
  lemma FreshKey(d: Doc, k: nat)
    requires DistinctKeys(d) && k < |d|
    ensures d[k].0 !in Keys(d[..k])
  {
    forall j | 0 <= j < k
      ensures Keys(d[..k])[j] != d[k].0
    {
      assert Keys(d[..k])[j] == d[j].0;
    }
  }
}
