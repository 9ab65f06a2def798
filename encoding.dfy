/** What `encode` puts on the wire, token by token, and why the counts written
    into message headers are the ones `parse` needs. */
module Encoding {
  import opened Wrappers
  import opened Text
  import opened Document
  import opened Codec

  /** The tokens one field contributes: a scalar is a single token; a message
      is its header followed by the tokens of its contents. */
  function FieldTokens(key: string, f: Field): (r: seq<string>)
    ensures |r| >= 1
    decreases f, 2
  {
    match f
    case Scalar(s) => [RealKey(key) + s]
    case Msg(c) => [RealKey(key) + "m" + NatToString(Count(c))] + Flatten(c)
  }

  /** The tokens of the fields from index `i` on. */
  function FlattenFrom(d: Doc, i: nat): seq<string>
    requires i <= |d|
    decreases Msg(d), 0, |d| - i
  {
    if i == |d| then [] else FieldTokens(d[i].0, d[i].1) + FlattenFrom(d, i + 1)
  }

  /** The token list a document is written as, depth first in insertion order. */
  function Flatten(d: Doc): seq<string>
    decreases Msg(d), 1
  {
    FlattenFrom(d, 0)
  }

  /** A document whose every token survives the tokeniser: keys are non-empty
      and free of `!`, and so are scalar values (an empty value is allowed,
      since its key still makes the token non-empty). */
  predicate WireSafe(d: Doc)
    decreases Msg(d), 0
  {
    forall i :: 0 <= i < |d| ==> d[i].0 != [] && Bang !in d[i].0 && FieldWireSafe(d[i].1)
  }

  predicate FieldWireSafe(f: Field)
    decreases f, 1
  {
    match f
    case Scalar(s) => Bang !in s
    case Msg(c) => WireSafe(c)
  }

  /** `count_elements` counts exactly the tokens a document is written as. */
  lemma {:induction false} FlattenCount(d: Doc)
    ensures |Flatten(d)| == Count(d)
    decreases Msg(d), 1
  {
    FlattenFromCount(d, 0);
  }

  lemma {:induction false} FlattenFromCount(d: Doc, i: nat)
    requires i <= |d|
    ensures |FlattenFrom(d, i)| == CountFrom(d, i)
    decreases Msg(d), 0, |d| - i
  {
    if i < |d| {
      FieldTokensCount(d[i].0, d[i].1);
      FlattenFromCount(d, i + 1);
    }
  }

  lemma {:induction false} FieldTokensCount(key: string, f: Field)
    ensures |FieldTokens(key, f)| == Weight(f)
    decreases f, 2
  {
    match f {
      case Scalar(_) =>
      case Msg(c) => FlattenCount(c);
    }
  }

  /** `_encode_impl(d)` is the document's token list joined by `!`. */
  lemma {:induction false} EncodeImplFlatten(d: Doc)
    ensures EncodeImpl(d) == Join(Flatten(d))
    decreases Msg(d), 1
  {
    SegmentsFlatten(d, 0);
  }

  lemma {:induction false} SegmentsFlatten(d: Doc, i: nat)
    requires i <= |d|
    ensures Join(SegmentsFrom(d, i)) == Join(FlattenFrom(d, i))
    decreases Msg(d), 0, |d| - i
  {
    if i < |d| {
      var segs := SegmentsFrom(d, i);
      var tokens := FieldTokens(d[i].0, d[i].1);
      FieldSegment(d[i].0, d[i].1);
      SegmentsFlatten(d, i + 1);
      if i + 1 == |d| {
        assert SegmentsFrom(d, i + 1) == [] && FlattenFrom(d, i + 1) == [];
        assert segs == [EncodeField(d[i].0, d[i].1)];
        assert FlattenFrom(d, i) == tokens;
      } else {
        assert FlattenFrom(d, i + 1) != [] by {
          assert |FieldTokens(d[i + 1].0, d[i + 1].1)| >= 1;
        }
        assert segs[1..] == SegmentsFrom(d, i + 1);
        JoinAppend(tokens, FlattenFrom(d, i + 1));
      }
    }
  }

  /** `transform(key, value)` is the field's tokens joined by `!`. */
  lemma {:induction false} FieldSegment(key: string, f: Field)
    ensures EncodeField(key, f) == Join(FieldTokens(key, f))
    decreases f, 2
  {
    match f {
      case Scalar(_) =>
      case Msg(c) =>
        var header := RealKey(key) + "m" + NatToString(Count(c));
        if c == [] {
          assert Flatten(c) == [];
        } else {
          EncodeImplFlatten(c);
          assert Flatten(c) != [] by {
            assert |FieldTokens(c[0].0, c[0].1)| >= 1;
          }
          JoinAppend([header], Flatten(c));
        }
    }
  }

  /** The tokens of a wire-safe document are tokens the tokeniser keeps. */
  lemma {:induction false} FlattenTokens(d: Doc)
    requires WireSafe(d)
    ensures forall j :: 0 <= j < |Flatten(d)| ==> IsToken(Flatten(d)[j])
    decreases Msg(d), 1
  {
    FlattenFromTokens(d, 0);
  }

  lemma {:induction false} FlattenFromTokens(d: Doc, i: nat)
    requires i <= |d| && WireSafe(d)
    ensures forall j :: 0 <= j < |FlattenFrom(d, i)| ==> IsToken(FlattenFrom(d, i)[j])
    decreases Msg(d), 0, |d| - i
  {
    if i < |d| {
      FieldTokensTokens(d[i].0, d[i].1);
      FlattenFromTokens(d, i + 1);
    }
  }

  lemma {:induction false} FieldTokensTokens(key: string, f: Field)
    requires key != [] && Bang !in key && FieldWireSafe(f)
    ensures forall j :: 0 <= j < |FieldTokens(key, f)| ==> IsToken(FieldTokens(key, f)[j])
    decreases f, 2
  {
    RealKeyOf(key);
    var tag := RealKey(key);
    match f {
      case Scalar(s) =>
        assert (tag + s)[0] == tag[0];
      case Msg(c) =>
        FlattenTokens(c);
        var header := tag + "m" + NatToString(Count(c));
        assert header[0] == tag[0];
        assert Bang !in header by {
          assert Bang !in NatToString(Count(c)) by {
            var n := NatToString(Count(c));
            assert forall j :: 0 <= j < |n| ==> IsDigit(n[j]);
          }
        }
    }
  }

  /** The wire tag of a key is the key itself or a non-empty prefix of it. */
  lemma RealKeyOf(key: string)
    ensures RealKey(key) <= key
    ensures key != [] ==> RealKey(key) != []
  {
  }

  /** Count/parse agreement: the tokeniser finds exactly `count_elements(d)`
      tokens in `encode(d)`, and they are the document's token list. */
  lemma TokensOfEncode(d: Doc)
    requires WireSafe(d)
    ensures Tokens(Encode(d)) == Flatten(d)
    ensures |Tokens(Encode(d))| == Count(d)
  {
    EncodeImplFlatten(d);
    TokensLeadingBang(EncodeImpl(d));
    FlattenTokens(d);
    TokensOfJoin(Flatten(d));
    FlattenCount(d);
  }
}
