/** Edge cases of the codec and concrete wire strings it reads and writes. */
module Behaviour {
  import opened Wrappers
  import opened Text
  import opened Document
  import opened Codec
  import opened ParseFacts

  /** Empty tokens are dropped before parsing, so a wire string with no
      tokens decodes to the empty document. */
  lemma DecodeNothing()
    ensures Decode("") == Success([])
    ensures Decode("!!") == Success([])
  {
    assert Split("") == [""];
    assert "!!" == [] + [Bang] + ("" + [Bang] + "");
    SplitCons([], "" + [Bang] + "");
    SplitCons([], "");
    assert Split("!!") == ["", "", ""];
  }

  /** A `!` before or after the wire string changes nothing. */
  lemma DecodeOuterBangs(s: string)
    ensures Decode([Bang] + s) == Decode(s)
    ensures Decode(s + [Bang]) == Decode(s)
  {
    TokensLeadingBang(s);
    TokensTrailingBang(s);
  }

  /** A header whose count runs past the end of the range takes all the
      remaining tokens as its message, and the loop ends there. */
  lemma HeaderTruncated(tokens: seq<string>, i: nat, acc: Doc, dup: nat, tag: string, length: nat)
    requires i < |tokens| && Classify(tokens[i]) == Header(tag, length)
    requires i + 1 + length >= |tokens|
    ensures
      var child := ParseSpec(tokens[i + 1..]);
      ParseFrom(tokens, i, acc, dup)
      == if child.Failure? then Failure(child.error)
         else Success(Put(acc, Slot(acc, tag, dup).0, Msg(child.value)))
  {
    assert Min(|tokens|, i + 1 + length) == |tokens|;
    assert tokens[i + 1..|tokens|] == tokens[i + 1..];
    ParseFromHeader(tokens, i, acc, dup, tag, length, |tokens|, ParseSpec(tokens[i + 1..]));
  }

  /** A key `<digits>_<digits>...` goes on the wire as its leading digits, so a
      synthetic duplicate key is written as the tag it repeats. */
  lemma RealKeySynthetic(tag: string, suffix: string, rest: string)
    requires IsDigits(tag) && IsDigits(suffix)
    ensures RealKey(tag + "_" + suffix + rest) == tag
  {
    var key := tag + "_" + suffix + rest;
    assert key == tag + ("_" + suffix + rest);
    LeadingDigitsOf(tag, "_" + suffix + rest);
    assert key[|tag|..] == "_" + suffix + rest;
    assert ("_" + suffix + rest)[1..] == suffix + rest;
    assert LeadingDigits(suffix + rest) != [] by {
      assert (suffix + rest)[0] == suffix[0];
    }
  }

  /** An empty message is written as its header alone, with count 0. */
  lemma EmptyMessageSegment(key: string)
    ensures EncodeField(key, Msg([])) == RealKey(key) + "m0"
  {
    assert Count([]) == 0;
    assert NatToString(0) == "0";
  }

  /** A scalar token is stored under the slot its tag takes. */
  lemma ScalarOccurrence(tokens: seq<string>, i: nat, acc: Doc, dup: nat, tag: string, s: string)
    requires i < |tokens| && tokens[i] == tag + s && IsDigits(tag) && ScalarText(s)
    ensures ParseFrom(tokens, i, acc, dup)
      == ParseFrom(tokens, i + 1, Put(acc, Slot(acc, tag, dup).0, Scalar(s)), Slot(acc, tag, dup).1)
  {
    assert tokens[i] == tag + [s[0]] + s[1..];
    ClassifyScalar(tag, s[0], s[1..]);
    ParseFromScalar(tokens, i, acc, dup, tag, s[0], s[1..]);
    assert [s[0]] + s[1..] == s;
  }

  /** The first occurrence of a tag in a `parse` call is stored under the bare
      tag, and the duplicate counter is left alone. */
  lemma FirstOccurrence(tokens: seq<string>, i: nat, acc: Doc, dup: nat, tag: string, s: string)
    requires i < |tokens| && tokens[i] == tag + s
    requires IsDigits(tag) && ScalarText(s) && tag !in Keys(acc)
    ensures ParseFrom(tokens, i, acc, dup) == ParseFrom(tokens, i + 1, acc + [(tag, Scalar(s))], dup)
  {
    ScalarOccurrence(tokens, i, acc, dup, tag, s);
    PutNew(acc, tag, Scalar(s));
  }

  /** A later occurrence is stored under `<tag>_<dup>`, and the counter moves on. */
  lemma RepeatedOccurrence(tokens: seq<string>, i: nat, acc: Doc, dup: nat, tag: string, s: string)
    requires i < |tokens| && tokens[i] == tag + s
    requires IsDigits(tag) && ScalarText(s) && tag in Keys(acc)
    requires tag + "_" + NatToString(dup) !in Keys(acc)
    ensures ParseFrom(tokens, i, acc, dup)
      == ParseFrom(tokens, i + 1, acc + [(tag + "_" + NatToString(dup), Scalar(s))], dup + 1)
  {
    var key := tag + "_" + NatToString(dup);
    ScalarOccurrence(tokens, i, acc, dup, tag, s);
    assert Slot(acc, tag, dup) == (key, dup + 1);
    PutNew(acc, key, Scalar(s));
  }

  /** A tag seen twice: the second value goes under `<tag>_1`. */
  lemma ParseRepeatedTag(tag: string, a: string, b: string)
    requires IsDigits(tag) && ScalarText(a) && ScalarText(b)
    ensures ParseSpec([tag + a, tag + b]) == Success([(tag, Scalar(a)), (tag + "_1", Scalar(b))])
  {
    var tokens := [tag + a, tag + b];
    var k := tag + "_" + NatToString(1);
    var d1 := [] + [(tag, Scalar(a))];
    var d2 := d1 + [(k, Scalar(b))];
    FirstOccurrence(tokens, 0, [], 1, tag, a);
    assert Keys(d1) == [tag];
    SyntheticKeys(tag, 1, tag);
    RepeatedOccurrence(tokens, 1, d1, 1, tag, b);
    assert ParseFrom(tokens, 2, d2, 2) == Success(d2);
    assert NatToString(1) == "1";
    assert k == tag + "_1";
    assert d2 == [(tag, Scalar(a)), (tag + "_1", Scalar(b))];
  }

  /** On the wire: `<tag><a>!<tag><b>` decodes to the two values under `<tag>`
      and `<tag>_1`, as `1b1!1b0` decodes to `{"1": "b1", "1_1": "b0"}`. */
  lemma DecodeRepeatedTag(tag: string, a: string, b: string)
    requires IsDigits(tag) && ScalarText(a) && ScalarText(b) && Bang !in a && Bang !in b
    ensures Decode(tag + a + [Bang] + tag + b) == Success([(tag, Scalar(a)), (tag + "_1", Scalar(b))])
  {
    var tokens := [tag + a, tag + b];
    assert Bang !in tag by {
      assert forall j :: 0 <= j < |tag| ==> IsDigit(tag[j]);
    }
    assert Join(tokens) == tag + a + [Bang] + tag + b;
    TokensOfJoin(tokens);
    ParseRepeatedTag(tag, a, b);
  }

  /** A synthetic key differs from every bare tag. */
  lemma SyntheticKeys(tag: string, n: nat, other: string)
    requires IsDigits(other)
    ensures tag + "_" + NatToString(n) != other
  {
    var key := tag + "_" + NatToString(n);
    assert key[|tag|] == '_';
    assert forall j :: 0 <= j < |other| ==> IsDigit(other[j]);
  }

  /** A token matching neither pattern fails the whole decode, naming it;
      nothing parsed before it is returned. */
  lemma DecodeUnknownToken(tag: string, a: string, bad: string, rest: string)
    requires IsDigits(tag) && ScalarText(a) && Bang !in a
    requires bad != [] && !IsDigit(bad[0]) && Bang !in bad
    ensures Decode(tag + a + [Bang] + bad + [Bang] + rest) == Failure(UnknownParamFormat(bad))
  {
    var wire := tag + a + [Bang] + bad + [Bang] + rest;
    assert Bang !in tag by {
      assert forall j :: 0 <= j < |tag| ==> IsDigit(tag[j]);
    }
    assert Bang !in tag + a;
    assert wire == (tag + a) + [Bang] + (bad + [Bang] + rest);
    SplitCons(tag + a, bad + [Bang] + rest);
    SplitCons(bad, rest);
    var tail := Split(rest);
    assert Split(wire) == [tag + a, bad] + tail;
    NonEmptyAppend([tag + a, bad], tail);
    assert NonEmpty([tag + a, bad]) == [tag + a, bad];
    var tokens := Tokens(wire);
    assert tokens[..2] == [tag + a, bad];
    ClassifyNoTag(bad);
    FirstOccurrence(tokens, 0, [], 1, tag, a);
  }

  /** A scalar field is its key followed by its value. */
  lemma EncodeScalarField()
    ensures Encode([("1", Scalar("itest"))]) == "!1itest"
  {
    assert LeadingDigits("1") == "1";
  }

  /** Synthetic keys are written as the tag they repeat. */
  lemma EncodeDuplicateTags()
    ensures Encode([("1", Scalar("e3")), ("1_1", Scalar("e6"))]) == "!1e3!1e6"
  {
    assert LeadingDigits("1") == "1";
    RealKeySynthetic("1", "1", "");
    assert "1" + "_" + "1" + "" == "1_1";
  }
}
