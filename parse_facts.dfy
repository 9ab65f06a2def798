/** What `parse` makes of single tokens, when it fails, and what keys it
    produces. */
module ParseFacts {
  import opened Wrappers
  import opened Text
  import opened Document
  import opened Codec

  /** `<tag>m<n>` is a header whatever follows the count's digits. */
  lemma ClassifyHeader(tag: string, n: nat, junk: string)
    requires IsDigits(tag)
    requires junk == [] || !IsDigit(junk[0])
    ensures Classify(tag + "m" + NatToString(n) + junk) == Header(tag, n)
  {
    var count := NatToString(n);
    var after := "m" + count + junk;
    var token := tag + after;
    assert tag + "m" + count + junk == token;
    assert LeadingDigits(token) == tag by {
      LeadingDigitsOf(tag, after);
    }
    assert token[|tag|..] == after;
    assert LeadingDigits(after[1..]) == count by {
      assert after[1..] == count + junk;
      LeadingDigitsOf(count, junk);
    }
    DigitsToNatOfNatToString(n);
    ClassifyHeaderParts(token, tag, after, count);
  }

  /** `Classify` at a header, from the pieces the header pattern matches. */
  lemma ClassifyHeaderParts(token: string, tag: string, after: string, count: string)
    requires tag != [] && LeadingDigits(token) == tag && token[|tag|..] == after
    requires after != [] && after[0] == 'm' && LeadingDigits(after[1..]) == count && count != []
    ensures Classify(token) == Header(tag, DigitsToNat(count))
  {
  }

  /** A scalar value the scalar pattern reads back whole: a type character,
      then text without a newline. */
  predicate ScalarText(s: string) {
    s != [] && s[0] in TypeChars && '\n' !in s
  }

  /** `<tag><t><value>` with `t` a type character and no newline in `value` is
      a scalar carrying `value`. */
  lemma ClassifyScalar(tag: string, kind: char, value: string)
    requires IsDigits(tag) && kind in TypeChars && '\n' !in value
    ensures Classify(tag + [kind] + value) == ScalarToken(tag, kind, value)
  {
    var after := [kind] + value;
    var token := tag + after;
    assert tag + [kind] + value == token;
    assert LeadingDigits(token) == tag by {
      LeadingDigitsOf(tag, after);
    }
    assert token[|tag|..] == after;
    assert after[1..] == value;
    ClassifyScalarParts(token, tag, after);
  }

  /** A single trailing newline is not part of a scalar's value. */
  lemma ClassifyScalarNewline(tag: string, kind: char, value: string)
    requires IsDigits(tag) && kind in TypeChars && '\n' !in value
    ensures Classify(tag + [kind] + value + "\n") == ScalarToken(tag, kind, value)
  {
    var rest := value + "\n";
    var after := [kind] + rest;
    var token := tag + after;
    assert tag + [kind] + value + "\n" == token;
    assert LeadingDigits(token) == tag by {
      LeadingDigitsOf(tag, after);
    }
    assert token[|tag|..] == after;
    assert LineRest(after[1..]) == Some(value) by {
      assert after[1..] == rest;
      assert rest[|rest| - 1] == '\n' && rest[..|rest| - 1] == value;
    }
    ClassifyScalarParts(token, tag, after);
  }

  /** `Classify` at a scalar, from the pieces the scalar pattern matches. */
  lemma ClassifyScalarParts(token: string, tag: string, after: string)
    requires tag != [] && LeadingDigits(token) == tag && token[|tag|..] == after
    requires after != [] && after[0] in TypeChars && LineRest(after[1..]).Some?
    ensures Classify(token) == ScalarToken(tag, after[0], LineRest(after[1..]).value)
  {
  }

  /** `m` is not a scalar type: `<tag>m` without a count is not readable. */
  lemma ClassifyBareM(tag: string, junk: string)
    requires IsDigits(tag)
    requires junk == [] || !IsDigit(junk[0])
    ensures Classify(tag + "m" + junk) == Unrecognised
  {
    var after := "m" + junk;
    var token := tag + after;
    assert tag + "m" + junk == token;
    assert LeadingDigits(token) == tag by {
      LeadingDigitsOf(tag, after);
    }
    assert token[|tag|..] == after;
    assert LeadingDigits(after[1..]) == [] by {
      assert after[1..] == junk;
      LeadingDigitsOf([], junk);
      assert [] + junk == junk;
    }
    assert 'm' !in TypeChars;
    ClassifyBareMParts(token, tag, after);
  }

  /** `Classify` at `<tag>m` with no digits after the `m`. */
  lemma ClassifyBareMParts(token: string, tag: string, after: string)
    requires LeadingDigits(token) == tag && token[|tag|..] == after
    requires after != [] && after[0] == 'm' && LeadingDigits(after[1..]) == [] && 'm' !in TypeChars
    ensures Classify(token) == Unrecognised
  {
  }

  /** A token that does not start with a digit is not readable. */
  lemma ClassifyNoTag(token: string)
    requires token == [] || !IsDigit(token[0])
    ensures Classify(token) == Unrecognised
  {
    LeadingDigitsOf([], token);
    assert [] + token == token;
  }

  /** The first token, in list order, that neither pattern reads. */
  function FirstBad(tokens: seq<string>): (r: Option<string>)
    ensures r.Some? ==> r.value in tokens && Classify(r.value).Unrecognised?
    ensures r.None? ==> forall j :: 0 <= j < |tokens| ==> !Classify(tokens[j]).Unrecognised?
  {
    if tokens == [] then None
    else if Classify(tokens[0]).Unrecognised? then Some(tokens[0])
    else
      var r := FirstBad(tokens[1..]);
      assert forall j :: 1 <= j < |tokens| ==> tokens[j] == tokens[1..][j - 1];
      r
  }

  lemma {:induction false} FirstBadAppend(xs: seq<string>, ys: seq<string>)
    ensures FirstBad(xs + ys) == if FirstBad(xs).Some? then FirstBad(xs) else FirstBad(ys)
  {
    if xs == [] {
      assert xs + ys == ys;
    } else {
      assert (xs + ys)[0] == xs[0];
      assert (xs + ys)[1..] == xs[1..] + ys;
      FirstBadAppend(xs[1..], ys);
    }
  }

  /** `parse` fails exactly when some token is unreadable, and then the error
      names the first such token: every token is looked at once, in order,
      whether by the top-level loop or by the call for an enclosing message. */
  lemma {:induction false} ParseFails(tokens: seq<string>)
    ensures ParseSpec(tokens).Failure? <==> FirstBad(tokens).Some?
    ensures ParseSpec(tokens).Failure? ==> ParseSpec(tokens).error == UnknownParamFormat(FirstBad(tokens).value)
    decreases |tokens|, 1
  {
    ParseFromFails(tokens, 0, [], 1);
    assert tokens[0..] == tokens;
  }

  lemma {:induction false} ParseFromFails(tokens: seq<string>, i: nat, acc: Doc, dup: nat)
    requires i <= |tokens|
    ensures ParseFrom(tokens, i, acc, dup).Failure? <==> FirstBad(tokens[i..]).Some?
    ensures ParseFrom(tokens, i, acc, dup).Failure? ==>
      ParseFrom(tokens, i, acc, dup).error == UnknownParamFormat(FirstBad(tokens[i..]).value)
    decreases |tokens|, 0, |tokens| - i, 1
  {
    if i < |tokens| {
      match Classify(tokens[i]) {
        case Header(tag, length) => HeaderFails(tokens, i, acc, dup, tag, length);
        case ScalarToken(tag, kind, value) => ScalarFails(tokens, i, acc, dup, tag, kind, value);
        case Unrecognised =>
          var rest := tokens[i..];
          assert rest[0] == tokens[i];
      }
    }
  }

  /** A readable token at `i` is not the first unreadable one. */
  lemma FirstBadStep(tokens: seq<string>, i: nat)
    requires i < |tokens| && !Classify(tokens[i]).Unrecognised?
    ensures FirstBad(tokens[i..]) == FirstBad(tokens[i + 1..])
  {
    var rest := tokens[i..];
    assert rest[0] == tokens[i] && rest[1..] == tokens[i + 1..];
  }

  lemma SliceSplit(tokens: seq<string>, a: nat, b: nat)
    requires a <= b <= |tokens|
    ensures tokens[a..] == tokens[a..b] + tokens[b..]
  {
  }

  lemma {:induction false} HeaderFails(tokens: seq<string>, i: nat, acc: Doc, dup: nat, tag: string, length: nat)
    requires i < |tokens| && Classify(tokens[i]) == Header(tag, length)
    ensures ParseFrom(tokens, i, acc, dup).Failure? <==> FirstBad(tokens[i..]).Some?
    ensures ParseFrom(tokens, i, acc, dup).Failure? ==>
      ParseFrom(tokens, i, acc, dup).error == UnknownParamFormat(FirstBad(tokens[i..]).value)
    decreases |tokens|, 0, |tokens| - i, 0
  {
    FirstBadStep(tokens, i);
    var end := Min(|tokens|, i + 1 + length);
    var child := ParseSpec(tokens[i + 1..end]);
    ParseFromHeader(tokens, i, acc, dup, tag, length, end, child);
    var inner := FirstBad(tokens[i + 1..end]);
    ParseFails(tokens[i + 1..end]);
    assert FirstBad(tokens[i + 1..]) == if inner.Some? then inner else FirstBad(tokens[end..]) by {
      SliceSplit(tokens, i + 1, end);
      FirstBadAppend(tokens[i + 1..end], tokens[end..]);
    }
    if child.Success? {
      var slot := Slot(acc, tag, dup);
      ParseFromFails(tokens, end, Put(acc, slot.0, Msg(child.value)), slot.1);
    }
  }

  lemma {:induction false} ScalarFails(tokens: seq<string>, i: nat, acc: Doc, dup: nat, tag: string, kind: char, value: string)
    requires i < |tokens| && Classify(tokens[i]) == ScalarToken(tag, kind, value)
    ensures ParseFrom(tokens, i, acc, dup).Failure? <==> FirstBad(tokens[i..]).Some?
    ensures ParseFrom(tokens, i, acc, dup).Failure? ==>
      ParseFrom(tokens, i, acc, dup).error == UnknownParamFormat(FirstBad(tokens[i..]).value)
    decreases |tokens|, 0, |tokens| - i, 0
  {
    FirstBadStep(tokens, i);
    ParseFromScalar(tokens, i, acc, dup, tag, kind, value);
    var slot := Slot(acc, tag, dup);
    ParseFromFails(tokens, i + 1, Put(acc, slot.0, Scalar([kind] + value)), slot.1);
  }

  /** A synthetic key `<tag>_<digits>`, as `parse` makes for a repeated tag. */
  predicate SyntheticKey(key: string) {
    var tag := LeadingDigits(key);
    tag != [] && |key| > |tag| + 1 && key[|tag|] == '_' && IsDigits(key[|tag| + 1..])
  }

  /** The duplicate counter value a synthetic key was made with. */
  function SuffixNumber(key: string): nat
    requires SyntheticKey(key)
  {
    DigitsToNat(key[|LeadingDigits(key)| + 1..])
  }

  /** Key `i` of `d` is a bare tag, or a synthetic key whose bare tag is present. */
  predicate KeyShape(d: Doc, i: nat)
    requires i < |d|
  {
    IsDigits(d[i].0)
    || (SyntheticKey(d[i].0) && LeadingDigits(d[i].0) in Keys(d) && SuffixNumber(d[i].0) >= 1)
  }

  /** The keys `parse` produces, at every depth: distinct, each a bare tag or a
      synthetic key whose bare tag is present, and the synthetic keys numbered
      in increasing order of insertion, since one counter serves all tags. */
  predicate WellKeyed(d: Doc)
    decreases Msg(d), 0
  {
    && DistinctKeys(d)
    && (forall i :: 0 <= i < |d| ==> KeyShape(d, i) && FieldWellKeyed(d[i].1))
    && SyntheticOrdered(d)
  }

  /** Synthetic keys are numbered in increasing order of insertion. */
  predicate SyntheticOrdered(d: Doc) {
    forall i, j :: 0 <= i < j < |d| && SyntheticKey(d[i].0) && SyntheticKey(d[j].0) ==>
      SuffixNumber(d[i].0) < SuffixNumber(d[j].0)
  }

  predicate FieldWellKeyed(f: Field)
    decreases f, 1
  {
    match f
    case Scalar(_) => true
    case Msg(c) => WellKeyed(c)
  }

  /** The loop invariant on `result` and `duplicate_index`. */
  predicate KeysBelow(d: Doc, dup: nat) {
    && WellKeyed(d)
    && dup >= 1
    && forall i :: 0 <= i < |d| && SyntheticKey(d[i].0) ==> SuffixNumber(d[i].0) < dup
  }

  /** A bare tag is not synthetic. */
  lemma BareNotSynthetic(tag: string)
    requires IsDigits(tag)
    ensures LeadingDigits(tag) == tag && !SyntheticKey(tag)
  {
    LeadingDigitsOf(tag, []);
    assert tag + [] == tag;
  }

  /** The synthetic key `parse` builds from a tag and the counter. */
  lemma SyntheticOf(tag: string, dup: nat)
    requires IsDigits(tag)
    ensures SyntheticKey(tag + "_" + NatToString(dup))
    ensures LeadingDigits(tag + "_" + NatToString(dup)) == tag
    ensures SuffixNumber(tag + "_" + NatToString(dup)) == dup
  {
    var n := NatToString(dup);
    var key := tag + "_" + n;
    assert key == tag + ("_" + n);
    LeadingDigitsOf(tag, "_" + n);
    assert key[|tag|] == '_';
    assert key[|tag| + 1..] == n;
    DigitsToNatOfNatToString(dup);
  }

  /** A key `parse` may add to `acc`: a bare tag, or a synthetic key whose
      bare tag is present and whose number exceeds every earlier one. */
  predicate NextKey(acc: Doc, key: string) {
    || IsDigits(key)
    || (&& SyntheticKey(key) && LeadingDigits(key) in Keys(acc) && SuffixNumber(key) >= 1
        && forall i :: 0 <= i < |acc| && SyntheticKey(acc[i].0) ==> SuffixNumber(acc[i].0) < SuffixNumber(key))
  }

  lemma AppendKeys(acc: Doc, key: string, v: Field)
    ensures Keys(acc + [(key, v)]) == Keys(acc) + [key]
  {
    var r := acc + [(key, v)];
    assert forall i :: 0 <= i < |acc| ==> r[i] == acc[i];
  }

  lemma AppendDistinct(acc: Doc, key: string, v: Field)
    requires DistinctKeys(acc) && key !in Keys(acc)
    ensures DistinctKeys(acc + [(key, v)])
  {
    var r := acc + [(key, v)];
    forall i, j | 0 <= i < j < |r|
      ensures r[i].0 != r[j].0
    {
      assert r[i] == acc[i] && Keys(acc)[i] == acc[i].0;
      if j < |acc| {
        assert r[j] == acc[j];
      }
    }
  }

  lemma AppendShapes(acc: Doc, key: string, v: Field)
    requires WellKeyed(acc) && FieldWellKeyed(v) && NextKey(acc, key)
    ensures forall i :: 0 <= i < |acc| + 1 ==>
      KeyShape(acc + [(key, v)], i) && FieldWellKeyed((acc + [(key, v)])[i].1)
  {
    var r := acc + [(key, v)];
    AppendKeys(acc, key, v);
    forall i | 0 <= i < |r|
      ensures KeyShape(r, i) && FieldWellKeyed(r[i].1)
    {
      if i < |acc| {
        assert r[i] == acc[i] && KeyShape(acc, i);
      }
    }
  }

  lemma AppendOrder(acc: Doc, key: string, v: Field)
    requires WellKeyed(acc) && NextKey(acc, key)
    ensures SyntheticOrdered(acc + [(key, v)])
  {
    var r := acc + [(key, v)];
    forall i, j | 0 <= i < j < |r| && SyntheticKey(r[i].0) && SyntheticKey(r[j].0)
      ensures SuffixNumber(r[i].0) < SuffixNumber(r[j].0)
    {
      assert r[i] == acc[i];
      if j < |acc| {
        assert r[j] == acc[j];
      } else {
        BareDigits(key);
      }
    }
  }

  /** A bare tag is not synthetic (stated for any key, as a disjunction). */
  lemma BareDigits(key: string)
    ensures !IsDigits(key) || !SyntheticKey(key)
  {
    if IsDigits(key) {
      BareNotSynthetic(key);
    }
  }

  /** Appending a fresh key of the right shape keeps the keys well formed. */
  lemma AppendWellKeyed(acc: Doc, key: string, v: Field)
    requires WellKeyed(acc) && key !in Keys(acc) && FieldWellKeyed(v) && NextKey(acc, key)
    ensures WellKeyed(acc + [(key, v)])
  {
    AppendDistinct(acc, key, v);
    AppendShapes(acc, key, v);
    AppendOrder(acc, key, v);
  }

  /** Storing a new bare tag keeps the invariant. */
  lemma PutBare(acc: Doc, dup: nat, tag: string, v: Field)
    requires KeysBelow(acc, dup) && IsDigits(tag) && tag !in Keys(acc) && FieldWellKeyed(v)
    ensures KeysBelow(Put(acc, tag, v), dup)
  {
    PutNew(acc, tag, v);
    AppendWellKeyed(acc, tag, v);
    BareNotSynthetic(tag);
    var r := acc + [(tag, v)];
    assert forall i :: 0 <= i < |acc| ==> r[i] == acc[i];
  }

  /** `<tag>_<dup>` is not yet a key while the counter is above every suffix. */
  lemma SyntheticFresh(acc: Doc, dup: nat, tag: string)
    requires KeysBelow(acc, dup) && IsDigits(tag)
    ensures tag + "_" + NatToString(dup) !in Keys(acc)
  {
    var key := tag + "_" + NatToString(dup);
    SyntheticOf(tag, dup);
    assert !IsDigit(key[|tag|]);
    assert !IsDigits(key);
    forall i | 0 <= i < |acc|
      ensures acc[i].0 != key
    {
      assert KeyShape(acc, i);
    }
  }

  /** Storing a repeated tag under `<tag>_<dup>` keeps the invariant with the
      counter bumped; that key is never already present. */
  lemma PutSynthetic(acc: Doc, dup: nat, tag: string, v: Field)
    requires KeysBelow(acc, dup) && IsDigits(tag) && tag in Keys(acc) && FieldWellKeyed(v)
    ensures tag + "_" + NatToString(dup) !in Keys(acc)
    ensures KeysBelow(Put(acc, tag + "_" + NatToString(dup), v), dup + 1)
  {
    var key := tag + "_" + NatToString(dup);
    SyntheticOf(tag, dup);
    SyntheticFresh(acc, dup, tag);
    PutNew(acc, key, v);
    assert NextKey(acc, key);
    AppendWellKeyed(acc, key, v);
    var r := acc + [(key, v)];
    assert forall i :: 0 <= i < |acc| ==> r[i] == acc[i];
  }

  /** The tag either pattern captures is a non-empty run of digits. */
  lemma ClassifyTag(token: string)
    requires !Classify(token).Unrecognised?
    ensures IsDigits(Classify(token).tag)
  {
  }

  /** Where `parse` stores a field with `tag`: never over an existing key, and
      the invariant holds for the new dict and counter. */
  lemma PutSlot(acc: Doc, dup: nat, tag: string, v: Field)
    requires KeysBelow(acc, dup) && IsDigits(tag) && FieldWellKeyed(v)
    ensures Slot(acc, tag, dup).0 !in Keys(acc)
    ensures KeysBelow(Put(acc, Slot(acc, tag, dup).0, v), Slot(acc, tag, dup).1)
  {
    if tag in Keys(acc) {
      PutSynthetic(acc, dup, tag, v);
    } else {
      PutBare(acc, dup, tag, v);
    }
  }

  /** Every document `parse` returns is well keyed, at every depth. */
  lemma {:induction false} ParseKeys(tokens: seq<string>)
    ensures ParseSpec(tokens).Success? ==> WellKeyed(ParseSpec(tokens).value)
    decreases |tokens|, 1
  {
    ParseFromKeys(tokens, 0, [], 1);
  }

  lemma {:induction false} ParseFromKeys(tokens: seq<string>, i: nat, acc: Doc, dup: nat)
    requires i <= |tokens| && KeysBelow(acc, dup)
    ensures ParseFrom(tokens, i, acc, dup).Success? ==> WellKeyed(ParseFrom(tokens, i, acc, dup).value)
    decreases |tokens|, 0, |tokens| - i, 1
  {
    if i < |tokens| {
      match Classify(tokens[i]) {
        case Header(tag, length) => HeaderKeys(tokens, i, acc, dup, tag, length);
        case ScalarToken(tag, kind, value) => ScalarKeys(tokens, i, acc, dup, tag, kind, value);
        case Unrecognised =>
      }
    }
  }

  lemma {:induction false} HeaderKeys(tokens: seq<string>, i: nat, acc: Doc, dup: nat, tag: string, length: nat)
    requires i < |tokens| && Classify(tokens[i]) == Header(tag, length) && KeysBelow(acc, dup)
    ensures ParseFrom(tokens, i, acc, dup).Success? ==> WellKeyed(ParseFrom(tokens, i, acc, dup).value)
    decreases |tokens|, 0, |tokens| - i, 0
  {
    ClassifyTag(tokens[i]);
    var end := Min(|tokens|, i + 1 + length);
    var child := ParseSpec(tokens[i + 1..end]);
    ParseFromHeader(tokens, i, acc, dup, tag, length, end, child);
    if child.Success? {
      ParseKeys(tokens[i + 1..end]);
      PutSlot(acc, dup, tag, Msg(child.value));
      var slot := Slot(acc, tag, dup);
      ParseFromKeys(tokens, end, Put(acc, slot.0, Msg(child.value)), slot.1);
    }
  }

  lemma {:induction false} ScalarKeys(tokens: seq<string>, i: nat, acc: Doc, dup: nat, tag: string, kind: char, value: string)
    requires i < |tokens| && Classify(tokens[i]) == ScalarToken(tag, kind, value) && KeysBelow(acc, dup)
    ensures ParseFrom(tokens, i, acc, dup).Success? ==> WellKeyed(ParseFrom(tokens, i, acc, dup).value)
    decreases |tokens|, 0, |tokens| - i, 0
  {
    ClassifyTag(tokens[i]);
    ParseFromScalar(tokens, i, acc, dup, tag, kind, value);
    PutSlot(acc, dup, tag, Scalar([kind] + value));
    var slot := Slot(acc, tag, dup);
    ParseFromKeys(tokens, i + 1, Put(acc, slot.0, Scalar([kind] + value)), slot.1);
  }
}
