/** Text primitives the codec relies on: ASCII decimal digits (the `\d` of the
    codec's patterns, `int(...)` and `str(...)` on non-negative integers), and
    `str.split` / `str.join` on the `!` delimiter. */
module Text {

  const Bang: char := '!'

  predicate IsDigit(c: char) {
    '0' <= c <= '9'
  }

  /** A non-empty run of ASCII digits: what `\d+` matches. */
  predicate IsDigits(s: string) {
    |s| > 0 && forall i :: 0 <= i < |s| ==> IsDigit(s[i])
  }

  /** The longest prefix of `s` made of digits (what a greedy `^\d*` matches). */
  function LeadingDigits(s: string): (r: string)
    ensures |r| <= |s| && r == s[..|r|]
    ensures forall i :: 0 <= i < |r| ==> IsDigit(r[i])
    ensures |r| < |s| ==> !IsDigit(s[|r|])
  {
    if s == [] || !IsDigit(s[0]) then [] else [s[0]] + LeadingDigits(s[1..])
  }

  /** `\d+` stops exactly where the digits stop. */
  lemma {:induction false} LeadingDigitsOf(digits: string, rest: string)
    requires forall i :: 0 <= i < |digits| ==> IsDigit(digits[i])
    requires rest == [] || !IsDigit(rest[0])
    ensures LeadingDigits(digits + rest) == digits
  {
    if digits != [] {
      assert (digits + rest)[1..] == digits[1..] + rest;
      LeadingDigitsOf(digits[1..], rest);
      assert [digits[0]] + digits[1..] == digits;
    } else {
      assert digits + rest == rest;
    }
  }

  /** `int(s)` for a string of ASCII digits (leading zeros allowed). */
  function DigitsToNat(s: string): nat
  {
    if s == [] then 0
    else 10 * DigitsToNat(s[..|s| - 1]) + ((s[|s| - 1] as int - '0' as int) % 10)
  }

  function DigitChar(d: nat): (c: char)
    requires d < 10
    ensures IsDigit(c) && c as int - '0' as int == d
  {
    ('0' as int + d) as char
  }

  /** `str(n)` for a non-negative integer: its decimal digits, no leading zero. */
  function NatToString(n: nat): (r: string)
    ensures IsDigits(r)
  {
    if n < 10 then [DigitChar(n)] else NatToString(n / 10) + [DigitChar(n % 10)]
  }

  /** `int(str(n)) == n`: the decimal rendering of a count reads back as that count. */
  lemma {:induction false} DigitsToNatOfNatToString(n: nat)
    ensures DigitsToNat(NatToString(n)) == n
  {
    var s := NatToString(n);
    if n < 10 {
      assert s[..|s| - 1] == [];
    } else {
      assert s[..|s| - 1] == NatToString(n / 10);
      DigitsToNatOfNatToString(n / 10);
    }
  }

  /** Where the first `!` of `s` is. */
  function FirstBang(s: string): (p: nat)
    requires Bang in s
    ensures p < |s| && s[p] == Bang && Bang !in s[..p]
  {
    if s[0] == Bang then 0
    else
      var p := 1 + FirstBang(s[1..]);
      assert s[..p] == [s[0]] + s[1..][..p - 1];
      p
  }

  /** Python's `s.split('!')`: the pieces between delimiters, empty ones included. */
  function Split(s: string): (r: seq<string>)
    ensures |r| >= 1
    decreases |s|
  {
    if Bang !in s then [s]
    else
      var p := FirstBang(s);
      [s[..p]] + Split(s[p + 1..])
  }

  /** No piece of a split contains the delimiter. */
  lemma {:induction false} SplitPieces(s: string)
    ensures forall i :: 0 <= i < |Split(s)| ==> Bang !in Split(s)[i]
    decreases |s|
  {
    if Bang in s {
      SplitPieces(s[FirstBang(s) + 1..]);
    }
  }

  /** Splitting `a!b` when `a` has no `!`: `a`, then the pieces of `b`. */
  lemma SplitCons(a: string, b: string)
    requires Bang !in a
    ensures Split(a + [Bang] + b) == [a] + Split(b)
  {
    var s := a + [Bang] + b;
    assert s[|a|] == Bang;
    assert s[..|a|] == a;
    var p := FirstBang(s);
    assert p == |a|;
    assert s[p + 1..] == b;
  }

  /** A token that the tokeniser can deliver unchanged. */
  predicate IsToken(t: string) {
    t != [] && Bang !in t
  }

  /** The elements of `xs` that are not empty, in order (`[t for t in xs if t]`). */
  function NonEmpty(xs: seq<string>): seq<string>
  {
    if xs == [] then []
    else (if xs[0] == [] then [] else [xs[0]]) + NonEmpty(xs[1..])
  }

  /** The tokeniser: split on `!` and drop empty pieces. */
  function Tokens(s: string): seq<string>
  {
    NonEmpty(Split(s))
  }

  /** Filtering pieces free of `!` leaves tokens. */
  lemma {:induction false} NonEmptyTokens(xs: seq<string>)
    requires forall i :: 0 <= i < |xs| ==> Bang !in xs[i]
    ensures forall i :: 0 <= i < |NonEmpty(xs)| ==> IsToken(NonEmpty(xs)[i])
  {
    if xs != [] {
      NonEmptyTokens(xs[1..]);
    }
  }

  /** Every token is non-empty and free of `!`. */
  lemma TokensAreTokens(s: string)
    ensures forall i :: 0 <= i < |Tokens(s)| ==> IsToken(Tokens(s)[i])
  {
    SplitPieces(s);
    NonEmptyTokens(Split(s));
  }

  /** Python's `'!'.join(xs)`. */
  function Join(xs: seq<string>): string
  {
    if xs == [] then []
    else if |xs| == 1 then xs[0]
    else xs[0] + [Bang] + Join(xs[1..])
  }

  lemma {:induction false} NonEmptyAppend(xs: seq<string>, ys: seq<string>)
    ensures NonEmpty(xs + ys) == NonEmpty(xs) + NonEmpty(ys)
  {
    if xs == [] {
      assert xs + ys == ys;
    } else {
      var head := if xs[0] == [] then [] else [xs[0]];
      assert (xs + ys)[0] == xs[0];
      assert (xs + ys)[1..] == xs[1..] + ys;
      NonEmptyAppend(xs[1..], ys);
      assert NonEmpty(xs + ys) == head + (NonEmpty(xs[1..]) + NonEmpty(ys));
    }
  }

  lemma {:induction false} NonEmptyOfTokens(xs: seq<string>)
    requires forall i :: 0 <= i < |xs| ==> xs[i] != []
    ensures NonEmpty(xs) == xs
  {
    if xs != [] {
      NonEmptyOfTokens(xs[1..]);
    }
  }

  /** Splitting undoes `'!'.join` on pieces free of `!`. */
  lemma {:induction false} SplitJoin(xs: seq<string>)
    requires xs != []
    requires forall i :: 0 <= i < |xs| ==> Bang !in xs[i]
    ensures Split(Join(xs)) == xs
  {
    if |xs| > 1 {
      SplitJoin(xs[1..]);
      SplitCons(xs[0], Join(xs[1..]));
    }
  }

  /** The tokeniser undoes `'!'.join` on tokens that are non-empty and free of `!`. */
  lemma TokensOfJoin(xs: seq<string>)
    requires forall i :: 0 <= i < |xs| ==> IsToken(xs[i])
    ensures Tokens(Join(xs)) == xs
  {
    if xs == [] {
      assert Split([]) == [[]];
      assert NonEmpty([[]]) == [];
    } else {
      SplitJoin(xs);
      NonEmptyOfTokens(xs);
    }
  }

  /** A leading `!` makes no difference to the tokens. */
  lemma TokensLeadingBang(s: string)
    ensures Tokens([Bang] + s) == Tokens(s)
  {
    SplitCons([], s);
    assert [] + [Bang] + s == [Bang] + s;
    var xs := [[]] + Split(s);
    assert xs[1..] == Split(s);
  }

  /** A trailing `!` makes no difference to the tokens. */
  lemma TokensTrailingBang(s: string)
    ensures Tokens(s + [Bang]) == Tokens(s)
  {
    SplitSnoc(s);
    NonEmptyAppend(Split(s), [[]]);
    assert NonEmpty([[]]) == [];
  }

  /** `'!'.join(xs + ys)` when both sides are non-empty. */
  lemma {:induction false} JoinAppend(xs: seq<string>, ys: seq<string>)
    requires xs != [] && ys != []
    ensures Join(xs + ys) == Join(xs) + [Bang] + Join(ys)
  {
    if |xs| == 1 {
      assert (xs + ys)[1..] == ys;
    } else {
      assert (xs + ys)[1..] == xs[1..] + ys;
      JoinAppend(xs[1..], ys);
    }
  }

  /** `'!'.join(s.split('!')) == s`. */
  lemma {:induction false} JoinSplit(s: string)
    ensures Join(Split(s)) == s
    decreases |s|
  {
    if Bang in s {
      var p := FirstBang(s);
      var rest := Split(s[p + 1..]);
      JoinSplit(s[p + 1..]);
      var xs := [s[..p]] + rest;
      assert xs[0] == s[..p] && xs[1..] == rest;
      assert Join(xs) == s[..p] + [Bang] + s[p + 1..];
      assert s == s[..p] + [Bang] + s[p + 1..];
    }
  }

  /** Splitting `s!`: the pieces of `s`, then one empty piece. */
  lemma SplitSnoc(s: string)
    ensures Split(s + [Bang]) == Split(s) + [[]]
  {
    var xs := Split(s);
    JoinSplit(s);
    JoinAppend(xs, [[]]);
    assert Join([[]]) == [];
    assert s + [Bang] == Join(xs + [[]]);
    SplitPieces(s);
    SplitJoin(xs + [[]]);
  }
}
