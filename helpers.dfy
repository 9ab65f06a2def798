/** `to_uint64` and `maybe` from the tool's helper module. */
module Helpers {
  import opened Wrappers

  /** 2 to the power `n`. */
  function Pow2(n: nat): (r: nat)
    ensures r >= 1
  {
    if n == 0 then 1 else 2 * Pow2(n - 1)
  }

  const Mask64: nat := 0xFFFF_FFFF_FFFF_FFFF
  const Modulus64: nat := 0x1_0000_0000_0000_0000

  /** Python's `x & y` for a non-negative `y`, on unbounded two's-complement
      integers: bit `k` of `x` is `(x // 2**k) % 2`, and Dafny's `/` and `%`
      by 2 are Python's floor division and modulus. */
  function BitAnd(x: int, y: nat): nat
    decreases y
  {
    if y == 0 then 0 else (x % 2) * (y % 2) + 2 * BitAnd(x / 2, y / 2)
  }

  /** `to_uint64(i)`: `i & 0xFFFFFFFFFFFFFFFF`, which keeps the low 64 bits,
      so the result is `i` modulo 2^64, negative `i` included. */
  function ToUint64(i: int): (r: nat)
    ensures r == i % Modulus64 && r < Modulus64
  {
    Pow2Of64();
    BitAndLowMask(i, 64);
    BitAnd(i, Mask64)
  }

  lemma Pow2Of64()
    ensures Pow2(64) == Modulus64 && Pow2(64) - 1 == Mask64
  {
    assert Pow2(8) == 0x100;
    Pow2Add(8, 8);
    assert Pow2(16) == 0x1_0000;
    Pow2Add(16, 16);
    assert Pow2(32) == 0x1_0000_0000;
    Pow2Add(32, 32);
  }

  lemma {:induction false} Pow2Add(a: nat, b: nat)
    ensures Pow2(a + b) == Pow2(a) * Pow2(b)
    decreases a
  {
    if a > 0 {
      Pow2Add(a - 1, b);
      assert Pow2(a + b) == 2 * Pow2(a - 1 + b);
    }
  }

  /** Masking with `2^n - 1` is reduction modulo `2^n`. */
  lemma {:induction false} BitAndLowMask(x: int, n: nat)
    ensures BitAnd(x, Pow2(n) - 1) == x % Pow2(n)
    decreases n
  {
    if n > 0 {
      var m := Pow2(n - 1);
      assert Pow2(n) == 2 * m;
      DivModUnique(2 * m - 1, 2, m - 1, 1);
      BitAndLowMask(x / 2, n - 1);
      ModOfHalves(x, m);
    }
  }

  /** `x % 2m` from the low bit of `x` and `(x // 2) % m`. */
  lemma ModOfHalves(x: int, m: nat)
    requires m > 0
    ensures x % 2 + 2 * ((x / 2) % m) == x % (2 * m)
  {
    var q, r := x / 2, x % 2;
    var s, t := q / m, q % m;
    assert q == m * s + t;
    assert x == (2 * m) * s + (2 * t + r) by {
      assert x == 2 * q + r;
    }
    DivModUnique(x, 2 * m, s, 2 * t + r);
  }

  lemma DivModUnique(x: int, d: nat, s: int, t: int)
    requires d > 0 && x == d * s + t && 0 <= t < d
    ensures x / d == s && x % d == t
  {
    var s', t' := x / d, x % d;
    assert d * (s - s') == t' - t;
    MulSign(d, s - s');
  }

  /** A non-zero multiple of `d` is at least `d` in size. */
  lemma MulSign(d: int, k: int)
    requires d > 0
    ensures k >= 1 ==> d * k >= d
    ensures k <= -1 ==> d * k <= -d
  {
  }

  /** A value already in `[0, 2^64)` is unchanged. */
  lemma ToUint64Identity(i: int)
    requires 0 <= i < Modulus64
    ensures ToUint64(i) == i
  {
    DivModUnique(i, Modulus64, 0, i);
  }

  /** Masking twice is masking once. */
  lemma ToUint64Idempotent(i: int)
    ensures ToUint64(ToUint64(i)) == ToUint64(i)
  {
    ToUint64Identity(ToUint64(i));
  }

  /** Two's complement: `-1` becomes the largest 64-bit value. */
  lemma ToUint64MinusOne()
    ensures ToUint64(-1) == Modulus64 - 1
  {
    DivModUnique(-1, Modulus64, -1, Modulus64 - 1);
  }

  /** A decoded JSON value, as the place payloads `maybe` walks are. */
  datatype Json =
    | Null
    | Bool(b: bool)
    | Number(value: real)
    | Str(s: string)
    | Arr(items: seq<Json>)
    | Obj(fields: map<string, Json>)

  /** A subscript: an integer index or a string key. */
  datatype Key = Index(i: int) | Name(name: string)

  /** The three exceptions `maybe` catches. */
  datatype Fault = IndexError | TypeError | KeyError

  /** Python's index into a sequence of length `n`: a negative index counts
      from the end. */
  function Position(i: int, n: nat): Option<nat>
  {
    if 0 <= i < n then Some(i) else if -(n as int) <= i < 0 then Some(i + n) else None
  }

  /** `data[k]`: lists and strings take integer indices, dicts take keys;
      `None`, booleans and numbers cannot be subscripted. */
  function Step(data: Json, k: Key): (r: Result<Json, Fault>)
    ensures r.Success? && data.Arr? ==> r.value in data.items
  {
    match data
    case Arr(items) =>
      if !k.Index? then Failure(TypeError)
      else if Position(k.i, |items|).None? then Failure(IndexError)
      else Success(items[Position(k.i, |items|).value])
    case Str(s) =>
      if !k.Index? then Failure(TypeError)
      else if Position(k.i, |s|).None? then Failure(IndexError)
      else Success(Str([s[Position(k.i, |s|).value]]))
    case Obj(fields) =>
      if k.Name? && k.name in fields then Success(fields[k.name]) else Failure(KeyError)
    case _ => Failure(TypeError)
  }

  /** `data[k1][k2]...[kn]`, or the first exception raised on the way. */
  function Walk(data: Json, keys: seq<Key>): Result<Json, Fault>
    decreases |keys|
  {
    if keys == [] then Success(data)
    else
      match Step(data, keys[0])
      case Failure(e) => Failure(e)
      case Success(v) => Walk(v, keys[1..])
  }

  /** `maybe(data, *keys)`: subscripts `data` by each key in turn and returns
      `None` as soon as a step raises one of the three caught exceptions. */
  method Maybe(data: Json, keys: seq<Key>) returns (r: Json)
    ensures Walk(data, keys).Success? ==> r == Walk(data, keys).value
    ensures Walk(data, keys).Failure? ==> r == Null
  {
    var current := data;
    var i := 0;
    while i < |keys|
      invariant 0 <= i <= |keys|
      invariant Walk(data, keys) == Walk(current, keys[i..])
    {
      var step := Step(current, keys[i]);
      if step.Failure? {
        return Null;
      }
      assert keys[i..][1..] == keys[i + 1..];
      current := step.value;
      i := i + 1;
    }
    return current;
  }

  /** Subscripting by `ks1 + ks2` is subscripting by `ks1`, then by `ks2`. */
  lemma {:induction false} WalkAppend(data: Json, ks1: seq<Key>, ks2: seq<Key>)
    ensures Walk(data, ks1 + ks2)
      == match Walk(data, ks1)
         case Success(v) => Walk(v, ks2)
         case Failure(e) => Failure(e)
    decreases |ks1|
  {
    if ks1 != [] {
      assert (ks1 + ks2)[0] == ks1[0];
      assert (ks1 + ks2)[1..] == ks1[1..] + ks2;
      match Step(data, ks1[0]) {
        case Failure(_) =>
        case Success(v) => WalkAppend(v, ks1[1..], ks2);
      }
    } else {
      assert ks1 + ks2 == ks2;
    }
  }

  /** When the first step succeeds, the rest of the walk starts from its value:
      `maybe(data, k1, ...) == maybe(data[k1], ...)`. */
  lemma WalkFirst(data: Json, k: Key, rest: seq<Key>)
    requires Step(data, k).Success?
    ensures Walk(data, [k] + rest) == Walk(Step(data, k).value, rest)
  {
    assert ([k] + rest)[1..] == rest;
  }

  /** A failing step fails the whole walk, whatever keys follow. */
  lemma WalkStopsAtFault(data: Json, ks1: seq<Key>, k: Key, ks2: seq<Key>)
    requires Walk(data, ks1).Success? && Step(Walk(data, ks1).value, k).Failure?
    ensures Walk(data, ks1 + [k] + ks2) == Failure(Step(Walk(data, ks1).value, k).error)
  {
    WalkAppend(data, ks1, [k] + ks2);
    assert ks1 + [k] + ks2 == ks1 + ([k] + ks2);
  }

  /** `None`, booleans and numbers raise `TypeError` on any subscript. */
  lemma ScalarsNotSubscriptable(data: Json, k: Key)
    requires data.Null? || data.Bool? || data.Number?
    ensures Step(data, k) == Failure(TypeError)
  {
  }

  /** `items[-1]` is the last element; an index past either end raises
      `IndexError`. */
  lemma ListIndexing(items: seq<Json>, i: int)
    ensures -|items| <= i < 0 ==> Step(Arr(items), Index(i)) == Success(items[|items| + i])
    ensures 0 <= i < |items| ==> Step(Arr(items), Index(i)) == Success(items[i])
    ensures (i < -|items| || i >= |items|) ==> Step(Arr(items), Index(i)) == Failure(IndexError)
  {
  }
}
