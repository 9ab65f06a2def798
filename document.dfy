/** The decoded form of a wire string: an insertion-ordered mapping from field
    keys to fields, as the Python codec keeps it in a `dict` whose values are
    strings (scalars) or nested `dict`s (messages). */
module Document {
  import opened Wrappers

  /** A field value: a scalar kept as its type character followed by its raw
      payload (`"itest"`, `"b1"`), or a nested message. */
  datatype Field = Scalar(s: string) | Msg(d: Doc)

  /** A message's contents, in insertion order; a dict never holds a key twice. */
  type Doc = seq<(string, Field)>

  function Keys(d: Doc): (r: seq<string>)
    ensures |r| == |d| && forall i :: 0 <= i < |d| ==> r[i] == d[i].0
  {
    if d == [] then [] else [d[0].0] + Keys(d[1..])
  }

  predicate DistinctKeys(d: Doc) {
    forall i, j :: 0 <= i < j < |d| ==> d[i].0 != d[j].0
  }

  /** `d[k]`, or None when the key is missing. */
  function Get(d: Doc, k: string): (r: Option<Field>)
    ensures r.None? <==> k !in Keys(d)
  {
    if d == [] then None else if d[0].0 == k then Some(d[0].1) else Get(d[1..], k)
  }

  /** The dict assignment `d[k] = v`: an existing key keeps its position and
      takes the new value; a new key goes last. */
  function Put(d: Doc, k: string, v: Field): Doc
  {
    if d == [] then [(k, v)]
    else if d[0].0 == k then [(k, v)] + d[1..]
    else [d[0]] + Put(d[1..], k, v)
  }

  /** Assigning a key the dict lacks appends the pair. */
  lemma {:induction false} PutNew(d: Doc, k: string, v: Field)
    requires k !in Keys(d)
    ensures Put(d, k, v) == d + [(k, v)]
  {
    if d != [] {
      assert k !in Keys(d[1..]);
      PutNew(d[1..], k, v);
    }
  }

  /** Assigning a key the dict holds replaces its value in place. */
  lemma {:induction false} PutExisting(d: Doc, k: string, v: Field)
    requires k in Keys(d)
    ensures Keys(Put(d, k, v)) == Keys(d)
  {
    if d[0].0 != k {
      PutExisting(d[1..], k, v);
    }
  }

  /** After `d[k] = v`, `d[k]` is `v` and every other key reads as before. */
  lemma {:induction false} PutGet(d: Doc, k: string, v: Field, k': string)
    ensures Get(Put(d, k, v), k') == if k' == k then Some(v) else Get(d, k')
  {
    if d != [] && d[0].0 != k {
      PutGet(d[1..], k, v, k');
    }
  }

  /** The keys after `d[k] = v`: the old ones, plus `k` at the end if it is new. */
  lemma PutKeys(d: Doc, k: string, v: Field)
    ensures Keys(Put(d, k, v)) == if k in Keys(d) then Keys(d) else Keys(d) + [k]
  {
    if k in Keys(d) {
      PutExisting(d, k, v);
    } else {
      PutNew(d, k, v);
      assert Keys(d + [(k, v)]) == Keys(d) + [k];
    }
  }

  /** A dict never holds a key twice, and assignment keeps it so. */
  lemma PutDistinct(d: Doc, k: string, v: Field)
    requires DistinctKeys(d)
    ensures DistinctKeys(Put(d, k, v))
  {
    var r := Put(d, k, v);
    PutKeys(d, k, v);
    forall i, j | 0 <= i < j < |r|
      ensures r[i].0 != r[j].0
    {
      assert r[i].0 == Keys(r)[i] && r[j].0 == Keys(r)[j];
      if j < |d| {
        assert Keys(d)[i] == d[i].0 && Keys(d)[j] == d[j].0;
      } else {
        assert Keys(r)[j] == k;
        assert Keys(d)[i] == d[i].0;
      }
    }
  }
}
