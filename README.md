# Google Maps `pb` parameter codec, in Dafny

This project models `GoogleMapsDataParser`, the codec between nested documents and the
`!`-separated `pb` URL parameter that Google Maps endpoints accept. A document is a
key-to-value dictionary whose values are strings or nested documents. It also models two
helpers of the tool built on the codec: `to_uint64` and `maybe`.

The wire format:

- A wire string is split on `!` and empty pieces are dropped.
- A token `<tag>m<n>` opens a nested message made of the next `n` tokens.
- A token `<tag><t><value>` with `t` one of `bdefisuvxyz` is a scalar, stored as the string `t + value`.
- A tag that repeats within one message is stored under `<tag>_<d>`. `d` is one counter per message, shared by all tags.
- `encode` writes the fields back in insertion order. It strips the `_<d>` suffixes and writes each header's count with `count_elements`.

Modules:

- `Document`: a document is a `seq<(string, Field)>` in insertion order, with `Field = Scalar(s) | Msg(d)`. `Put` is Python's `d[k] = v`: it replaces the value of an existing key in place and appends a new key at the end. The type itself does not exclude repeated keys, as a Python dict does. Distinctness is the predicate `DistinctKeys` instead: `Put` keeps it (`Document.PutDistinct`), every `parse` result has it (`ParseFacts.ParseKeys`), and the round trip assumes it of its input.
- `Text`: ASCII digits, decimal rendering and reading, `str.split('!')`, dropping empty tokens, and `'!'.join`.
- `Codec`: `Classify` hand-codes the two regular expressions. The other members model the operations:
  - `parse` is modelled twice. `ParseFrom` is the functional specification of the loop at lines 28-57. The method `Parse` runs the source's `while` loop, with the index and the shared duplicate counter, and is proved equal to it. `ParseFromHeader` and `ParseFromScalar` are unfolding steps of `ParseFrom`, one per token kind, that the other proofs call.
  - `count_elements` is the method `CountElements` (the source's `for` loop), proved against `Count`.
  - `is_list`, `_encode_impl` / `transform`, `encode` and `decode` are functions.
- `Encoding`: the token list a document is written as, and the count/parse agreement.
- `ParseFacts`: what `Classify` makes of each token shape. It also proves that `parse` fails exactly when some token is unreadable, and the shape of the keys `parse` produces.
- `RoundTrip`: `decode(encode(d)) == d` for canonical documents.
- `Behaviour`: edge cases and concrete wire strings.
- `Helpers`: `to_uint64` as Python's bitwise `&`, and `maybe` over a JSON value.

## Model

| member | source | states |
|---|---|---|
| Codec.Parse | src/google_maps_parser/gmaps_data_parser.py:21-58 | the `while` loop, with index, result dict and shared duplicate counter, returns exactly `ParseSpec(messages)`, error included |
| Codec.Store | src/google_maps_parser/gmaps_data_parser.py:36-40 | a parsed value goes under the slot its tag takes: the bare tag or `<tag>_<dup>`. The counter moves on exactly when the tag was already present, the value is then found under that slot, and distinct keys stay distinct |
| Codec.ParseFromHeader | src/google_maps_parser/gmaps_data_parser.py:30-42 | at a header, the child is `parse` of the next `length` tokens cut off at the end of the range. A failing child fails the whole parse; otherwise scanning resumes after the child's range |
| Codec.ParseFromScalar | src/google_maps_parser/gmaps_data_parser.py:43-54 | at a scalar, the value `t + rest` is stored under the tag's slot and scanning moves to the next token |
| Codec.LineRest | src/google_maps_parser/gmaps_data_parser.py:43 | `(.*)$` captures a newline-free prefix of the rest, and all of a rest that has no newline |
| Codec.CountElements | src/google_maps_parser/gmaps_data_parser.py:61-71 | the `for` loop returns `initial + Count(elements)`, recursing into nested messages with `initial` 1 |
| Codec.IsListNever | src/google_maps_parser/gmaps_data_parser.py:101-104 | `is_list` is false for every document, because a Python `list` never equals a `range` |
| Encoding.FlattenCount | src/google_maps_parser/gmaps_data_parser.py:61-71 | `count_elements(d)` is the number of tokens `d` is written as |
| Encoding.EncodeImplFlatten | src/google_maps_parser/gmaps_data_parser.py:74-98 | `_encode_impl(d)` is the document's token list, depth first in insertion order, joined by `!` |
| Encoding.FieldSegment | src/google_maps_parser/gmaps_data_parser.py:80-93 | `transform(key, value)` is that field's tokens joined by `!`. An empty message gives just its header |
| Encoding.TokensOfEncode | src/google_maps_parser/gmaps_data_parser.py:12-18 | for non-empty keys, and keys and scalars free of `!`, the tokeniser finds in `encode(d)` exactly the document's token list, and `count_elements(d)` tokens |
| Encoding.FlattenTokens | src/google_maps_parser/gmaps_data_parser.py:84-93 | every token a wire-safe document is written as is non-empty and free of `!` |
| RoundTrip.DecodeEncode | src/google_maps_parser/gmaps_data_parser.py:12-98 | `decode(encode(d)) == d` for documents with distinct digit-only keys and scalars made of a type character and text with no `!` and no newline |
| RoundTrip.ParseFlatten | src/google_maps_parser/gmaps_data_parser.py:21-58 | `parse` reads such a document back from its token list, header counts included |
| ParseFacts.ParseFails | src/google_maps_parser/gmaps_data_parser.py:55-56 | `parse` fails if and only if some token matches neither pattern, and the error names the first such token in list order. No partial result is returned |
| ParseFacts.ParseKeys | src/google_maps_parser/gmaps_data_parser.py:26-54 | at every depth, `parse` gives distinct keys. Each key is a bare tag, or `<tag>_<d>` with `d >= 1` and the bare tag present. The `d`s increase in insertion order, since one counter serves all tags |
| ParseFacts.PutSlot | src/google_maps_parser/gmaps_data_parser.py:36-40 | `parse` never stores over an existing key, and each store keeps the key invariant |
| ParseFacts.SyntheticFresh | src/google_maps_parser/gmaps_data_parser.py:50-52 | `<tag>_<dup>` is not yet a key while the counter exceeds every suffix in use |
| ParseFacts.ClassifyHeader | src/google_maps_parser/gmaps_data_parser.py:30-32 | `<tag>m<n>` is a header with count `n` whatever follows the count's digits, because the pattern is not anchored at the end |
| ParseFacts.ClassifyScalar | src/google_maps_parser/gmaps_data_parser.py:43-48 | `<tag><t><value>` with `t` a type character and no newline in `value` is a scalar carrying `value` |
| ParseFacts.ClassifyScalarNewline | src/google_maps_parser/gmaps_data_parser.py:43 | a single trailing newline is not part of the scalar's value |
| ParseFacts.ClassifyBareM | src/google_maps_parser/gmaps_data_parser.py:30-56 | `m` is not a scalar type: `<tag>m` without count digits is unreadable |
| ParseFacts.ClassifyNoTag | src/google_maps_parser/gmaps_data_parser.py:30-56 | a token not starting with a digit is unreadable |
| ParseFacts.SyntheticOf | src/google_maps_parser/gmaps_data_parser.py:37 | `f'{key}_{duplicate_index}'` is a synthetic key whose tag and number read back as `key` and `duplicate_index` |
| Behaviour.DecodeNothing | src/google_maps_parser/gmaps_data_parser.py:13-14 | `decode("")` and `decode("!!")` are the empty document |
| Behaviour.DecodeOuterBangs | src/google_maps_parser/gmaps_data_parser.py:13 | a leading or trailing `!` does not change what a wire string decodes to |
| Behaviour.HeaderTruncated | src/google_maps_parser/gmaps_data_parser.py:34-42 | a header whose count overshoots takes all remaining tokens as its message, and the loop ends there without a bounds error |
| Behaviour.FirstOccurrence | src/google_maps_parser/gmaps_data_parser.py:53-54 | the first occurrence of a tag is stored under the bare tag and the counter is unchanged |
| Behaviour.RepeatedOccurrence | src/google_maps_parser/gmaps_data_parser.py:50-52 | a later occurrence is stored under `<tag>_<dup>` and the counter moves on |
| Behaviour.ParseRepeatedTag | src/google_maps_parser/gmaps_data_parser.py:26-54 | the two-token range `<tag><a>`, `<tag><b>` parses to `{tag: a, tag_1: b}` |
| Behaviour.DecodeRepeatedTag | src/google_maps_parser/gmaps_data_parser.py:12-54 | `<tag><a>!<tag><b>` decodes to `{tag: a, tag_1: b}`, e.g. `1b1!1b0` to `{"1": "b1", "1_1": "b0"}` |
| Behaviour.SyntheticKeys | src/google_maps_parser/gmaps_data_parser.py:37 | a synthetic key differs from every bare tag |
| Behaviour.DecodeUnknownToken | src/google_maps_parser/gmaps_data_parser.py:55-56 | a token that does not start with a digit, placed after a readable scalar, fails the whole decode with an error naming it and no partial result. `ParseFacts.ParseFails` is the general statement for every unreadable token |
| Behaviour.RealKeySynthetic | src/google_maps_parser/gmaps_data_parser.py:76-78 | a key `<digits>_<digits>...` is written as its leading digits |
| Behaviour.EmptyMessageSegment | src/google_maps_parser/gmaps_data_parser.py:84-91 | an empty message is written as `<key>m0` alone |
| Behaviour.EncodeScalarField | src/google_maps_parser/gmaps_data_parser.py:17-18 | `encode({"1": "itest"}) == "!1itest"` |
| Behaviour.EncodeDuplicateTags | src/google_maps_parser/gmaps_data_parser.py:76-98 | `encode({"1": "e3", "1_1": "e6"}) == "!1e3!1e6"` |
| Text.TokensOfJoin | src/google_maps_parser/gmaps_data_parser.py:13 | splitting on `!` and dropping empty pieces undoes `'!'.join` of non-empty, `!`-free tokens |
| Text.SplitJoin | src/google_maps_parser/gmaps_data_parser.py:13 | `split('!')` undoes `'!'.join` of a non-empty list of `!`-free pieces |
| Text.JoinSplit | src/google_maps_parser/gmaps_data_parser.py:13 | `'!'.join` undoes `split('!')` |
| Text.TokensAreTokens | src/google_maps_parser/gmaps_data_parser.py:13 | every token `decode` keeps is non-empty and free of `!` |
| Text.DigitsToNatOfNatToString | src/google_maps_parser/gmaps_data_parser.py:32 | `int(str(n)) == n` for the counts written into headers |
| Text.LeadingDigitsOf | src/google_maps_parser/gmaps_data_parser.py:30 | `\d+` stops exactly where the digits stop |
| Document.PutGet | src/google_maps_parser/gmaps_data_parser.py:37-40 | after `d[k] = v`, `d[k]` is `v` and every other key keeps its value |
| Document.PutNew | src/google_maps_parser/gmaps_data_parser.py:37-40 | assigning a new key appends it at the end of the insertion order |
| Document.PutDistinct | src/google_maps_parser/gmaps_data_parser.py:37-40 | assignment never makes a key appear twice |
| Document.PutKeys | src/google_maps_parser/gmaps_data_parser.py:95-96 | assignment keeps the key order and adds a new key last |
| Helpers.ToUint64 | src/google_maps_tool/helpers.py:15-16 | `i & 0xFFFFFFFFFFFFFFFF` is `i mod 2^64`, negative `i` included, so it lies in `[0, 2^64)` |
| Helpers.BitAndLowMask | src/google_maps_tool/helpers.py:16 | masking with `2^n - 1` is reduction modulo `2^n` |
| Helpers.ToUint64Identity | src/google_maps_tool/helpers.py:16 | a value already in `[0, 2^64)` is unchanged |
| Helpers.ToUint64Idempotent | src/google_maps_tool/helpers.py:16 | `to_uint64(to_uint64(i)) == to_uint64(i)` |
| Helpers.ToUint64MinusOne | src/google_maps_tool/helpers.py:16 | `to_uint64(-1) == 2^64 - 1` |
| Helpers.Maybe | src/google_maps_tool/helpers.py:38-44 | the loop returns `data[k1]...[kn]` when every step succeeds (`data` itself for no keys) and `None` when any step raises |
| Helpers.Step | src/google_maps_tool/helpers.py:41 | a successful index into a list yields one of its items |
| Helpers.WalkAppend | src/google_maps_tool/helpers.py:40-41 | subscripting by `ks1 + ks2` is subscripting by `ks1`, then by `ks2` |
| Helpers.WalkFirst | src/google_maps_tool/helpers.py:40-41 | after a successful first step, the rest of the walk starts from its value, so `maybe(data, k1, ...) == maybe(data[k1], ...)` |
| Helpers.WalkStopsAtFault | src/google_maps_tool/helpers.py:42-43 | a failing step fails the whole walk, whatever keys follow |
| Helpers.ScalarsNotSubscriptable | src/google_maps_tool/helpers.py:42 | `None`, booleans and numbers raise `TypeError` on any subscript |
| Helpers.ListIndexing | src/google_maps_tool/helpers.py:41-42 | a negative index counts from the end; an index past either end raises `IndexError` |

## Left out

- The list-flattening branches of `count_elements` and `transform` are not modelled as live behaviour, nor is the `real_key` override. They are reachable only when `is_list` holds, and `Codec.IsListNever` shows that it never does. `Weight` and `EncodeField` therefore have no list case.
- `\d` is modelled as the ASCII digits `0`-`9`. Python's `\d` on `str` also matches other Unicode decimal digits.
- Python's `re` engine is not modelled. The three patterns are hand-coded in `Classify` and `RealKey`.
- Dictionary values other than strings and nested dictionaries are not modelled. Neither is Python's key equality beyond string equality (hashing, `1 == True`).
- `Codec.Parse` returns the error as a `Failure` value instead of raising an exception. Exceptions other than the unknown-format one are not modelled.
- `Helpers.Maybe` models subscripts by integers and string keys only. Slices, tuples, other objects and exceptions other than `IndexError`, `TypeError` and `KeyError` are left out. JSON numbers are `real`.
- `haversine`, `decimal_to_dms` and `clear_screen` in the helpers file are not part of this model: floating point and an OS shell call.
- The HTTP service, session handling, menus and printing, coordinates, and the payload builders for places and lists are not part of this model: they are I/O and floating point around the codec.
- A concrete encoding of a nested message (`{"1": {"2": "b1", "3": {}}}` as `!1m2!2b1!3m0`) is not stated as a separate lemma. Nested encoding is covered in general by `Encoding.FieldSegment` and `Encoding.TokensOfEncode`.
