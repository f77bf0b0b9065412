# serde-value: the `value!` literal and the `From`/`PartialEq` layer

This project models two coupled parts of serde-value, both of which produce the dynamic `Value` tree.
`Value` has the variants Unit, Bool, U8..U64, I8..I64, F32, F64, Char, String, Bytes, Seq and Map.

- **The `value!` macro** (`src/macros.rs`) turns a JSON-like token tree into `Value` constructor calls.
  - The literals it handles:
    - `null`, `true` and `false`;
    - `[]` and `[e1, ..., en]`;
    - the byte-string shorthand `[[b1, ..., bn]]`;
    - `{}` and `{k1: v1, ..., kn: vn}`.
  - Anything else goes to `to_value`.
  - Inside arrays, the `@array` muncher collects the elements.
  - Inside maps, the `@object` muncher emits one `object.insert((key).into(), value)` per entry, into a single mutable map.
- **The conversion layer** (`src/misc.rs`) has two parts:
  - the `From<T> for Value` impls;
  - the `PartialEq` impls between `Value` and native primitives. These compare through the helpers `eq_i64`, `eq_u64`, `eq_bool` and `eq_str`.
  - Map keys in a literal go through `Into<Value>`: a native key through these `From` impls, a key that already has type `Value` unchanged, whatever its variant.

The model works in two phases: macro expansion, then running the generated code.

1. **`Expansion.Expand`** tries the rules of `value_internal!` in their order. It turns a token sequence into generated `Code`, or into a syntax `Error`.
   - `Expansion.ExpandArray` is the `@array` muncher, with its accumulator and trailing-comma state.
   - `Expansion.ObjectKey` and `Expansion.ObjectEntry` are the two states of the `@object` muncher.
2. **`Evaluation.Build`** runs the generated code.
   - The embedded Rust expressions are given an `Env` parameter:
     - what a key evaluates to before `.into()`: a native, or a `Value` already;
     - what a byte element evaluates to;
     - what `to_value` returns, or that it fails.
   - Every property therefore holds for every such meaning.
   - `Evaluation.BuildObject` is the block generated for a map: a loop of inserts into a map variable.
   - `Evaluation.RunEntries` is the fold that specifies that loop.

There is also a `Projections` parameter. It stands for the `as_i64`, `as_u64`, `as_bool` and `as_str` accessors, whose definitions are outside the modelled files.

Tokens (`Tokens.Tok`) are token trees:

- `Null`, `True`, `False`, `Comma` and `Colon`;
- the delimited groups `Bracket`, `Brace` and `Paren`;
- `Atom` for any other leaf.

An expression (`$x:expr`) is approximated as a non-empty token run with no top-level comma or colon.

## Model

| member | source | states |
|---|---|---|
| Conversions.From | src/misc.rs:3-91 | each native lands in the one variant of its own width and signedness: bool→Bool, u8→U8, …, i64→I64, both byte types→Bytes, both text types→String |
| Conversions.RecoverFrom | src/misc.rs:3-91 | reading a converted native back at its own type returns it unchanged, so no payload is truncated or reinterpreted |
| Conversions.RecoverAcceptsTarget | src/misc.rs:3-91 | the read-back inverse is defined exactly on the values in the type's target variant |
| Conversions.RecoverInvertsFrom | src/misc.rs:3-91 | every value of a type's target variant is the conversion of exactly the native read back from it |
| Conversions.FromInjective | src/misc.rs:3-91 | two natives of the same type that convert to the same value are equal |
| Conversions.ByteConversionsAgree | src/misc.rs:69-79 | `From<&[u8]>` and `From<Vec<u8>>` both give `Bytes` with the same bytes |
| Conversions.TextConversionsAgree | src/misc.rs:81-91 | `From<&str>` and `From<String>` both give `String` with the same text |
| Conversions.EqI64 | src/misc.rs:93-95 | true exactly when `as_i64` is `Some(other)`; false when the projection is absent |
| Conversions.EqU64 | src/misc.rs:97-99 | true exactly when `as_u64` is `Some(other)`; false when the projection is absent |
| Conversions.EqBool | src/misc.rs:105-107 | true exactly when `as_bool` is `Some(other)`; false when the projection is absent |
| Conversions.EqStr | src/misc.rs:109-111 | true exactly when `as_str` is `Some(other)`; false when the projection is absent |
| Conversions.CastI64 | src/misc.rs:154 | `as i64` yields an `i64` congruent to its operand modulo 2^64 |
| Conversions.CastU64 | src/misc.rs:154 | `as u64` yields a `u64` congruent to its operand modulo 2^64 |
| Conversions.CastLossless | src/misc.rs:179-181 | widening a value already in the `i64` (or `u64`) range leaves it unchanged |
| Conversions.ValueEq | src/misc.rs:113-183 | `value == x`: a signed x is equal exactly when `as_i64(value)` is x, an unsigned x exactly when `as_u64(value)` is x, a bool or a text exactly when its projection equals it |
| Conversions.PrimitiveEq | src/misc.rs:125-162 | `x == value` gives the same answer as `value == x`, for every operand type |
| Conversions.TextComparisonsAgree | src/misc.rs:113-147 | comparing with `str`, `&str` or `String` holding the same text all reduce to `eq_str` |
| Conversions.OperandWidthIrrelevant | src/misc.rs:179-181 | integer operands of the same signedness and mathematical value compare alike, whatever their width |
| Conversions.SameProjectionSameAnswer | src/misc.rs:93-111 | two values whose projection for an operand's class agree compare alike against that operand, whatever their variants |
| Conversions.ProjectionEqualityIsLooser | src/misc.rs:152-156 | `I32(5)` and `U8(5)` are different values, yet both equal the native `5i32` once their signed projection is `Some(5)` |
| Evaluation.KeyOf | src/macros.rs:90 | a key goes through `(key).into()`, not through the grammar: a native key becomes its `From` conversion, a key already of type `Value` (`Unit`, `Char`, `Seq`, `Map` included) is kept unchanged, and it fails exactly when its expression has no `Into<Value>` |
| Evaluation.RunBytes | src/macros.rs:190-194 | the byte vector succeeds exactly when every element evaluates, and has the elements' bytes, same length and same order |
| Evaluation.RunItems | src/macros.rs:20-28 | the element vector succeeds exactly when every element runs, and holds their values in order |
| Evaluation.BuildObject | src/macros.rs:220-226 | the loop of inserts into a fresh map computes exactly the fold of the entries into the empty map |
| Evaluation.RunEntriesSucceeds | src/macros.rs:88-102 | the inserts succeed exactly when every key converts and every value runs |
| Evaluation.RunEntriesKeys | src/macros.rs:88-102 | the keys of the result are the keys already present plus every converted key written |
| Evaluation.RunEntriesKeepsUnwritten | src/macros.rs:88-102 | a key no entry writes keeps its earlier value |
| Evaluation.RunEntriesLastWriteWins | src/macros.rs:88-102 | an entry whose key no later entry repeats decides that key's value |
| Expansion.ArrayKeepsItems | src/macros.rs:30-63 | the `@array` muncher only appends: the elements already read start its result, in order |
| Expansion.ObjectKeyKeepsEntries | src/macros.rs:85-178 | the `@object` muncher only appends: the entries already inserted start its result, in order |
| Expansion.ObjectEntryKeepsEntries | src/macros.rs:88-102 | once a value is read, its entry comes right after the earlier ones |
| Tokens.SplitJoin | src/macros.rs:190 | `$( $e:expr ),*` splits a comma-joined list back into exactly its expressions |
| LiteralProperties.KeywordLiterals | src/macros.rs:186-206 | `null` builds `Unit`; `true` and `false` build `Bool(true)` and `Bool(false)` |
| LiteralProperties.OtherExpression | src/macros.rs:228-232 | any other expression expands to `to_value(&expr).unwrap()`; a failing conversion fails the literal |
| LiteralProperties.LiteralsNeverConverted | src/macros.rs:186-226 | a literal token is built by the grammar and never handed to `to_value` as itself |
| LiteralProperties.BytesLiteral | src/macros.rs:190-194 | `[[b1, ..., bn]]` expands to the byte rule ahead of the array rule; it builds `Bytes` of n bytes in order, or fails exactly when a byte element does |
| LiteralProperties.ByteElementsOfJoin | src/macros.rs:190 | the contents of `[[b1, ..., bn]]` yield exactly the n element expressions |
| LiteralProperties.BytesTrailingComma | src/macros.rs:196-198 | `[[b1, ..., bn,]]` does not build `Bytes`; it re-enters the macro on the parenthesised group `(b1, ..., bn)`, which becomes `to_value` of that group: a tuple for n ≥ 2, the expression `b1` itself for n = 1 |
| LiteralProperties.SingleTrailingByte | src/macros.rs:196-198 | `[[b,]]` builds `to_value(&b)`, since `(b)` is a parenthesised expression and not a 1-tuple (for any `to_value` that sees through parentheses) |
| LiteralProperties.TupleExpands | src/macros.rs:196-198 | comma-terminated contents that the byte rule refuses become `to_value` of the parenthesised group |
| LiteralProperties.ArrayLiteralIsMunched | src/macros.rs:190-214 | a non-empty `[...]` that neither byte-string rule claims is read by the `@array` muncher from an empty accumulator |
| LiteralProperties.ObjectLiteralIsMunched | src/macros.rs:216-226 | a non-empty `{...}` is read by the `@object` muncher from no entries and an empty key |
| LiteralProperties.TrailingCommaIsNoByteString | src/macros.rs:190-198 | a trailing comma leaves an empty last run, so the byte rule does not match |
| LiteralProperties.ArrayStep | src/macros.rs:30-63 | an element in element position is expanded as a nested literal or an expression and appended |
| LiteralProperties.ArrayComma | src/macros.rs:65-68 | a comma after an element moves the muncher to the comma-terminated state |
| LiteralProperties.ArrayPrefix | src/macros.rs:20-68 | munching `e1, ..., en,` appends the n element codes in source order, or stops at the first failing element |
| LiteralProperties.ArrayOfTerminatedList | src/macros.rs:20-68 | `e1, ..., en,` read from an empty accumulator gives exactly the elements' codes |
| LiteralProperties.ArrayOfJoinedList | src/macros.rs:20-68 | `e1, ..., en` read from an empty accumulator gives exactly the elements' codes |
| LiteralProperties.EmptyCollections | src/macros.rs:208-218 | `[]` builds an empty `Seq` and `{}` an empty `Map` |
| LiteralProperties.SeqLiteral | src/macros.rs:208-214 | `[e1, ..., en]`, with or without a trailing comma, expands to the `Seq` of the n element codes in order, or to the first element's error |
| LiteralProperties.SeqLiteralBuild | src/macros.rs:212-214 | the value is a `Seq` of length n whose i-th item is the build of `e_i`; it fails exactly when some element does |
| LiteralProperties.LeadingCommaSkipped | src/macros.rs:65-68 | a comma before the first element is skipped, and `[,]` expands to an empty `Seq` |
| LiteralProperties.ArrayLeadingComma | src/macros.rs:65-68 | with nothing read yet, a comma is munched and the muncher starts over |
| LiteralProperties.ArrayAfterLiteral | src/macros.rs:70-73 | a literal element followed by anything but a comma is refused with that token |
| LiteralProperties.ArrayUnexpectedToken | src/macros.rs:70-73 | after any list of good elements, a literal element followed by a non-comma token fails the whole literal with that token |
| LiteralProperties.ArrayCommaAfterComma | src/macros.rs:20-73 | a comma where an element should follow a comma matches no rule |
| LiteralProperties.ArrayDoubleComma | src/macros.rs:20-73 | a second comma after an element fails the whole literal |
| LiteralProperties.KeyMunch | src/macros.rs:175-178 | key tokens are munched one at a time into the current key, up to the colon |
| LiteralProperties.KeyRead | src/macros.rs:164-178 | a key is read up to its colon; a fully parenthesised key is taken as the expression inside |
| LiteralProperties.ValueRead | src/macros.rs:104-137 | after a key's colon, a nested literal or an expression up to the next comma or the end is the entry's value |
| LiteralProperties.EntryComma | src/macros.rs:88-92 | a comma after a value inserts the entry and starts a fresh key |
| LiteralProperties.ObjectPrefix | src/macros.rs:85-137 | munching `k1: v1, ..., kn: vn,` appends one entry per pair in source order, or stops at the first failing value |
| LiteralProperties.LastEntry | src/macros.rs:99-137 | the last entry without a trailing comma is inserted and ends the map |
| LiteralProperties.ObjectOfTerminatedList | src/macros.rs:85-137 | `k1: v1, ..., kn: vn,` gives exactly the n entries in order |
| LiteralProperties.ObjectOfJoinedList | src/macros.rs:85-137 | `k1: v1, ..., kn: vn` gives exactly the n entries in order |
| LiteralProperties.MapLiteral | src/macros.rs:220-226 | `{k1: v1, ...}`, with or without a trailing comma, expands to one insert per entry in source order, with each key as written except that a fully parenthesised key `(k)` loses its parentheses (`KeyTokens`) |
| LiteralProperties.ParenthesizedKey | src/macros.rs:164-168 | `(k): v` is read exactly like `k: v` |
| LiteralProperties.MapLiteralBuild | src/macros.rs:220-226 | the map is built exactly when every key converts and every value builds; its keys are exactly the converted keys |
| LiteralProperties.MapLiteralLastWriteWins | src/macros.rs:88-102 | for key expressions without side effects: an entry whose key no later entry repeats gives that key its value in the built map |
| LiteralProperties.ValueAsKey | src/macros.rs:88-92 | `{(k): v}` with `k` of type `Value` builds the one-key map from that value, whatever its variant, to the value of `v` |
| LiteralProperties.DuplicateKeyLastWins | src/macros.rs:88-102 | for a key expression `k` without side effects: `{k: v1, k: v2}` is the one-key map from `k` to the value of `v2` |
| LiteralProperties.MapAfterEntries | src/macros.rs:88-92 | after the good entries, the rest of the map is read by the key state with those entries inserted |
| LiteralProperties.ValueThenJunk | src/macros.rs:94-97 | a literal value followed by anything but a comma is refused with that token |
| LiteralProperties.ObjectUnexpectedToken | src/macros.rs:94-97 | after any good entries, an entry followed by a non-comma token fails the literal with that token |
| LiteralProperties.ObjectMissingValue | src/macros.rs:139-150 | a key with a colon but no value, or with neither colon nor value, fails with a missing value |
| LiteralProperties.ColonAtEnd | src/macros.rs:139-143 | a key whose colon ends the input fails with a missing value |
| LiteralProperties.ObjectMisplacedColon | src/macros.rs:152-156 | a colon where a key should start fails with a misplaced colon |
| LiteralProperties.ObjectCommaInKey | src/macros.rs:158-162 | a comma while a key is being read, including where a key should start, fails with a comma in the key |
| LiteralProperties.ValueWithColon | src/macros.rs:170-173 | a value that runs into a colon expects an expression, and the colon is not absorbed |
| LiteralProperties.ObjectColonAfterValue | src/macros.rs:170-173 | after any good entries, a value expression followed by a colon fails the literal |
| LiteralProperties.MalformedMapExamples | src/macros.rs:139-162 | `{"a":}` fails with a missing value; `{"a", "b": 1}` fails with a comma in the key |

## Left out

- `to_value` and serde's `Serialize` are not modelled. They are the `Env.toValue` parameter, and the panic of `.unwrap()` is the `ConversionFailed` error.
- What a key or byte-element expression evaluates to is a parameter (`Env.key`, `Env.byte`), for the same reason: a key expression of a type without an `Into<Value>` is a failure.
- Embedded key, byte and value expressions are taken as pure: a token run has one value wherever it occurs (`Env` maps token runs to results). Side effects and their order are not modelled, so `{next(): 1, next(): 2}` has one key in the model and two in Rust.
- `Env.toValue` is a free function of token runs. Only parentheses around one expression are tied to the expression itself (`ParensTransparent`, assumed by SingleTrailingByte). Other runs that Rust evaluates alike are not related.
- Floating point is reduced to bit patterns.
  - `From<f32>` and `From<f64>` copy a bit pattern into `F32`/`F64`.
  - `eq_f64` and the `f32`/`f64` comparisons are not modelled, because no floating-point equality is modelled.
- The `isize` and `usize` comparisons are left out because their width depends on the platform.
- The `&Value` and `&mut Value` comparison impls are left out; they are identical to the `Value` ones.
- The definitions of `as_i64`, `as_u64`, `as_bool` and `as_str` are not part of this model. They are the `Projections` parameter.
- The derived `Ord` and `PartialEq` of `Value` are not part of this model.
  - The model's maps therefore use structural equality of keys.
  - BTreeMap iteration order is not modelled.
- A key without `Into<Value>` and a byte element that is not a `u8` are type errors at compile time. The model reports them as a run-time `ConversionFailed`, in evaluation order, after any earlier `to_value` failure. No contract depends on which of several errors is reported.
- Error-message mechanics are left out because they affect only diagnostics. The model keeps only which kind of error arises. Left out are:
  - `value_unexpected!` and `value_expect_expr_comma!`;
  - the second copy of the input kept for diagnostics;
  - `local_inner_macros` and `value_internal_vec!`.
- The Rust expression grammar is approximated. An expression is any non-empty run of tokens without a top-level comma or colon. Inputs that rustc rejects inside an expression fragment, such as two juxtaposed literals, are accepted here as one expression. Conversely, Rust expressions with a top-level comma or colon, such as the turbofish `f::<A, B>()`, `HashMap::<K, V>::new()` or a labelled block `'a: { .. }`, are split or refused here.
- Nested `value_internal!` calls are expanded eagerly, whereas rustc expands them lazily. Only which error is reported for a literal with several faults can differ.
- The `Char` variant is never produced by any modelled `From` conversion (there is no `From<char>` in the modelled files). A `'z'` in a literal goes through `to_value`, and a `Char` key only arises from a key that already has type `Value`.
- LiteralProperties.SeqLiteral: excludes the single bracketed element without a trailing comma. That input is the byte-string form, and BytesLiteral and BytesTrailingComma state what it builds.
- LiteralProperties.DuplicateKeyLastWins: assumes the literal builds. The cases where it fails are stated by MapLiteralBuild. It holds only for a key expression without side effects, since both occurrences of `k` are given the same value.
- LiteralProperties.MapLiteralLastWriteWins: compares keys by their token runs' values, which holds only for key expressions without side effects.
