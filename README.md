# blazingqlog core in Dafny

A model of the path-resolution and filtering engine of blazingqlog, a tool that
reads a JSON-sequence stream of QLOG trace events and writes selected fields as
CSV rows. The model covers two separate pieces of the program:

- **The path filter** (`src/filter.rs`). A `Pattern` splits a string on `/`.
  A `Filter` is parsed from a `/`-separated string: the last segment becomes a
  typed literal (`u64` first, then `f64`, then the string itself), and the other
  segments are the pattern. `convert_value_and_get` takes one step down a JSON
  value. On an object it looks up the key. On an array it returns the result of
  the first element for which the step succeeds. On anything else it returns
  nothing. `Filter::filter` folds that step over the pattern and compares the
  value found with the literal. The comparison never converts between kinds.
- **Record extraction** (`src/main.rs`). This file's own `Pattern` splits on
  `,`. `get_item` needs a top-level object with a numeric `"time"`. It then
  follows the pattern by object key lookups only, and never looks inside an
  array. The CSV header is `("time", last segment)`. The main loop keeps one
  row per record for which `get_item` succeeds, in input order. The first
  decode error ends the run.

`src/main.rs` never declares `mod filter`, so the two walks are independent.
The model keeps them in separate modules, with separate `Pattern` types.
Module `Resolvers` proves where they agree and where they differ.

Files and modules:

- `wrappers.dfy` (`Wrappers`): `Option` and `Result`.
- `segments.dfy` (`Segments`): `str::split` on one character, and its inverse `Join`.
- `sequences.dfy` (`Sequences`): a generic filter-map and the indices it keeps.
- `json.dfy` (`JsonValue`): the JSON value (serde_json's `Value`), its accessors, and IEEE equality on `f64` bit patterns.
- `filter.dfy` (`PathFilter`): `src/filter.rs`.
- `extract.dfy` (`Extract`): `src/main.rs`.
- `resolvers.dfy` (`Resolvers`): the two walks compared.
- `examples.dfy` (`Examples`): worked examples on small records.

Floating point is handled as follows. An `f64` is its 64-bit pattern (`F64`).
Rust's `==` on `f64` is modelled exactly on that pattern: NaN equals nothing,
and the two zeros are equal. Two conversions are parameters of the model:
`f64::from_str` is the function `parseFloat: string -> Option<F64>`, and the
`as f64` cast that `as_f64` applies to integers is `ofInt: int -> F64`. All
results hold for every such pair of functions.

Facts about the code that shape the model:

- `u64::from_str` accepts one leading `+`, so `"+5"` is an integer literal.
- In `src/main.rs`, the comma-separated pieces are the keys of one single path,
  and only the last piece names the CSV column.
- `get_item` walks objects only. It does not unwrap arrays, and it does not call
  `convert_value_and_get`.
- `main` builds no `Filter` and extracts a single path.

## Model

| member | source | states |
|---|---|---|
| Segments.Split | src/filter.rs:12 | the split is never empty |
| Segments.SplitPiecesFree | src/filter.rs:12 | no piece of a split contains the separator |
| Segments.SplitLength | src/filter.rs:12 | a split has one more piece than the string has separators |
| Segments.JoinSplit | src/filter.rs:12 | joining the pieces of a split with the separator gives back the string |
| Segments.SplitJoin | src/filter.rs:12 | splitting a join of separator-free pieces gives back the pieces |
| PathFilter.PatternFromStr | src/filter.rs:10-14 | never fails; the segment count is the number of `/` plus one; joining the segments with `/` gives back the input |
| PathFilter.ParseU64 | src/filter.rs:50 | `u64::from_str` accepts only an optional `+` followed by ASCII digits |
| PathFilter.ParseU64Value | src/filter.rs:50 | an optional `+` and a non-empty digit string parse to the digits' value, leading zeros included, when it is below 2^64, and are rejected otherwise |
| PathFilter.ParseU64Overflow | src/filter.rs:50 | the decimal text of any value of 2^64 or more is rejected, with or without `+` |
| PathFilter.DecimalRoundTrip | src/filter.rs:50 | reading a number's decimal rendering gives back the number |
| PathFilter.ParseU64RoundTrip | src/filter.rs:50 | every 64-bit value's decimal text parses to that value, with or without a leading `+` |
| PathFilter.ParseU64Rejects | src/filter.rs:50 | a leading `-`, the empty string and a lone `+` are rejected |
| PathFilter.Literal | src/filter.rs:50-56 | the literal is `Int` iff the text parses as `u64` (holding that value), else `Float` iff the float parser accepts it (holding its result), else `String` holding the text unchanged |
| PathFilter.FilterFromStr | src/filter.rs:39-62 | always succeeds (the "Entries of 0 length" error is unreachable); the pattern has as many segments as there are `/`; the pattern plus the last segment, joined with `/`, is the input; the last segment holds no `/`; the literal is the one `Literal` gives for the last segment |
| PathFilter.ConvertValueAndGet | src/filter.rs:88-96 | on an object, exactly the lookup of the key; on null, bool, number or string, nothing |
| PathFilter.FirstHitIsFirstMatch | src/filter.rs:91-92 | `FirstHit` (the `find_map` over the array) succeeds iff some element's step succeeds, and gives the result of the first such element; earlier elements all give nothing |
| PathFilter.ConvertOnArray | src/filter.rs:91-92 | on an array the step succeeds iff some element's step does, and the result is the first such element's result |
| PathFilter.FirstHitStopsAt | src/filter.rs:92 | `FirstHit` stops at the first element whose step succeeds: two arrays equal up to that element scan alike |
| PathFilter.LaterElementsUnobserved | src/filter.rs:92 | once an element's step succeeds, no later element of the array affects the result |
| PathFilter.ConvertIsDescendant | src/filter.rs:88-96 | any value returned lies strictly inside the input |
| PathFilter.FirstHitIsDescendant | src/filter.rs:92 | a value found in an array lies strictly inside that array |
| PathFilter.ResolveIsDescendant | src/filter.rs:68-71 | following a non-empty pattern ends strictly inside the starting value |
| PathFilter.ResolveIsStepChain | src/filter.rs:68-71 | `Resolve`, the `try_fold` over the pattern, yields `w` iff there is a chain of successful `convert_value_and_get` steps from the root to `w`, one per segment in order |
| PathFilter.StepChainMakesResolve | src/filter.rs:68-71 | such a chain of successful steps makes the fold reach its last value |
| PathFilter.ResolveAppend | src/filter.rs:68-71 | following `ps + qs` is following `ps`, then `qs` from where `ps` ended; it fails if `ps` fails |
| PathFilter.ResolveShortCircuit | src/filter.rs:68-71 | one failed step anywhere on the path makes the whole fold fail |
| PathFilter.CmpValue | src/filter.rs:77-84 | an `Int` literal matches only the equal non-negative integer; a `String` literal matches only the equal JSON string; a `Float` literal matches only a number whose `as_f64` is IEEE-equal to it |
| PathFilter.NaNLiteralMatchesNothing | src/filter.rs:80 | a NaN float literal matches no value |
| PathFilter.ApplyFilter | src/filter.rs:67-74 | a filter passes exactly when its pattern resolves and the value found matches the literal under `cmp_value`; with an empty pattern it compares the literal with the root value itself |
| PathFilter.ApplyFilterShortCircuit | src/filter.rs:67-74 | a filter fails when any step of its pattern finds nothing |
| PathFilter.ApplyFilterTypeExact | src/filter.rs:67-84 | a passing filter found a value of the literal's own kind: that exact non-negative integer, that exact string, or a number whose `as_f64` is IEEE-equal to the float literal |
| JsonValue.AsU64 | src/filter.rs:79 | `as_u64` gives a value exactly for a non-negative integer, and that value is the integer |
| JsonValue.AsF64 | src/main.rs:67 | `as_f64` gives a value exactly for a number: an integer `n`, of either sign, converts to `ofInt(n)` and a float converts to itself |
| JsonValue.AsStr | src/filter.rs:81 | `as_str` gives a value exactly for a string, and that value is the string's text |
| JsonValue.FloatEqProperties | src/filter.rs:80 | IEEE `==`: NaN equals nothing (itself included), the two zeros are equal, equality is symmetric, and a non-zero value equals only itself |
| Extract.PatternFromStr | src/main.rs:29-33 | never fails; the segment count is the number of `,` plus one; joining with `,` gives back the input |
| Extract.LookupPathIsKeyChain | src/main.rs:70-73 | the walk `LookupPath` yields `w` iff a chain of objects leads from the root to `w` by the path's keys in order; an array, a scalar or a missing key on the way makes it fail |
| Extract.LookupPathAppend | src/main.rs:70-73 | walking `ps + qs` is walking `ps`, then `qs` from where it ended; it fails if `ps` fails |
| Extract.LookupPathNeedsObject | src/main.rs:73 | a non-empty walk from anything but an object, arrays included, fails |
| Extract.GetItem | src/main.rs:61-76 | nothing for a non-object record or one whose top-level `"time"` is missing or not a number; otherwise a row exactly when the object-only walk succeeds, holding `as_f64` of that `"time"` and the value the walk reached |
| Extract.HeaderOfParsed | src/main.rs:48 | `Header`, the header row, is `"time"` and the text after the last `,` of the pattern string (all of it if there is no `,`); the `""` fallback is never used |
| Extract.Run | src/main.rs:36-59 | the header comes from the pattern; the rows are the `get_item` rows of the records read before the first decode error, in order; the run fails with the first decode error if there is one |
| Extract.RecordsReadUpToError | src/main.rs:50-51 | `RecordsRead` and `FirstError`: with no decode error every record is read and the run ends without error; otherwise exactly the records before the first error are read and that error is the one reported |
| Extract.RowsOfAppend | src/main.rs:50-56 | the rows of two batches of records are the rows of each, one after the other |
| Extract.RowsOfSelects | src/main.rs:50-56 | `RowsOf`: the rows are exactly the existing `get_item` results: each comes from a record that yields it, from strictly increasing record indices, and no record that yields a row is skipped |
| Resolvers.LookupPathAgreesWithResolve | src/main.rs:70-73 | whatever the object-only walk finds, the filter's array-unwrapping walk finds too |
| Resolvers.ArraysPartTheWalks | src/filter.rs:91-92 | on `{"a": [{"b": 1}, {"b": 2}]}` the filter's walk for `a, b` gives 1 and never 2, while the extraction's walk gives nothing |
| Examples.ParseLeadingZeros | src/filter.rs:50 | `"007"` and `"+007"` parse to 7 |
| Examples.FilterFromSlashedText | src/filter.rs:39-62 | `"a/b/5"` parses to the pattern `a, b` with the integer literal 5 |
| Examples.FilterIsTypeExact | src/filter.rs:67-84 | that filter passes `{"a":{"b":5}}` and rejects `{"a":{"b":6}}` and `{"a":{"b":"5"}}` |
| Examples.MissingKeyFindsNothing | src/filter.rs:89-90 | a path that names a missing key finds nothing |
| Examples.EndToEnd | src/main.rs:48-56 | with the path `a,b`, a record without `"time"` is skipped and two events give the rows (1.0, 7) and (2.0, 8) under the header ("time", "b") |

## Left out

- Command-line parsing (`clap`, the `Args` struct and its error type, src/main.rs:9-21) is plumbing. The model takes the parsed pattern as a value.
- Opening the input and output files, and JSON-sequence decoding (src/main.rs:39-44, 50-51), are I/O. The loop takes an already-decoded stream whose elements are records or decode errors.
- CSV serialisation and its failure (`csv_wrt.serialize(..)?`, src/main.rs:48, 54) belong to the foreign `csv` crate. `Run` returns the header and the rows it would write, and does not model a write that fails. Some of those failures depend on the data, not on I/O. A row whose value is a JSON object is refused, because the writer refuses maps. A row whose value is an array fails unless the array has exactly one element, because a longer or empty array flattens to a record whose length differs from the two-field header. On such a record `main` stops after the rows before it, while `Run` keeps the row and goes on.
- `f64::from_str` (src/filter.rs:52) is the parameter `parseFloat`, and the integer `as f64` cast inside `as_f64` is the parameter `ofInt`. Decimal-to-binary rounding is not modelled.
- serde_json keeps only finite floats in a `Value`. The model's `Number.Float` admits any bit pattern, so the results above also cover values serde_json cannot produce.
- serde_json's `Map` ordering and representation do not matter, since only key lookup is used. An object is a Dafny `map<string, Json>`.
- `main` builds no `Filter`, never calls `Filter::filter`, and extracts a single path (src/main.rs:36-59). The loop model therefore has no filtering step and no second output column. `Filter` is modelled on its own, in `PathFilter`.
