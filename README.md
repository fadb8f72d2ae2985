# proc-macro-workshop macros in Dafny

This project models three procedural macros of the proc-macro-workshop
solutions and proves properties about them.

- `#[sorted]` and `#[sorted::check]` (sorted/src/lib.rs). The first checks
  that the variants of an enum are in alphabetical order. The second checks
  that the arms of every `#[sorted] match` in a function are in order. Each
  reports the first position where the given order and the sorted order
  disagree.
- `#[derive(Builder)]` (builder/src/lib.rs). It generates a `<Struct>Builder`
  with an optional slot, a setter and a `build` initialiser per field. It also
  adds `each` methods that push one element onto a `Vec` field.
- `#[derive(CustomDebug)]` (debug/src/lib.rs). It generates a `Debug` impl with
  one `.field(...)` entry per field. A field with `#[debug = "..."]` is
  formatted through that string. Every type parameter gets a
  `std::fmt::Debug` bound.

syn's syntax tree is reduced to plain values (module `Syn`). Only the parts
the macros look at are kept: path segments, types, attributes and fields.
Generated code is modelled as descriptors, not tokens: slots, setters,
`build` initialisers, `each` methods and field entries. For the builder, the
behaviour of the generated code is modelled too (`NewBuilder`, `CallSetter`,
`CallEach`, `CallBuild`). Panics become `Err` values carrying the panic
message (`Message`).

Module layout:

- `wrappers.dfy`: `Option`, `Result`, and `FirstError`, which drains a
  sequence of results up to the first error.
- `syn.dfy`: the syntax values, and `FindAttr`, which finds an attribute by
  name.
- `lex_order.dfy`: the order `String::cmp` imposes on names, and `sort_by`
  modelled as a stable insertion sort with its properties.
- `sorted.dfy`, `builder.dfy`, `debug.dfy`: the three macros.

Notes on the code as it stands:

- `seq/src/lib.rs` is a stub with no expander (see Left out).
- The debug generator adds `std::fmt::Debug` to every type parameter
  (`CustomDebug.AddDebugBounds`), whether or not a field uses it.
- In the builder, a non-path field type panics before any attribute is
  examined, at the first such field. This follows from the order in which
  `quote!` drains the lazy generators (`Builder.Derive`).

## Model

| member | source | states |
|---|---|---|
| Syn.FindAttr | builder/src/lib.rs:150-153 | index of the first attribute whose path is exactly the given identifier; none when no attribute has it |
| LexOrder.Less | sorted/src/lib.rs:121 | `cmp` on identifier strings: code point by code point, a proper prefix first; its order properties are the lemmas below |
| LexOrder.LessIrreflexive | sorted/src/lib.rs:121 | no name sorts before itself |
| LexOrder.LessTransitive | sorted/src/lib.rs:121 | the order on names is transitive |
| LexOrder.LessTotal | sorted/src/lib.rs:121 | of two different names one sorts before the other |
| LexOrder.SortBy | sorted/src/lib.rs:120-121 | `sort_by` on a clone, as a stable insertion sort: the copy has the input's length; sortedness, permutation and stability are the lemmas below |
| LexOrder.SortByPermutes | sorted/src/lib.rs:120-121 | the sorted copy is a permutation of the original (same multiset) |
| LexOrder.SortByPermutesKeys | sorted/src/lib.rs:177-178 | the sorted copy has the same multiset of names |
| LexOrder.SortByIsSorted | sorted/src/lib.rs:121 | the sorted copy is in ascending order of name |
| LexOrder.SortByStable | sorted/src/lib.rs:121 | elements with equal names keep their relative order (sort_by is stable) |
| LexOrder.SortByOfSorted | sorted/src/lib.rs:177-178 | sorting a sequence that is already in order returns it unchanged |
| LexOrder.FirstMismatch | sorted/src/lib.rs:180-181 | none exactly when the sequences are equal; otherwise they agree before the index and differ at it |
| LexOrder.FirstMismatchAt | sorted/src/lib.rs:180-181 | an index before which the sequences agree and at which they differ is the first mismatch |
| LexOrder.FirstMismatchOfPermutation | sorted/src/lib.rs:180-189 | at the first difference with its ascending permutation, the sorted name is strictly smaller |
| LexOrder.MismatchFound | sorted/src/lib.rs:180-189 | a scan that stops at index i found the first mismatch, the sorted copy holds the smaller name there, and the input was not in order |
| LexOrder.NoMismatchFound | sorted/src/lib.rs:190-192 | a scan that finds no mismatch proves the input was in order |
| LexOrder.ScanKeys | sorted/src/lib.rs:180-192 | the index loop over a sequence and its sorted copy stops at an index where the names differ, after agreement on every earlier index, or finds none when all agree |
| LexOrder.ScanMeaning | sorted/src/lib.rs:177-192 | the scan over `sort_by`'s copy finds no mismatch exactly when the input is in order, and where it stops the sorted copy holds the strictly smaller name |
| LexOrder.ScanFindsFirstMismatch | sorted/src/lib.rs:180-192 | the index the scan stops at is the first mismatch of the name sequences |
| LexOrder.FirstMismatchOfSortedCopy | sorted/src/lib.rs:177-192 | for any sorted permutation that keeps an in-order input as it is, the first mismatch is absent exactly when the input is in order, and at it the sorted copy is strictly smaller |
| LexOrder.SortByFirstMismatch | sorted/src/lib.rs:177-192 | the same for the copy `sort_by` makes |
| Sorted.FullPath | sorted/src/lib.rs:64-75 | the loop builds the segments joined by "::", with separators only between segments and "" for no segments |
| Sorted.JoinPath | sorted/src/lib.rs:64-75 | the segments joined by "::"; `SplitJoinPath` shows nothing is lost |
| Sorted.JoinPathSnoc | sorted/src/lib.rs:67-72 | one more segment adds "::" and the segment at the end |
| Sorted.SplitJoinPath | sorted/src/lib.rs:64-75 | cutting the joined path at "::" gives back the segments, so the qualified name loses nothing |
| Sorted.SortedItem | sorted/src/lib.rs:165-193 | non-enums give "expected enum or match expression"; an enum passes exactly when its variants are in order; otherwise the error names sorted[i] and variants[i] at the first differing index, with the text "<sorted[i]> should sort before <variants[i]>", and sorted[i] is strictly smaller |
| Sorted.TripletFromPath | sorted/src/lib.rs:50-61 | the triplet sorts by the last path segment and is reported by the full path |
| Sorted.ClassifyArms | sorted/src/lib.rs:87-118 | the arms' triplets, or the index of the arm reported as unsupported; its rules are stated by `ClassifyArmsRules` and the three lemmas after it |
| Sorted.ClassifyArmsRules | sorted/src/lib.rs:87-118 | the arms pass exactly when every arm but a trailing `_` is an ident, tuple-struct, path or struct pattern, giving one triplet per compared arm in order; otherwise the first unsupported pattern or non-final `_` is reported |
| Sorted.ClassifyArmsOk | sorted/src/lib.rs:87-118 | the arms pass exactly when every compared arm has a supported pattern |
| Sorted.ClassifyArmsTriplets | sorted/src/lib.rs:87-113 | on success, one triplet per compared arm, the triplet of that arm, in order |
| Sorted.ClassifyArmsErr | sorted/src/lib.rs:100-117 | on failure, the reported arm is an unsupported pattern or a `_` that is not last, and every earlier arm is supported |
| Sorted.CollectArms | sorted/src/lib.rs:80-118 | the while-let loop computes exactly the arm classification above |
| Sorted.CompareArms | sorted/src/lib.rs:120-136 | the sort-and-scan code reports exactly the diagnostics `OrderDiagnostics` describes: one error or none |
| Sorted.OrderDiagnosticsRules | sorted/src/lib.rs:120-136 | no error exactly when the arms are in order of last segment; otherwise one error with the full paths of sorted[i] and unsorted[i] at the first difference, the name of sorted[i] strictly smaller |
| Sorted.OrderDiagnostics | sorted/src/lib.rs:123-136 | at most one ordering error per match |
| Sorted.FirstPathAttr | sorted/src/lib.rs:24-30 | index of the first attribute that is a bare path |
| Sorted.SortedAttr | sorted/src/lib.rs:77-78 | a match is marked only when its first bare-path attribute begins with the segment `sorted` |
| Sorted.AttrsAfterCheck | sorted/src/lib.rs:79 | the marking attribute is removed and every other attribute is kept in order |
| Sorted.MatchDiagnostics | sorted/src/lib.rs:77-137 | none for an unmarked match; for a marked match exactly `[Unsupported(j)]` when classification stops at arm j (no order check), and otherwise the order diagnostics of the triplets |
| Sorted.MatchAcceptedIffSorted | sorted/src/lib.rs:87-136 | a marked match passes exactly when its arms are supported and in ascending order |
| Sorted.UnsupportedArmReported | sorted/src/lib.rs:100-114 | a marked match whose first offending arm is j (another pattern shape, or `_` not last) gets exactly one diagnostic, at arm j |
| Sorted.ExprVisitor.constructor | sorted/src/lib.rs:13-17 | the visitor starts with no errors |
| Sorted.ExprVisitor.VisitExprMatch | sorted/src/lib.rs:23-140 | the node keeps its arms, loses only the marking attribute, and the visitor's errors grow by this match's diagnostics |
| Sorted.Check | sorted/src/lib.rs:143-146 | checking one match yields the rewritten attributes and the match's diagnostics |
| Sorted.Message | sorted/src/lib.rs:170-188 | the text of each diagnostic; `SortedItem` states the "should sort before" text |
| Builder.FindSegment | builder/src/lib.rs:60-62 | index of the first segment with the given name |
| Builder.IsOption | builder/src/lib.rs:54-72 | true with the first `Option` segment exactly when some segment is named `Option`; false with none otherwise |
| Builder.AngleBracketedInner | builder/src/lib.rs:211-224 | the `<...>` arguments exactly when the segment has angle-bracketed arguments |
| Builder.FirstNonPath | builder/src/lib.rs:68-71 | the first field whose type is not a path; none exactly when all are paths |
| Builder.SlotType | builder/src/lib.rs:80-87 | the slot type is always an Option type: the field type itself when it is an Option, `std::option::Option<ty>` (with inner type ty) otherwise |
| Builder.FieldsDefinition | builder/src/lib.rs:74-90 | one slot per field in order, named like it; an Option-typed field keeps its type, any other field `ty` gets `std::option::Option<ty>` |
| Builder.OptionOfIsOption | builder/src/lib.rs:85-86 | `std::option::Option<T>` is recognised as an Option with inner type T |
| Builder.FieldsInit | builder/src/lib.rs:92-101 | one `None` initialiser per field, in field order |
| Builder.SetterArg | builder/src/lib.rs:110-116 | the setter takes the `<...>` of the first `Option` segment when there is one, and the field type otherwise |
| Builder.Methods | builder/src/lib.rs:103-125 | one setter per field named like it; it takes the field type for a required field and the Option's inner type otherwise |
| Builder.SetterFitsSlot | builder/src/lib.rs:110-120 | the value a setter stores, `Some(arg)`, has the slot's type |
| Builder.SetterUnwrapsOption | builder/src/lib.rs:110-111 | a field of type `Option<T>` gets a setter taking `T` and keeps its type as slot |
| Builder.BuildFn | builder/src/lib.rs:127-142 | one initialiser per field; a clone exactly for Option fields, `unwrap_or_default` at the field's own type for the others |
| Builder.BuilderAttr | builder/src/lib.rs:150-154 | the field's first attribute whose path is `builder`, if any |
| Builder.AttrMethodOf | builder/src/lib.rs:147-208 | no `builder` attribute gives no method; in the source's order: a non-name-value argument, a multi-segment key, a key other than `each` ("Unexpected attribute key"), a non-string value each panic; `each = "<field>"` gives no method; otherwise a non-path type panics, a type without `Vec` panics with "This attribute is only applicable to vectors", a first `Vec` segment without `<...>` panics, and `Vec<T>` gives the method taking T; conversely a method only arises this way |
| Builder.AttrMethods | builder/src/lib.rs:144-209 | one method per field in order, or the first field's panic |
| Builder.Derive | builder/src/lib.rs:1-52 | anything but a struct with named fields is unimplemented; success exactly when all field types are paths and all attributes are well formed; the builder is named `<Struct>Builder` and every generator yields one item per field; the first non-path field type panics before attributes are looked at; when all field types are paths, a malformed attribute gives the first field's `AttrMethods` panic |
| Builder.DeriveParts | builder/src/lib.rs:19-47 | a successful expansion is assembled from the per-field generators: slots, initialisers, setters, `each` methods and `build` |
| Builder.BuildReadsSlots | builder/src/lib.rs:127-142 | `build` reads each field from the slot of the same name: Option fields as they are, others unwrapped or defaulted |
| Builder.NewBuilder | builder/src/lib.rs:31-35 | `builder()` has one slot per field, all `None` |
| Builder.CallSetter | builder/src/lib.rs:119-121 | a setter stores `Some(v)` in its own slot and changes no other |
| Builder.CallEach | builder/src/lib.rs:193-197 | an `each` call pushes onto the vector in the field's slot, or stores `Some(vec![v])` when the slot is empty, and changes no other slot |
| Builder.CallBuild | builder/src/lib.rs:43-46 | one value per field: the cloned slot for an Option field, the slot's value or the type's default otherwise |
| Builder.BuildUnset | builder/src/lib.rs:30-47 | `build` on a fresh builder gives `None` for Option fields and the default for the others, and never fails |
| Builder.SetThenBuild | builder/src/lib.rs:118-123 | after one setter call, `build` gives the set value for that field (in `Some` for an Option field) and leaves the others unset |
| Builder.SetThenBuildFrom | builder/src/lib.rs:118-123 | the same for any builder generated from a field list |
| Builder.EachAccumulates | builder/src/lib.rs:191-200 | calls to an `each` method on an empty slot collect exactly the pushed elements in order, and touch no other slot |
| Builder.EachExtends | builder/src/lib.rs:193-194 | `each` calls on a slot already holding a vector push after its elements, in order, and touch no other slot |
| Builder.SetThenEach | builder/src/lib.rs:119-121 | the plain setter of a `Vec` field followed by its `each` method gives the set vector followed by the pushed elements |
| Builder.EachThenBuild | builder/src/lib.rs:191-200 | after `each` calls with x1..xn, `build` gives the vector [x1..xn] for that field and leaves the others unset |
| Builder.EachThenBuildFrom | builder/src/lib.rs:191-200 | the same for any builder generated from a field list |
| Builder.Message | builder/src/lib.rs:157-203 | the panic message of each error (for a non-name-value argument, the `Result::expect` message the panic text begins with); `AttrMethodOf` states the messages of the `each` checks |
| CustomDebug.FmtField | debug/src/lib.rs:19-51 | the entry is labelled with the field name; without a `debug` attribute it is plain; a well-formed `#[debug = "s"]` gives the entry formatted through s; a non-name-value attribute panics with "Expected name-value pattern" and a non-string value with "Expected literal string" |
| CustomDebug.FmtFields | debug/src/lib.rs:19-51 | one entry per field in order, or the first field's panic |
| CustomDebug.EntriesFollowFields | debug/src/lib.rs:19-51 | entry k names field k, is plain exactly when field k has no `debug` attribute, and is formatted through s when the attribute is `debug = "s"` |
| CustomDebug.Message | debug/src/lib.rs:11-43 | the panic message of each error (for a non-name-value attribute, the `Result::expect` message the panic text begins with); `FmtField` states the messages of the attribute checks |
| CustomDebug.WithDebugBound | debug/src/lib.rs:53-57 | a type parameter keeps its name and bounds and gains `std::fmt::Debug` last; lifetime and const parameters are unchanged |
| CustomDebug.BoundRoundTrip | debug/src/lib.rs:53-57 | removing the added bound gives back the original parameter |
| CustomDebug.AddDebugBounds | debug/src/lib.rs:53-57 | the in-place loop rewrites every parameter of the array as above |
| CustomDebug.Derive | debug/src/lib.rs:4-72 | non-structs panic with "Expected struct" and tuple or unit structs with "Expected named fields"; otherwise success exactly when every field's attribute is well formed, with the struct's name for `debug_struct`, one entry per field and every generic parameter rewritten |

## Left out

- seq/src/lib.rs: not modelled. It is an unfinished stub that does not compile (a function is cut off mid-definition), and its `seq!` only prints the parsed header and expands to nothing.
- Recursion into nested expressions: `syn::visit_mut` visits every match in the function, but the model checks a single `match` node. When the visitor reports an error through its early `return`, it also skips the recursive visit of that node's sub-expressions. That skip is not modelled.
- The `sorted` entry point: it re-emits the item and appends the error of `__sorted` as tokens. Only `__sorted` is modelled (`Sorted.SortedItem`).
- Spans: they only say where rustc points a diagnostic, so they are dropped. The `Unsupported` diagnostic keeps the arm's index instead.
- Token streams: `quote!`, `to_compile_error`, `format_ident!` and parsing are not modelled. Generated code is modelled as descriptors.
- Lexing of the `each` name: `new_fn_ident.parse().unwrap()` can fail on a name that is not a valid identifier. The model takes the name as given.
- Lifetime and const generic arguments inside `<...>`: not modelled, only type arguments are.
- Qualified-self types such as `<T as Trait>::X`: they are modelled as non-path types (`OtherType`), which is how the macros treat them.
- LexOrder.SortBy: `sort_by` sorts a clone in place; the model is a pure stable insertion sort. The properties used (sorted, a permutation, stable) are the ones the standard library promises, so the in-place mutation and the algorithm are not captured.
- Panics: they are modelled as `Err` results carrying the panic message. Unwinding is not modelled.
- Builder.Message, CustomDebug.Message: the two panics raised through `Result::expect` (`AttrNotNameValue`, `ExpectedNameValue`) print the message followed by ": " and syn's error; the model keeps only the message and drops that suffix, since the error text is syn's and not part of these macros.
- Builder semantics: `Value` stands for run-time values of any type. Moves, clones and `&mut self` chaining of the generated setters are not modelled. Nor are name clashes between an `each` method and another setter, which rustc would reject.
- Builder.SetThenBuild, Builder.EachThenBuild: these assume distinct field names, which rustc enforces for any struct.
- Where clauses: `split_for_impl` passes the struct's `where` clause through unchanged; `DeriveInput` and `CustomDebug.DebugImpl` do not carry one.
- Builder.CallEach: `Value` is untyped, so `CallEach` requires that the field's slot is empty or holds a vector (`HoldsVector`). rustc's typing guarantees this for the `Option<Vec<_>>` slot of a `Vec` field; a setter storing a non-vector there is outside the model.
- CustomDebug.Derive: the generated `fmt` body is described by its entries. The text produced at run time by `Formatter` is not modelled.
