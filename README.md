# go-structeditor: paths, locator, operators and renderer in Dafny

This project models the engine of go-structeditor, a Go library that shows an
arbitrary in-memory value as an HTML tree and lets a client change one field
of it, named by a dotted path such as `Employees.0.Name`. The model covers
three source files:

- **Paths** (`paths.dfy`, path.go). A path is a chain of `PathNode`s. Each
  node holds a struct-field name, or an index when the name is empty. The
  text form has two directions. `ParsePath` (the chain built by the methods
  `StringToPath` and `SliceToPath`) splits the text on dots. `PathText` (the
  method `PathString`) prints a path back. Both are proved to round-trip.
  `Append`, `RemoveLast` and `Visiting` rewrite `next` pointers in place.
  They are verified against a ghost sequence of nodes (`Spine`).
- **Locator and operators** (`values.dfy`, `mutate.dfy`, mutate.go). The
  edited state is a finite value tree (`Values.Value`): sized integers,
  floats as opaque bit patterns, bools, strings, structs, arrays, slices,
  pointers, interfaces and any other kind. A slice is its header: the
  backing store, whose length is the capacity, the length, and the element
  type's zero value. `FindValueToChange` walks the tree one segment per
  struct, array or slice, and steps through pointers and interfaces. It
  returns a `Handle`: the position reached plus reflect's two settability
  flags. The operators `set`, `grow` and `shrink` compute the new value for
  that position. `Mutated` is the whole mutation: parse, locate, apply, then
  write the result back at the position. It applies the corrected grow
  described under "## Findings"; `GrowAsWritten` models mutate.go:151-162
  as written, and `GrowAsWrittenAgrees` states where the two differ.
- **Renderer** (`render.dfy`, render.go). `RenderValue` is a function giving
  the text, the next free input number and the error produced by rendering
  a value from a given number. The `Renderer` class has the source's
  `nextId`/`editable` fields and loops. Each of its methods is proved to
  produce exactly what `RenderValue` gives.
- **Editor** (`editor.dfy`, editor.go). It holds the state. `Mutate` and
  `Render` run the pieces above. `Mutate` leaves the state unchanged on
  every error.
- `conv.dfy` models the `strconv`/`fmt` conversions the engine calls.
  `errors.dfy` holds the error kinds. `scenarios.dfy` restates the
  repository's test cases as lemmas.

The `set` operator and the renderer need float parsing and `%f` formatting.
Both are passed in as function parameters (`parseFloat`, `formatFloat`).

Two behaviours follow the code rather than what its tests or comments
suggest. First, render_test.go:33-35 builds `primitiveEditString`, an input
followed by an update button carrying the leaf's path, and render_test.go:66
expects it for a pointer to 5. render.go (lines 142-150) only ever emits the
bare input, so the model renders leaves without path or button. Second,
mutate.go:37 starts from `reflect.ValueOf` of the state itself, so a state
held by value has an unsettable root. Setting one of its fields is then
reflect's panic (`Panic(Unsettable)`), not a successful set.

## Model

| member | source | states |
|---|---|---|
| Conv.Atoi | path.go:71 | an accepted number lies in the int64 range, and a digit-led text reads as a non-negative number |
| Conv.AtoiDigitLed | path.go:70-74 | a digit-led piece is accepted exactly when it is all decimal digits with a value of at most MaxInt64, and then it denotes that value |
| Conv.FormatNatValue | path.go:132 | the digits `%d` writes for a number denote that number |
| Conv.AtoiFormatNat | path.go:132 | `Atoi` reads back every non-negative int64 that `%d` writes |
| Conv.ParseUint64 | mutate.go:110 | an accepted unsigned value is at most MaxUint64 and its text starts with a decimal digit |
| Conv.ParseInt64 | mutate.go:102 | an accepted signed value lies in the int64 range |
| Conv.ParseInt64FormatInt | mutate.go:100-107 | the decimal text rendered for any int64 parses back to the same number |
| Conv.ParseUint64FormatNat | mutate.go:108-116 | the decimal text rendered for any uint64 parses back to the same number |
| Conv.ParseBool | mutate.go:127 | true exactly for the six spellings of true, false exactly for the six spellings of false, otherwise an error |
| Conv.ParseBoolFormatBool | mutate.go:126-132 | the text rendered for a bool parses back to the same bool |
| Conv.WrapSigned | mutate.go:106 | `SetInt` keeps a value that fits the field's width, and otherwise stores the one value in the width's signed range that is congruent to it modulo 2^bits |
| Conv.WrapUnsigned | mutate.go:115 | `SetUint` keeps a value that fits the field's width, and otherwise stores the one value below 2^bits that is congruent to it modulo 2^bits |
| Conv.LeadingDigitPositive | path.go:132 | digits not led by `0` denote a positive number |
| Conv.FormatNatDigits | path.go:132 | `%d` of the value of digits without a leading zero writes exactly those digits |
| Paths.JoinSplit | path.go:43 | joining the pieces of a dot split gives back the text |
| Paths.SplitJoin | path.go:43 | splitting dot-free pieces joined by dots gives back the pieces |
| Paths.EncodePieceCases | path.go:69-83 | a digit-led piece becomes index segment `("", value)` when it is a valid int64, else `MalformedIndex`; every other piece becomes name segment `(piece, 0)` |
| Paths.EmptyPieceIsIndexZero | path.go:80-82 | the empty piece of `"a..b"` becomes `Segment("", 0)`, the same segment as `"0"` |
| Paths.EncodeAllPieces | path.go:49-66 | one segment per piece, in order, or the first failing piece's error and no segments |
| Paths.ParsePathShape | path.go:39-45 | `""` is the root path; any other text parses to exactly one segment per dot-separated piece, and parses exactly when every piece does |
| Paths.PathTextJoin | path.go:125-139 | `String` prints each segment's name or decimal index, joined by dots, and prints `""` exactly for the root path |
| Paths.ParsePathCanonical | path.go:39-83 | every segment `StringToPath` produces is an int64 index or a non-empty, dot-free, not digit-led name, the segments `String` prints faithfully |
| Paths.PrintParse | path.go:39-139 | printing a parsed path and parsing it again gives the same segments, and printing gives back the very text parsed when its pieces are names not led by a digit or int64 indices without a leading zero |
| Paths.RoundTrip | path.go:39-139 | reading back what `String` prints gives the same segments, for non-negative int64 indices and for names that are non-empty, have no dot and do not start with a digit |
| Paths.PathNode.constructor | path.go:24-35 | a fresh node with the given name and index and no successor |
| Paths.SliceToPath | path.go:49-66 | a fresh acyclic chain whose segments are the encoded pieces, or the first error |
| Paths.StringToPath | path.go:39-45 | nil for `""`; otherwise a fresh chain carrying the parsed segments, or the parse error |
| Paths.Append | path.go:87-98 | the chain becomes the old nodes followed by the new element's nodes; the root is `p`, or `newElement` when `p` is nil |
| Paths.RemoveLast | path.go:102-112 | nil and no change for at most one node; otherwise the last node is unlinked and the root is kept |
| Paths.ReadSegments | mutate.go:68 | walking a chain through `Next` reads exactly its segments |
| Paths.Visiting | path.go:119-123 | the callback sees the old segments followed by the element's; with a one-node element both chains are restored exactly; with a longer element the path keeps all but the element's last node; with a nil element `RemoveLast` drops the path's own last node, as path.go:122 does; a nil path stays nil |
| Paths.PathString | path.go:125-139 | the recursive method prints what `PathText` specifies |
| Values.Child | mutate.go:54 | a step into a well-formed value reaches a well-formed child |
| Values.Replace | mutate.go:106 | writing a child changes that child only; it keeps the parent's kind and well-formedness, a struct's type name and field names, an array's element type and length, and a slice's element type, zero value, length, capacity and every other slot of its store |
| Values.UpdateAtValueAt | mutate.go:42 | after a write at a position, the position holds the written value |
| Values.UpdateAtElsewhere | mutate.go:42 | a write leaves every position that diverges from its own unchanged |
| Values.UpdateAtWellFormed | mutate.go:42 | writing a well-formed value keeps the state well-formed |
| Values.ValueAtWellFormed | mutate.go:45-81 | every reachable value of a well-formed state is well-formed |
| Values.RootHandle | mutate.go:37 | the state's root handle is at the empty position and is never settable |
| Values.FieldIndex | mutate.go:64-67 | the position of the first field with the name, or the field count when no field has it |
| Mutation.FindValueToChange | mutate.go:45-81 | the located value of a well-formed state is well-formed |
| Mutation.LocateFound | mutate.go:45-81 | the located value is the value at the position the locator reports, below the start; when dereferencing freely, the steps taken consume exactly the path's segments, and a non-empty path ends on a field or element |
| Mutation.RelocateAfterUpdate | mutate.go:45-81 | after the located value is replaced, locating the same path finds the replacement at the same position |
| Mutation.LocateFollows | mutate.go:45-81 | a successful locate walks a route that `Follows` the path: each field step is to the first field with the segment's name, each element step to the segment's index, each pointer step dereferences, and the steps consume exactly the segments |
| Mutation.FollowsLocates | mutate.go:45-81 | conversely, from a handle on a well-formed value, every route that `Follows` the path is where the locator succeeds, and it finds the value at the end of the route |
| Mutation.LocatorFindsNamedValue | mutate.go:45-81 | from the root, the locator succeeds at a position exactly when the route to it `Follows` the path, and the value there is the one found |
| Mutation.OperatorsLookThroughPointers | mutate.go:50-59 | with any shipped operator, whose `ModifiesPointer` is false, the route taken `Follows` the path: the path is consumed segment for segment and pointers are passed through |
| Mutation.SetOutcomes | mutate.go:98-137 | set parses ints, uints and bools (an error for malformed text), assigns strings verbatim, refuses structs, slices, pointers and other kinds, and keeps the field's kind |
| Mutation.SetRenderedTextIsIdentity | mutate.go:98-137 | setting a scalar to the text the renderer shows for it leaves it unchanged |
| Mutation.Reallocated | mutate.go:190-194 | the new store has the requested capacity, holds the visible elements first and the zero value in every other slot |
| Mutation.DoubleCapacity | mutate.go:190-194 | the copied store has twice the capacity |
| Mutation.GrowAsWrittenOutcome | mutate.go:151-162 | grow as written on a non-zero capacity adds one element and keeps the rest; the new element is zero exactly when the store was full or the exposed slot was already zero |
| Mutation.GrowAsWrittenPanicsOnZeroCapacity | mutate.go:154-157 | grow as written on a capacity-0 slice asks `SetLen` for more than the capacity |
| Mutation.GrowAsWrittenAfterShrinkReexposes | mutate.go:151-186 | shrinking `[2, 3, 4]` and then growing it with grow as written gives `[2, 3, 4]`, not `[2, 3, 0]` |
| Mutation.GrownCapacity | mutate.go:154-157 | the corrected grow (see "## Findings"), unlike `doubleCapacity` at mutate.go:191, always moves a full slice to a strictly larger store |
| Mutation.GrowAsWrittenAgrees | mutate.go:151-162 | grow as written and the corrected grow agree except on a settable slice of capacity 0 or one whose next store slot does not hold the zero value |
| Mutation.GrowAppendsZero | mutate.go:139-162 | grow refuses non-slices; on a settable slice the visible elements become the old ones plus the zero value, with the capacity kept when there was room |
| Mutation.ShrinkDropsLast | mutate.go:164-186 | shrink refuses non-slices, is a no-op on an empty slice, and otherwise drops the last visible element and keeps the store |
| Mutation.ShrinkUndoesGrow | mutate.go:151-186 | a shrink after a grow shows the original elements again |
| Mutation.GrowAfterShrinkShowsZero | mutate.go:139-186 | a grow after a shrink shows the zero value in the last place, not the element the shrink removed |
| Mutation.ApplyKeepsKind | mutate.go:42 | every operator's result is a well-formed value of the located value's kind |
| Mutation.OperatorForNames | mutate.go:198-209 | `set` (carrying `value`), `grow` and `shrink` are built exactly when named; any other name is an error naming it |
| Mutation.Mutated | mutate.go:31-43 | a successful mutation leaves a well-formed state |
| Mutation.MutationSite | mutate.go:31-43 | a successful mutation is the write of one value at one position |
| Mutation.MutatedReadsBack | mutate.go:31-43 | after a successful mutation, the same path locates the operator's result |
| Mutation.MutatedElsewhere | mutate.go:31-43 | a mutation changes nothing at positions diverging from the one its path names |
| Mutation.MutatedErrors | mutate.go:31-43 | a failure is the parse error, else the locate error, else the operator's error, in that order |
| Mutation.EmptyPathChangesNothing | mutate.go:37-48 | the empty path names the unsettable root, so a mutation of it succeeds only as shrink of an empty slice, which changes nothing |
| Render.RenderValue | render.go:25-61 | rendering fails exactly when an interface or unknown kind is visited; on success it uses exactly one input number per scalar visited |
| Render.RenderCompositeValue | render.go:65-78 | the same, for structs, arrays, slices, pointers and the refused kinds |
| Render.StructItems | render.go:85-94 | the fields' items fail exactly when some field fails, and otherwise number the fields' inputs consecutively |
| Render.ElemItems | render.go:104-111 | the elements' items fail exactly when some element fails, and otherwise number their inputs consecutively |
| Render.ElemCount | render.go:102 | an array shows all its elements and a slice its first `len` |
| Render.ElemAt | render.go:105 | the element at a position of an array or of a slice's store |
| Render.NewRenderer | render.go:16-20 | a fresh renderer numbers from 0 and is editable exactly when the root is a pointer |
| Render.Renderer.constructor | render.go:16 | numbering starts at 0, not editable |
| Render.Renderer.GetNextId | render.go:142-146 | returns `input-N` for the current N and advances the counter by exactly one |
| Render.Renderer.RenderEditField | render.go:148-150 | emits `<input type='text' id='input-N' value='V'>` for the current N and advances by one |
| Render.Renderer.RenderElement | render.go:25-61 | produces exactly the text, numbering and error of `RenderValue` |
| Render.Renderer.RenderComposite | render.go:65-78 | produces exactly what `RenderCompositeValue` gives |
| Render.Renderer.RenderStruct | render.go:81-97 | the struct's text, numbering and error exactly as `RenderCompositeValue` gives them |
| Render.Renderer.RenderFields | render.go:84-96 | header, one `<li>name: child,</li>` per field in order, closing tags; `""` and the error at the first failing field |
| Render.Renderer.RenderArray | render.go:99-114 | header `<div>[len]elem {<ul>`, one item per element in order, closing tags; `""` and the error on failure |
| Render.Renderer.RenderSlice | render.go:116-131 | header `<div>[]elem {<ul>`, one item per visible element in order, closing tags; `""` and the error on failure |
| Render.Renderer.RenderElems | render.go:104-113 | the shared loop emits exactly the items `ElemItems` gives and stops at the first error |
| Render.Renderer.RenderPtr | render.go:133-140 | `nil` with no input for a nil pointer; otherwise `&` before the target's text, passed on even with an error |
| Render.FirstStructError | render.go:89-92 | once a field fails, the remaining fields are not rendered and the failure is the result |
| Render.FirstElemError | render.go:106-109 | once an element fails, the remaining elements are not rendered and the failure is the result |
| Render.StructItemsStep | render.go:87-93 | one more field extends the items by that field's item, numbered from where the items stopped |
| Render.ElemItemsStep | render.go:110 | one more element extends the items by that element's item, numbered from where the items stopped |
| Render.FailedCompositeIsBlank | render.go:89-92 | a struct, array or slice that fails renders as `""` |
| Editors.Editor.constructor | editor.go:23-28 | the editor holds the given state and mutation URL |
| Editors.Editor.Mutate | mutate.go:31-43 | the state becomes the result of `Mutated`, and is left unchanged on any error |
| Editors.Editor.Render | render.go:15-22 | the output is the rendering of the state from input 0, so it is the same on every call, and fails exactly when the state is unrenderable |
| Scenarios.IndexThenNames | path_test.go:42-50 | `"1.customer.name"` parses to index 1 followed by two names |
| Scenarios.NameThenIndex | path_test.go:34-39 | `"base.1"` parses to a name followed by index 1 |
| Scenarios.PrintExamples | path_test.go:98-108 | `customers`, 3, `balance` prints as `customers.3.balance`, and the root path as `""` |
| Scenarios.ElementPath | mutate_test.go:84 | `"Employees.0.Name"` parses to a name, index 0 and a name |
| Scenarios.FindElementExample | mutate_test.go:84-85 | `Employees.0.Name` locates `"Bob"`, settable because slice elements are addressable |
| Scenarios.FindThroughPointerExample | mutate_test.go:90-91 | `Boss.Name` locates `"Snake"` through the pointer |
| Scenarios.FindFieldExample | mutate_test.go:78-79 | `Foo` locates `"5"` in a state held by value, not settable |
| Scenarios.IndexPastEndExample | mutate.go:73-75 | `Employees.9.Name` on a two-element slice fails with index 9 and length 2 |
| Scenarios.UnknownFieldExample | mutate.go:64-67 | `NotAField` fails naming the missing field |
| Scenarios.PathThroughScalarExample | mutate.go:79 | `Foo.bar` fails at the string field |
| Scenarios.WrongSegmentExamples | mutate.go:61-72 | an index at a struct and a name at a slice are refused |
| Scenarios.SetIntExample | mutate_test.go:127 | setting `Foo` to `"7"` through the pointer changes only `Foo` |
| Scenarios.SetStringExample | mutate_test.go:128 | setting `Bar` to `"hi"` changes only `Bar` |
| Scenarios.SetBoolExample | mutate_test.go:129 | setting `Baz` to `"true"` changes only `Baz` |
| Scenarios.SetIntRefusedExample | mutate.go:102-105 | setting an int to `"seven"` is a parse error |
| Scenarios.GrowExample | mutate_test.go:153-178 | growing the full `[2, 3, 4]` gives `[2, 3, 4, 0]` in a store of capacity 6 |
| Scenarios.ShrinkExample | mutate_test.go:180-205 | shrinking `[2, 3, 4]` gives `[2, 3]` and keeps the store |
| Scenarios.GrowFullField | mutate.go:151-162 | growing any full non-empty slice field doubles its store and exposes one zero |
| Scenarios.ShrinkField | mutate.go:176-186 | shrinking any non-empty slice field shortens it by one and keeps its store |
| Scenarios.RenderIntExample | render_test.go:44 | `3` renders as input 0 holding `3` |
| Scenarios.RenderInt32Example | render_test.go:45 | an `int32` 5 renders as input 0 holding `5` |
| Scenarios.RenderUintExample | render_test.go:46 | a `uint64` 10 renders as input 0 holding `10` |
| Scenarios.RenderOtherScalarExamples | render_test.go:47-49 | floats, `false` and `"hi"` render as single inputs |
| Scenarios.RenderArrayExample | render_test.go:50-57 | `[3]int{1, 2, 3}` renders as a list of inputs 0, 1 and 2 under `[3]int` |
| Scenarios.RenderSliceExample | render_test.go:58-65 | `[]int{1, 2, 3}` renders the same under `[]int` |
| Scenarios.RenderStructExample | render_test.go:97-100 | the example struct renders its three fields, named, as inputs 0 to 2 |
| Scenarios.RenderPointerExample | render.go:133-140 | a pointer to 5 renders as `&` before input 0, and a nil pointer as `nil` with no input |

## Left out

- http.go, static.go and the example programs: request handling, the page
  chrome around the rendered tree, and server start-up are I/O plumbing.
- Concurrency: the source has no locking, and the model is sequential.
- Floats: `strconv.ParseFloat` and `%f` are the parameters `parseFloat` and
  `formatFloat`, and a float is an opaque bit pattern. `SetFloat`'s rounding
  to `float32` is not modelled.
- `strconv.ParseInt`/`ParseUint` with base 0 are modelled with their
  `0b`/`0o`/`0x`/leading-`0` prefixes but without `_` digit separators.
  `Atoi` is decimal with an optional sign.
- Editors.Editor.Render: the output does not carry per-leaf paths or update
  buttons, because render.go emits none. `render_test.go` expects
  `primitiveEditString` output from an `unwrappedRender` that render.go does
  not contain, and its pointer case (render_test.go:66) is stated here as
  render.go produces it.
- Slices and in-place updates are modelled on values. A slice header is
  part of the state tree, and the editor writes the operator's result back
  at the located position. Aliasing is therefore not captured: neither two
  Go slices sharing one backing array nor `doubleCapacity` breaking such
  sharing.
- The state is a finite tree. Cyclic pointer graphs, on which the renderer
  would not terminate, and values shared between two places are not
  modelled.
- `reflect.Value.FieldByName` finds promoted fields of embedded structs.
  The model looks only at a struct's own fields.
- Mutation.Mutated and Editors.Editor.Mutate apply the corrected grow, not
  mutate.go:151-162 as written. The two differ in the two cases under
  "## Findings": a capacity-0 slice, where the code panics, and a grow after
  a shrink, where the code exposes the old element again instead of a zero
  value. `GrowAsWrittenAgrees` states exactly where they differ.
- Values.Exported: a name counts as exported only when it starts with an
  ASCII upper-case letter. Go's `unicode.IsUpper` also accepts other
  upper-case letters, and such a field is read-only in the model
  (`Panic(Unsettable)` on set). The Unicode tables are not modelled.
- Paths.Visiting: the callback receives the segments of the extended chain
  rather than the chain itself, so it cannot change the chain.
- Reflect panics (setting an unsettable value, `SetLen` beyond the
  capacity, a negative index) are the error `Panic(...)`, not an abort of
  the program.

## Findings

| source | as written | input that shows it | evidently intended | confidence | as-written member | corrected member |
|---|---|---|---|---|---|---|
| mutate.go:154-157 | a full slice is moved to a store of `2*cap`, then `SetLen(len+1)` | a settable slice with capacity 0 (for example a nil `[]int` field reached through a pointer): `2*0 = 0`, and `SetLen(1)` panics | grow works on every slice and appends one zero element | high; not executed | Mutation.GrowAsWrittenPanicsOnZeroCapacity | Mutation.GrowAppendsZero |
| mutate.go:139-157 | when there is room, only the length is raised, so the exposed slot keeps whatever it held | `[2, 3, 4]` shrunk to `[2, 3]` and grown again gives `[2, 3, 4]` | the new element takes the element type's zero value, as the comment at mutate.go:139 says | medium; not executed | Mutation.GrowAsWrittenAfterShrinkReexposes | Mutation.GrowAfterShrinkShowsZero |
