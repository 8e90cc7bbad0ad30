# vi containers in Dafny

A Dafny model of the two generic containers of the Go module `vi`:

- `vector.Vector[T]` (vector/vector.go), a growable sequence behind a pointer
  `vs *[]T` that `New()` leaves nil and, among the modelled operations, only
  `Push` allocates. The model is the
  class `Vectors.Vector` whose one field `vs: Option<seq<T>>` is that pointer
  (`None` is nil). `Collect()` gives the elements. `Len()` is `|Collect()|`.
  Every modelled operation except `Push` dereferences the pointer without a
  check, so each of them requires `HasStore()`. The mutators (`Push`, `Pop`, `Clear`,
  `Set`, `Insert`, `Delete`, `Remove`, `Swap`, `Reverse`) reassign `vs` and
  state the whole new contents in terms of the old. `Insert` and `Delete` go
  through Go's built-in `copy`, modelled by `CopyInto`. The traversal helpers are
  loops proved against reference functions (`Filtered`, `FoldLeft`,
  `FoldIndexed`, `RemoveFirst`, `Reversed`, and the predicates `FirstMatch` and
  `LastMatch`). Lemmas give those functions their meaning.
- `set.Set[T]` (set/set.go), a `map[T]struct{}`. The model is the class
  `Sets.Set` over `elements: set<T>`. `Contains(t)` is `t in elements` and
  `Len()` is `|elements|`. `Add`, `Remove` and `Clear` change the set in
  place. The set algebra ranges over the operands and fills a fresh set. Each
  `range` loop picks its next key with `:|`, because Go leaves the order
  unspecified.

Go's `(T, bool)` results are `Option<T>` (`Some(t)` for `(t, true)`, `None`
for `(zero, false)`). `FindIndex` and `FindLastIndex` keep their `(int, bool)`
pair, and it is `(0, false)` on a miss. Dafny has no zero value for a type
parameter, so `Reduce` and `ReduceIndex` take the seed `zero` as an explicit
argument.

Edge-case policies are kept as the code has them:

- `Insert(i, t)` accepts only `0 <= i < Len()`, so it cannot append.
- `Slice(i, j)` puts `j` through the single-index test, so `j == Len()` gives nil.
- `Filter` and `Map` fill a zero `Vector`. When nothing is pushed, the result's
  pointer stays nil, and a later `Len()` on it would dereference nil.
- The tests call `vector.New(&v)`. That is the signature of `From`, so they are
  read as tests of `From`.

The modules `VectorScenarios` and `SetScenarios` are client methods. They prove
what the package tests check, and the laws that tie the set operations
together.

## Model

| member | source | states |
|---|---|---|
| `Vectors.CopyInto` | vector/vector.go:82 | Go's `copy(dst[at:], src)`: the length is unchanged, the prefix before `at` is untouched, the next min(len(dst)-at, len(src)) slots hold `src`, and the rest of `dst` is untouched |
| `Vectors.Reversed` | vector/vector.go:130-134 | the reference reversal keeps the length |
| `Vectors.ReversedAt` | vector/vector.go:130-134 | position k of the reversal holds position len-1-k of the input |
| `Vectors.ReversedTwice` | vector/vector.go:130-134 | reversing twice gives back the original sequence |
| `Vectors.Filtered` | vector/vector.go:151-159 | the reference filter is never longer than its input |
| `Vectors.FilteredConcat` | vector/vector.go:151-159 | filtering a concatenation filters each part and keeps their order, so matching elements stay in their original order |
| `Vectors.FilteredCount` | vector/vector.go:151-159 | every matching element is kept exactly as often as it occurs, and every other element is dropped |
| `Vectors.FoldLeftConcat` | vector/vector.go:171-177 | a left fold over `a + b` folds `b` starting from the result for `a` |
| `Vectors.FoldIndexedConcat` | vector/vector.go:180-186 | the indexed fold over `a + b` folds `b`, with indices shifted by len(a), starting from the result for `a` |
| `Vectors.RemoveFirstAt` | vector/vector.go:98-109 | when `i` is the first index holding `t`, removing the first `t` deletes index `i` |
| `Vectors.RemoveFirstMultiset` | vector/vector.go:98-109 | removing the first `t` takes exactly one `t` out of the multiset of elements, and changes nothing when `t` is absent |
| `Vectors.Vector.New` | vector/vector.go:8-10 | a new vector has a nil backing pointer |
| `Vectors.Vector.From` | vector/vector.go:12-14 | the vector wraps the given, possibly nil, slice |
| `Vectors.Vector.Collect` | vector/vector.go:238-240 | on an allocated store, returns the elements, in order, as a value: exactly the slice the pointer refers to |
| `Vectors.Vector.Prototype` | vector/vector.go:233-235 | on an allocated store, returns the same elements as `Collect`, as a value |
| `Vectors.Vector.Len` | vector/vector.go:44-46 | on an allocated store, the number of elements, never negative |
| `Vectors.Vector.IsEmpty` | vector/vector.go:39-41 | true exactly when there are no elements |
| `Vectors.Vector.Push` | vector/vector.go:19-24 | allocates the store when it is nil, then the contents become the old contents plus `t` |
| `Vectors.Vector.Pop` | vector/vector.go:28-36 | fails and changes nothing exactly on an empty vector; otherwise the old contents are the new contents plus the returned element |
| `Vectors.Vector.Clear` | vector/vector.go:49-51 | the contents become empty and the store stays allocated |
| `Vectors.Vector.At` | vector/vector.go:56-63 | succeeds exactly when `0 <= i < Len()`, and then returns element `i` |
| `Vectors.Vector.Set` | vector/vector.go:68-74 | succeeds exactly when `0 <= i < Len()`; the length is kept, index `i` holds `t` on success, and every other index is unchanged |
| `Vectors.Vector.Insert` | vector/vector.go:77-85 | succeeds exactly when `0 <= i < Len()`, so `i == Len()` is rejected; on success the contents are `old[..i] + [t] + old[i..]`, otherwise unchanged |
| `Vectors.Vector.Delete` | vector/vector.go:88-95 | succeeds exactly when `0 <= i < Len()`; on success the contents are `old[..i] + old[i+1..]`, otherwise unchanged |
| `Vectors.Vector.Remove` | vector/vector.go:98-109 | succeeds exactly when `t` occurs; the contents lose the first `t` only |
| `Vectors.Vector.Swap` | vector/vector.go:112-118 | succeeds exactly when both indices are in range; exchanges exactly those two positions, keeps the rest and the multiset of elements, and changes nothing on failure |
| `Vectors.Vector.Slice` | vector/vector.go:121-127 | nil unless both `i` and `j` pass the single-index test (so `j == Len()` gives nil); otherwise a new vector holding `old[i..j]` |
| `Vectors.Vector.Reverse` | vector/vector.go:130-134 | the contents become the reversal of the old contents |
| `Vectors.Vector.Filter` | vector/vector.go:151-159 | a new vector holding the matching elements in order, with a nil pointer when nothing matches |
| `Vectors.Vector.Map` | vector/vector.go:162-168 | a new vector of the same length with `f` applied at every index, and a nil pointer when the vector is empty |
| `Vectors.Vector.Reduce` | vector/vector.go:171-177 | the left fold of `f` over the elements, starting from the zero seed |
| `Vectors.Vector.ReduceIndex` | vector/vector.go:180-186 | the left fold of `f` over (index, element) pairs, starting from the zero seed |
| `Vectors.Vector.Find` | vector/vector.go:189-198 | none exactly when no element matches; otherwise the element at the first matching index |
| `Vectors.Vector.FindIndex` | vector/vector.go:201-208 | the smallest matching index, or `(0, false)` when nothing matches |
| `Vectors.Vector.FindLast` | vector/vector.go:211-220 | none exactly when no element matches; otherwise the element at the last matching index |
| `Vectors.Vector.FindLastIndex` | vector/vector.go:223-230 | the largest matching index, or `(0, false)` when nothing matches |
| `VectorScenarios.PushPopRoundTrip` | vector/vector.go:19-36 | for any vector, `Push(t)` then `Pop()` returns `t` and restores the previous elements |
| `VectorScenarios.PushScenario` | vector/vector_test.go:9-19 | pushing 4 onto `[1,2,3]` gives length 4, with 4 at index 3 |
| `VectorScenarios.NilPushScenario` | vector/vector_test.go:125-134 | a vector with a nil backing pointer accepts a push: length 1, element 1 |
| `VectorScenarios.PopScenario` | vector/vector_test.go:21-34 | popping `[1,2,3]` gives 3 and leaves length 2 |
| `VectorScenarios.DeleteScenario` | vector/vector_test.go:36-46 | deleting index 1 of `[1,2,3]` gives `[1,3]` |
| `VectorScenarios.ClearScenario` | vector/vector_test.go:48-58 | `[1,2,3]` is not empty, and is empty after `Clear` |
| `VectorScenarios.RemoveScenario` | vector/vector_test.go:68-78 | removing 2 from `[1,2,3]` succeeds and gives `[1,3]` |
| `VectorScenarios.ReduceScenario` | vector/vector_test.go:92-101 | summing `[1,2,3]` from 0 gives 6 |
| `VectorScenarios.MapScenario` | vector/vector_test.go:103-112 | adding one to every element of `[1,2,3]` gives `[2,3,4]` |
| `VectorScenarios.FilterScenario` | vector/vector_test.go:114-123 | keeping the elements above 1 of `[1,2,3]` gives `[2,3]` |
| `VectorScenarios.FilterNoMatchScenario` | vector/vector.go:151-159 | a filter that matches nothing returns a vector whose pointer is still nil |
| `VectorScenarios.BoundsScenario` | vector/vector.go:77-127 | on `[1,2,3]`, `Slice(0,2)` is `[1,2]` but `Slice(0,3)` is nil, and `Insert(3, _)` fails |
| `Sets.Set.New` | set/set.go:11-13 | a new set is empty |
| `Sets.Set.From` | set/set.go:16-22 | the new set holds exactly the elements of the slice |
| `Sets.Set.Contains` | set/set.go:35-38 | true exactly when `t` is a key of the map |
| `Sets.Set.Len` | set/set.go:41-43 | the number of distinct elements |
| `Sets.Set.Add` | set/set.go:25-27 | the elements become old ∪ {t}, so `t` is a member and nothing else changes |
| `Sets.Set.Remove` | set/set.go:30-32 | the elements become old \ {t}, so `t` is not a member, nothing else changes, and an absent `t` changes nothing |
| `Sets.Set.Clear` | set/set.go:46-50 | the set is emptied in place: `Len() == 0` and no element is a member |
| `Sets.Set.ToSlice` | set/set.go:53-59 | lists every element exactly once, with no duplicates, so the length is `Len()` |
| `Sets.Set.Union` | set/set.go:62-71 | a fresh set equal to s ∪ s2; neither operand changes |
| `Sets.Set.Intersection` | set/set.go:74-82 | a fresh set equal to s ∩ s2; neither operand changes |
| `Sets.Set.Difference` | set/set.go:85-93 | a fresh set equal to s \ s2; neither operand changes |
| `Sets.Set.SymmetricDifference` | set/set.go:96-109 | a fresh set equal to (s \ s2) ∪ (s2 \ s); neither operand changes |
| `Sets.Set.IsSubset` | set/set.go:112-119 | true exactly when every element of s is in s2, which holds vacuously for an empty s |
| `Sets.Set.IsSuperset` | set/set.go:122-124 | true exactly when every element of s2 is in s |
| `Sets.Set.IsDisjoint` | set/set.go:127-134 | true exactly when s and s2 share no element |
| `Sets.Set.Equal` | set/set.go:137-139 | true exactly when both sets have the same elements |
| `Sets.Set.Clone` | set/set.go:142-148 | a fresh set with the same elements |
| `SetScenarios.UnionIsSuperset` | set/set.go:62-71 | a union is a superset of each operand |
| `SetScenarios.IntersectionIsSubset` | set/set.go:74-82 | an intersection is a subset of each operand |
| `SetScenarios.DifferenceIsDisjoint` | set/set.go:85-93 | s minus s2 is disjoint from s2 |
| `SetScenarios.SymmetricDifferenceIsUnionMinusIntersection` | set/set.go:96-109 | the symmetric difference equals the union minus the intersection |
| `SetScenarios.CloneIsIndependent` | set/set.go:142-148 | a clone equals its original, and removing an element from the clone leaves the original holding it |
| `SetScenarios.AddIsIdempotent` | set/set_test.go:7-13 | adding the same element twice leaves one member, the same as adding it once |
| `SetScenarios.RemoveScenario` | set/set_test.go:76-83 | removing an absent element changes nothing; removing 1 from `{1,2}` keeps 2 only |
| `SetScenarios.ClearScenario` | set/set_test.go:15-22 | after `Clear`, 1 is no longer a member and the length is 0 |
| `SetScenarios.DifferenceScenario` | set/set_test.go:35-65 | `{1,2}` minus `{2,3}` is `{1}`, and their intersection is `{2}` |
| `SetScenarios.SymmetricDifferenceScenario` | set/set_test.go:85-134 | the symmetric difference of `{1,2}` and `{2,3}` is `{1,3}`, their union has 3 elements, and `{1,2}` gives a 2-element slice |
| `SetScenarios.EqualScenario` | set/set_test.go:136-169 | `{1,2}` equals `{2,1}` and differs from `{2,3}` and from `{2}` |

## Left out

- `MarshalJSON` and `UnmarshalJSON` (vector/vector.go:243-255) are left out. They only delegate to `encoding/json`, which is not part of this model.
- `String` on both types is left out. It is `fmt` formatting only.
- `Foreach` and `ForeachIndex` are left out. Their only effect is what the caller's closure does.
- Closures passed to `Filter`, `Map`, `Reduce`, `ReduceIndex` and the `Find` family are total Dafny functions. A Go closure's side effects are not modelled.
- Aliasing is not modelled. In Go, `From(&v)` shares the caller's slice variable, `Slice` returns a view over the parent's backing array, and `Collect`/`Prototype` return the live slice. The model holds a value `seq<T>`. So a mutation through one handle is not seen through another, and `Collect`/`Prototype` return a copy. Whether `append` reallocates is not modelled either.
- `Vectors.Vector.Slice` requires `i <= j` when both indices are in range. With `i > j`, the Go slice expression panics, so a caller must not do this.
- A nil backing pointer is modelled only for `Push`, which allocates it. Every other vector operation requires an allocated store, because the Go code dereferences it and panics.
- A nil `Set` map (a zero `Set` not built by `New`) is not modelled. On it, `Add` would panic.
- `Vectors.Vector.Remove` uses `T(==)` equality. The Go code compares through `any`, which panics at run time for element types that cannot be compared. The model does not include that panic.
- `Vectors.Vector` carries the `T(==)` bound on the whole class, so vectors over element types without equality (function types, say) are not modelled. Go's `Vector[T any]` accepts any `T`, and only `Remove` needs comparable elements.
- Go's `int` is modelled as an unbounded `int`. Indices and lengths never come close to its limits.
