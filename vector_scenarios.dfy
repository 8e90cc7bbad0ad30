/** Clients of the Vector model that restate, as proved postconditions, what the
    package's tests (vector/vector_test.go) check on `[1, 2, 3]`, together with
    the push/pop round trip for any vector. */
module VectorScenarios {
  import opened Vectors

  /** Pushing onto any vector and popping again returns the pushed element and
      leaves the elements that were there before (none for a nil backing). */
  method PushPopRoundTrip<T(==)>(v: Vector<T>, t: T) returns (r: Option<T>)
    modifies v
    ensures r == Some(t)
    ensures v.HasStore()
    ensures old(v.vs).None? ==> v.Collect() == []
    ensures old(v.vs).Some? ==> v.Collect() == old(v.vs).value
  {
    v.Push(t);
    ghost var pushed := v.Collect();
    r := v.Pop();
    assert pushed[|pushed| - 1] == (v.Collect() + [r.value])[|pushed| - 1];
    assert v.Collect() == pushed[..|pushed| - 1];
  }

  /** A vector over `[1, 2, 3]` that pushes 4 has length 4 and ends in 4. */
  method PushScenario() returns (n: int, last: Option<int>)
    ensures n == 4 && last == Some(4)
  {
    var v := new Vector<int>.From(Some([1, 2, 3]));
    v.Push(4);
    n := v.Len();
    last := v.At(3);
  }

  /** A vector created nil accepts a push: length 1, element 0 is 1. */
  method NilPushScenario() returns (n: int, first: Option<int>)
    ensures n == 1 && first == Some(1)
  {
    var v := new Vector<int>.From(None);
    v.Push(1);
    n := v.Len();
    first := v.At(0);
  }

  /** Popping `[1, 2, 3]` gives 3 and leaves two elements. */
  method PopScenario() returns (top: Option<int>, n: int)
    ensures top == Some(3) && n == 2
  {
    var v := new Vector<int>.From(Some([1, 2, 3]));
    top := v.Pop();
    assert [1, 2, 3][2] == (v.Collect() + [top.value])[2];
    n := v.Len();
  }

  /** Deleting index 1 of `[1, 2, 3]` gives `[1, 3]`. */
  method DeleteScenario() returns (s: seq<int>)
    ensures s == [1, 3]
  {
    var v := new Vector<int>.From(Some([1, 2, 3]));
    var _ := v.Delete(1);
    s := v.Collect();
  }

  /** `[1, 2, 3]` is not empty, and is empty once cleared. */
  method ClearScenario() returns (before: bool, after: bool)
    ensures !before && after
  {
    var v := new Vector<int>.From(Some([1, 2, 3]));
    before := v.IsEmpty();
    v.Clear();
    after := v.IsEmpty();
  }

  /** Removing the value 2 from `[1, 2, 3]` gives `[1, 3]`. */
  method RemoveScenario() returns (ok: bool, s: seq<int>)
    ensures ok && s == [1, 3]
  {
    var v := new Vector<int>.From(Some([1, 2, 3]));
    ok := v.Remove(2);
    s := v.Collect();
  }

  /** Summing `[1, 2, 3]` from Go's zero value gives 6. */
  method ReduceScenario() returns (sum: int)
    ensures sum == 6
  {
    var v := new Vector<int>.From(Some([1, 2, 3]));
    sum := v.Reduce((a, b) => a + b, 0);
  }

  /** Adding one to every element of `[1, 2, 3]` gives `[2, 3, 4]`. */
  method MapScenario() returns (first: Option<int>, s: seq<int>)
    ensures first == Some(2) && s == [2, 3, 4]
  {
    var v := new Vector<int>.From(Some([1, 2, 3]));
    var w := v.Map(x => x + 1);
    first := w.At(0);
    s := w.Collect();
  }

  /** Keeping the elements of `[1, 2, 3]` above 1 gives `[2, 3]`. */
  method FilterScenario() returns (first: Option<int>, s: seq<int>)
    ensures first == Some(2) && s == [2, 3]
  {
    var v := new Vector<int>.From(Some([1, 2, 3]));
    var w := v.Filter(x => x > 1);
    first := w.At(0);
    s := w.Collect();
  }

  /** Keeping the elements of `[1, 2, 3]` above 5 pushes nothing, so the
      result's backing pointer is still nil: its `Len()` would dereference nil. */
  method FilterNoMatchScenario() returns (hasStore: bool)
    ensures !hasStore
  {
    var v := new Vector<int>.From(Some([1, 2, 3]));
    var w := v.Filter(x => x > 5);
    hasStore := w.HasStore();
  }

  /** On `[1, 2, 3]`, `Slice(0, 2)` is `[1, 2]` but `Slice(0, 3)` is nil: the
      end bound gets the single-index test. Likewise `Insert(3, _)` cannot
      append. */
  method BoundsScenario() returns (inner: seq<int>, wholeIsNil: bool, appended: bool)
    ensures inner == [1, 2] && wholeIsNil && !appended
  {
    var v := new Vector<int>.From(Some([1, 2, 3]));
    var a := v.Slice(0, 2);
    inner := a.Collect();
    var b := v.Slice(0, 3);
    wholeIsNil := b == null;
    appended := v.Insert(3, 4);
  }
}
