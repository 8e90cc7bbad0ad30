/** Model of package vector (vector/vector.go): a growable sequence that lives
    behind a possibly-nil pointer to a Go slice, with index-checked access,
    in-place editing and functional traversal helpers. */
module Vectors {

  /** Go's `(T, bool)` result pairs: `Some(t)` stands for `(t, true)` and
      `None` for `(zero value, false)`. */
  datatype Option<T> = None | Some(value: T)

  // ---------------------------------------------------------------------------
  // Go's built-in copy
  // ---------------------------------------------------------------------------

  /** The slice `dst` after Go's `copy(dst[at:], src)`: the first
      min(len(dst) - at, len(src)) elements of `src` overwrite `dst` from `at`
      on, and the rest of `dst` is untouched. When `src` overlaps `dst` the
      built-in behaves as if `src` were read before anything is written,
      which is what taking `src` as a value gives. */
  function CopyInto<T>(dst: seq<T>, at: nat, src: seq<T>): (r: seq<T>)
    requires at <= |dst|
    ensures |r| == |dst|
    ensures r[..at] == dst[..at]
    ensures forall k :: at <= k < |dst| && k - at < |src| ==> r[k] == src[k - at]
    ensures forall k :: at + |src| <= k < |dst| ==> r[k] == dst[k]
  {
    var n := if |dst| - at < |src| then |dst| - at else |src|;
    dst[..at] + src[..n] + dst[at + n..]
  }

  // ---------------------------------------------------------------------------
  // Reference definitions on sequences
  // ---------------------------------------------------------------------------

  /** The sequence read back to front. */
  function Reversed<T>(s: seq<T>): (r: seq<T>)
    ensures |r| == |s|
  {
    if s == [] then [] else [s[|s| - 1]] + Reversed(s[..|s| - 1])
  }

  /** Position k of the reversal holds position |s| - 1 - k of the original. */
  lemma {:induction false} ReversedAt<T>(s: seq<T>, k: int)
    requires 0 <= k < |s|
    ensures Reversed(s)[k] == s[|s| - 1 - k]
  {
    if k > 0 {
      ReversedAt(s[..|s| - 1], k - 1);
    }
  }

  /** Reversing twice gives back the original sequence. */
  lemma ReversedTwice<T>(s: seq<T>)
    ensures Reversed(Reversed(s)) == s
  {
    forall k | 0 <= k < |s|
      ensures Reversed(Reversed(s))[k] == s[k]
    {
      ReversedAt(Reversed(s), k);
      ReversedAt(s, |s| - 1 - k);
    }
  }

  /** The elements of `s` satisfying `f`, in their original order. */
  function Filtered<T>(f: T -> bool, s: seq<T>): (r: seq<T>)
    ensures |r| <= |s|
  {
    if s == [] then [] else (if f(s[0]) then [s[0]] else []) + Filtered(f, s[1..])
  }

  /** Filtering distributes over concatenation: the kept elements of a prefix
      come before those of the suffix. */
  lemma {:induction false} FilteredConcat<T>(f: T -> bool, a: seq<T>, b: seq<T>)
    ensures Filtered(f, a + b) == Filtered(f, a) + Filtered(f, b)
  {
    if a == [] {
      assert a + b == b;
    } else {
      var head := if f(a[0]) then [a[0]] else [];
      calc {
        Filtered(f, a + b);
        head + Filtered(f, (a + b)[1..]);
        { assert (a + b)[1..] == a[1..] + b; }
        head + Filtered(f, a[1..] + b);
        { FilteredConcat(f, a[1..], b); }
        head + (Filtered(f, a[1..]) + Filtered(f, b));
        (head + Filtered(f, a[1..])) + Filtered(f, b);
        Filtered(f, a) + Filtered(f, b);
      }
    }
  }

  /** Filtering keeps every matching element exactly as often as it occurs in
      `s` and drops every other element. */
  lemma {:induction false} FilteredCount<T>(f: T -> bool, s: seq<T>, x: T)
    ensures multiset(Filtered(f, s))[x] == if f(x) then multiset(s)[x] else 0
  {
    if s != [] {
      FilteredCount(f, s[1..], x);
      assert s == [s[0]] + s[1..];
    }
  }

  /** Go's left fold `for _, item := range s { acc = f(acc, item) }`. */
  function FoldLeft<T>(f: (T, T) -> T, acc: T, s: seq<T>): (r: T)
  {
    if s == [] then acc else FoldLeft(f, f(acc, s[0]), s[1..])
  }

  /** Folding a concatenation folds the suffix from the prefix's result. */
  lemma {:induction false} FoldLeftConcat<T>(f: (T, T) -> T, acc: T, a: seq<T>, b: seq<T>)
    ensures FoldLeft(f, acc, a + b) == FoldLeft(f, FoldLeft(f, acc, a), b)
  {
    if a == [] {
      assert a + b == b;
    } else {
      assert (a + b)[1..] == a[1..] + b;
      FoldLeftConcat(f, f(acc, a[0]), a[1..], b);
    }
  }

  /** Go's indexed left fold: element s[k] is combined with index `base + k`. */
  function FoldIndexed<T>(f: (int, T, T) -> T, acc: T, s: seq<T>, base: int): (r: T)
  {
    if s == [] then acc else FoldIndexed(f, f(base, acc, s[0]), s[1..], base + 1)
  }

  /** Folding a concatenation folds the suffix, with its indices shifted by the
      prefix's length, from the prefix's result. */
  lemma {:induction false} FoldIndexedConcat<T>(f: (int, T, T) -> T, acc: T, a: seq<T>, b: seq<T>, base: int)
    ensures FoldIndexed(f, acc, a + b, base) == FoldIndexed(f, FoldIndexed(f, acc, a, base), b, base + |a|)
  {
    if a == [] {
      assert a + b == b;
    } else {
      assert (a + b)[1..] == a[1..] + b;
      FoldIndexedConcat(f, f(base, acc, a[0]), a[1..], b, base + 1);
    }
  }

  /** `s` without its first occurrence of `t` (unchanged when `t` is absent). */
  function RemoveFirst<T(==)>(s: seq<T>, t: T): (r: seq<T>)
  {
    if s == [] then [] else if s[0] == t then s[1..] else [s[0]] + RemoveFirst(s[1..], t)
  }

  /** When `i` is the first position holding `t`, removing the first `t` is
      deleting position `i`. */
  lemma {:induction false} RemoveFirstAt<T>(s: seq<T>, t: T, i: int)
    requires 0 <= i < |s| && s[i] == t && t !in s[..i]
    ensures RemoveFirst(s, t) == s[..i] + s[i + 1..]
  {
    if i > 0 {
      assert s[0] in s[..i];
      assert s[1..][..i - 1] == s[1..i];
      assert t !in s[1..][..i - 1];
      RemoveFirstAt(s[1..], t, i - 1);
      assert s[..i] == [s[0]] + s[1..][..i - 1];
    }
  }

  /** Removing the first `t` takes exactly one `t` out of the multiset of
      elements, and leaves the sequence alone when there is none. */
  lemma {:induction false} RemoveFirstMultiset<T>(s: seq<T>, t: T)
    ensures multiset(RemoveFirst(s, t)) == multiset(s) - multiset{t}
    ensures t !in s ==> RemoveFirst(s, t) == s
  {
    if s != [] {
      RemoveFirstMultiset(s[1..], t);
      assert s == [s[0]] + s[1..];
    }
  }

  /** `i` is the first index of `s` whose element satisfies `f`. */
  ghost predicate FirstMatch<T>(f: T -> bool, s: seq<T>, i: int)
  {
    0 <= i < |s| && f(s[i]) && forall k :: 0 <= k < i ==> !f(s[k])
  }

  /** `i` is the last index of `s` whose element satisfies `f`. */
  ghost predicate LastMatch<T>(f: T -> bool, s: seq<T>, i: int)
  {
    0 <= i < |s| && f(s[i]) && forall k :: i < k < |s| ==> !f(s[k])
  }

  /** The backing pointer of a zero Vector after the elements of `s` have been
      pushed one by one: still nil when nothing was pushed. */
  function Backing<T>(s: seq<T>): (r: Option<seq<T>>)
    ensures r.None? <==> s == []
    ensures r.Some? ==> r.value == s
  {
    if s == [] then None else Some(s)
  }

  // ---------------------------------------------------------------------------
  // The Vector
  // ---------------------------------------------------------------------------

  /** `Vector[T]`: its only state is `vs`, the pointer to the backing slice;
      `None` is the nil pointer that `New` leaves behind. Only `Remove` compares
      elements, but the equality bound sits on the whole class. */
  class Vector<T(==)> {
    var vs: Option<seq<T>>

    /** `New()`: a vector with a nil backing pointer. */
    constructor New()
      ensures vs == None
    {
      vs := None;
    }

    /** `From(ts)`: a vector over the given (possibly nil) slice. */
    constructor From(ts: Option<seq<T>>)
      ensures vs == ts
    {
      vs := ts;
    }

    /** The backing slice is allocated; every operation but `Push` dereferences
        it unguarded. */
    predicate HasStore()
      reads this
    {
      vs.Some?
    }

    /** `Collect()` (and its synonym `Prototype()`): the elements, in order. */
    function Collect(): (s: seq<T>)
      reads this
      requires HasStore()
      ensures vs == Some(s)
    {
      vs.value
    }

    /** `Prototype()`: the same slice as `Collect()`. */
    function Prototype(): (s: seq<T>)
      reads this
      requires HasStore()
      ensures vs == Some(s)
    {
      Collect()
    }

    /** `Len()`: the number of elements. */
    function Len(): (n: int)
      reads this
      requires HasStore()
      ensures 0 <= n && n == |vs.value|
    {
      |Collect()|
    }

    /** `IsEmpty()`. */
    function IsEmpty(): (r: bool)
      reads this
      requires HasStore()
      ensures r <==> Collect() == []
    {
      Len() == 0
    }

    /** `Push(t)`: allocates the backing slice when it is nil, then appends. */
    method Push(t: T)
      modifies this
      ensures HasStore()
      ensures old(vs).None? ==> Collect() == [t]
      ensures old(vs).Some? ==> Collect() == old(vs).value + [t]
    {
      if vs.None? {
        vs := Some([]);
      }
      vs := Some(vs.value + [t]);
    }

    /** `Pop()`: takes off the last element, the inverse of `Push`. */
    method Pop() returns (r: Option<T>)
      requires HasStore()
      modifies this
      ensures HasStore()
      ensures r.None? <==> old(Collect()) == []
      ensures r.None? ==> Collect() == old(Collect())
      ensures r.Some? ==> old(Collect()) == Collect() + [r.value]
    {
      if Len() == 0 {
        return None;
      }
      r := Some(vs.value[Len() - 1]);
      vs := Some(vs.value[..Len() - 1]);
    }

    /** `Clear()`: truncates the backing slice to length zero. */
    method Clear()
      requires HasStore()
      modifies this
      ensures HasStore() && Collect() == []
    {
      vs := Some(vs.value[..0]);
    }

    /** `At(i)`: the element at `i`, or nothing when `i` is out of range. */
    function At(i: int): (r: Option<T>)
      reads this
      requires HasStore()
      ensures r.Some? <==> 0 <= i < |Collect()|
      ensures r.Some? ==> r.value == Collect()[i]
    {
      if i < 0 || i >= Len() then None else Some(vs.value[i])
    }

    /** `Set(i, t)`: overwrites position `i` when it is in range. */
    method Set(i: int, t: T) returns (ok: bool)
      requires HasStore()
      modifies this
      ensures HasStore()
      ensures ok <==> 0 <= i < |old(Collect())|
      ensures |Collect()| == |old(Collect())|
      ensures ok ==> Collect()[i] == t
      ensures forall k :: 0 <= k < |Collect()| && k != i ==> Collect()[k] == old(Collect())[k]
    {
      if i < 0 || i >= Len() {
        return false;
      }
      vs := Some(vs.value[i := t]);
      return true;
    }

    /** `Insert(i, t)`: appends `t`, shifts the tail from `i` one place right
        with `copy`, then stores `t` at `i`. Only an `i` that already indexes an
        element is accepted, so `i == Len()` (an append) is rejected. */
    method Insert(i: int, t: T) returns (ok: bool)
      requires HasStore()
      modifies this
      ensures HasStore()
      ensures ok <==> 0 <= i < |old(Collect())|
      ensures ok ==> Collect() == old(Collect())[..i] + [t] + old(Collect())[i..]
      ensures !ok ==> Collect() == old(Collect())
    {
      if i < 0 || i >= Len() {
        return false;
      }
      ghost var s0 := vs.value;
      vs := Some(vs.value + [t]);
      vs := Some(CopyInto(vs.value, i + 1, vs.value[i..]));
      vs := Some(vs.value[i := t]);
      assert Collect() == s0[..i] + [t] + s0[i..] by {
        forall k | 0 <= k < |Collect()|
          ensures Collect()[k] == (s0[..i] + [t] + s0[i..])[k]
        {
          if k < i {
            assert Collect()[k] == s0[k];
          }
        }
      }
      return true;
    }

    /** `Delete(i)`: shifts the tail after `i` one place left with `copy`, then
        drops the last slot. */
    method Delete(i: int) returns (ok: bool)
      requires HasStore()
      modifies this
      ensures HasStore()
      ensures ok <==> 0 <= i < |old(Collect())|
      ensures ok ==> Collect() == old(Collect())[..i] + old(Collect())[i + 1..]
      ensures !ok ==> Collect() == old(Collect())
    {
      if i < 0 || i >= Len() {
        return false;
      }
      ghost var s0 := vs.value;
      vs := Some(CopyInto(vs.value, i, vs.value[i + 1..]));
      vs := Some(vs.value[..Len() - 1]);
      assert Collect() == s0[..i] + s0[i + 1..] by {
        forall k | 0 <= k < |Collect()|
          ensures Collect()[k] == (s0[..i] + s0[i + 1..])[k]
        {
          if k < i {
            assert Collect()[k] == CopyInto(s0, i, s0[i + 1..])[..i][k];
          }
        }
      }
      return true;
    }

    /** `Remove(t)`: deletes the first element equal to `t`, if any. */
    method Remove(t: T) returns (ok: bool)
      requires HasStore()
      modifies this
      ensures HasStore()
      ensures ok <==> t in old(Collect())
      ensures Collect() == RemoveFirst(old(Collect()), t)
    {
      var items := vs.value;
      for i := 0 to |items|
        invariant vs == old(vs)
        invariant t !in items[..i]
      {
        if items[i] == t {
          var _ := Delete(i);
          RemoveFirstAt(items, t, i);
          return true;
        }
        assert items[..i + 1] == items[..i] + [items[i]];
      }
      assert items[..|items|] == items;
      RemoveFirstMultiset(items, t);
      return false;
    }

    /** `Swap(i, j)`: exchanges two in-range positions. */
    method Swap(i: int, j: int) returns (ok: bool)
      requires HasStore()
      modifies this
      ensures HasStore()
      ensures ok <==> 0 <= i < |old(Collect())| && 0 <= j < |old(Collect())|
      ensures |Collect()| == |old(Collect())|
      ensures ok ==> Collect()[i] == old(Collect())[j] && Collect()[j] == old(Collect())[i]
      ensures forall k :: 0 <= k < |Collect()| && (!ok || (k != i && k != j)) ==> Collect()[k] == old(Collect())[k]
      ensures multiset(Collect()) == multiset(old(Collect()))
    {
      if i < 0 || i >= Len() || j < 0 || j >= Len() {
        return false;
      }
      vs := Some(vs.value[i := vs.value[j]][j := vs.value[i]]);
      return true;
    }

    /** `Slice(i, j)`: a new vector over `[i, j)`. Both bounds get the
        single-index test, so `j == Len()` is rejected; `i > j` with both in
        range makes the Go slice expression panic, hence the precondition. */
    method Slice(i: int, j: int) returns (r: Vector?<T>)
      requires HasStore()
      requires 0 <= i < Len() && 0 <= j < Len() ==> i <= j
      ensures r == null <==> !(0 <= i < |Collect()| && 0 <= j < |Collect()|)
      ensures r != null ==> fresh(r) && r.HasStore() && r.Collect() == Collect()[i..j]
    {
      if i < 0 || i >= Len() || j < 0 || j >= Len() {
        return null;
      }
      var item := vs.value[i..j];
      r := new Vector.From(Some(item));
    }

    /** `Reverse()`: swaps pairs from both ends towards the middle, in place. */
    method Reverse()
      requires HasStore()
      modifies this
      ensures HasStore()
      ensures Collect() == Reversed(old(Collect()))
    {
      ghost var s0 := vs.value;
      var i, j := 0, Len() - 1;
      while i < j
        invariant vs.Some? && |vs.value| == |s0|
        invariant 0 <= i <= j + 1 && j == |s0| - 1 - i
        invariant forall k :: 0 <= k < i ==> vs.value[k] == s0[|s0| - 1 - k] && vs.value[|s0| - 1 - k] == s0[k]
        invariant forall k :: i <= k <= j ==> vs.value[k] == s0[k]
      {
        vs := Some(vs.value[i := vs.value[j]][j := vs.value[i]]);
        i, j := i + 1, j - 1;
      }
      forall k | 0 <= k < |s0|
        ensures Collect()[k] == Reversed(s0)[k]
      {
        ReversedAt(s0, k);
      }
    }

    /** `Filter(f)`: pushes the matching elements, in order, into a zero
        vector, whose backing pointer stays nil when nothing matches. */
    method Filter(f: T -> bool) returns (r: Vector<T>)
      requires HasStore()
      ensures fresh(r)
      ensures r.vs == Backing(Filtered(f, Collect()))
    {
      r := new Vector.New();
      var items := vs.value;
      for k := 0 to |items|
        invariant r.vs == Backing(Filtered(f, items[..k]))
      {
        FilteredConcat(f, items[..k], [items[k]]);
        assert items[..k + 1] == items[..k] + [items[k]];
        assert Filtered(f, [items[k]]) == if f(items[k]) then [items[k]] else [];
        if f(items[k]) {
          if r.vs.None? {
            assert Filtered(f, items[..k]) + [items[k]] == [items[k]];
          }
          r.Push(items[k]);
        } else {
          assert Filtered(f, items[..k]) + [] == Filtered(f, items[..k]);
        }
      }
      assert items[..|items|] == items;
    }

    /** `Map(f)`: pushes `f` of each element, in order, into a zero vector,
        whose backing pointer stays nil when the vector is empty. */
    method Map(f: T -> T) returns (r: Vector<T>)
      requires HasStore()
      ensures fresh(r)
      ensures r.vs.None? <==> Collect() == []
      ensures r.vs.Some? ==> |r.vs.value| == |Collect()|
      ensures r.vs.Some? ==> forall k :: 0 <= k < |Collect()| ==> r.vs.value[k] == f(Collect()[k])
    {
      r := new Vector.New();
      var items := vs.value;
      for k := 0 to |items|
        invariant r.vs.None? <==> k == 0
        invariant r.vs.Some? ==> |r.vs.value| == k
        invariant r.vs.Some? ==> forall n :: 0 <= n < k ==> r.vs.value[n] == f(items[n])
      {
        r.Push(f(items[k]));
      }
    }

    /** `Reduce(f)`: a left fold over the elements from `zero`, which stands
        for Go's zero value of T. */
    method Reduce(f: (T, T) -> T, zero: T) returns (t: T)
      requires HasStore()
      ensures t == FoldLeft(f, zero, Collect())
    {
      t := zero;
      var items := vs.value;
      for i := 0 to |items|
        invariant FoldLeft(f, t, items[i..]) == FoldLeft(f, zero, items)
      {
        assert items[i..][1..] == items[i + 1..];
        t := f(t, items[i]);
      }
    }

    /** `ReduceIndex(f)`: a left fold that also hands `f` each element's
        index, from `zero`, which stands for Go's zero value of T. */
    method ReduceIndex(f: (int, T, T) -> T, zero: T) returns (t: T)
      requires HasStore()
      ensures t == FoldIndexed(f, zero, Collect(), 0)
    {
      t := zero;
      var items := vs.value;
      for i := 0 to |items|
        invariant FoldIndexed(f, t, items[i..], i) == FoldIndexed(f, zero, items, 0)
      {
        assert items[i..][1..] == items[i + 1..];
        t := f(i, t, items[i]);
      }
    }

    /** `Find(f)`: the first element satisfying `f`. */
    method Find(f: T -> bool) returns (r: Option<T>)
      requires HasStore()
      ensures r.None? <==> forall k :: 0 <= k < |Collect()| ==> !f(Collect()[k])
      ensures r.Some? ==> exists i :: FirstMatch(f, Collect(), i) && Collect()[i] == r.value
    {
      var items := vs.value;
      for i := 0 to |items|
        invariant forall k :: 0 <= k < i ==> !f(items[k])
      {
        if f(items[i]) {
          assert Collect()[i] == items[i] && FirstMatch(f, Collect(), i);
          return Some(items[i]);
        }
      }
      return None;
    }

    /** `FindIndex(f)`: the smallest index satisfying `f`, or `(0, false)`. */
    method FindIndex(f: T -> bool) returns (i: int, found: bool)
      requires HasStore()
      ensures found ==> FirstMatch(f, Collect(), i)
      ensures !found ==> i == 0 && forall k :: 0 <= k < |Collect()| ==> !f(Collect()[k])
    {
      var items := vs.value;
      for n := 0 to |items|
        invariant forall k :: 0 <= k < n ==> !f(items[k])
      {
        if f(items[n]) {
          return n, true;
        }
      }
      return 0, false;
    }

    /** `FindLast(f)`: the last element satisfying `f`, scanning backwards. */
    method FindLast(f: T -> bool) returns (r: Option<T>)
      requires HasStore()
      ensures r.None? <==> forall k :: 0 <= k < |Collect()| ==> !f(Collect()[k])
      ensures r.Some? ==> exists i :: LastMatch(f, Collect(), i) && Collect()[i] == r.value
    {
      var i := Len() - 1;
      while i >= 0
        invariant -1 <= i < Len()
        invariant forall k :: i < k < Len() ==> !f(Collect()[k])
      {
        if f(vs.value[i]) {
          assert LastMatch(f, Collect(), i);
          return Some(vs.value[i]);
        }
        i := i - 1;
      }
      return None;
    }

    /** `FindLastIndex(f)`: the largest index satisfying `f`, or `(0, false)`. */
    method FindLastIndex(f: T -> bool) returns (i: int, found: bool)
      requires HasStore()
      ensures found ==> LastMatch(f, Collect(), i)
      ensures !found ==> i == 0 && forall k :: 0 <= k < |Collect()| ==> !f(Collect()[k])
    {
      i := Len() - 1;
      while i >= 0
        invariant -1 <= i < Len()
        invariant forall k :: i < k < Len() ==> !f(Collect()[k])
      {
        if f(vs.value[i]) {
          return i, true;
        }
        i := i - 1;
      }
      return 0, false;
    }
  }
}
