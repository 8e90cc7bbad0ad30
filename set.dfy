/** Model of package set (set/set.go): a set of comparable elements kept as the
    keys of a Go map, mutated in place by `Add`, `Remove` and `Clear`, with set
    algebra that builds fresh sets by ranging over the operands. */
module Sets {

  /** `Set[T]`, a `map[T]struct{}`: the model keeps the map's key set. Go's map
      iteration order is unspecified, so every `range` loop below picks its
      next key with `:|`. */
  class Set<T(==)> {
    var elements: set<T>

    /** `New()`: an empty set. */
    constructor New()
      ensures elements == {}
    {
      elements := {};
    }

    /** `From(ts)`: a new set holding exactly the elements of the slice. */
    constructor From(ts: seq<T>)
      ensures elements == set t | t in ts
    {
      elements := {};
      new;
      for k := 0 to |ts|
        invariant elements == set t | t in ts[..k]
      {
        assert ts[..k + 1] == ts[..k] + [ts[k]];
        Add(ts[k]);
      }
      assert ts[..|ts|] == ts;
    }

    /** `Contains(t)`. */
    function Contains(t: T): (r: bool)
      reads this
      ensures r <==> t in elements
    {
      t in elements
    }

    /** `Len()`: the number of elements. */
    function Len(): (n: nat)
      reads this
      ensures n == |elements|
    {
      |elements|
    }

    /** `Add(t)`: afterwards `t` is a member and nothing else changed, so
        adding an element twice is the same as adding it once. */
    method Add(t: T)
      modifies this
      ensures elements == old(elements) + {t}
      ensures Contains(t)
    {
      elements := elements + {t};
    }

    /** `Remove(t)`: afterwards `t` is not a member and nothing else changed;
        removing an absent element changes nothing. */
    method Remove(t: T)
      modifies this
      ensures elements == old(elements) - {t}
      ensures !Contains(t)
    {
      elements := elements - {t};
    }

    /** `Clear()`: deletes every key while ranging over the map. */
    method Clear()
      modifies this
      ensures elements == {}
      ensures Len() == 0 && forall x :: !Contains(x)
    {
      var keys := elements;
      while keys != {}
        invariant elements == keys
        decreases keys
      {
        var t :| t in keys;
        Remove(t);
        keys := keys - {t};
      }
    }

    /** `ToSlice()`: every element exactly once, in some order. */
    method ToSlice() returns (ts: seq<T>)
      ensures |ts| == Len()
      ensures forall x :: x in ts <==> Contains(x)
      ensures forall i, j :: 0 <= i < j < |ts| ==> ts[i] != ts[j]
    {
      ts := [];
      var rest := elements;
      while rest != {}
        invariant rest <= elements
        invariant forall x :: x in ts <==> x in elements - rest
        invariant forall i, j :: 0 <= i < j < |ts| ==> ts[i] != ts[j]
        invariant |ts| + |rest| == |elements|
        decreases rest
      {
        var t :| t in rest;
        assert t !in ts;
        ts := ts + [t];
        rest := rest - {t};
      }
    }

    /** `Union(s2)`: a new set with the elements of either operand. */
    method Union(s2: Set<T>) returns (s3: Set<T>)
      ensures fresh(s3)
      ensures s3.elements == elements + s2.elements
    {
      s3 := new Set.New();
      var rest := elements;
      while rest != {}
        invariant rest <= elements
        invariant s3.elements == elements - rest
        decreases rest
      {
        var t :| t in rest;
        s3.Add(t);
        rest := rest - {t};
      }
      rest := s2.elements;
      while rest != {}
        invariant rest <= s2.elements
        invariant s3.elements == elements + (s2.elements - rest)
        decreases rest
      {
        var t :| t in rest;
        s3.Add(t);
        rest := rest - {t};
      }
    }

    /** `Intersection(s2)`: a new set with the elements of both operands. */
    method Intersection(s2: Set<T>) returns (s3: Set<T>)
      ensures fresh(s3)
      ensures s3.elements == elements * s2.elements
    {
      s3 := new Set.New();
      var rest := elements;
      while rest != {}
        invariant rest <= elements
        invariant s3.elements == (elements - rest) * s2.elements
        decreases rest
      {
        var t :| t in rest;
        if s2.Contains(t) {
          s3.Add(t);
        }
        rest := rest - {t};
      }
    }

    /** `Difference(s2)`: a new set with the elements of this set that are not
        in `s2`. */
    method Difference(s2: Set<T>) returns (s3: Set<T>)
      ensures fresh(s3)
      ensures s3.elements == elements - s2.elements
    {
      s3 := new Set.New();
      var rest := elements;
      while rest != {}
        invariant rest <= elements
        invariant s3.elements == (elements - rest) - s2.elements
        decreases rest
      {
        var t :| t in rest;
        if !s2.Contains(t) {
          s3.Add(t);
        }
        rest := rest - {t};
      }
    }

    /** `SymmetricDifference(s2)`: a new set with the elements that are in
        exactly one of the operands. */
    method SymmetricDifference(s2: Set<T>) returns (s3: Set<T>)
      ensures fresh(s3)
      ensures s3.elements == (elements - s2.elements) + (s2.elements - elements)
    {
      s3 := new Set.New();
      var rest := elements;
      while rest != {}
        invariant rest <= elements
        invariant s3.elements == (elements - rest) - s2.elements
        decreases rest
      {
        var t :| t in rest;
        if !s2.Contains(t) {
          s3.Add(t);
        }
        rest := rest - {t};
      }
      ghost var onlyLeft := s3.elements;
      rest := s2.elements;
      while rest != {}
        invariant rest <= s2.elements
        invariant s3.elements == onlyLeft + ((s2.elements - rest) - elements)
        decreases rest
      {
        var t :| t in rest;
        if !Contains(t) {
          s3.Add(t);
        }
        rest := rest - {t};
      }
    }

    /** `IsSubset(s2)`: every element of this set is in `s2`; stops at the
        first one that is not. */
    method IsSubset(s2: Set<T>) returns (r: bool)
      ensures r <==> elements <= s2.elements
    {
      var rest := elements;
      while rest != {}
        invariant rest <= elements
        invariant elements - rest <= s2.elements
        decreases rest
      {
        var t :| t in rest;
        if !s2.Contains(t) {
          return false;
        }
        rest := rest - {t};
      }
      return true;
    }

    /** `IsSuperset(s2)`: `s2.IsSubset` of this set. */
    method IsSuperset(s2: Set<T>) returns (r: bool)
      ensures r <==> s2.elements <= elements
    {
      r := s2.IsSubset(this);
    }

    /** `IsDisjoint(s2)`: no element is shared; stops at the first shared one. */
    method IsDisjoint(s2: Set<T>) returns (r: bool)
      ensures r <==> elements !! s2.elements
    {
      var rest := elements;
      while rest != {}
        invariant rest <= elements
        invariant (elements - rest) !! s2.elements
        decreases rest
      {
        var t :| t in rest;
        if s2.Contains(t) {
          return false;
        }
        rest := rest - {t};
      }
      return true;
    }

    /** `Equal(s2)`: subset both ways, so insertion order never matters. */
    method Equal(s2: Set<T>) returns (r: bool)
      ensures r <==> elements == s2.elements
    {
      r := IsSubset(s2);
      if r {
        r := s2.IsSubset(this);
      }
    }

    /** `Clone()`: a new set with the same elements. */
    method Clone() returns (s2: Set<T>)
      ensures fresh(s2)
      ensures s2.elements == elements
    {
      s2 := new Set.New();
      var rest := elements;
      while rest != {}
        invariant rest <= elements
        invariant s2.elements == elements - rest
        decreases rest
      {
        var t :| t in rest;
        s2.Add(t);
        rest := rest - {t};
      }
    }
  }
}
