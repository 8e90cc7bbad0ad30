/** Clients of the Set model: the algebraic laws that relate the set
    operations to one another, and what the package's tests
    (set/set_test.go) check on `{1, 2}` and `{2, 3}`. */
module SetScenarios {
  import opened Sets

  /** A union is a superset of both operands. */
  method UnionIsSuperset<T(==)>(a: Set<T>, b: Set<T>) returns (ofA: bool, ofB: bool)
    ensures ofA && ofB
  {
    var u := a.Union(b);
    ofA := u.IsSuperset(a);
    ofB := u.IsSuperset(b);
  }

  /** An intersection is a subset of both operands. */
  method IntersectionIsSubset<T(==)>(a: Set<T>, b: Set<T>) returns (ofA: bool, ofB: bool)
    ensures ofA && ofB
  {
    var i := a.Intersection(b);
    ofA := i.IsSubset(a);
    ofB := i.IsSubset(b);
  }

  /** `a` minus `b` shares nothing with `b`. */
  method DifferenceIsDisjoint<T(==)>(a: Set<T>, b: Set<T>) returns (disjoint: bool)
    ensures disjoint
  {
    var d := a.Difference(b);
    disjoint := d.IsDisjoint(b);
  }

  /** The symmetric difference is the union minus the intersection. */
  method SymmetricDifferenceIsUnionMinusIntersection<T(==)>(a: Set<T>, b: Set<T>) returns (same: bool)
    ensures same
  {
    var sd := a.SymmetricDifference(b);
    var u := a.Union(b);
    var i := a.Intersection(b);
    var ui := u.Difference(i);
    same := sd.Equal(ui);
  }

  /** A clone equals its original, and removing an element from the clone
      leaves the original holding it. */
  method CloneIsIndependent<T(==)>(a: Set<T>, t: T) returns (equal: bool, kept: bool)
    requires a.Contains(t)
    ensures equal && kept
  {
    var c := a.Clone();
    equal := a.Equal(c);
    c.Remove(t);
    kept := a.Contains(t);
  }

  /** Adding the same element twice leaves the same set as adding it once. */
  method AddIsIdempotent<T(==)>(t: T) returns (once: nat, twice: nat, member: bool)
    ensures once == twice == 1 && member
  {
    var s := new Set<T>.New();
    s.Add(t);
    once := s.Len();
    s.Add(t);
    twice := s.Len();
    member := s.Contains(t);
  }

  /** Removing an element that is absent changes nothing; removing one that
      is present drops only it. */
  method RemoveScenario() returns (afterAbsent: nat, has1: bool, has2: bool)
    ensures afterAbsent == 2 && !has1 && has2
  {
    var s := new Set<int>.From([1, 2]);
    assert s.elements == {1, 2};
    s.Remove(3);
    afterAbsent := s.Len();
    s.Remove(1);
    has1 := s.Contains(1);
    has2 := s.Contains(2);
  }

  /** Clearing `{1}` leaves nothing. */
  method ClearScenario() returns (has1: bool, n: nat)
    ensures !has1 && n == 0
  {
    var s := new Set<int>.New();
    s.Add(1);
    s.Clear();
    has1 := s.Contains(1);
    n := s.Len();
  }

  /** `{1, 2}` minus `{2, 3}` is `{1}`; their intersection is `{2}`. */
  method DifferenceScenario() returns (diff: set<int>, inter: set<int>)
    ensures diff == {1} && inter == {2}
  {
    var s := new Set<int>.From([1, 2]);
    var s2 := new Set<int>.From([2, 3]);
    var d := s.Difference(s2);
    var i := s.Intersection(s2);
    diff, inter := d.elements, i.elements;
  }

  /** `{1, 2}` and `{2, 3}`: symmetric difference `{1, 3}`, union of three
      elements, and a slice of `{1, 2}` has two entries. */
  method SymmetricDifferenceScenario() returns (sym: set<int>, unionLen: nat, sliceLen: nat)
    ensures sym == {1, 3} && unionLen == 3 && sliceLen == 2
  {
    var s := new Set<int>.From([1, 2]);
    var s2 := new Set<int>.From([2, 3]);
    var d := s.SymmetricDifference(s2);
    var u := s.Union(s2);
    assert u.elements == {1, 2, 3};
    var ts := s.ToSlice();
    assert s.elements == {1, 2};
    sym, unionLen, sliceLen := d.elements, u.Len(), |ts|;
  }

  /** Insertion order does not matter for `Equal`, an extra element on either
      side does. */
  method EqualScenario() returns (sameOrder: bool, differ: bool, shorter: bool)
    ensures sameOrder && !differ && !shorter
  {
    var s := new Set<int>.From([1, 2]);
    var s2 := new Set<int>.From([2, 1]);
    var s3 := new Set<int>.From([2, 3]);
    var s4 := new Set<int>.From([2]);
    assert 1 in s.elements && 1 !in s3.elements && 1 !in s4.elements;
    sameOrder := s.Equal(s2);
    differ := s.Equal(s3);
    shorter := s.Equal(s4);
  }
}
