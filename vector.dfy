/**
 * The scene graph's fixed-size numeric vector, instantiated over integers.
 * A vector owns `sz > 0` components; the compound operators update them in
 * place one index at a time and the free operators build a new vector.
 * Components are unbounded integers (see README for fixed-width overflow).
 */
module SgVector {

  function Abs(x: int): nat
  {
    if x < 0 then -x else x
  }

  /** Integer division as C++ does it: the quotient is truncated toward zero. */
  function TruncDiv(a: int, b: int): int
    requires b != 0
  {
    var q: int := NatDiv(Abs(a), Abs(b));
    if (a < 0) != (b < 0) then -q else q
  }

  function NatDiv(x: nat, y: nat): nat
    requires y > 0
  {
    x / y
  }

  /** The quotient is the largest multiple of `b` not exceeding `a` in
      magnitude, it has the sign of `a / b`, and negating the dividend
      negates the quotient. */
  lemma TruncDivSpec(a: int, b: int)
    requires b != 0
    ensures Abs(TruncDiv(a, b)) * Abs(b) <= Abs(a) < Abs(TruncDiv(a, b)) * Abs(b) + Abs(b)
    ensures TruncDiv(a, b) == 0 || ((TruncDiv(a, b) < 0) <==> ((a < 0) != (b < 0)))
    ensures TruncDiv(-a, b) == -TruncDiv(a, b)
  {
    TruncDivMagnitude(a, b);
    TruncDivMagnitude(-a, b);
    EuclideanBounds(Abs(a), Abs(b));
    assert Abs(-a) == Abs(a);
  }

  lemma TruncDivMagnitude(a: int, b: int)
    requires b != 0
    ensures Abs(TruncDiv(a, b)) == NatDiv(Abs(a), Abs(b))
  {
  }

  lemma EuclideanBounds(x: nat, y: nat)
    requires y > 0
    ensures NatDiv(x, y) * y <= x < NatDiv(x, y) * y + y
  {
    assert x == (x / y) * y + x % y;
  }

  /** Dividing a multiple of `s` by `s` gives the other factor back. */
  lemma TruncDivOfMultiple(x: int, s: int)
    requires s != 0
    ensures TruncDiv(x * s, s) == x
  {
    var p := x * s;
    AbsOfProduct(x, s);
    var ax, as_ := Abs(x), Abs(s);
    assert Abs(p) == ax * as_;
    ExactDivision(ax, as_);
    assert NatDiv(Abs(p), as_) == ax;
    SignOfProduct(x, s);
  }

  lemma AbsOfProduct(x: int, s: int)
    ensures Abs(x * s) == Abs(x) * Abs(s)
  {
    if x < 0 && s < 0 { assert x * s == (-x) * (-s); }
    else if x < 0 { assert -(x * s) == (-x) * s; }
    else if s < 0 { assert -(x * s) == x * (-s); }
  }

  lemma ExactDivision(k: nat, y: nat)
    requires y > 0
    ensures (k * y) / y == k
  {
    var d, m := (k * y) / y, (k * y) % y;
    assert k * y == d * y + m;
    assert (k - d) * y == m;
    if k - d >= 1 {
      AtLeastOnce(k - d, y);
    } else if k - d <= -1 {
      AtLeastOnce(d - k, y);
    }
  }

  lemma AtLeastOnce(t: int, y: nat)
    requires t >= 1
    ensures t * y >= y
  {
    assert t * y == (t - 1) * y + y;
  }

  lemma SignOfProduct(x: int, s: int)
    requires s != 0
    ensures x * s < 0 <==> (x < 0) != (s < 0) && x != 0
  {
    if x < 0 && s < 0 { assert x * s == (-x) * (-s); }
    else if x < 0 { assert -(x * s) == (-x) * s; }
    else if s < 0 { assert -(x * s) == x * (-s); }
  }

  /** The default-initialised components followed by the list's first
      `min(sz, |list|)` values. */
  function FromList(sz: nat, list: seq<int>): (r: seq<int>)
    ensures |r| == sz
    ensures forall i :: 0 <= i < sz ==> r[i] == (if i < |list| then list[i] else 0)
  {
    if |list| >= sz then list[..sz] else list + seq(sz - |list|, _ => 0)
  }

  function Add(a: seq<int>, b: seq<int>): seq<int>
    requires |a| == |b|
  {
    seq(|a|, i requires 0 <= i < |a| => a[i] + b[i])
  }

  function Sub(a: seq<int>, b: seq<int>): seq<int>
    requires |a| == |b|
  {
    seq(|a|, i requires 0 <= i < |a| => a[i] - b[i])
  }

  function Scale(a: seq<int>, s: int): seq<int>
  {
    seq(|a|, i requires 0 <= i < |a| => a[i] * s)
  }

  function DivBy(a: seq<int>, s: int): seq<int>
    requires s != 0
  {
    seq(|a|, i requires 0 <= i < |a| => TruncDiv(a[i], s))
  }

  /** Subtraction undoes addition, addition commutes, and dividing a scaled
      vector by the same non-zero scalar restores it. */
  lemma ArithmeticInverses(a: seq<int>, b: seq<int>, s: int)
    requires |a| == |b|
    ensures Sub(Add(a, b), b) == a
    ensures Add(a, b) == Add(b, a)
    ensures Sub(a, a) == seq(|a|, _ => 0)
    ensures s != 0 ==> DivBy(Scale(a, s), s) == a
  {
    if s != 0 {
      forall i | 0 <= i < |a| ensures DivBy(Scale(a, s), s)[i] == a[i] {
        TruncDivOfMultiple(a[i], s);
      }
    }
  }

  /** The values the vector unit tests expect, including truncation of a
      negative odd component. */
  lemma VectorExamples()
    ensures FromList(2, [-1, 44]) == [-1, 44]
    ensures FromList(4, [1, -1, 5023]) == [1, -1, 5023, 0]
    ensures Add(Sub([100, -200, -300], [10, 20, -30]), [-1, 2, -3]) == [89, -218, -273]
    ensures Sub([10, 20, -30], [89, -218, -273]) == [-79, 238, 243]
    ensures Add([-1, 2, -3], [10, 20, -30]) == [9, 22, -33]
    ensures Scale([9, 22, -33], -1) == [-9, -22, 33]
    ensures DivBy([9, 22, -33], 2) == [4, 11, -16]
  {
    assert FromList(4, [1, -1, 5023]) == [1, -1, 5023] + [0];
    assert TruncDiv(-33, 2) == -16;
  }

  class Vector {
    const data: array<int>

    /** `Vector(std::initializer_list<T>)`; the default constructor is the
        empty list. */
    constructor (sz: nat, list: seq<int>)
      requires sz > 0
      ensures fresh(data) && data[..] == FromList(sz, list) && Valid()
    {
      var a := new int[sz](_ => 0);
      var n := if sz < |list| then sz else |list|;
      for i := 0 to n
        invariant forall k :: 0 <= k < i ==> a[k] == list[k]
        invariant forall k :: i <= k < sz ==> a[k] == 0
      {
        a[i] := list[i];
      }
      data := a;
    }

    /** A vector has at least one component (`N > 0` in the source). */
    predicate Valid()
    {
      data.Length > 0
    }

    /** `size()`: the number of components. */
    function Size(): (r: nat)
      ensures r == data.Length
    {
      data.Length
    }

    /** `operator-=`. The argument may be this vector itself. */
    method SubAssign(other: Vector)
      requires other.data.Length == data.Length
      modifies data
      ensures data[..] == Sub(old(data[..]), old(other.data[..]))
    {
      for i := 0 to data.Length
        invariant forall k :: 0 <= k < i ==> data[k] == old(data[k]) - old(other.data[k])
        invariant forall k :: i <= k < data.Length ==> data[k] == old(data[k])
        invariant forall k :: i <= k < data.Length ==> other.data[k] == old(other.data[k])
      {
        data[i] := data[i] - other.data[i];
      }
    }

    /** `operator+=`. The argument may be this vector itself. */
    method AddAssign(other: Vector)
      requires other.data.Length == data.Length
      modifies data
      ensures data[..] == Add(old(data[..]), old(other.data[..]))
    {
      for i := 0 to data.Length
        invariant forall k :: 0 <= k < i ==> data[k] == old(data[k]) + old(other.data[k])
        invariant forall k :: i <= k < data.Length ==> data[k] == old(data[k])
        invariant forall k :: i <= k < data.Length ==> other.data[k] == old(other.data[k])
      {
        data[i] := data[i] + other.data[i];
      }
    }

    /** `operator*=(T)`. */
    method MulAssign(scalar: int)
      modifies data
      ensures data[..] == Scale(old(data[..]), scalar)
    {
      for i := 0 to data.Length
        invariant forall k :: 0 <= k < i ==> data[k] == old(data[k]) * scalar
        invariant forall k :: i <= k < data.Length ==> data[k] == old(data[k])
      {
        data[i] := data[i] * scalar;
      }
    }

    /** `operator/=(T)`: truncating division; a zero divisor is undefined
        behaviour in the source and excluded here. */
    method DivAssign(scalar: int)
      requires scalar != 0
      modifies data
      ensures data[..] == DivBy(old(data[..]), scalar)
    {
      for i := 0 to data.Length
        invariant forall k :: 0 <= k < i ==> data[k] == TruncDiv(old(data[k]), scalar)
        invariant forall k :: i <= k < data.Length ==> data[k] == old(data[k])
      {
        data[i] := TruncDiv(data[i], scalar);
      }
    }

    /** The implicit copy constructor. */
    method Copy() returns (res: Vector)
      requires Valid()
      ensures fresh(res) && fresh(res.data) && res.data[..] == data[..] && res.Valid()
    {
      res := new Vector(data.Length, data[..]);
    }
  }

  /** Free `operator-`: a new vector; the operands are unchanged. */
  method Minus(left: Vector, right: Vector) returns (res: Vector)
    requires left.Valid() && left.data.Length == right.data.Length
    ensures fresh(res) && fresh(res.data) && res.Valid()
    ensures res.data[..] == Sub(left.data[..], right.data[..])
  {
    res := new Vector(left.data.Length, []);
    for i := 0 to res.data.Length
      invariant forall k :: 0 <= k < i ==> res.data[k] == left.data[k] - right.data[k]
    {
      res.data[i] := left.data[i] - right.data[i];
    }
  }

  /** Free `operator+`. */
  method Plus(left: Vector, right: Vector) returns (res: Vector)
    requires left.Valid() && left.data.Length == right.data.Length
    ensures fresh(res) && fresh(res.data) && res.Valid()
    ensures res.data[..] == Add(left.data[..], right.data[..])
  {
    res := new Vector(left.data.Length, []);
    for i := 0 to res.data.Length
      invariant forall k :: 0 <= k < i ==> res.data[k] == left.data[k] + right.data[k]
    {
      res.data[i] := left.data[i] + right.data[i];
    }
  }

  /** Free `operator*(Vector, T)`: copy, then `*=`. */
  method Times(vector: Vector, scalar: int) returns (res: Vector)
    requires vector.Valid()
    ensures fresh(res) && fresh(res.data) && res.Valid()
    ensures res.data[..] == Scale(vector.data[..], scalar)
  {
    res := vector.Copy();
    res.MulAssign(scalar);
  }

  /** Free `operator/(Vector, T)`: copy, then `/=`. */
  method DividedBy(vector: Vector, scalar: int) returns (res: Vector)
    requires vector.Valid() && scalar != 0
    ensures fresh(res) && fresh(res.data) && res.Valid()
    ensures res.data[..] == DivBy(vector.data[..], scalar)
  {
    res := vector.Copy();
    res.DivAssign(scalar);
  }
}
