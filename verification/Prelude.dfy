/** Small vocabulary shared by the models: options, machine bytes, and finite sets of frame ids. */
module Prelude {

  datatype Option<+T> = None | Some(value: T)

  type u8 = x: int | 0 <= x < 0x100
  type u16 = x: int | 0 <= x < 0x1_0000
  type u32 = x: int | 0 <= x < 0x1_0000_0000
  type u64 = x: int | 0 <= x < 0x1_0000_0000_0000_0000

  type Bytes = seq<u8>

  function Min(a: int, b: int): int {
    if a < b then a else b
  }

  function Max(a: int, b: int): int {
    if a < b then b else a
  }

  function RMin(a: real, b: real): real { if a <= b then a else b }
  function RMax(a: real, b: real): real { if a <= b then b else a }

  /** Products grow with their factors. */
  lemma {:induction false} Multiply(a: nat, b: nat, m: nat)
    ensures a <= b ==> a * m <= b * m && m * a <= m * b
    ensures a < b ==> (a + 1) * m <= b * m && a * m + m <= b * m
  {
    if a <= b { assert (b - a) * m >= 0; }
  }

  /** `Duration` subtraction of two instants, which saturates at zero. */
  function Since(now: nat, at: nat): nat {
    if now < at then 0 else now - at
  }

  /** The value held, or `default` when nothing is. */
  function GetOr<T>(o: Option<T>, default: T): T {
    if o.Some? then o.value else default
  }

  /** Concatenation of a list of byte strings. */
  function Concat(parts: seq<Bytes>): Bytes {
    if parts == [] then [] else parts[0] + Concat(parts[1..])
  }

  lemma {:induction false} ConcatAppend(a: seq<Bytes>, b: seq<Bytes>)
    ensures Concat(a + b) == Concat(a) + Concat(b)
  {
    if a == [] {
      assert a + b == b;
    } else {
      assert (a + b)[1..] == a[1..] + b;
      ConcatAppend(a[1..], b);
    }
  }

  predicate IsLeast(m: nat, s: set<nat>) {
    m in s && forall x :: x in s ==> m <= x
  }

  predicate IsGreatest(m: nat, s: set<nat>) {
    m in s && forall x :: x in s ==> x <= m
  }

  lemma {:induction false} HasLeast(s: set<nat>)
    requires s != {}
    ensures exists m :: IsLeast(m, s)
  {
    var e :| e in s;
    if s == {e} {
      assert IsLeast(e, s);
    } else {
      HasLeast(s - {e});
      var m :| IsLeast(m, s - {e});
      assert forall x :: x in s ==> x == e || x in s - {e};
      assert IsLeast(if e < m then e else m, s);
    }
  }

  lemma {:induction false} HasGreatest(s: set<nat>)
    requires s != {}
    ensures exists m :: IsGreatest(m, s)
  {
    var e :| e in s;
    if s == {e} {
      assert IsGreatest(e, s);
    } else {
      HasGreatest(s - {e});
      var m :| IsGreatest(m, s - {e});
      assert forall x :: x in s ==> x == e || x in s - {e};
      assert IsGreatest(if e > m then e else m, s);
    }
  }

  /** The least element of a non-empty set. */
  ghost function Least(s: set<nat>): (m: nat)
    requires s != {}
    ensures IsLeast(m, s)
  {
    HasLeast(s);
    var m :| IsLeast(m, s);
    m
  }

  /** The greatest element of a non-empty set. */
  ghost function Greatest(s: set<nat>): (m: nat)
    requires s != {}
    ensures IsGreatest(m, s)
  {
    HasGreatest(s);
    var m :| IsGreatest(m, s);
    m
  }

  lemma {:induction false} LeastIs(m: nat, s: set<nat>)
    requires IsLeast(m, s)
    ensures m == Least(s)
  {
  }

  lemma {:induction false} SubsetSize<T>(a: set<T>, b: set<T>)
    requires a <= b
    ensures |a| <= |b|
  {
    assert |b| == |a| + |b - a| by { assert b == a + (b - a); }
  }
}
