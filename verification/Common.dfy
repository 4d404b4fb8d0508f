/** Small shared vocabulary: optional values and the machine-integer helpers the
    other modules state their widths with. */
module Common {

  datatype Option<+T> = None | Some(value: T)

  const U64_MAX: nat := 0xFFFF_FFFF_FFFF_FFFF
  const U16_MOD: nat := 0x1_0000

  /** `u64::saturating_add`. */
  function SatAdd(a: nat, b: nat): nat {
    if a + b > U64_MAX then U64_MAX else a + b
  }

  /** `saturating_sub` on any unsigned width. */
  function SatSub(a: nat, b: nat): nat {
    if a < b then 0 else a - b
  }

  /** No element occurs twice. */
  ghost predicate Distinct<T>(s: seq<T>) {
    forall i, j :: 0 <= i < j < |s| ==> s[i] != s[j]
  }

  // ----- sequences as lists of distinct nodes ------------------------------------------------

  function PositionOf<T(==)>(s: seq<T>, x: T): (j: nat)
    requires x in s
    ensures j < |s| && s[j] == x
  {
    if s[0] == x then 0 else 1 + PositionOf(s[1..], x)
  }

  /** The list without the first occurrence of `x`. */
  function Without<T(==)>(s: seq<T>, x: T): seq<T> {
    if x in s then s[..PositionOf(s, x)] + s[PositionOf(s, x) + 1..] else s
  }

  lemma DropAt<T>(s: seq<T>, j: nat)
    requires Distinct(s) && j < |s|
    ensures Distinct(s[..j] + s[j + 1..])
    ensures forall y :: y in s[..j] + s[j + 1..] <==> y in s && y != s[j]
  {
    var r := s[..j] + s[j + 1..];
    forall y | y in s && y != s[j] ensures y in r {
      var k :| 0 <= k < |s| && s[k] == y;
      assert r[if k < j then k else k - 1] == y;
    }
    forall y | y in r ensures y in s && y != s[j] {
      var k :| 0 <= k < |r| && r[k] == y;
      assert s[if k < j then k else k + 1] == y;
    }
  }

  lemma WithoutKeeps<T>(s: seq<T>, x: T)
    requires Distinct(s)
    ensures Distinct(Without(s, x)) && |Without(s, x)| == |s| - (if x in s then 1 else 0)
    ensures forall y :: y in Without(s, x) <==> y in s && y != x
  {
    hide Distinct, PositionOf;
    if x in s { DropAt(s, PositionOf(s, x)); }
  }

  lemma WithoutFirst<T>(s: seq<T>)
    requires s != []
    ensures Without(s, s[0]) == s[1..]
  {
    assert s[..0] + s[1..] == s[1..];
  }

  function ToBack<T>(s: seq<T>, j: nat): (r: seq<T>)
    requires j < |s|
    ensures |r| == |s|
  {
    s[..j] + s[j + 1..] + [s[j]]
  }

  lemma MulMonotone(a: int, b: int, c: nat)
    ensures a <= b ==> a * c <= b * c && c * a <= c * b
  {
    if a <= b { assert b * c == a * c + (b - a) * c; }
  }

  function Pow2(e: nat): (p: nat)
    ensures p > 0
  {
    if e == 0 then 1 else 2 * Pow2(e - 1)
  }

  lemma {:induction false} Pow2Sum(a: nat, b: nat)
    ensures Pow2(a + b) == Pow2(a) * Pow2(b)
  {
    if a > 0 {
      Pow2Sum(a - 1, b);
      assert Pow2(a + b) == 2 * (Pow2(a - 1) * Pow2(b));
      assert 2 * (Pow2(a - 1) * Pow2(b)) == (2 * Pow2(a - 1)) * Pow2(b);
    }
  }

  lemma {:induction false} Pow2Monotone(a: nat, b: nat)
    requires a <= b
    ensures Pow2(a) <= Pow2(b)
  {
    if a < b { Pow2Monotone(a, b - 1); }
  }
}
