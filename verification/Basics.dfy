/** Shared vocabulary: options, bytes, big-endian integers and flattened lists. */
module Basics {

  datatype Option<+T> = None | Some(value: T)

  type byte = x: int | 0 <= x < 256
  type bytes = seq<byte>

  const TWO_16 := 0x1_0000
  const TWO_32 := 0x1_0000_0000
  const TWO_64 := 0x1_0000_0000_0000_0000

  type u16 = x: int | 0 <= x < TWO_16
  type u32 = x: int | 0 <= x < TWO_32
  type u64 = x: int | 0 <= x < TWO_64

  function Min(a: int, b: int): int {
    if a <= b then a else b
  }

  function Max(a: int, b: int): int {
    if a <= b then b else a
  }

  function Pow2(n: nat): (p: nat)
    ensures p > 0
  {
    if n == 0 then 1 else 2 * Pow2(n - 1)
  }

  /** binary.BigEndian.PutUint16 / Uint16. */
  function PutUint16(v: u16): (b: bytes)
    ensures |b| == 2
  {
    [v / 256, v % 256]
  }

  function Uint16(b: bytes): u16
    requires |b| >= 2
  {
    (b[0] as int) * 256 + b[1]
  }

  /** binary.BigEndian.PutUint32 / Uint32. */
  function PutUint32(v: u32): (b: bytes)
    ensures |b| == 4
  {
    PutUint16(v / TWO_16) + PutUint16(v % TWO_16)
  }

  function Uint32(b: bytes): u32
    requires |b| >= 4
  {
    (Uint16(b[..2]) as int) * TWO_16 + Uint16(b[2..4])
  }

  lemma Uint16RoundTrip(v: u16, rest: bytes)
    ensures Uint16(PutUint16(v) + rest) == v
  {
  }

  lemma Uint32RoundTrip(v: u32, rest: bytes)
    ensures Uint32(PutUint32(v) + rest) == v
  {
    var b := PutUint32(v) + rest;
    assert b[..2] == PutUint16(v / TWO_16) + [];
    assert b[2..4] == PutUint16(v % TWO_16) + [];
    Uint16RoundTrip(v / TWO_16, []);
    Uint16RoundTrip(v % TWO_16, []);
  }

  /** Both directions are big-endian: the first byte is the most significant. */
  lemma BigEndian(v: u32, b: bytes)
    requires |b| >= 4
    ensures var p := PutUint32(v); v == p[0] as int * 0x100_0000 + p[1] as int * TWO_16 + p[2] as int * 256 + p[3]
    ensures Uint32(b) == b[0] as int * 0x100_0000 + b[1] as int * TWO_16 + b[2] as int * 256 + b[3]
    ensures Uint16(b) == b[0] as int * 256 + b[1]
    ensures forall w: u16 :: w == PutUint16(w)[0] as int * 256 + PutUint16(w)[1]
  {
    assert PutUint16(v / TWO_16)[0] as int * 256 + PutUint16(v / TWO_16)[1] == v / TWO_16;
    assert PutUint16(v % TWO_16)[0] as int * 256 + PutUint16(v % TWO_16)[1] == v % TWO_16;
  }

  lemma SliceOfSlice<T>(s: seq<T>, lo: nat, hi: nat, i: nat, j: nat)
    requires lo <= i <= j <= hi <= |s|
    ensures s[lo..hi][i - lo..j - lo] == s[i..j]
  {
    var a, b := s[lo..hi][i - lo..j - lo], s[i..j];
    assert |a| == |b|;
    forall k | 0 <= k < |a| ensures a[k] == b[k] {
      assert a[k] == s[lo..hi][i - lo + k] == s[i + k];
    }
  }

  lemma EqualSlices<T>(a: seq<T>, b: seq<T>, i: nat, j: nat)
    requires i <= j <= |a| && j <= |b|
    requires forall k | i <= k < j :: a[k] == b[k]
    ensures a[i..j] == b[i..j]
  {
  }

  lemma {:induction false} SubsetCount<T>(a: set<T>, b: set<T>)
    requires a <= b
    ensures |a| <= |b|
  {
    if a != {} {
      var x :| x in a;
      SubsetCount(a - {x}, b - {x});
    }
  }

  /** Concatenation of a list of chunks. */
  function Flatten<T>(chunks: seq<seq<T>>): seq<T> {
    if chunks == [] then [] else chunks[0] + Flatten(chunks[1..])
  }

  lemma {:induction false} FlattenAppend<T>(a: seq<seq<T>>, b: seq<seq<T>>)
    ensures Flatten(a + b) == Flatten(a) + Flatten(b)
  {
    if a == [] {
      assert a + b == b;
    } else {
      assert (a + b)[1..] == a[1..] + b;
      FlattenAppend(a[1..], b);
      assert a[0] + (Flatten(a[1..]) + Flatten(b)) == (a[0] + Flatten(a[1..])) + Flatten(b);
    }
  }

  lemma FlattenSingle<T>(a: seq<seq<T>>, x: seq<T>)
    ensures Flatten(a + [x]) == Flatten(a) + x
  {
    FlattenAppend(a, [x]);
    assert [x][1..] == [];
    assert Flatten([x]) == x + Flatten<T>([]) == x;
  }

  /** A list of chunks cut short flattens to a prefix. */
  lemma FlattenPrefix<T>(a: seq<seq<T>>, b: seq<seq<T>>)
    requires a <= b
    ensures Flatten(a) <= Flatten(b)
  {
    assert b == a + b[|a|..];
    FlattenAppend(a, b[|a|..]);
  }

  /** Membership order on strings: bytewise lexicographic, as Go compares strings. */
  predicate StringLess(a: string, b: string) {
    if b == [] then false
    else if a == [] then true
    else if a[0] != b[0] then a[0] < b[0]
    else StringLess(a[1..], b[1..])
  }

  /** The first place where two texts differ, or the end of the shorter one. */
  function FirstDifferent(a: string, b: string): (k: nat)
    ensures k <= |a| && k <= |b| && a[..k] == b[..k]
    ensures k < |a| && k < |b| ==> a[k] != b[k]
  {
    if a == [] || b == [] || a[0] != b[0] then 0 else 1 + FirstDifferent(a[1..], b[1..])
  }

  /** The order itself: a proper prefix comes first, and otherwise the first different character decides. */
  lemma {:induction false} StringLessExactly(a: string, b: string)
    ensures var k := FirstDifferent(a, b);
            StringLess(a, b) <==> k < |b| && (k == |a| || a[k] < b[k])
  {
    if a != [] && b != [] && a[0] == b[0] { StringLessExactly(a[1..], b[1..]); }
  }

  lemma {:induction false} StringLessTrichotomy(a: string, b: string)
    ensures a == b ==> !StringLess(a, b) && !StringLess(b, a)
    ensures a != b ==> (StringLess(a, b) <==> !StringLess(b, a))
  {
    if a != [] && b != [] && a[0] == b[0] {
      StringLessTrichotomy(a[1..], b[1..]);
      if a[1..] == b[1..] {
        assert a == [a[0]] + a[1..] == [b[0]] + b[1..] == b;
      }
    }
  }

  lemma {:induction false} StringLessTransitive(a: string, b: string, c: string)
    requires StringLess(a, b) && StringLess(b, c)
    ensures StringLess(a, c)
  {
    if a != [] && a[0] == b[0] && b[0] == c[0] {
      StringLessTransitive(a[1..], b[1..], c[1..]);
    }
  }
}
