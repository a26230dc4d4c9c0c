/** Decimal numbers and colon-separated text, as strconv and strings handle them. */
module Text {
  import opened Basics

  // ----- decimal numbers -----

  predicate IsDigit(c: char) { '0' <= c <= '9' }

  function DigitOf(d: nat): (c: char)
    requires d < 10
    ensures IsDigit(c) && c as int - '0' as int == d
  {
    ('0' as int + d) as char
  }

  function FormatNat(n: nat): string {
    if n < 10 then [DigitOf(n)] else FormatNat(n / 10) + [DigitOf(n % 10)]
  }

  predicate AllDigits(s: string) { forall k | 0 <= k < |s| :: IsDigit(s[k]) }

  function Value(s: string): nat
    requires AllDigits(s)
  {
    if s == [] then 0 else Value(s[..|s| - 1]) * 10 + (s[|s| - 1] as int - '0' as int)
  }

  /** strconv.FormatInt in base ten. */
  function FormatInt(n: int): string { if n < 0 then "-" + FormatNat(-n) else FormatNat(n) }

  /** strconv.ParseUint in base ten for 64 bits. */
  function ParseUint64(s: string): Option<u64> {
    if s != [] && AllDigits(s) && Value(s) < TWO_64 then Some(Value(s)) else None
  }

  /** strconv.ParseInt in base ten for 64 bits: one sign, then digits. */
  function ParseInt64(s: string): Option<int> {
    var negative := s != [] && s[0] == '-';
    var digits := if s != [] && (s[0] == '-' || s[0] == '+') then s[1..] else s;
    if digits == [] || !AllDigits(digits) then None
    else
      var n: int := if negative then -(Value(digits) as int) else Value(digits);
      if -(TWO_64 / 2) <= n < TWO_64 / 2 then Some(n) else None
  }

  lemma {:induction false} FormatNatValue(n: nat)
    ensures FormatNat(n) != [] && AllDigits(FormatNat(n)) && Value(FormatNat(n)) == n
  {
    var s := FormatNat(n);
    if n < 10 {
      assert s[..0] == [];
    } else {
      FormatNatValue(n / 10);
      assert s[..|s| - 1] == FormatNat(n / 10);
    }
  }

  /** Exactly the 64-bit numbers survive formatting and parsing. */
  lemma DecimalRoundTrip(n: int)
    ensures ParseInt64(FormatInt(n)) == Some(n) <==> -(TWO_64 / 2) <= n < TWO_64 / 2
    ensures n >= 0 ==> (ParseUint64(FormatInt(n)) == Some(n) <==> n < TWO_64)
    ensures forall c | c in FormatInt(n) :: IsDigit(c) || c == '-'
  {
    hide Value, FormatNat, ParseInt64, ParseUint64;
    FormatNatValue(if n < 0 then -n else n);
    if n < 0 {
      ParseNegative(FormatNat(-n));
    } else {
      ParseDigits(FormatNat(n));
    }
  }

  lemma ParseDigits(s: string)
    requires s != [] && AllDigits(s)
    ensures ParseInt64(s) == if Value(s) < TWO_64 / 2 then Some(Value(s)) else None
    ensures ParseUint64(s) == if Value(s) < TWO_64 then Some(Value(s)) else None
  {
    hide Value;
    assert IsDigit(s[0]);
  }

  lemma ParseNegative(s: string)
    requires s != [] && AllDigits(s)
    ensures ParseInt64("-" + s) == if Value(s) <= TWO_64 / 2 then Some(-(Value(s) as int)) else None
  {
    hide Value;
    assert ("-" + s)[1..] == s;
  }

  /** What is parsed as a signed number: digits, one or more, behind one sign or none, within 64 bits; nothing else. */
  lemma ParseExactly(s: string)
    ensures var signed := s != [] && (s[0] == '-' || s[0] == '+');
            var digits := if signed then s[1..] else s;
            var ok := digits != [] && forall c | c in digits :: '0' <= c <= '9';
            && (ok <==> digits != [] && AllDigits(digits))
            && (!ok ==> ParseInt64(s).None?)
            && (ok && s[0] == '-' ==> ParseInt64(s) == if Value(digits) <= 0x8000_0000_0000_0000 then Some(-(Value(digits) as int)) else None)
            && (ok && s[0] != '-' ==> ParseInt64(s) == if Value(digits) < 0x8000_0000_0000_0000 then Some(Value(digits)) else None)
  {
    hide Value;
    var digits := if s != [] && (s[0] == '-' || s[0] == '+') then s[1..] else s;
    assert AllDigits(digits) ==> forall c | c in digits :: '0' <= c <= '9';
    if forall c | c in digits :: '0' <= c <= '9' {
      forall k | 0 <= k < |digits| ensures IsDigit(digits[k]) { assert digits[k] in digits; }
    }
  }

  // ----- signatures as text -----

  const COLON := ':'
  const NUL := '\0'

  /** HMAC-SHA256 of an input under a key, in unpadded base64url. */
  type Mac = (string, string) -> string

  ghost predicate Base64(hmac: Mac) {
    forall key, input :: COLON !in hmac(key, input) && NUL !in hmac(key, input)
  }

  ghost predicate CollisionFree(hmac: Mac) {
    forall key, a, b :: hmac(key, a) == hmac(key, b) ==> a == b
  }

  // ----- colons -----

  /** strings.Join with a colon. */
  function Join(parts: seq<string>): string
    requires parts != []
  {
    if |parts| == 1 then parts[0] else parts[0] + [COLON] + Join(parts[1..])
  }

  /** strings.Split at colons. */
  function Split(s: string): (parts: seq<string>)
    ensures parts != []
  {
    if s == [] then [[]]
    else
      var rest := Split(s[1..]);
      if s[0] == COLON then [[]] + rest else [[s[0]] + rest[0]] + rest[1..]
  }

  function Colons(s: string): nat {
    if s == [] then 0 else (if s[0] == COLON then 1 else 0) + Colons(s[1..])
  }

  lemma {:induction false} SplitLength(s: string)
    ensures |Split(s)| == Colons(s) + 1
  {
    if s != [] { SplitLength(s[1..]); }
  }

  lemma {:induction false} ColonsOf(s: string)
    ensures Colons(s) == 0 <==> COLON !in s
  {
    if s != [] { ColonsOf(s[1..]); }
  }

  lemma {:induction false} ColonsAppend(a: string, b: string)
    ensures Colons(a + b) == Colons(a) + Colons(b)
  {
    if a == [] {
      assert a + b == b;
    } else {
      assert (a + b)[1..] == a[1..] + b;
      ColonsAppend(a[1..], b);
    }
  }

  lemma {:induction false} ColonsOfJoin(parts: seq<string>)
    requires parts != []
    ensures Colons(Join(parts)) >= |parts| - 1
    ensures Colons(Join(parts)) == |parts| - 1 <==> forall k | 0 <= k < |parts| :: COLON !in parts[k]
  {
    ColonsOf(parts[0]);
    if |parts| > 1 {
      var rest := Join(parts[1..]);
      ColonsOfJoin(parts[1..]);
      ColonsAppend(parts[0] + [COLON], rest);
      ColonsAppend(parts[0], [COLON]);
      assert Colons([COLON]) == 1 by { assert [COLON][1..] == []; }
      assert forall k | 0 < k < |parts| :: parts[k] == parts[1..][k - 1];
    }
  }

  lemma {:induction false} SplitFirst(p: string, rest: string)
    requires COLON !in p
    ensures Split(p) == [p]
    ensures Split(p + [COLON] + rest) == [p] + Split(rest)
  {
    var s := p + [COLON] + rest;
    if p == [] {
      assert s[1..] == rest;
    } else {
      SplitFirst(p[1..], rest);
      assert [p[0]] + p[1..] == p;
      assert s[1..] == p[1..] + [COLON] + rest;
    }
  }

  lemma {:induction false} SplitJoinPlain(parts: seq<string>)
    requires parts != [] && forall k | 0 <= k < |parts| :: COLON !in parts[k]
    ensures Split(Join(parts)) == parts
  {
    if |parts| == 1 {
      SplitFirst(parts[0], []);
    } else {
      SplitJoinPlain(parts[1..]);
      SplitFirst(parts[0], Join(parts[1..]));
    }
  }

  /** Joined parts come back unchanged exactly when none of them holds a colon; otherwise there are more of them. */
  lemma SplitUndoesJoin(parts: seq<string>)
    requires parts != []
    ensures Split(Join(parts)) == parts <==> forall k | 0 <= k < |parts| :: COLON !in parts[k]
    ensures |Split(Join(parts))| == |parts| <==> forall k | 0 <= k < |parts| :: COLON !in parts[k]
  {
    SplitLength(Join(parts));
    ColonsOfJoin(parts);
    if forall k | 0 <= k < |parts| :: COLON !in parts[k] { SplitJoinPlain(parts); }
  }

  /** Text is determined by what stands before and behind its last separator. */
  lemma LastSeparator(a: string, b: string, a': string, b': string, c: char)
    requires c !in b && c !in b'
    requires a + [c] + b == a' + [c] + b'
    ensures a == a' && b == b'
  {
    var s, s' := a + [c] + b, a' + [c] + b';
    forall k | |a| < k < |s| ensures s[k] != c { assert s[k] == b[k - |a| - 1]; }
    forall k | |a'| < k < |s'| ensures s'[k] != c { assert s'[k] == b'[k - |a'| - 1]; }
    assert s[|a|] == c && s'[|a'|] == c;
    assert a == s[..|a|] && a' == s'[..|a'|];
    assert b == s[|a| + 1..] && b' == s'[|a'| + 1..];
  }
}
