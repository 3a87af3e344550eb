/**
 Node monikers (cosmos/node.go): names, 32-bit FNV-1, base-36 printing and condensing.
*/
module Monikers {
  import opened Outcomes
  import opened Bytes
  import opened Numerals
  import opened Sequences

  const MAX_MONIKER_LENGTH := 70

  /* ---------- FNV-1, 32 bits ---------- */

  const MODULUS := 0x1_0000_0000
  const FNV_PRIME := 16777619
  const FNV_OFFSET := 2166136261

  type uint32 = v: int | 0 <= v < MODULUS witness 0

  /** Bitwise exclusive or, bit by bit from the least significant. */
  function Xor(a: nat, b: nat): nat
    decreases a + b
  {
    if a == 0 && b == 0 then 0
    else 2 * Xor(a / 2, b / 2) + (if a % 2 == b % 2 then 0 else 1)
  }

  function Power2(n: nat): (p: nat)
    ensures p > 0
  {
    if n == 0 then 1 else 2 * Power2(n - 1)
  }

  lemma {:induction false} XorBelow(a: nat, b: nat, n: nat)
    requires a < Power2(n) && b < Power2(n)
    ensures Xor(a, b) < Power2(n)
  {
    if n > 0 && (a != 0 || b != 0) {
      XorBelow(a / 2, b / 2, n - 1);
    }
  }

  /** Exclusive or with the same number undoes itself. */
  lemma {:induction false} XorTwice(a: nat, b: nat)
    ensures Xor(Xor(a, b), b) == a
    decreases a + b
  {
    if a != 0 || b != 0 {
      XorTwice(a / 2, b / 2);
      var x := Xor(a, b);
      assert x / 2 == Xor(a / 2, b / 2) && x % 2 == if a % 2 == b % 2 then 0 else 1;
    }
  }

  lemma {:induction false} XorCommutes(a: nat, b: nat)
    ensures Xor(a, b) == Xor(b, a)
    decreases a + b
  {
    if a != 0 || b != 0 {
      XorCommutes(a / 2, b / 2);
    }
  }

  function Scaled(h: uint32): uint32 { h * FNV_PRIME % MODULUS }

  lemma Power2Is32()
    ensures Power2(32) == MODULUS && 256 <= Power2(32)
  {
    assert Power2(8) == 256;
    assert Power2(16) == 65536;
    assert Power2(24) == 16777216;
    assert Power2(32) == 4294967296;
  }

  function Mix(h: uint32, b: byte): (r: uint32) {
    Power2Is32();
    XorBelow(Scaled(h), b, 32);
    Xor(Scaled(h), b)
  }

  function Fnv(t: Text): uint32 {
    if t == [] then FNV_OFFSET else Mix(Fnv(t[..|t| - 1]), t[|t| - 1])
  }

  /** hash.Write on a fresh hasher, byte by byte. */
  method Fnv32(t: Text) returns (h: uint32)
    ensures h == Fnv(t)
  {
    h := FNV_OFFSET;
    for i := 0 to |t|
      invariant h == Fnv(t[..i])
    {
      assert t[..i + 1][..i] == t[..i];
      h := Mix(h, t[i]);
    }
    assert t[..|t|] == t;
  }

  lemma Halved(x: nat, m: nat)
    requires m > 0
    ensures x / (2 * m) == x / 2 / m
  {
    var q, r := x / 2 / m, x / 2 % m;
    assert x / 2 == q * m + r;
    var low := 2 * r + x % 2;
    assert x == q * (2 * m) + low && 0 <= low < 2 * m;
    DivisionIs(x, 2 * m, q, low);
  }

  lemma DivisionIs(x: nat, m: nat, q: nat, r: nat)
    requires m > 0 && x == q * m + r && r < m
    ensures x / m == q
  {
    var d := x / m - q;
    assert d * m == r - x % m;
    if d != 0 {
      MultipleLarge(d, m);
    }
  }

  lemma MultipleLarge(d: int, m: int)
    requires d != 0 && m > 0
    ensures d * m >= m || d * m <= -m
  {
  }

  lemma XorUnfold(a: nat, b: nat)
    ensures Xor(a, b) == 2 * Xor(a / 2, b / 2) + (if a % 2 == b % 2 then 0 else 1)
  {
  }

  lemma SumHalf(x: nat, half: nat, p: nat, q: nat)
    requires p < 2 && q < 2 && x == 2 * half + (if p == q then 0 else 1)
    ensures x / 2 == half && x % 2 == (p + q) % 2
  {
  }

  lemma XorHalf(a: nat, b: nat)
    ensures Xor(a, b) / 2 == Xor(a / 2, b / 2) && Xor(a, b) % 2 == (a % 2 + b % 2) % 2
  {
    XorUnfold(a, b);
    XorHalves(Xor(a, b), Xor(a / 2, b / 2), a, b);
  }

  lemma XorHalves(x: nat, half: nat, a: nat, b: nat)
    requires x == 2 * half + (if a % 2 == b % 2 then 0 else 1)
    ensures x / 2 == half && x % 2 == (a % 2 + b % 2) % 2
  {
    SumHalf(x, half, a % 2, b % 2);
  }

  /** Bit i of an exclusive or. */
  lemma {:induction false} XorBit(a: nat, b: nat, i: nat)
    ensures Xor(a, b) / Power2(i) % 2 == (a / Power2(i) % 2 + b / Power2(i) % 2) % 2
  {
    XorHalf(a, b);
    if i > 0 {
      XorBit(a / 2, b / 2, i - 1);
      Halved(a, Power2(i - 1));
      Halved(b, Power2(i - 1));
      Halved(Xor(a, b), Power2(i - 1));
    }
  }

  lemma {:induction false} XorZero(a: nat)
    ensures Xor(a, 0) == a
  {
    if a != 0 {
      XorZero(a / 2);
    }
  }

  /** A short operand leaves the higher bits alone. */
  lemma {:induction false} XorHigh(a: nat, b: nat, n: nat)
    requires b < Power2(n)
    ensures Xor(a, b) / Power2(n) == a / Power2(n)
  {
    if n == 0 {
      XorZero(a);
    } else {
      XorHalf(a, b);
      XorHigh(a / 2, b / 2, n - 1);
      Halved(a, Power2(n - 1));
      Halved(Xor(a, b), Power2(n - 1));
    }
  }

  lemma FnvSnoc(t: Text, b: byte)
    ensures Fnv(t + [b]) == Xor(Fnv(t) * 16777619 % 0x1_0000_0000, b)
  {
    assert (t + [b])[..|t|] == t;
  }

  lemma LowByte(p: nat, b: byte)
    ensures Xor(p, b) / 256 == p / 256
  {
    assert Power2(8) == 256;
    XorHigh(p, b, 8);
  }

  /** FNV-1 multiplies before it takes the byte in: above the low eight bits a step is the product, in
      them the exclusive or of product and byte. */
  lemma FnvStep(t: Text, b: byte)
    ensures var product := Fnv(t) * 16777619 % 0x1_0000_0000;
      && Fnv(t + [b]) / 256 == product / 256
      && forall i: nat :: i < 8 ==>
           Fnv(t + [b]) / Power2(i) % 2 == (product / Power2(i) % 2 + b / Power2(i) % 2) % 2
  {
    var product := Fnv(t) * 16777619 % 0x1_0000_0000;
    FnvSnoc(t, b);
    LowByte(product, b);
    forall i: nat | i < 8
      ensures Xor(product, b) / Power2(i) % 2 == (product / Power2(i) % 2 + b / Power2(i) % 2) % 2
    {
      XorBit(product, b, i);
    }
  }

  lemma KnownProduct()
    ensures 2166136261 * 16777619 % 0x1_0000_0000 == 0x050c5d1f
  {
  }

  /** The exclusive or behind the hash of "a", bit by bit from the top. */
  lemma KnownXor()
    ensures Xor(0x050c5d1f, 97) == 0x050c5d7e
  {
    XorZero(0x000a18ba);
    assert Xor(0x00143174, 1) == 0x00143175;
    assert Xor(0x002862e8, 3) == 0x002862eb;
    assert Xor(0x0050c5d1, 6) == 0x0050c5d7;
    assert Xor(0x00a18ba3, 12) == 0x00a18baf;
    assert Xor(0x01431747, 24) == 0x0143175f;
    assert Xor(0x02862e8f, 48) == 0x02862ebf;
  }

  /** Published values for the empty text and for "a". */
  lemma FnvKnown()
    ensures Fnv([]) == 2166136261 && Fnv([97]) == 0x050c5d7e
  {
    FnvSnoc([], 97);
    assert [] + [97] == [97];
    KnownProduct();
    KnownXor();
  }

  /** The prime is odd, so scaling is invertible mod 2^32. */
  lemma ScaledInjective(g: uint32, h: uint32)
    requires Scaled(g) == Scaled(h)
    ensures g == h
  {
    var q := Quotients(g, h);
    // 899433627 is the inverse of the prime: their product is 3513497 * 2^32 + 1.
    assert FNV_PRIME * 899433627 == 3513497 * MODULUS + 1;
    var d := g - h;
    assert d * (3513497 * MODULUS + 1) == q * MODULUS * 899433627;
    var k := q * 899433627 - d * 3513497;
    assert d == k * MODULUS;
    SmallMultiple(d, k);
  }

  lemma Quotients(g: uint32, h: uint32) returns (q: int)
    requires Scaled(g) == Scaled(h)
    ensures (g - h) * FNV_PRIME == q * MODULUS
  {
    q := g * FNV_PRIME / MODULUS - h * FNV_PRIME / MODULUS;
  }

  lemma SmallMultiple(d: int, k: int)
    requires d == k * MODULUS && -MODULUS < d < MODULUS
    ensures d == 0
  {
  }

  /** One hashing step is injective in the state and in the byte. */
  lemma MixInjective(g: uint32, h: uint32, a: byte, b: byte)
    requires Mix(g, a) == Mix(h, b)
    ensures (a == b ==> g == h) && (g == h ==> a == b)
  {
    XorTwice(Scaled(g), a);
    XorTwice(Scaled(h), b);
    if a == b {
      ScaledInjective(g, h);
    }
    XorCommutes(Scaled(g), a);
    XorCommutes(Scaled(h), b);
    XorTwice(a, Scaled(g));
    XorTwice(b, Scaled(h));
  }

  lemma ShorterTail(s: Text, i: nat)
    requires i < |s|
    ensures var n := |s| - 1;
      s[..n][..i] == s[..i] && s[..n][i..] == s[i..][..n - i] && s[n] == s[i..][n - i]
  {
  }

  /** From different states, the same bytes lead to different hashes. */
  lemma {:induction false} FnvSameTail(s: Text, t: Text, i: nat)
    requires |s| == |t| && i <= |s| && s[i..] == t[i..] && Fnv(s[..i]) != Fnv(t[..i])
    ensures Fnv(s) != Fnv(t)
  {
    var n := |s| - 1;
    if i == |s| {
      assert s[..i] == s && t[..i] == t;
    } else {
      ShorterTail(s, i);
      ShorterTail(t, i);
      FnvSameTail(s[..n], t[..n], i);
      if Fnv(s) == Fnv(t) {
        MixInjective(Fnv(s[..n]), Fnv(t[..n]), s[n], t[n]);
      }
    }
  }

  ghost predicate DifferOnlyAt(s: Text, t: Text, i: nat) {
    |s| == |t| && i < |s| && s[..i] == t[..i] && s[i] != t[i] && s[i + 1..] == t[i + 1..]
  }

  /** Texts of one length that differ in a single byte never hash alike. */
  lemma OneByteChangesFnv(s: Text, t: Text, i: nat)
    requires DifferOnlyAt(s, t, i)
    ensures Fnv(s) != Fnv(t)
  {
    assert s[..i + 1][..i] == s[..i] && t[..i + 1][..i] == t[..i];
    if Fnv(s[..i + 1]) == Fnv(t[..i + 1]) {
      MixInjective(Fnv(s[..i]), Fnv(t[..i]), s[i], t[i]);
    } else {
      FnvSameTail(s, t, i + 1);
    }
  }

  /* ---------- CondenseMoniker ---------- */

  /** Every 32-bit number prints in one to seven base-36 digits. */
  lemma SevenDigits(h: uint32)
    ensures 1 <= |Format(h, 36)| <= 7
  {
    assert Power36(3) == 46656;
    assert Power36(5) == 60466176;
    assert Power36(7) == 78364164096;
    FormatLength(h, 7);
  }

  function Suffix(m: Text): Text {
    [DASH] + Format(Fnv(m), 36)
  }

  /** How much of each end fits next to a suffix of the given length. */
  function KeepLength(suffix: nat): int {
    (MAX_MONIKER_LENGTH - suffix) / 2 - 2
  }

  lemma KeepLengthFits(m: Text)
    ensures 2 <= |Suffix(m)| <= 8
    ensures 29 <= KeepLength(|Suffix(m)|) <= 32
  {
    SevenDigits(Fnv(m));
  }

  /** How much of each end of a long moniker is kept: 29 to 32 bytes. */
  function Keep(m: Text): (keep: nat)
    ensures 29 <= keep <= 32
  {
    KeepLengthFits(m);
    KeepLength(|Suffix(m)|)
  }

  /** The kept ends of a long moniker, joined by three dots. */
  function Kept(m: Text): Text
    requires |m| > MAX_MONIKER_LENGTH
  {
    var keep := Keep(m);
    m[..keep] + Ascii("...") + m[|m| - keep..]
  }

  function Condense(m: Text): (r: Text) {
    if |m| <= MAX_MONIKER_LENGTH then m else Kept(m) + Suffix(m)
  }

  lemma KeptLength(m: Text)
    requires |m| > MAX_MONIKER_LENGTH
    ensures 68 <= |Kept(m)| + |Suffix(m)| <= 69
  {
    KeepLengthFits(m);
  }

  method CondenseMoniker(m: Text) returns (r: Text)
    ensures r == Condense(m)
    ensures |m| <= 70 ==> r == m
    ensures |m| > 70 ==> 68 <= |r| <= 69
  {
    if |m| <= MAX_MONIKER_LENGTH {
      return m;
    }
    var h := Fnv32(m);
    var suffix := [DASH] + Format(h, 36);
    assert suffix == Suffix(m);
    var keepLen := (MAX_MONIKER_LENGTH - |suffix|) / 2 - 2;
    assert keepLen == Keep(m);
    r := m[..keepLen] + Ascii("...") + m[|m| - keepLen..] + suffix;
    assert r == Kept(m) + Suffix(m);
    KeptLength(m);
  }

  /** Condensing fits the limit, is the identity on what fits, and needs doing only once. */
  lemma CondenseFits(m: Text)
    ensures |Condense(m)| <= MAX_MONIKER_LENGTH
    ensures |m| > MAX_MONIKER_LENGTH ==> 68 <= |Condense(m)| <= 69
    ensures Condense(Condense(m)) == Condense(m)
  {
    if |m| > MAX_MONIKER_LENGTH {
      KeptLength(m);
    }
  }

  /** The condensed text begins and ends (before the suffix) like the original, over ranges of
      equal length that do not overlap. */
  lemma CondenseKeepsEnds(m: Text)
    requires |m| > MAX_MONIKER_LENGTH
    ensures var keep := Keep(m);
      && 29 <= keep && 2 * keep < |m|
      && Condense(m)[..keep] == m[..keep]
      && Condense(m)[keep + 3..2 * keep + 3] == m[|m| - keep..]
      && Condense(m)[2 * keep + 3..] == Suffix(m)
      && |Condense(m)| == 2 * keep + 3 + |Suffix(m)|
  {
    KeepLengthFits(m);
  }

  lemma Pieces(c: Text, a: Text, dots: Text, b: Text, f: Text, keep: nat)
    requires c == a + dots + b + [DASH] + f && |a| == |b| == keep && |dots| == 3
    ensures 2 * keep + 4 <= |c| && c[keep..keep + 3] == dots && c[2 * keep + 3] == DASH && c[2 * keep + 4..] == f
  {
  }

  lemma CondensedParts(m: Text, keep: nat, f: Text)
    requires |m| > MAX_MONIKER_LENGTH && keep == Keep(m) && [DASH] + f == Suffix(m)
    ensures keep < |m| && Condense(m) == m[..keep] + Ascii("...") + m[|m| - keep..] + [DASH] + f
  {
    var kept := Kept(m);
    Regroup(kept, [DASH], f);
  }

  /** Between the ends stand three dots; behind them a dash and the hash, which reads back in base 36. */
  lemma CondensedReadsBack(m: Text)
    requires |m| > MAX_MONIKER_LENGTH
    ensures var keep := Keep(m);
      && 2 * keep + 4 <= |Condense(m)|
      && Condense(m)[keep..keep + 3] == [46, 46, 46] && Condense(m)[2 * keep + 3] == 45
      && ReadBack(Condense(m)[2 * keep + 4..], 36) == Some(Fnv(m))
  {
    var keep, f, dots := Keep(m), Format(Fnv(m), 36), Ascii("...");
    assert dots == [46, 46, 46];
    CondensedParts(m, keep, f);
    Pieces(Condense(m), m[..keep], dots, m[|m| - keep..], f, keep);
    FormatReadsBack(Fnv(m), 36);
  }

  /** Nothing after position |a| is a dash. */
  lemma NoDashAfter(a: Text, s: Text)
    requires forall i :: 0 <= i < |s| ==> s[i] != DASH
    ensures var x := a + [DASH] + s; x[|a|] == DASH && forall i :: |a| < i < |x| ==> x[i] != DASH
  {
    var x := a + [DASH] + s;
    forall i | |a| < i < |x| ensures x[i] != DASH {
      assert x[i] == s[i - |a| - 1];
    }
  }

  /** Reading backwards to the last dash finds the suffix. */
  lemma LastDash(a: Text, s: Text, b: Text, t: Text)
    requires a + [DASH] + s == b + [DASH] + t
    requires forall i :: 0 <= i < |s| ==> s[i] != DASH
    requires forall i :: 0 <= i < |t| ==> t[i] != DASH
    ensures a == b && s == t
  {
    NoDashAfter(a, s);
    NoDashAfter(b, t);
    var x := a + [DASH] + s;
    assert |a| == |b|;
    assert x[..|a|] == a && x[..|b|] == b;
    assert x[|a| + 1..] == s && x[|b| + 1..] == t;
  }

  /** Condensing alike means hashing alike. */
  lemma CondensedHash(m: Text, n: Text)
    requires |m| > MAX_MONIKER_LENGTH && |n| > MAX_MONIKER_LENGTH && Condense(m) == Condense(n)
    ensures Fnv(m) == Fnv(n) && Kept(m) == Kept(n)
  {
    Regroup(Kept(m), [DASH], Format(Fnv(m), 36));
    Regroup(Kept(n), [DASH], Format(Fnv(n), 36));
    LastDash(Kept(m), Format(Fnv(m), 36), Kept(n), Format(Fnv(n), 36));
    FormatInjective(Fnv(m), Fnv(n), 36);
  }

  lemma KeptEnds(m: Text)
    requires |m| > MAX_MONIKER_LENGTH
    ensures var keep := Keep(m);
      && 29 <= keep <= 32 && |Kept(m)| == 2 * keep + 3
      && Kept(m)[..keep] == m[..keep] && Kept(m)[keep + 3..] == m[|m| - keep..]
  {
    KeepLengthFits(m);
  }

  predicate SameEnds(m: Text, n: Text, keep: nat)
    requires keep <= |m| && keep <= |n|
  {
    m[..keep] == n[..keep] && m[|m| - keep..] == n[|n| - keep..]
  }

  lemma SameEndsKeptAlike(m: Text, n: Text)
    requires |m| > MAX_MONIKER_LENGTH && |n| > MAX_MONIKER_LENGTH && Fnv(m) == Fnv(n)
    ensures Kept(m) == Kept(n) <==> SameEnds(m, n, Keep(m))
  {
    KeptEnds(m);
    KeptEnds(n);
    assert Keep(m) == Keep(n);
  }

  /** Two long monikers condense alike exactly when they hash alike and agree on both kept ends. */
  lemma CondenseAlike(m: Text, n: Text)
    requires |m| > MAX_MONIKER_LENGTH && |n| > MAX_MONIKER_LENGTH
    ensures Condense(m) == Condense(n) <==> Fnv(m) == Fnv(n) && SameEnds(m, n, Keep(m))
  {
    if Fnv(m) == Fnv(n) {
      SameEndsKeptAlike(m, n);
    }
    if Condense(m) == Condense(n) {
      CondensedHash(m, n);
    }
  }

  /** Long monikers of one length that differ in a single byte stay different. */
  lemma OneByteStaysVisible(m: Text, n: Text, i: nat)
    requires DifferOnlyAt(m, n, i)
    ensures Condense(m) != Condense(n)
  {
    if |m| > MAX_MONIKER_LENGTH {
      OneByteChangesFnv(m, n, i);
      CondenseAlike(m, n);
    }
  }

  /** So do long monikers that differ within the first or the last 29 bytes. */
  lemma EndsStayVisible(m: Text, n: Text)
    requires |m| > MAX_MONIKER_LENGTH && |n| > MAX_MONIKER_LENGTH
    requires !SameEnds(m, n, 29)
    ensures Condense(m) != Condense(n)
  {
    CondenseAlike(m, n);
    if SameEnds(m, n, Keep(m)) {
      KeptRangesCover(m, n, Keep(m));
    }
  }

  lemma KeptRangesCover(m: Text, n: Text, keep: nat)
    requires 29 <= keep <= |m| && keep <= |n|
    requires SameEnds(m, n, keep)
    ensures SameEnds(m, n, 29)
  {
    assert m[..keep][..29] == m[..29] && n[..keep][..29] == n[..29];
    assert m[|m| - keep..][keep - 29..] == m[|m| - 29..] && n[|n| - keep..][keep - 29..] == n[|n| - 29..];
  }

  /* ---------- node names ---------- */

  /** Node.Name: ra- for dymension rollapps, then chain id, kind, index and test name. */
  function Name(rollapp: bool, chainID: Text, validator: bool, index: nat, testName: Text): Text {
    (if rollapp then Ascii("ra-") else []) + chainID + [DASH] + (if validator then Ascii("val") else Ascii("fn"))
    + [DASH] + Format(index, 10) + [DASH] + testName
  }

  /** What names look like. */
  lemma NameReads()
    ensures Name(true, Ascii("c-1"), true, 0, Ascii("T")) == Ascii("ra-c-1-val-0-T")
    ensures Name(false, Ascii("h"), false, 12, Ascii("T")) == Ascii("h-fn-12-T")
  {
    assert Format(12, 10) == [49, 50] && Format(0, 10) == [48];
  }

  /** Nodes of one chain and kind whose indices have one digit get different monikers, however
      long the chain id and the test name are. */
  lemma NodesGetDistinctMonikers(rollapp: bool, chainID: Text, validator: bool, i: nat, j: nat, testName: Text)
    requires i < 10 && j < 10 && i != j
    ensures Condense(Name(rollapp, chainID, validator, i, testName))
         != Condense(Name(rollapp, chainID, validator, j, testName))
  {
    var head := (if rollapp then Ascii("ra-") else []) + chainID + [DASH] + (if validator then Ascii("val") else Ascii("fn")) + [DASH];
    var tail := [DASH] + testName;
    var m, n := Name(rollapp, chainID, validator, i, testName), Name(rollapp, chainID, validator, j, testName);
    assert m == head + [Digit(i)] + tail && n == head + [Digit(j)] + tail;
    if Digit(i) == Digit(j) {
      DigitInjective(i, j);
    }
    assert DifferOnlyAt(m, n, |head|);
    OneByteStaysVisible(m, n, |head|);
  }
}
