/** ULID generation (store/ulid.go): 48 bits of milliseconds and 80 random bits in Crockford base 32. */
module Ulid {
  import opened Basics
  import opened Text

  type Byte = n: nat | n < 256
  type Uint64 = n: nat | n < TWO64

  const CROCKFORD := "0123456789ABCDEFGHJKMNPQRSTVWXYZ"
  const TWO48 := 0x1_0000_0000_0000
  const TWO59 := 0x800_0000_0000_0000
  const TWO64 := 0x1_0000_0000_0000_0000
  const TWO80 := 0x1_0000_0000_0000_0000_0000
  const TWO128 := 0x1_0000_0000_0000_0000_0000_0000_0000_0000

  // ----- machine words ------------------------------------------------------
  // Go defines `x >> n` as dividing by 2^n and `x << n` as multiplying by 2^n modulo the width;
  // `&` and `|` work bit by bit.

  function And(a: nat, b: nat): (r: nat)
    ensures r <= a
  {
    if a == 0 || b == 0 then 0
    else (if a % 2 == 1 && b % 2 == 1 then 1 else 0) + 2 * And(a / 2, b / 2)
  }

  function Or(a: nat, b: nat): nat
    decreases a + b
  {
    if a == 0 && b == 0 then 0
    else (if a % 2 == 1 || b % 2 == 1 then 1 else 0) + 2 * Or(a / 2, b / 2)
  }

  lemma {:induction false} PowAdd(b: nat, m: nat, n: nat)
    ensures Pow(b, m + n) == Pow(b, m) * Pow(b, n)
  {
    if m == 0 {
    } else {
      PowAdd(b, m - 1, n);
      assert b * (Pow(b, m - 1) * Pow(b, n)) == b * Pow(b, m - 1) * Pow(b, n);
    }
  }

  lemma Pow59()
    ensures Pow(2, 59) == TWO59
  {
    PowAdd(2, 4, 4);
    PowAdd(2, 8, 8);
    PowAdd(2, 16, 16);
    PowAdd(2, 16, 8);
    PowAdd(2, 24, 3);
    PowAdd(2, 32, 27);
  }

  lemma ModUnique(d: nat, q: nat, r: nat)
    requires r < d
    ensures (d * q + r) % d == r
  {
    var x := d * q + r;
    assert x == d * (x / d) + x % d;
    MulGap(q, x / d, d);
    MulGap(x / d, q, d);
  }

  lemma {:induction false} MulGap(x: nat, y: nat, m: nat)
    ensures x < y ==> x * m + m <= y * m
  {
    if x < y {
      MulGap(x, y - 1, m);
      assert y * m == (y - 1) * m + m;
    }
  }

  lemma HalfMod(x: nat, p: nat)
    requires p >= 1
    ensures x % (2 * p) == 2 * (x / 2 % p) + x % 2
  {
    var h := x / 2;
    var q, r := h / p, h % p;
    assert h == p * q + r;
    assert 2 * (p * q) == (2 * p) * q;
    ModUnique(2 * p, q, 2 * r + x % 2);
  }

  lemma AndOdd(x: nat, h: nat)
    ensures And(x, 2 * h + 1) == x % 2 + 2 * And(x / 2, h)
  {
    assert x != 0 ==> (2 * h + 1) % 2 == 1 && (2 * h + 1) / 2 == h;
  }

  /** A mask of n ones keeps the remainder modulo 2^n. */
  lemma {:induction false} AndMask(x: nat, n: nat)
    ensures Pow(2, n) >= 1
    ensures And(x, Pow(2, n) - 1) == x % Pow(2, n)
  {
    if n == 0 {
    } else {
      var p := Pow(2, n - 1);
      AndMask(x / 2, n - 1);
      AndOdd(x, p - 1);
      HalfMod(x, p);
    }
  }

  lemma {:induction false} OrZero(b: nat)
    ensures Or(0, b) == b
  {
    if b == 0 {
    } else {
      OrZero(b / 2);
    }
  }

  /** Words that share no bit are added by `|`. */
  lemma {:induction false} OrDisjoint(a: nat, b: nat, n: nat)
    requires a < Pow(2, n)
    ensures Or(a, b * Pow(2, n)) == a + b * Pow(2, n)
  {
    if n == 0 {
      OrZero(b);
    } else {
      var h := b * Pow(2, n - 1);
      assert b * Pow(2, n) == 2 * h;
      OrDisjoint(a / 2, b, n - 1);
      if a != 0 || h != 0 {
        assert Or(a, 2 * h) == (if a % 2 == 1 then 1 else 0) + 2 * Or(a / 2, h);
      }
    }
  }

  /** `(lo >> 5) | (hi << 59)` moves the low five bits of hi to the top of lo. */
  lemma CarryBits(hi: Uint64, lo: Uint64)
    ensures Or(lo / 32, hi * TWO59 % TWO64) == lo / 32 + (hi % 32) * TWO59 < TWO64
  {
    ShlWraps(hi);
    Pow59();
    OrDisjoint(lo / 32, hi % 32, 59);
  }

  lemma ShlWraps(hi: Uint64)
    ensures hi * TWO59 % TWO64 == (hi % 32) * TWO59
  {
    var q, r := hi / 32, hi % 32;
    assert hi * TWO59 == q * TWO64 + r * TWO59 && r * TWO59 < TWO64;
  }

  /** So one carry step divides the 128-bit value by 32. */
  lemma CarryDivides(hi: Uint64, lo: Uint64)
    ensures (hi / 32) * TWO64 + (lo / 32 + (hi % 32) * TWO59) == (hi * TWO64 + lo) / 32
    ensures (hi * TWO64 + lo) % 32 == lo % 32
  {
    var q, r, p, t := hi / 32, hi % 32, lo / 32, lo % 32;
    assert hi * TWO64 + lo == 32 * (q * TWO64 + p + r * TWO59) + t;
  }

  // ----- encodeCrockford ----------------------------------------------------

  /** The value of a byte string read most significant byte first. */
  function BigEndian(b: seq<Byte>): nat {
    if b == [] then 0 else BigEndian(b[..|b| - 1]) * 256 + b[|b| - 1]
  }

  lemma {:induction false} BigEndianBound(b: seq<Byte>)
    ensures BigEndian(b) < Pow(256, |b|)
  {
    if b == [] {
    } else {
      BigEndianBound(b[..|b| - 1]);
    }
  }

  lemma {:induction false} BigEndianAppend(a: seq<Byte>, b: seq<Byte>)
    ensures BigEndian(a + b) == BigEndian(a) * Pow(256, |b|) + BigEndian(b)
  {
    if b == [] {
      assert a + b == a;
    } else {
      assert (a + b)[..|a + b| - 1] == a + b[..|b| - 1];
      BigEndianAppend(a, b[..|b| - 1]);
      assert BigEndian(a) * Pow(256, |b| - 1) * 256 == BigEndian(a) * Pow(256, |b|);
    }
  }

  lemma Pow256()
    ensures Pow(256, 6) == TWO48 && Pow(256, 8) == TWO64 && Pow(256, 10) == TWO80 && Pow(256, 16) == TWO128
  {
    PowAdd(256, 3, 3);
    PowAdd(256, 4, 4);
    PowAdd(256, 6, 4);
    PowAdd(256, 8, 8);
  }

  /** The symbol of one base-32 digit: digits, then letters without I, L, O and U. */
  function Symbol(d: nat): char
    requires d < 32
  {
    if d < 10 then '0' + d as char
    else if d < 18 then 'A' + (d - 10) as char
    else if d < 20 then 'J' + (d - 18) as char
    else if d < 22 then 'M' + (d - 20) as char
    else if d < 27 then 'P' + (d - 22) as char
    else 'V' + (d - 27) as char
  }

  lemma AlphabetIs(d: nat)
    requires d < 32
    ensures CROCKFORD[d] == Symbol(d)
  {
  }

  /** The low n base-32 digits of v as Crockford symbols, most significant first. */
  function Symbols(v: nat, n: nat): (s: string)
    ensures |s| == n
  {
    if n == 0 then "" else Symbols(v / 32, n - 1) + [Symbol(v % 32)]
  }

  /** binary.BigEndian.Uint64 on eight bytes. */
  function Uint64Of(b: seq<Byte>): (w: Uint64)
    requires |b| == 8
  {
    BigEndianBound(b);
    Pow256();
    BigEndian(b)
  }

  lemma SymbolStep(v: nat, hi: Uint64, lo: Uint64, n: nat, rest: string)
    requires n > 0 && Symbols(v, 26) == Symbols(hi * TWO64 + lo, n) + rest
    ensures Symbols(v, 26) ==
      Symbols((hi / 32) * TWO64 + (lo / 32 + (hi % 32) * TWO59), n - 1) + ([Symbol(lo % 32)] + rest)
  {
    CarryDivides(hi, lo);
  }

  lemma SplitWords(b: seq<Byte>)
    requires |b| == 16
    ensures BigEndian(b) == Uint64Of(b[0..8]) * TWO64 + Uint64Of(b[8..16])
  {
    BigEndianAppend(b[0..8], b[8..16]);
    Pow256();
    assert b[0..8] + b[8..16] == b;
  }

  /** `(lo >> 5) | (hi << 59)`. */
  function Carried(hi: Uint64, lo: Uint64): Uint64 {
    CarryBits(hi, lo);
    Or(lo / 32, hi * TWO59 % TWO64)
  }

  /** crockford[lo&0x1f]. */
  function Emitted(lo: Uint64): char {
    AndMask(lo, 5);
    assert Pow(2, 5) == 32;
    CROCKFORD[And(lo, 0x1f)]
  }

  /** One turn of the loop emits the lowest digit and divides by 32. */
  lemma OneSymbol(v: nat, hi: Uint64, lo: Uint64, n: nat, tail: string)
    requires n > 0 && Symbols(v, 26) == Symbols(hi * TWO64 + lo, n) + tail
    ensures Symbols(v, 26) == Symbols((hi / 32) * TWO64 + Carried(hi, lo), n - 1) + ([Emitted(lo)] + tail)
  {
    AndMask(lo, 5);
    assert Pow(2, 5) == 32;
    AlphabetIs(lo % 32);
    CarryBits(hi, lo);
    SymbolStep(v, hi, lo, n, tail);
  }

  /** The digits still in the two words, then the symbols already written, are those of v. */
  ghost predicate Encoding(v: nat, hi: Uint64, lo: Uint64, n: nat, written: string) {
    Symbols(v, 26) == Symbols(hi * TWO64 + lo, n) + written
  }

  /** The loop body: emit the lowest digit and shift the 128-bit value right by five bits. */
  method EmitSymbol(out: array<char>, i: nat, hi: Uint64, lo: Uint64, ghost v: nat) returns (hi': Uint64, lo': Uint64)
    requires i < out.Length && Encoding(v, hi, lo, i + 1, out[i + 1..])
    modifies out
    ensures Encoding(v, hi', lo', i, out[i..])
  {
    ghost var tail := out[i + 1..];
    OneSymbol(v, hi, lo, i + 1, tail);
    out[i] := Emitted(lo);
    assert out[i..] == [Emitted(lo)] + tail;
    lo' := Carried(hi, lo);
    hi' := hi / 32;
  }

  /** encodeCrockford: one symbol per turn, from the last to the first. */
  method EncodeCrockford(b: seq<Byte>) returns (s: string)
    requires |b| == 16
    ensures s == Symbols(BigEndian(b), 26)
  {
    var out := new char[26](_ => '0');
    var hi: Uint64, lo: Uint64 := Uint64Of(b[0..8]), Uint64Of(b[8..16]);
    ghost var v := BigEndian(b);
    SplitWords(b);
    assert out[26..] == "";
    var i := 25;
    while i >= 0
      invariant -1 <= i <= 25
      invariant Encoding(v, hi, lo, i + 1, out[i + 1..])
    {
      hi, lo := EmitSymbol(out, i, hi, lo, v);
      i := i - 1;
    }
    s := out[..];
    assert out[0..] == s;
  }

  // ----- what the symbols mean ------------------------------------------------

  ghost predicate IsSymbol(c: char) { exists d: nat :: d < 32 && Symbol(d) == c }

  lemma SymbolsSorted(i: nat, j: nat)
    requires i < 32 && j < 32
    ensures i < j <==> Symbol(i) < Symbol(j)
  {
  }

  /** Position of a symbol in the alphabet. */
  ghost function Digit(c: char): (d: nat)
    requires IsSymbol(c)
    ensures d < 32 && Symbol(d) == c
  {
    var d: nat :| d < 32 && Symbol(d) == c;
    d
  }

  ghost predicate InAlphabet(s: string) {
    forall i :: 0 <= i < |s| ==> IsSymbol(s[i])
  }

  /** Positional base-32 value of a string of symbols. */
  ghost function Decode(s: string): nat
    requires InAlphabet(s)
  {
    if s == "" then 0 else Decode(s[..|s| - 1]) * 32 + Digit(s[|s| - 1])
  }

  lemma {:induction false} DecodeSymbols(v: nat, n: nat)
    requires v < Pow(32, n)
    ensures InAlphabet(Symbols(v, n)) && Decode(Symbols(v, n)) == v
  {
    if n == 0 {
    } else {
      DecodeSymbols(v / 32, n - 1);
      assert IsSymbol(Symbol(v % 32));
      assert Symbols(v, n)[..n - 1] == Symbols(v / 32, n - 1);
    }
  }

  lemma {:induction false} SymbolsDecode(s: string)
    requires InAlphabet(s)
    ensures Decode(s) < Pow(32, |s|) && Symbols(Decode(s), |s|) == s
  {
    if s == "" {
    } else {
      var p := s[..|s| - 1];
      SymbolsDecode(p);
      var v, d := Decode(p), Digit(s[|s| - 1]);
      assert Decode(s) == v * 32 + d && (v * 32 + d) / 32 == v && (v * 32 + d) % 32 == d;
      assert s == p + [Symbol(d)];
    }
  }

  lemma Pow32()
    ensures Pow(32, 25) * 8 == TWO128 && Pow(32, 26) == 4 * TWO128
  {
    PowAdd(32, 3, 3);
    PowAdd(32, 6, 6);
    PowAdd(32, 12, 12);
    PowAdd(32, 24, 1);
  }

  /** Encoding 16 bytes and reading the digits back gives their 128-bit value, so nothing is lost. */
  lemma RoundTrip(b: seq<Byte>)
    requires |b| == 16
    ensures InAlphabet(Symbols(BigEndian(b), 26)) && Decode(Symbols(BigEndian(b), 26)) == BigEndian(b)
  {
    BigEndianBound(b);
    Pow256();
    Pow32();
    DecodeSymbols(BigEndian(b), 26);
  }

  /** The bytes of a value, most significant first. */
  function Bytes(v: nat, n: nat): (b: seq<Byte>)
    ensures |b| == n
  {
    if n == 0 then [] else Bytes(v / 256, n - 1) + [v % 256]
  }

  lemma {:induction false} BytesValue(v: nat, n: nat)
    requires v < Pow(256, n)
    ensures BigEndian(Bytes(v, n)) == v
  {
    if n == 0 {
    } else {
      BytesValue(v / 256, n - 1);
      assert Bytes(v, n)[..n - 1] == Bytes(v / 256, n - 1);
    }
  }

  lemma ShiftByte(v: nat, m: nat)
    ensures (v + 256 * m) / 256 == v / 256 + m && (v + 256 * m) % 256 == v % 256
  {
  }

  lemma PullOut(q: nat, b: nat, p: nat)
    ensures q * (b * p) == b * (q * p)
  {
  }

  /** Bytes above the n-th are lost. */
  lemma {:induction false} BytesWrap(v: nat, q: nat, n: nat)
    ensures Bytes(v + q * Pow(256, n), n) == Bytes(v, n)
  {
    if n == 0 {
    } else {
      PullOut(q, 256, Pow(256, n - 1));
      ShiftByte(v, q * Pow(256, n - 1));
      BytesWrap(v / 256, q, n - 1);
    }
  }

  lemma {:induction false} BytesOfValue(b: seq<Byte>)
    ensures Bytes(BigEndian(b), |b|) == b
  {
    if b == [] {
    } else {
      BytesOfValue(b[..|b| - 1]);
      assert b == b[..|b| - 1] + [b[|b| - 1]];
    }
  }

  /**
   * The encodings of 16 bytes are exactly the 26-symbol strings that start with a symbol at most
   * '7', and each comes from one byte string only.
   */
  lemma EncodingsCharacterised(s: string)
    requires |s| == 26 && InAlphabet(s)
    ensures s[0] <= '7' <==> exists b: seq<Byte> :: |b| == 16 && Symbols(BigEndian(b), 26) == s
    ensures forall a: seq<Byte>, b: seq<Byte> | |a| == 16 && |b| == 16 && Symbols(BigEndian(a), 26) == s &&
      Symbols(BigEndian(b), 26) == s :: a == b
  {
    SymbolsDecode(s);
    Pow256();
    FirstSymbol(s);
    var v := Decode(s);
    if v < TWO128 {
      BytesValue(v, 16);
      assert |Bytes(v, 16)| == 16 && Symbols(BigEndian(Bytes(v, 16)), 26) == s;
    }
    forall b: seq<Byte> | |b| == 16 && Symbols(BigEndian(b), 26) == s
      ensures BigEndian(b) == v && v < TWO128 && b == Bytes(v, 16)
    {
      RoundTrip(b);
      BigEndianBound(b);
      BytesOfValue(b);
    }
  }

  lemma {:induction false} LeadingDigit(s: string)
    requires s != "" && InAlphabet(s)
    ensures Decode(s) == Digit(s[0]) * Pow(32, |s| - 1) + Decode(s[1..])
  {
    if |s| == 1 {
      assert s[..0] == "";
    } else {
      var p := s[..|s| - 1];
      LeadingDigit(p);
      var d, m := Digit(s[0]), Pow(32, |p| - 1);
      assert p[0] == s[0];
      assert s[1..][..|s[1..]| - 1] == p[1..];
      assert Decode(s) == (d * m + Decode(p[1..])) * 32 + Digit(s[|s| - 1]);
      assert Decode(s[1..]) == Decode(p[1..]) * 32 + Digit(s[|s| - 1]);
      MulShuffle(d, m);
    }
  }

  lemma MulShuffle(d: nat, m: nat)
    ensures d * m * 32 == d * (32 * m)
  {
  }

  lemma FirstSymbol(s: string)
    requires |s| == 26 && InAlphabet(s)
    ensures s[0] <= '7' <==> Decode(s) < TWO128
  {
    LeadingDigit(s);
    SymbolsDecode(s[1..]);
    Pow32();
    var d, m := Digit(s[0]), Pow(32, 25);
    MulGap(d, 8, m);
    MulGap(7, d, m);
    SymbolsSorted(7, d);
    assert Symbol(7) == '7';
  }

  // ----- order ----------------------------------------------------------------

  /** Byte-wise order, as bytes.Compare sees it. */
  predicate BytesLess(a: seq<Byte>, b: seq<Byte>) {
    if b == [] then false
    else if a == [] then true
    else if a[0] != b[0] then a[0] < b[0]
    else BytesLess(a[1..], b[1..])
  }

  lemma {:induction false} BytesOrder(a: seq<Byte>, b: seq<Byte>)
    requires |a| == |b|
    ensures BytesLess(a, b) <==> BigEndian(a) < BigEndian(b)
  {
    if a == [] {
    } else {
      BytesOrder(a[1..], b[1..]);
      assert a == [a[0]] + a[1..] && b == [b[0]] + b[1..];
      BigEndianAppend([a[0]], a[1..]);
      BigEndianAppend([b[0]], b[1..]);
      BigEndianBound(a[1..]);
      BigEndianBound(b[1..]);
      assert BigEndian([a[0]]) == a[0] && BigEndian([b[0]]) == b[0] by {
        assert [a[0]][..0] == [] && [b[0]][..0] == [];
      }
      MulGap(a[0], b[0], Pow(256, |a| - 1));
      MulGap(b[0], a[0], Pow(256, |a| - 1));
    }
  }

  lemma {:induction false} SymbolsMonotone(v: nat, w: nat, n: nat)
    requires v < w < Pow(32, n)
    ensures LexLess(Symbols(v, n), Symbols(w, n))
  {
    assert n != 0;
    var p, q := Symbols(v / 32, n - 1), Symbols(w / 32, n - 1);
    if v / 32 < w / 32 {
      SymbolsMonotone(v / 32, w / 32, n - 1);
      LexExtend(p, q, [Symbol(v % 32)], [Symbol(w % 32)]);
    } else {
      SymbolsSorted(v % 32, w % 32);
      LexSamePrefix(p, [Symbol(v % 32)], [Symbol(w % 32)]);
    }
  }

  /** The string sorts like the bytes. */
  lemma EncodingPreservesOrder(a: seq<Byte>, b: seq<Byte>)
    requires |a| == |b| == 16
    ensures BytesLess(a, b) <==> LexLess(Symbols(BigEndian(a), 26), Symbols(BigEndian(b), 26))
  {
    var v, w := BigEndian(a), BigEndian(b);
    BytesOrder(a, b);
    BigEndianBound(a);
    BigEndianBound(b);
    Pow256();
    Pow32();
    if v < w {
      SymbolsMonotone(v, w, 26);
    } else {
      if w < v {
        SymbolsMonotone(w, v, 26);
        if LexLess(Symbols(v, 26), Symbols(w, 26)) {
          LexTransitive(Symbols(v, 26), Symbols(w, 26), Symbols(v, 26));
        }
      }
      LexIrreflexive(Symbols(v, 26));
    }
  }

  // ----- NewULID --------------------------------------------------------------

  /** time.UnixMilli of a time given in nanoseconds since the epoch. */
  function UnixMilli(t: int): int { t / 1_000_000 }

  /** uint64(t.UnixMilli()). */
  function Millis(t: int): (ms: Uint64) { UnixMilli(t) % TWO64 }

  /** 48 bits of milliseconds above 80 random bits. */
  function UlidValue(t: int, entropy: seq<Byte>): nat
    requires |entropy| == 10
  {
    (Millis(t) % TWO48) * TWO80 + BigEndian(entropy)
  }

  /** The ULID for time t and ten random bytes. */
  function UlidOf(t: int, entropy: seq<Byte>): string
    requires |entropy| == 10
  {
    Symbols(UlidValue(t, entropy), 26)
  }

  /** byte(ms >> 40) down to byte(ms) into the first six bytes. */
  method PutTimestamp(b: array<Byte>, ms: Uint64) returns (ghost head: seq<Byte>)
    requires b.Length == 16
    modifies b
    ensures |head| == 6 && b[..6] == head && BigEndian(head) == ms % TWO48
  {
    b[0], b[1], b[2] := ms / 0x100_0000_0000 % 256, ms / 0x1_0000_0000 % 256, ms / 0x100_0000 % 256;
    b[3], b[4], b[5] := ms / 0x1_0000 % 256, ms / 0x100 % 256, ms % 256;
    head := b[..6];
    TimestampBytes(ms, head);
  }

  method NewUlid(t: int, entropy: seq<Byte>) returns (s: string)
    requires |entropy| == 10
    ensures s == UlidOf(t, entropy)
  {
    var b := new Byte[16](_ => 0);
    var ms := Millis(t);
    ghost var head := PutTimestamp(b, ms);
    forall i | 0 <= i < 10 {
      b[6 + i] := entropy[i];
    }
    assert b[..] == head + entropy;
    UlidBytes(head, entropy);
    s := EncodeCrockford(b[..]);
  }

  lemma UlidBytes(head: seq<Byte>, entropy: seq<Byte>)
    requires |entropy| == 10
    ensures BigEndian(head + entropy) == BigEndian(head) * TWO80 + BigEndian(entropy)
  {
    BigEndianAppend(head, entropy);
    Pow256();
  }

  lemma TimestampBytes(ms: Uint64, head: seq<Byte>)
    requires |head| == 6
    requires head[0] == ms / 0x100_0000_0000 % 256 && head[1] == ms / 0x1_0000_0000 % 256 &&
      head[2] == ms / 0x100_0000 % 256
    requires head[3] == ms / 0x1_0000 % 256 && head[4] == ms / 0x100 % 256 && head[5] == ms % 256
    ensures BigEndian(head) == ms % TWO48
  {
    var q1 := ms / 256;
    var q2 := q1 / 256;
    var q3 := q2 / 256;
    var q4 := q3 / 256;
    var q5 := q4 / 256;
    NestedDivision(ms);
    assert head == [q5 % 256, q4 % 256, q3 % 256, q2 % 256, q1 % 256, ms % 256];
    SixBytes(ms);
    Pow256();
    BytesWrap(ms % TWO48, ms / TWO48, 6);
    BytesValue(ms % TWO48, 6);
  }

  lemma NestedDivision(v: nat)
    ensures v / 0x1_0000 == v / 256 / 256
    ensures v / 0x100_0000 == v / 256 / 256 / 256
    ensures v / 0x1_0000_0000 == v / 256 / 256 / 256 / 256
    ensures v / 0x100_0000_0000 == v / 256 / 256 / 256 / 256 / 256
  {
  }

  lemma SixBytes(v: nat)
    ensures Bytes(v, 6) == [v / 256 / 256 / 256 / 256 / 256 % 256, v / 256 / 256 / 256 / 256 % 256,
      v / 256 / 256 / 256 % 256, v / 256 / 256 % 256, v / 256 % 256, v % 256]
  {
    var q1 := v / 256;
    var q2 := q1 / 256;
    var q3 := q2 / 256;
    var q4 := q3 / 256;
    var q5 := q4 / 256;
    assert Bytes(q5, 1) == Bytes(q5 / 256, 0) + [q5 % 256];
    assert Bytes(q4, 2) == Bytes(q5, 1) + [q4 % 256];
    assert Bytes(q3, 3) == Bytes(q4, 2) + [q3 % 256];
    assert Bytes(q2, 4) == Bytes(q3, 3) + [q2 % 256];
    assert Bytes(q1, 5) == Bytes(q2, 4) + [q1 % 256];
    assert Bytes(v, 6) == Bytes(q1, 5) + [v % 256];
  }

  /** A reading of the clock that fits the 48-bit timestamp field. */
  predicate InRange(t: int) { 0 <= UnixMilli(t) < TWO48 }

  /** A strictly earlier millisecond gives a smaller identifier, whatever the random bits are. */
  lemma UlidsSortByTime(t: int, e: seq<Byte>, u: int, f: seq<Byte>)
    requires |e| == |f| == 10 && InRange(t) && InRange(u)
    requires UnixMilli(t) < UnixMilli(u)
    ensures LexLess(UlidOf(t, e), UlidOf(u, f))
  {
    BigEndianBound(e);
    BigEndianBound(f);
    Pow256();
    Pow32();
    var x, y := UnixMilli(t), UnixMilli(u);
    assert Millis(t) % TWO48 == x && Millis(u) % TWO48 == y;
    MulGap(x, y, TWO80);
    SymbolsMonotone(x * TWO80 + BigEndian(e), y * TWO80 + BigEndian(f), 26);
  }

  lemma ValueBound(t: int, e: seq<Byte>)
    requires |e| == 10
    ensures UlidValue(t, e) < TWO128
  {
    BigEndianBound(e);
    Pow256();
  }

  lemma DecodesBack(v: nat, n: nat)
    requires n == 26 && v < TWO128
    ensures InAlphabet(Symbols(v, n)) && Decode(Symbols(v, n)) == v
  {
    Pow32();
    DecodeSymbols(v, n);
  }

  lemma SameSymbols(v: nat, w: nat, n: nat)
    requires n == 26 && v < TWO128 && w < TWO128 && Symbols(v, n) == Symbols(w, n)
    ensures v == w
  {
    DecodesBack(v, n);
    DecodesBack(w, n);
  }

  /** Two identifiers are equal exactly if their milliseconds (modulo 2^48) and their random bits are. */
  lemma UlidsDiffer(t: int, e: seq<Byte>, u: int, f: seq<Byte>)
    requires |e| == |f| == 10
    ensures UlidOf(t, e) == UlidOf(u, f) <==> e == f && UnixMilli(t) % TWO48 == UnixMilli(u) % TWO48
  {
    ValueBound(t, e);
    ValueBound(u, f);
    SameValues(t, e, u, f);
    if UlidOf(t, e) == UlidOf(u, f) {
      SameSymbols(UlidValue(t, e), UlidValue(u, f), 26);
    }
  }

  lemma SameValues(t: int, e: seq<Byte>, u: int, f: seq<Byte>)
    requires |e| == |f| == 10
    ensures UlidValue(t, e) == UlidValue(u, f) <==> e == f && UnixMilli(t) % TWO48 == UnixMilli(u) % TWO48
  {
    Millis48(t);
    Millis48(u);
    if UlidValue(t, e) == UlidValue(u, f) {
      SplitsBack(Millis(t) % TWO48, e, Millis(u) % TWO48, f);
    }
  }

  lemma Millis48(t: int)
    ensures Millis(t) % TWO48 == UnixMilli(t) % TWO48
  {
  }

  lemma SplitsBack(x: nat, e: seq<Byte>, y: nat, f: seq<Byte>)
    requires |e| == |f| == 10 && x * TWO80 + BigEndian(e) == y * TWO80 + BigEndian(f)
    ensures x == y && e == f
  {
    BigEndianBound(e);
    BigEndianBound(f);
    Pow256();
    BytesOfValue(e);
    BytesOfValue(f);
  }

  /** The 32 symbols are the digits and the capitals without I, L, O and U. */
  lemma SymbolsAre(c: char)
    ensures IsSymbol(c) <==> '0' <= c <= '9' || ('A' <= c <= 'Z' && c !in "ILOU")
  {
    if '0' <= c <= '9' || ('A' <= c <= 'Z' && c !in "ILOU") {
      var n := c as int;
      var d :=
        if c <= '9' then n - 48 else if c < 'I' then n - 55 else if c < 'L' then n - 56
        else if c < 'O' then n - 57 else if c < 'U' then n - 58 else n - 59;
      assert 0 <= d < 32 && Symbol(d) == c;
    }
  }

  /** A clock reading in nanoseconds falls in the millisecond it has completed. */
  lemma WholeMillis(ms: int, rest: nat)
    requires rest < 1_000_000
    ensures UnixMilli(1_000_000 * ms + rest) == ms
  {
  }
}
