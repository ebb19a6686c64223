/** Symbol ids: 32-bit FNV-1a over the upper-cased symbol. */
module SymbolHash {
  import opened Bits

  type Byte = c: nat | c < 256

  const FNV_PRIME: nat := 16777619
  const FNV_OFFSET: nat := 2166136261
  const FNV_PRIME_INVERSE: nat := 899433627
  const WORD: nat := 0x1_0000_0000

  /** `toupper` in the C locale. */
  function ToUpper(c: Byte): Byte {
    if 97 <= c <= 122 then c - 32 else c
  }

  function Upper(s: seq<Byte>): (r: seq<Byte>)
    ensures |r| == |s|
  {
    seq(|s|, i requires 0 <= i < |s| => ToUpper(s[i]))
  }

  /** Xor with one byte, then multiply by the prime in 32-bit arithmetic. */
  function Mix(h: nat, c: Byte): (r: nat)
    ensures r < WORD
  {
    (Xor(h, c) * FNV_PRIME) % WORD
  }

  function Unmix(h: nat, c: Byte): nat {
    Xor((h * FNV_PRIME_INVERSE) % WORD, c)
  }

  function Fold(s: seq<Byte>): (r: nat)
    ensures r < WORD
  {
    if s == [] then FNV_OFFSET else Mix(Fold(s[..|s| - 1]), s[|s| - 1])
  }

  function SymbolId(symbol: seq<Byte>): nat {
    Fold(Upper(symbol))
  }

  method ComputeSymbolId(symbol: seq<Byte>) returns (hash: nat)
    ensures hash == SymbolId(symbol)
  {
    var upper: seq<Byte> := [];
    for i := 0 to |symbol|
      invariant upper == Upper(symbol)[..i]
    {
      upper := upper + [ToUpper(symbol[i])];
    }
    hash := FNV_OFFSET;
    for i := 0 to |upper|
      invariant hash == Fold(upper[..i])
    {
      assert upper[..i + 1][..i] == upper[..i];
      hash := (Xor(hash, upper[i]) * FNV_PRIME) % WORD;
    }
    assert upper[..|upper|] == upper == Upper(symbol);
  }

  /** Multiplying by `p` modulo `m` is undone by multiplying by an inverse of `p`. */
  lemma MultiplyBack(x: nat, p: nat, inverse: nat, q: nat, m: nat)
    requires x < m && p * inverse == q * m + 1
    ensures (((x * p) % m) * inverse) % m == x
  {
    var a, r := (x * p) / m, (x * p) % m;
    calc {
      r * inverse;
      (x * p - a * m) * inverse;
      x * p * inverse - a * m * inverse;
      { assert x * p * inverse == x * (p * inverse) == x * (q * m + 1) == x * q * m + x; }
      x * q * m + x - a * m * inverse;
      { assert a * m * inverse == a * inverse * m; }
      x * q * m - a * inverse * m + x;
      { assert (x * q - a * inverse) * m == x * q * m - a * inverse * m; }
      (x * q - a * inverse) * m + x;
    }
    ModUnique(r * inverse, m, x * q - a * inverse, x);
  }

  /** Multiplying by the prime and by its inverse restores a 32-bit word. */
  lemma PrimeInvertible(x: nat)
    requires x < WORD
    ensures (((x * FNV_PRIME) % WORD) * FNV_PRIME_INVERSE) % WORD == x
    ensures (((x * FNV_PRIME_INVERSE) % WORD) * FNV_PRIME) % WORD == x
  {
    MultiplyBack(x, FNV_PRIME, FNV_PRIME_INVERSE, 3513497, WORD);
    MultiplyBack(x, FNV_PRIME_INVERSE, FNV_PRIME, 3513497, WORD);
  }

  lemma ByteFitsWord(h: nat, c: Byte)
    requires h < WORD
    ensures Xor(h, c) < WORD
  {
    assert Pow2(8) == 256;
    Pow2Add(8, 8);
    Pow2Add(16, 16);
    XorBounded(h, c, 32);
  }

  /** Each step of the hash is a bijection on the 32-bit states, with this inverse. */
  lemma MixBijective(h: nat, c: Byte)
    requires h < WORD
    ensures Unmix(Mix(h, c), c) == h
    ensures Unmix(h, c) < WORD && Mix(Unmix(h, c), c) == h
  {
    ByteFitsWord(h, c);
    PrimeInvertible(Xor(h, c));
    XorInvolutive(h, c);
    var m := (h * FNV_PRIME_INVERSE) % WORD;
    ByteFitsWord(m, c);
    XorInvolutive(m, c);
    PrimeInvertible(h);
  }

  /** From one state, different bytes lead to different states. */
  lemma MixSeparatesBytes(h: nat, c: Byte, d: Byte)
    requires h < WORD && Mix(h, c) == Mix(h, d)
    ensures c == d
  {
    ByteFitsWord(h, c);
    ByteFitsWord(h, d);
    PrimeInvertible(Xor(h, c));
    PrimeInvertible(Xor(h, d));
    XorComm(h, c);
    XorComm(h, d);
    XorInvolutive(c, h);
    XorInvolutive(d, h);
  }

  lemma {:induction false} FoldSeparates(s: seq<Byte>, t: seq<Byte>, i: nat)
    requires |s| == |t| && i < |s| && s[i] != t[i]
    requires forall j | 0 <= j < |s| && j != i :: s[j] == t[j]
    ensures Fold(s) != Fold(t)
  {
    var n := |s| - 1;
    if i == n {
      assert s[..n] == t[..n];
      if Fold(s) == Fold(t) {
        MixSeparatesBytes(Fold(s[..n]), s[n], t[n]);
      }
    } else {
      FoldSeparates(s[..n], t[..n], i);
      MixBijective(Fold(s[..n]), s[n]);
      MixBijective(Fold(t[..n]), t[n]);
    }
  }

  /** Are the two bytes the same letter up to ASCII case, or the same byte? */
  predicate SameLetter(a: Byte, b: Byte) {
    a == b || (97 <= a <= 122 && b == a - 32) || (97 <= b <= 122 && a == b - 32)
  }

  /** Two symbols of equal length that differ in exactly one letter, case aside, always
      get different ids. */
  lemma OneLetterApart(s: seq<Byte>, t: seq<Byte>, i: nat)
    requires |s| == |t| && i < |s| && !SameLetter(s[i], t[i])
    requires forall j | 0 <= j < |s| && j != i :: SameLetter(s[j], t[j])
    ensures SymbolId(s) != SymbolId(t)
  {
    assert forall j | 0 <= j < |s| :: SameLetter(s[j], t[j]) <==> ToUpper(s[j]) == ToUpper(t[j]);
    FoldSeparates(Upper(s), Upper(t), i);
  }

  /** The id ignores ASCII case. */
  lemma CaseInsensitive(s: seq<Byte>, t: seq<Byte>)
    requires |s| == |t| && forall j | 0 <= j < |s| :: SameLetter(s[j], t[j])
    ensures SymbolId(s) == SymbolId(t)
  {
    assert Upper(s) == Upper(t);
  }

  lemma {:induction false} XorZero(x: nat)
    ensures Xor(x, 0) == x
  {
    if x == 0 {
    } else {
      XorZero(x / 2);
    }
  }

  lemma XorBit(x: nat, y: nat, rest: nat)
    requires rest == Xor(x / 2, y / 2)
    ensures Xor(x, y) == (x % 2 + y % 2) % 2 + 2 * rest
  {}

  lemma OffsetXorA()
    ensures Xor(FNV_OFFSET, 65) == 2166136196
  {
    hide Xor;
    XorZero(16922939);
    XorBit(33845879, 1, 16922939);
    XorBit(67691758, 2, 33845878);
    XorBit(135383516, 4, 67691756);
    XorBit(270767032, 8, 135383512);
    XorBit(541534065, 16, 270767024);
    XorBit(1083068130, 32, 541534049);
    XorBit(2166136261, 65, 1083068098);
  }

  lemma MixA()
    ensures Mix(FNV_OFFSET, 65) == 0xc40bf6cc
  {
    OffsetXorA();
    hide Xor;
  }

  /** Known values: the empty symbol, and the letter a in either case. */
  lemma KnownValues()
    ensures SymbolId([]) == 0x811c9dc5
    ensures SymbolId([97]) == SymbolId([65]) == 0xc40bf6cc
  {
    var upper: seq<Byte> := [65];
    assert Upper([97]) == upper == Upper([65]);
    assert upper[..0] == [];
    assert Fold(upper) == Mix(Fold([]), 65) by {
      hide Mix;
    }
    MixA();
    hide Mix;
  }

  lemma OffsetXorE()
    ensures Xor(FNV_OFFSET, 69) == 2166136192
  {
    hide Xor;
    XorZero(16922939);
    XorBit(33845879, 1, 16922939);
    XorBit(67691758, 2, 33845878);
    XorBit(135383516, 4, 67691756);
    XorBit(270767032, 8, 135383512);
    XorBit(541534065, 17, 270767024);
    XorBit(1083068130, 34, 541534048);
    XorBit(2166136261, 69, 1083068096);
  }

  lemma MixE()
    ensures Mix(FNV_OFFSET, 69) == 3222007936
  {
    OffsetXorE();
    hide Xor;
  }

  lemma XorS()
    ensures Xor(3222007936, 83) == 3222008019
  {
    hide Xor;
    XorZero(25171937);
    XorBit(50343874, 1, 25171937);
    XorBit(100687748, 2, 50343875);
    XorBit(201375496, 5, 100687750);
    XorBit(402750992, 10, 201375501);
    XorBit(805501984, 20, 402751002);
    XorBit(1611003968, 41, 805502004);
    XorBit(3222007936, 83, 1611004009);
  }

  lemma MixS()
    ensures Mix(3222007936, 83) == 0x25cc1c29
  {
    XorS();
    hide Xor;
  }

  /** A known value of two different letters, in either case: the symbol ES. */
  lemma KnownPair()
    ensures SymbolId([69, 83]) == SymbolId([101, 115]) == 0x25cc1c29
  {
    var upper: seq<Byte> := [69, 83];
    assert Upper([101, 115]) == upper == Upper([69, 83]);
    assert upper[..1] == [69] && upper[..1][..0] == [];
    hide Mix;
    assert Fold(upper[..1]) == Mix(FNV_OFFSET, 69);
    assert Fold(upper) == Mix(Fold(upper[..1]), 83);
    MixE();
    MixS();
  }
}
