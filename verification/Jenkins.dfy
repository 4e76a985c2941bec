/**
 The little-endian Jenkins hash: a reversible mixing step, and three loops that read the key
 by words, half-words or bytes, whichever its address allows.  A uint32_t is a natural number
 below 2^32 and wraps explicitly.
 */
module Jenkins {
  function Pow2(n: nat): (r: nat)
    ensures r > 0
  {
    if n == 0 then 1 else 2 * Pow2(n - 1)
  }

  const U32: nat := 0x1_0000_0000

  type u32 = x: nat | x < U32
  type u8 = x: nat | x < 256

  lemma Pow32()
    ensures Pow2(32) == U32
  {
    assert Pow2(4) == 0x10 by { assert Pow2(2) == 4; }
    assert Pow2(8) == 0x100 by { assert Pow2(6) == 0x40; }
    assert Pow2(12) == 0x1000 by { assert Pow2(10) == 0x400; }
    assert Pow2(16) == 0x1_0000 by { assert Pow2(14) == 0x4000; }
    assert Pow2(20) == 0x10_0000 by { assert Pow2(18) == 0x4_0000; }
    assert Pow2(24) == 0x100_0000 by { assert Pow2(22) == 0x40_0000; }
    assert Pow2(28) == 0x1000_0000 by { assert Pow2(26) == 0x400_0000; }
    assert Pow2(32) == U32 by { assert Pow2(30) == 0x4000_0000; }
  }

  // ------------------------------------------------------------------ word operations

  function Add(x: u32, y: u32): u32 { if x + y >= U32 then x + y - U32 else x + y }
  function Sub(x: u32, y: u32): u32 { if x >= y then x - y else x + U32 - y }

  /** Exclusive or of the low n bits. */
  function XorBits(x: nat, y: nat, n: nat): (r: nat)
    ensures r < Pow2(n)
  {
    if n == 0 then 0 else (if x % 2 == y % 2 then 0 else 1) + 2 * XorBits(x / 2, y / 2, n - 1)
  }

  function Xor(x: u32, y: u32): u32 {
    Pow32();
    XorBits(x, y, 32)
  }

  function Rot(x: u32, k: nat): u32
    requires 0 < k < 32
  {
    Xor((x * Pow2(k)) % U32, (x / Pow2(32 - k)) % U32)
  }

  lemma {:induction false} XorBitsTwice(x: nat, y: nat, n: nat)
    requires x < Pow2(n)
    ensures XorBits(XorBits(x, y, n), y, n) == x
  {
    if n > 0 {
      XorBitsTwice(x / 2, y / 2, n - 1);
      var z := XorBits(x, y, n);
      assert z / 2 == XorBits(x / 2, y / 2, n - 1);
      assert z % 2 == if x % 2 == y % 2 then 0 else 1;
    }
  }

  lemma XorTwice(x: u32, y: u32)
    ensures Xor(Xor(x, y), y) == x
  {
    Pow32();
    XorBitsTwice(x, y, 32);
  }

  // ------------------------------------------------------------------ mix and final

  datatype Abc = Abc(a: u32, b: u32, c: u32)

  /** One third of a mixing round: x -= z; x ^= rot(z, k); z += y. */
  function Third(x: u32, y: u32, z: u32, k: nat): (u32, u32)
    requires 0 < k < 32
  {
    (Xor(Sub(x, z), Rot(z, k)), Add(z, y))
  }

  function Unthird(x: u32, y: u32, z: u32, k: nat): (u32, u32)
    requires 0 < k < 32
  {
    (Add(Xor(x, Rot(Sub(z, y), k)), Sub(z, y)), Sub(z, y))
  }

  lemma ThirdBack(x: u32, y: u32, z: u32, k: nat)
    requires 0 < k < 32
    ensures var t := Third(x, y, z, k); Unthird(t.0, y, t.1, k) == (x, z)
    ensures var t := Unthird(x, y, z, k); Third(t.0, y, t.1, k) == (x, z)
  {
    hide Rot, Xor;
    XorTwice(Sub(x, z), Rot(z, k));
    XorTwice(x, Rot(Sub(z, y), k));
  }

  /** mix */
  function Mix(s: Abc): Abc {
    var (a, c) := Third(s.a, s.b, s.c, 4);
    var (b, a) := Third(s.b, c, a, 6);
    var (c, b) := Third(c, a, b, 8);
    var (a, c) := Third(a, b, c, 16);
    var (b, a) := Third(b, c, a, 19);
    var (c, b) := Third(c, a, b, 4);
    Abc(a, b, c)
  }

  function Unmix(s: Abc): Abc {
    var (c, b) := Unthird(s.c, s.a, s.b, 4);
    var (b, a) := Unthird(b, c, s.a, 19);
    var (a, c) := Unthird(a, b, c, 16);
    var (c, b) := Unthird(c, a, b, 8);
    var (b, a) := Unthird(b, c, a, 6);
    var (a, c) := Unthird(a, b, c, 4);
    Abc(a, b, c)
  }

  lemma MixBack(s: Abc)
    ensures Unmix(Mix(s)) == s
  {
    hide Third, Unthird;
    var (a1, c1) := Third(s.a, s.b, s.c, 4);
    var (b1, a2) := Third(s.b, c1, a1, 6);
    var (c2, b2) := Third(c1, a2, b1, 8);
    var (a3, c3) := Third(a2, b2, c2, 16);
    var (b3, a4) := Third(b2, c3, a3, 19);
    ThirdBack(c3, a4, b3, 4);
    ThirdBack(b2, c3, a3, 19);
    ThirdBack(a2, b2, c2, 16);
    ThirdBack(c1, a2, b1, 8);
    ThirdBack(s.b, c1, a1, 6);
    ThirdBack(s.a, s.b, s.c, 4);
  }

  lemma UnmixBack(s: Abc)
    ensures Mix(Unmix(s)) == s
  {
    hide Third, Unthird;
    var (c1, b1) := Unthird(s.c, s.a, s.b, 4);
    var (b2, a1) := Unthird(b1, c1, s.a, 19);
    var (a2, c2) := Unthird(a1, b2, c1, 16);
    var (c3, b3) := Unthird(c2, a2, b2, 8);
    var (b4, a3) := Unthird(b3, c3, a2, 6);
    ThirdBack(a3, b4, c3, 4);
    ThirdBack(b3, c3, a2, 6);
    ThirdBack(c2, a2, b2, 8);
    ThirdBack(a1, b2, c1, 16);
    ThirdBack(b1, c1, s.a, 19);
    ThirdBack(s.c, s.a, s.b, 4);
  }

  /** final */
  function Final(s: Abc): u32 {
    var c := Sub(Xor(s.c, s.b), Rot(s.b, 14));
    var a := Sub(Xor(s.a, c), Rot(c, 11));
    var b := Sub(Xor(s.b, a), Rot(a, 25));
    var c := Sub(Xor(c, b), Rot(b, 16));
    var a := Sub(Xor(a, c), Rot(c, 4));
    var b := Sub(Xor(b, a), Rot(a, 14));
    Sub(Xor(c, b), Rot(b, 24))
  }

  // ------------------------------------------------------------------ the hash of a byte string

  /** The four bytes from i on as a little-endian word, with zeros behind the end of the key. */
  function Byte(key: seq<u8>, i: nat): u8 { if i < |key| then key[i] else 0 }

  function Le(b0: u8, b1: u8, b2: u8, b3: u8): u32 {
    var w: int := (b0 as int) + 0x100 * (b1 as int) + 0x1_0000 * (b2 as int) + 0x100_0000 * (b3 as int);
    w
  }

  function Word(key: seq<u8>, i: nat): u32 {
    Le(Byte(key, i), Byte(key, i + 1), Byte(key, i + 2), Byte(key, i + 3))
  }

  function Absorb(s: Abc, key: seq<u8>): Abc {
    Abc(Add(s.a, Word(key, 0)), Add(s.b, Word(key, 4)), Add(s.c, Word(key, 8)))
  }

  function Start(len: nat): Abc {
    var x: u32 := (0xdead_beef + len) % U32;
    Abc(x, x, x)
  }

  function Blocks(s: Abc, key: seq<u8>): u32
    decreases |key|
  {
    if |key| > 12 then Blocks(Mix(Absorb(s, key)), key[12..])
    else Final(Absorb(s, key))
  }

  function Hash(key: seq<u8>): u32 {
    if key == [] then Start(0).c else Blocks(Start(|key|), key)
  }

  // ------------------------------------------------------------------ what the mixing keeps apart

  /** The state (a, b, c) before the final step. */
  function Mixed(s: Abc, key: seq<u8>): Abc
    decreases |key|
  {
    if |key| > 12 then Mixed(Mix(Absorb(s, key)), key[12..]) else Absorb(s, key)
  }

  lemma {:induction false} BlocksOfMixed(s: Abc, key: seq<u8>)
    ensures Blocks(s, key) == Final(Mixed(s, key))
    decreases |key|
  {
    hide Mix, Absorb, Final;
    if |key| > 12 {
      BlocksOfMixed(Mix(Absorb(s, key)), key[12..]);
    }
  }

  lemma LeTells(a0: u8, a1: u8, a2: u8, a3: u8, b0: u8, b1: u8, b2: u8, b3: u8)
    requires Le(a0, a1, a2, a3) == Le(b0, b1, b2, b3)
    ensures a0 == b0 && a1 == b1 && a2 == b2 && a3 == b3
  {
    LeMask(a0, a1, a2, a3);
    LeMask(b0, b1, b2, b3);
  }

  /** Words are equal only when their bytes are. */
  lemma WordTells(key: seq<u8>, key': seq<u8>, i: nat)
    requires Word(key, i) == Word(key', i)
    ensures forall j :: i <= j < i + 4 ==> Byte(key, j) == Byte(key', j)
  {
    hide Le;
    LeTells(Byte(key, i), Byte(key, i + 1), Byte(key, i + 2), Byte(key, i + 3),
            Byte(key', i), Byte(key', i + 1), Byte(key', i + 2), Byte(key', i + 3));
  }

  /** Blocks with different bytes lead to different states. */
  lemma AbsorbTells(s: Abc, key: seq<u8>, key': seq<u8>)
    requires |key| == |key'| && Absorb(s, key) == Absorb(s, key')
    ensures forall j :: 0 <= j < 12 && j < |key| ==> key[j] == key'[j]
  {
    hide Word;
    WordTells(key, key', 0);
    WordTells(key, key', 4);
    WordTells(key, key', 8);
    forall j | 0 <= j < 12 && j < |key| ensures key[j] == key'[j] {
      assert Byte(key, j) == Byte(key', j);
    }
  }

  /** Different states stay different under whatever follows. */
  lemma {:induction false} StatesStayApart(s: Abc, t: Abc, key: seq<u8>)
    requires s != t
    ensures Mixed(s, key) != Mixed(t, key)
    decreases |key|
  {
    hide Mix, Unmix, Word;
    if |key| > 12 {
      MixBack(Absorb(s, key));
      MixBack(Absorb(t, key));
      StatesStayApart(Mix(Absorb(s, key)), Mix(Absorb(t, key)), key[12..]);
    }
  }

  /** Two keys of the same length that differ in one block only reach different states before the final step. */
  lemma {:induction false} OneBlockTold(s: Abc, key: seq<u8>, key': seq<u8>, b: nat)
    requires |key| == |key'| && key != key'
    requires forall i :: 0 <= i < |key| && !(12 * b <= i < 12 * b + 12) ==> key[i] == key'[i]
    ensures Mixed(s, key) != Mixed(s, key')
    decreases b
  {
    hide Mix, Unmix, Word;
    if b == 0 {
      if Absorb(s, key) == Absorb(s, key') {
        AbsorbTells(s, key, key');
      }
      if |key| > 12 {
        assert key[12..] == key'[12..];
        MixBack(Absorb(s, key));
        MixBack(Absorb(s, key'));
        StatesStayApart(Mix(Absorb(s, key)), Mix(Absorb(s, key')), key[12..]);
      }
    } else {
      SameBlock(key, key');
      OneBlockTold(Mix(Absorb(s, key)), key[12..], key'[12..], b - 1);
    }
  }

  // ------------------------------------------------------------------ reading the key from memory

  function Load16(mem: seq<u8>, i: nat): u32
    requires i + 2 <= |mem|
  {
    Le(mem[i], mem[i + 1], 0, 0)
  }

  function Load32(mem: seq<u8>, i: nat): u32
    requires i + 4 <= |mem|
  {
    Le(mem[i], mem[i + 1], mem[i + 2], mem[i + 3])
  }

  /** What lies behind the key in its last word does not matter once it is masked off. */
  lemma MaskedLoad(mem: seq<u8>, k: nat, n: nat, j: nat)
    requires k + n <= |mem| && j < n && k + j + 4 <= |mem|
    ensures Word(mem[k..k + n], j) == if n - j >= 4 then Load32(mem, k + j)
                                      else if n - j == 3 then Load32(mem, k + j) % 0x100_0000
                                      else if n - j == 2 then Load32(mem, k + j) % 0x1_0000
                                      else Load32(mem, k + j) % 0x100
  {
    hide Le;
    var key := mem[k..k + n];
    assert forall i :: 0 <= i < n ==> key[i] == mem[k + i];
    LeMask(mem[k + j], mem[k + j + 1], mem[k + j + 2], mem[k + j + 3]);
  }

  /** Masking a word to its low bytes. */
  lemma LeMask(b0: u8, b1: u8, b2: u8, b3: u8)
    ensures Le(b0, b1, b2, b3) % 0x100_0000 == Le(b0, b1, b2, 0)
    ensures Le(b0, b1, b2, b3) % 0x1_0000 == Le(b0, b1, 0, 0)
    ensures Le(b0, b1, b2, b3) % 0x100 == Le(b0, 0, 0, 0)
  {
  }

  lemma NoWord(key: seq<u8>, j: nat, x: u32)
    requires j >= |key|
    ensures Word(key, j) == 0 && Add(x, Word(key, j)) == x
  {
    hide Le;
    LeZero();
  }

  lemma LeZero()
    ensures Le(0, 0, 0, 0) == 0
  {
  }

  /** Keys that agree on their first twelve bytes and differ are longer, and have the same first words. */
  lemma SameBlock(key: seq<u8>, key': seq<u8>)
    requires |key| == |key'| && key != key' && forall i :: 0 <= i < |key| && i < 12 ==> key[i] == key'[i]
    ensures |key| > 12 && key[12..] != key'[12..]
    ensures Word(key, 0) == Word(key', 0) && Word(key, 4) == Word(key', 4) && Word(key, 8) == Word(key', 8)
  {
    hide Le;
    if |key| > 12 {
      assert key == key[..12] + key[12..] && key' == key'[..12] + key'[12..] && key[..12] == key'[..12];
    }
  }

  /** The last block, read by words: the cases of the switch. */
  method TailByWords(mem: seq<u8>, k: nat, n: nat, s: Abc) returns (t: Abc)
    requires 0 < n <= 12 && k + (n + 3) / 4 * 4 <= |mem|
    ensures t == Absorb(s, mem[k..k + n])
  {
    hide Word, Load32, Add;
    Rounded(n);
    var a, b, c := s.a, s.b, s.c;
    ghost var key := mem[k..k + n];
    if n > 8 {
      MaskedLoad(mem, k, n, 8);
      var w := Load32(mem, k + 8);
      var x: u32 := if n == 12 then w else if n == 11 then w % 0x100_0000
                    else if n == 10 then w % 0x1_0000 else w % 0x100;
      c := Add(c, x);
    } else {
      NoWord(key, 8, c);
    }
    if n > 4 {
      MaskedLoad(mem, k, n, 4);
      var w := Load32(mem, k + 4);
      var x: u32 := if n >= 8 then w else if n == 7 then w % 0x100_0000 else if n == 6 then w % 0x1_0000 else w % 0x100;
      b := Add(b, x);
    } else {
      NoWord(key, 4, b);
    }
    MaskedLoad(mem, k, n, 0);
    var w := Load32(mem, k);
    var x: u32 := if n >= 4 then w else if n == 3 then w % 0x100_0000 else if n == 2 then w % 0x1_0000 else w % 0x100;
    a := Add(a, x);
    return Abc(a, b, c);
  }

  lemma BlockStep(mem: seq<u8>, k: nat, n: nat, s: Abc)
    requires n > 12 && k + n <= |mem|
    ensures Blocks(s, mem[k..k + n]) == Blocks(Mix(Absorb(s, mem[k..k + n])), mem[k + 12..k + n])
  {
    assert mem[k..k + n][12..] == mem[k + 12..k + n];
  }

  lemma Rounded(n: nat)
    ensures n <= (n + 3) / 4 * 4 && (n >= 12 ==> (n - 12 + 3) / 4 * 4 + 12 == (n + 3) / 4 * 4)
  {
  }

  method BlockByWords(mem: seq<u8>, k: nat, n: nat, s: Abc) returns (t: Abc)
    requires n > 12 && k + n <= |mem|
    ensures t == Mix(Absorb(s, mem[k..k + n]))
  {
    hide Mix, Word;
    MaskedLoad(mem, k, n, 0);
    MaskedLoad(mem, k, n, 4);
    MaskedLoad(mem, k, n, 8);
    return Mix(Abc(Add(s.a, Load32(mem, k)), Add(s.b, Load32(mem, k + 4)), Add(s.c, Load32(mem, k + 8))));
  }

  /** The loop over aligned 32-bit reads; the last word may be read past the key's end. */
  method HashByWords(mem: seq<u8>, off: nat, len: nat) returns (r: u32)
    requires off % 4 == 0 && off + (len + 3) / 4 * 4 <= |mem|
    ensures off + len <= |mem| && r == Hash(mem[off..off + len])
  {
    hide Mix, Absorb, Final, Start;
    Rounded(len);
    var s, k: nat, n: nat := Start(len), off, len;
    ghost var key := mem[off..off + len];
    while n > 12
      invariant k + n == off + len && k + (n + 3) / 4 * 4 <= |mem| && (n == 0 <==> len == 0)
      invariant n == len ==> s == Start(len)
      invariant Blocks(s, mem[k..k + n]) == Blocks(Start(len), key)
    {
      Rounded(n);
      BlockStep(mem, k, n, s);
      s := BlockByWords(mem, k, n, s);
      k, n := k + 12, n - 12;
    }
    if n == 0 {
      return s.c;
    }
    s := TailByWords(mem, k, n, s);
    return Final(s);
  }

  // ------------------------------------------------------------------ by half-words

  /** A byte or half-word moved up to its place in a word. */
  function Up(x: nat, shift: nat): u32
    requires x * shift < U32
  {
    x * shift
  }

  lemma AddTwice(x: u32, y: u32, z: u32)
    requires y + z < U32
    ensures Add(Add(x, y), z) == Add(x, y + z)
  {
  }

  lemma TwoHalves(mem: seq<u8>, i: nat)
    requires i + 4 <= |mem|
    ensures Load16(mem, i) < 0x1_0000 && Load16(mem, i + 2) < 0x1_0000
    ensures Load16(mem, i) + 0x1_0000 * Load16(mem, i + 2) == Load32(mem, i)
  {
  }

  function Pair(mem: seq<u8>, i: nat): u32
    requires i + 4 <= |mem|
  {
    TwoHalves(mem, i);
    Load16(mem, i) + 0x1_0000 * Load16(mem, i + 2)
  }

  /** A whole word of the key. */
  lemma FullWord(mem: seq<u8>, k: nat, n: nat, j: nat)
    requires k + n <= |mem| && j + 4 <= n
    ensures Word(mem[k..k + n], j) == Load32(mem, k + j) == Pair(mem, k + j)
  {
    hide Le;
    MaskedLoad(mem, k, n, j);
    TwoHalves(mem, k + j);
  }

  /** The last one to three bytes of the key. */
  lemma PartWord(mem: seq<u8>, k: nat, n: nat, j: nat)
    requires k + n <= |mem| && j < n < j + 4
    ensures Word(mem[k..k + n], j) == (if n == j + 1 then mem[k + j] else Load16(mem, k + j))
                                      + (if n == j + 3 then 0x1_0000 * mem[k + j + 2] as int else 0)
  {
    var key := mem[k..k + n];
    assert forall i :: 0 <= i < n ==> key[i] == mem[k + i];
  }

  /** One lane of the last block: nothing, a whole word, or what the fall-through cases add up. */
  method LaneByHalves(mem: seq<u8>, k: nat, n: nat, j: nat, x: u32) returns (y: u32)
    requires k + n <= |mem|
    ensures y == Add(x, Word(mem[k..k + n], j))
  {
    y := x;
    if n <= j {
      NoWord(mem[k..k + n], j, x);
    } else if n >= j + 4 {
      FullWord(mem, k, n, j);
      y := Add(y, Pair(mem, k + j));
    } else {
      PartWord(mem, k, n, j);
      y := PartByHalves(mem, k, n, j, x);
    }
  }

  method PartByHalves(mem: seq<u8>, k: nat, n: nat, j: nat, x: u32) returns (y: u32)
    requires k + n <= |mem| && j < n < j + 4
    ensures y == Add(x, (if n == j + 1 then mem[k + j] else Load16(mem, k + j))
                        + (if n == j + 3 then 0x1_0000 * mem[k + j + 2] as int else 0))
  {
    y := x;
    if n == j + 3 {
      HalfFits(mem, k + j);
      AddTwice(x, Up(mem[k + j + 2], 0x1_0000), Load16(mem, k + j));
      y := Add(y, Up(mem[k + j + 2], 0x1_0000));
    }
    if n >= j + 2 {
      y := Add(y, Load16(mem, k + j));
    } else {
      y := Add(y, mem[k + j]);
    }
  }

  lemma HalfFits(mem: seq<u8>, i: nat)
    requires i + 2 <= |mem|
    ensures Load16(mem, i) < 0x1_0000
  {
  }

  /** The loop over aligned 16-bit reads. */
  method HashByHalves(mem: seq<u8>, off: nat, len: nat) returns (r: u32)
    requires off % 2 == 0 && off + len <= |mem|
    ensures r == Hash(mem[off..off + len])
  {
    hide Mix, Word, Final, Start, Pair, Load32, Add;
    var s, k: nat, n: nat := Start(len), off, len;
    ghost var key := mem[off..off + len];
    while n > 12
      invariant k + n == off + len && (n == 0 <==> len == 0) && (n == len ==> s == Start(len))
      invariant Blocks(s, mem[k..k + n]) == Blocks(Start(len), key)
    {
      BlockStep(mem, k, n, s);
      FullWord(mem, k, n, 0);
      FullWord(mem, k, n, 4);
      FullWord(mem, k, n, 8);
      s := Mix(Abc(Add(s.a, Pair(mem, k)), Add(s.b, Pair(mem, k + 4)), Add(s.c, Pair(mem, k + 8))));
      k, n := k + 12, n - 12;
    }
    if n == 0 {
      return s.c;
    }
    var c := LaneByHalves(mem, k, n, 8, s.c);
    var b := LaneByHalves(mem, k, n, 4, s.b);
    var a := LaneByHalves(mem, k, n, 0, s.a);
    return Final(Abc(a, b, c));
  }

  // ------------------------------------------------------------------ by bytes

  /** Adding four bytes in turn, from the lowest or from the highest, adds their word. */
  lemma AddBytes(x: u32, b0: u8, b1: u8, b2: u8, b3: u8)
    ensures Add(Add(Add(Add(x, b0), Up(b1, 0x100)), Up(b2, 0x1_0000)), Up(b3, 0x100_0000)) == Add(x, Le(b0, b1, b2, b3))
    ensures Add(Add(Add(Add(x, Up(b3, 0x100_0000)), Up(b2, 0x1_0000)), Up(b1, 0x100)), b0) == Add(x, Le(b0, b1, b2, b3))
  {
    var y1, y2, y3 := Up(b1, 0x100), Up(b2, 0x1_0000), Up(b3, 0x100_0000);
    AddTwice(x, b0, y1);
    AddTwice(x, b0 + y1, y2);
    AddTwice(x, b0 + y1 + y2, y3);
    AddTwice(x, y3, y2);
    AddTwice(x, y3 + y2, y1);
    AddTwice(x, y3 + y2 + y1, b0);
  }

  lemma AddNothing(x: u32)
    ensures Add(x, 0) == x
  {
  }

  /** One lane of the last block: the cases fall through from the highest byte to the lowest. */
  method LaneByBytes(mem: seq<u8>, k: nat, n: nat, j: nat, x: u32) returns (y: u32)
    requires k + n <= |mem|
    ensures y == Add(x, Word(mem[k..k + n], j))
  {
    hide Add, Le;
    ghost var key := mem[k..k + n];
    assert forall i :: 0 <= i < n ==> key[i] == mem[k + i];
    AddBytes(x, Byte(key, j), Byte(key, j + 1), Byte(key, j + 2), Byte(key, j + 3));
    y := x;
    AddNothing(y);
    if n > j + 3 {
      y := Add(y, Up(mem[k + j + 3], 0x100_0000));
    }
    AddNothing(y);
    if n > j + 2 {
      y := Add(y, Up(mem[k + j + 2], 0x1_0000));
    }
    AddNothing(y);
    if n > j + 1 {
      y := Add(y, Up(mem[k + j + 1], 0x100));
    }
    AddNothing(y);
    if n > j {
      y := Add(y, mem[k + j]);
    }
  }

  method WordByBytes(mem: seq<u8>, i: nat, x: u32) returns (y: u32)
    requires i + 4 <= |mem|
    ensures y == Add(x, Load32(mem, i))
  {
    hide Add, Le;
    AddBytes(x, mem[i], mem[i + 1], mem[i + 2], mem[i + 3]);
    y := Add(x, mem[i]);
    y := Add(y, Up(mem[i + 1], 0x100));
    y := Add(y, Up(mem[i + 2], 0x1_0000));
    y := Add(y, Up(mem[i + 3], 0x100_0000));
  }

  /** The loop over single bytes, for a key at any address. */
  method HashByBytes(mem: seq<u8>, off: nat, len: nat) returns (r: u32)
    requires off + len <= |mem|
    ensures r == Hash(mem[off..off + len])
  {
    hide Mix, Word, Final, Start, Pair, Load32, Add;
    var s, k: nat, n: nat := Start(len), off, len;
    ghost var key := mem[off..off + len];
    while n > 12
      invariant k + n == off + len && (n == 0 <==> len == 0) && (n == len ==> s == Start(len))
      invariant Blocks(s, mem[k..k + n]) == Blocks(Start(len), key)
    {
      BlockStep(mem, k, n, s);
      FullWord(mem, k, n, 0);
      FullWord(mem, k, n, 4);
      FullWord(mem, k, n, 8);
      var a := WordByBytes(mem, k, s.a);
      var b := WordByBytes(mem, k + 4, s.b);
      var c := WordByBytes(mem, k + 8, s.c);
      s := Mix(Abc(a, b, c));
      k, n := k + 12, n - 12;
    }
    if n == 0 {
      return s.c;
    }
    var c := LaneByBytes(mem, k, n, 8, s.c);
    var b := LaneByBytes(mem, k, n, 4, s.b);
    var a := LaneByBytes(mem, k, n, 0, s.a);
    return Final(Abc(a, b, c));
  }

  /** jenkins_hash: the address picks the loop, and the result depends on the key's bytes alone. */
  method JenkinsHash(mem: seq<u8>, off: nat, len: nat) returns (r: u32)
    requires off + len <= |mem| && (off % 4 == 0 ==> off + (len + 3) / 4 * 4 <= |mem|)
    ensures r == Hash(mem[off..off + len])
  {
    if off % 4 == 0 {
      r := HashByWords(mem, off, len);
    } else if off % 2 == 0 {
      r := HashByHalves(mem, off, len);
    } else {
      r := HashByBytes(mem, off, len);
    }
  }
}
