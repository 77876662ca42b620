/**
 hashlittle of linkhash.c (Bob Jenkins' lookup3): three ways to read a key, by aligned 32-bit words,
 by 16-bit halves and byte by byte, that must give the same hash.
 */
module HashLittle {
  import opened Bytes

  const WORDS: int := 0x1_0000_0000

  // uint32_t
  type Word = x: int | 0 <= x < 0x1_0000_0000

  // The bytes of the machine by address, those behind the key included.
  type Memory = nat -> byte

  // The three words of state.
  datatype Abc = Abc(a: Word, b: Word, c: Word)

  // ---------------------------------------------------------------- words

  function Add(x: Word, y: Word): Word {
    (x + y) % WORDS
  }

  function Sub(x: Word, y: Word): Word {
    (x - y) % WORDS
  }

  /** x ^ y on the lowest n bits. */
  function XorBits(x: nat, y: nat, n: nat): (r: nat) {
    if n == 0 then 0 else XorBits(x / 2, y / 2, n - 1) * 2 + (x % 2 + y % 2) % 2
  }

  function Power(n: nat): (p: nat)
    ensures p > 0
  {
    if n == 0 then 1 else 2 * Power(n - 1)
  }

  lemma {:induction false} XorBelow(x: nat, y: nat, n: nat)
    ensures XorBits(x, y, n) < Power(n)
  {
    if n == 0 {
    } else {
      XorBelow(x / 2, y / 2, n - 1);
    }
  }

  lemma Halve(r: nat, b: nat)
    requires b < 2
    ensures (r * 2 + b) / 2 == r && (r * 2 + b) % 2 == b
  {
  }

  lemma {:induction false} XorBack(x: nat, y: nat, n: nat)
    requires x < Power(n)
    ensures XorBits(XorBits(x, y, n), y, n) == x
  {
    if n == 0 {
    } else {
      XorBack(x / 2, y / 2, n - 1);
      var r, b := XorBits(x / 2, y / 2, n - 1), (x % 2 + y % 2) % 2;
      Halve(r, b);
      assert (b + y % 2) % 2 == x % 2;
      assert XorBits(r * 2 + b, y, n) == XorBits(r, y / 2, n - 1) * 2 + (b + y % 2) % 2;
    }
  }

  lemma PowerOfWord()
    ensures Power(32) == WORDS
  {
    assert Power(8) == 256;
    assert Power(16) == 65536;
    assert Power(24) == 16777216;
  }

  function Xor(x: Word, y: Word): Word {
    XorBelow(x, y, 32);
    PowerOfWord();
    XorBits(x, y, 32)
  }

  /** The macro rot: the upper k bits move to the lower end. */
  function Rot(x: Word, k: nat): Word
    requires 0 < k < 32
  {
    (x * Power(k) + x / Power(32 - k)) % WORDS
  }

  // ---------------------------------------------------------------- mixing

  /** One line of the macro mix: x -= z; x ^= rot(z, k); z += y. */
  function MixLine(x: Word, y: Word, z: Word, k: nat): (Word, Word)
    requires 0 < k < 32
  {
    (Xor(Sub(x, z), Rot(z, k)), Add(z, y))
  }

  /** The macro mix. */
  function Mix(s: Abc): Abc {
    var (a1, c1) := MixLine(s.a, s.b, s.c, 4);
    var (b1, a2) := MixLine(s.b, c1, a1, 6);
    var (c2, b2) := MixLine(c1, a2, b1, 8);
    var (a3, c3) := MixLine(a2, b2, c2, 16);
    var (b3, a4) := MixLine(b2, c3, a3, 19);
    var (c4, b4) := MixLine(c3, a4, b3, 4);
    Abc(a4, b4, c4)
  }

  function UnmixLine(x: Word, y: Word, z: Word, k: nat): (Word, Word)
    requires 0 < k < 32
  {
    var z0 := Sub(z, y);
    (Add(Xor(x, Rot(z0, k)), z0), z0)
  }

  function Unmix(s: Abc): Abc {
    var (c3, b3) := UnmixLine(s.c, s.a, s.b, 4);
    var (b2, a3) := UnmixLine(b3, c3, s.a, 19);
    var (a2, c2) := UnmixLine(a3, b2, c3, 16);
    var (c1, b1) := UnmixLine(c2, a2, b2, 8);
    var (b0, a1) := UnmixLine(b1, c1, a2, 6);
    var (a0, c0) := UnmixLine(a1, b0, c1, 4);
    Abc(a0, b0, c0)
  }

  lemma AddSub(x: Word, y: Word)
    ensures Sub(Add(x, y), y) == x && Add(Sub(x, y), y) == x
  {
  }

  lemma XorTwice(x: Word, y: Word)
    ensures Xor(Xor(x, y), y) == x
  {
    PowerOfWord();
    XorBack(x, y, 32);
  }

  lemma LineIsReversible(x: Word, y: Word, z: Word, k: nat)
    requires 0 < k < 32
    ensures UnmixLine(MixLine(x, y, z, k).0, y, MixLine(x, y, z, k).1, k) == (x, z)
  {
    hide Rot, Add, Sub, Xor;
    AddSub(z, y);
    XorTwice(Sub(x, z), Rot(z, k));
    AddSub(x, z);
  }

  /** mix is reversible: it loses nothing of its three words. */
  lemma MixIsReversible(s: Abc)
    ensures Unmix(Mix(s)) == s
  {
    hide MixLine, UnmixLine;
    var (a1, c1) := MixLine(s.a, s.b, s.c, 4);
    LineIsReversible(s.a, s.b, s.c, 4);
    var (b1, a2) := MixLine(s.b, c1, a1, 6);
    LineIsReversible(s.b, c1, a1, 6);
    var (c2, b2) := MixLine(c1, a2, b1, 8);
    LineIsReversible(c1, a2, b1, 8);
    var (a3, c3) := MixLine(a2, b2, c2, 16);
    LineIsReversible(a2, b2, c2, 16);
    var (b3, a4) := MixLine(b2, c3, a3, 19);
    LineIsReversible(b2, c3, a3, 19);
    LineIsReversible(c3, a4, b3, 4);
  }

  /** One statement pair of the macro final: x ^= y; x -= rot(y, k). */
  function FinalLine(x: Word, y: Word, k: nat): Word
    requires 0 < k < 32
  {
    Sub(Xor(x, y), Rot(y, k))
  }

  /** The macro final, and its result c. */
  function Final(s: Abc): Word {
    var c1 := FinalLine(s.c, s.b, 14);
    var a1 := FinalLine(s.a, c1, 11);
    var b1 := FinalLine(s.b, a1, 25);
    var c2 := FinalLine(c1, b1, 16);
    var a2 := FinalLine(a1, c2, 4);
    var b2 := FinalLine(b1, a2, 14);
    FinalLine(c2, b2, 24)
  }

  // ---------------------------------------------------------------- the hash of a key

  /** Four bytes as a little-endian word. */
  function Four(x0: byte, x1: byte, x2: byte, x3: byte): Word {
    x0 as int + x1 as int * 0x100 + x2 as int * 0x10000 + x3 as int * 0x1000000
  }

  /** A byte of a key that is continued with zeros. */
  function ByteAt(key: Text, i: nat): byte {
    if i < |key| then key[i] else 0
  }

  function WordAt(key: Text, i: nat): Word {
    Four(ByteAt(key, i), ByteAt(key, i + 1), ByteAt(key, i + 2), ByteAt(key, i + 3))
  }

  function Absorb(s: Abc, key: Text): Abc {
    Abc(Add(s.a, WordAt(key, 0)), Add(s.b, WordAt(key, 4)), Add(s.c, WordAt(key, 8)))
  }

  function Rounds(s: Abc, key: Text): Word
    decreases |key|
  {
    if |key| > 12 then Rounds(Mix(Absorb(s, key)), key[12..])
    else if key == [] then s.c
    else Final(Absorb(s, key))
  }

  function Initial(length: nat, initval: Word): Abc {
    var x := (0xdeadbeef + length + initval) % WORDS;
    Abc(x, x, x)
  }

  /** The hash of the bytes of a key, and of nothing else. */
  function Hash(key: Text, initval: Word): Word {
    Rounds(Initial(|key|, initval), key)
  }

  function Key(mem: Memory, at: nat, length: nat): (key: Text)
    ensures |key| == length && forall i :: 0 <= i < length ==> key[i] == mem(at + i)
  {
    seq(length, i requires 0 <= i => mem(at + i))
  }

  lemma KeyOn(mem: Memory, at: nat, length: nat)
    requires length > 12
    ensures Key(mem, at, length)[12..] == Key(mem, at + 12, length - 12)
  {
  }

  // ---------------------------------------------------------------- 32 bits at a time

  /** A 32-bit load on a little-endian machine. */
  function Load32(mem: Memory, p: nat): Word {
    Four(mem(p), mem(p + 1), mem(p + 2), mem(p + 3))
  }

  /** x & (limit - 1), for a limit that is a power of two. */
  function Low(x: Word, limit: int): Word
    requires 0 < limit <= WORDS
  {
    x % limit
  }

  lemma LowBytes(x0: byte, x1: byte, x2: byte, x3: byte)
    ensures Low(Four(x0, x1, x2, x3), 0x1000000) == Four(x0, x1, x2, 0)
    ensures Low(Four(x0, x1, x2, x3), 0x10000) == Four(x0, x1, 0, 0)
    ensures Low(Four(x0, x1, x2, x3), 0x100) == Four(x0, 0, 0, 0)
  {
  }

  /** The word at p of which n bytes belong to the key: a load with the other bytes masked off. */
  function Part(mem: Memory, p: nat, n: nat): Word
    requires n > 0
  {
    if n >= 4 then Load32(mem, p)
    else if n == 3 then Low(Load32(mem, p), 0x1000000)
    else if n == 2 then Low(Load32(mem, p), 0x10000)
    else Low(Load32(mem, p), 0x100)
  }

  lemma PartOfKey(mem: Memory, p: nat, length: nat, i: nat)
    requires i < length
    ensures WordAt(Key(mem, p, length), i) == Part(mem, p + i, length - i)
  {
    hide Four, Low, Key;
    LowBytes(mem(p + i), mem(p + i + 1), mem(p + i + 2), mem(p + i + 3));
  }

  lemma PartIsSum(mem: Memory, p: nat, n: nat)
    requires n > 0
    ensures Part(mem, p, n)
            == mem(p) as int + (if n >= 2 then mem(p + 1) as int * 0x100 else 0)
               + (if n >= 3 then mem(p + 2) as int * 0x10000 else 0)
               + if n >= 4 then mem(p + 3) as int * 0x1000000 else 0
  {
    hide Low;
    LowBytes(mem(p), mem(p + 1), mem(p + 2), mem(p + 3));
  }

  lemma AddNothing(x: Word)
    ensures Add(x, 0) == x
  {
  }

  lemma AddOn(x: Word, y: Word, z: Word)
    requires y + z < WORDS
    ensures Add(Add(x, y), z) == Add(x, y + z)
  {
  }

  lemma BehindKey(key: Text, i: nat, x: Word)
    requires i >= |key|
    ensures Add(x, WordAt(key, i)) == x
  {
    hide Add;
    AddNothing(x);
  }

  /** What a last block adds to the three words. */
  lemma TailByWords(mem: Memory, p: nat, length: nat, s: Abc)
    requires 0 < length
    ensures Absorb(s, Key(mem, p, length))
            == Abc(Add(s.a, Part(mem, p, length)),
                   if length > 4 then Add(s.b, Part(mem, p + 4, length - 4)) else s.b,
                   if length > 8 then Add(s.c, Part(mem, p + 8, length - 8)) else s.c)
  {
    hide Add, Part, Key, WordAt;
    PartOfKey(mem, p, length, 0);
    if length > 4 {
      PartOfKey(mem, p, length, 4);
    } else {
      BehindKey(Key(mem, p, length), 4, s.b);
    }
    if length > 8 {
      PartOfKey(mem, p, length, 8);
    } else {
      BehindKey(Key(mem, p, length), 8, s.c);
    }
  }

  /** The last block, read by aligned words. */
  method LastByWords(mem: Memory, p: nat, length: nat, s: Abc) returns (r: Abc)
    requires 0 < length <= 12
    ensures r == Absorb(s, Key(mem, p, length))
  {
    hide Four, Add, Low, Load32, Key, Absorb;
    TailByWords(mem, p, length, s);
    var a, b, c := s.a, s.b, s.c;
    if length == 12 {
      c := Add(c, Load32(mem, p + 8));
      b := Add(b, Load32(mem, p + 4));
      a := Add(a, Load32(mem, p));
    } else if length == 11 {
      c := Add(c, Low(Load32(mem, p + 8), 0x1000000));
      b := Add(b, Load32(mem, p + 4));
      a := Add(a, Load32(mem, p));
    } else if length == 10 {
      c := Add(c, Low(Load32(mem, p + 8), 0x10000));
      b := Add(b, Load32(mem, p + 4));
      a := Add(a, Load32(mem, p));
    } else if length == 9 {
      c := Add(c, Low(Load32(mem, p + 8), 0x100));
      b := Add(b, Load32(mem, p + 4));
      a := Add(a, Load32(mem, p));
    } else if length == 8 {
      b := Add(b, Load32(mem, p + 4));
      a := Add(a, Load32(mem, p));
    } else if length == 7 {
      b := Add(b, Low(Load32(mem, p + 4), 0x1000000));
      a := Add(a, Load32(mem, p));
    } else if length == 6 {
      b := Add(b, Low(Load32(mem, p + 4), 0x10000));
      a := Add(a, Load32(mem, p));
    } else if length == 5 {
      b := Add(b, Low(Load32(mem, p + 4), 0x100));
      a := Add(a, Load32(mem, p));
    } else if length == 4 {
      a := Add(a, Load32(mem, p));
    } else if length == 3 {
      a := Add(a, Low(Load32(mem, p), 0x1000000));
    } else if length == 2 {
      a := Add(a, Low(Load32(mem, p), 0x10000));
    } else {
      a := Add(a, Low(Load32(mem, p), 0x100));
    }
    r := Abc(a, b, c);
  }

  lemma WholeBlock(mem: Memory, p: nat, length: nat, s: Abc)
    requires length >= 12
    ensures Absorb(s, Key(mem, p, length))
            == Abc(Add(s.a, Load32(mem, p)), Add(s.b, Load32(mem, p + 4)), Add(s.c, Load32(mem, p + 8)))
  {
    hide Add, WordAt, Load32, Key;
    PartOfKey(mem, p, length, 0);
    PartOfKey(mem, p, length, 4);
    PartOfKey(mem, p, length, 8);
  }

  /** The branch of hashlittle for keys at addresses that are multiples of four. */
  method ByWords(mem: Memory, key: nat, keyLength: nat, start: Abc) returns (r: Word)
    ensures r == Rounds(start, Key(mem, key, keyLength))
  {
    hide Four, Add, Load32, Key, WordAt, Mix, Final, Absorb;
    var s, length, k := start, keyLength, key;
    while length > 12
      invariant Rounds(s, Key(mem, k, length)) == Rounds(start, Key(mem, key, keyLength))
    {
      KeyOn(mem, k, length);
      WholeBlock(mem, k, length, s);
      s := Mix(Abc(Add(s.a, Load32(mem, k)), Add(s.b, Load32(mem, k + 4)), Add(s.c, Load32(mem, k + 8))));
      length := length - 12;
      k := k + 12;
    }
    if length == 0 {
      return s.c;
    }
    s := LastByWords(mem, k, length, s);
    return Final(s);
  }

  // ---------------------------------------------------------------- 16 bits at a time

  function Load16(mem: Memory, p: nat): Word {
    mem(p) as int + mem(p + 1) as int * 0x100
  }

  /** k[i] + (((uint32_t)k[i + 1]) << 16) */
  function TwoHalves(mem: Memory, p: nat): Word {
    Load16(mem, p) + Load16(mem, p + 2) * 0x10000
  }

  /** What the 16-bit branch adds to x for a word of which n bytes belong to the key. */
  function HalvesOnto(x: Word, mem: Memory, p: nat, n: nat): Word
    requires n > 0
  {
    if n >= 4 then Add(x, TwoHalves(mem, p))
    else if n == 3 then Add(Add(x, mem(p + 2) as int * 0x10000), Load16(mem, p))
    else if n == 2 then Add(x, Load16(mem, p))
    else Add(x, mem(p) as int)
  }

  lemma HalvesAreParts(x: Word, mem: Memory, p: nat, n: nat)
    requires n > 0
    ensures HalvesOnto(x, mem, p, n) == Add(x, Part(mem, p, n))
  {
    hide Add, Part;
    PartIsSum(mem, p, n);
    if n == 3 {
      AddOn(x, mem(p + 2) as int * 0x10000, Load16(mem, p));
    }
  }

  lemma TailByHalves(mem: Memory, p: nat, length: nat, s: Abc)
    requires 0 < length
    ensures Absorb(s, Key(mem, p, length))
            == Abc(HalvesOnto(s.a, mem, p, length),
                   if length > 4 then HalvesOnto(s.b, mem, p + 4, length - 4) else s.b,
                   if length > 8 then HalvesOnto(s.c, mem, p + 8, length - 8) else s.c)
  {
    hide Absorb, HalvesOnto, Add, Part, Key;
    TailByWords(mem, p, length, s);
    HalvesAreParts(s.a, mem, p, length);
    if length > 4 {
      HalvesAreParts(s.b, mem, p + 4, length - 4);
    }
    if length > 8 {
      HalvesAreParts(s.c, mem, p + 8, length - 8);
    }
  }

  /** The last block of the 16-bit branch. */
  method LastByHalves(mem: Memory, p: nat, length: nat, s: Abc) returns (r: Abc)
    requires 0 < length <= 12
    ensures r == Absorb(s, Key(mem, p, length))
  {
    hide Add, Load16, TwoHalves, Key, Absorb;
    TailByHalves(mem, p, length, s);
    var a, b, c := s.a, s.b, s.c;
    if length == 12 {
      c := Add(c, TwoHalves(mem, p + 8));
      b := Add(b, TwoHalves(mem, p + 4));
      a := Add(a, TwoHalves(mem, p));
    } else if length >= 10 {
      if length == 11 {
        c := Add(c, mem(p + 10) as int * 0x10000);
      }
      c := Add(c, Load16(mem, p + 8));
      b := Add(b, TwoHalves(mem, p + 4));
      a := Add(a, TwoHalves(mem, p));
    } else if length >= 8 {
      if length == 9 {
        c := Add(c, mem(p + 8) as int);
      }
      b := Add(b, TwoHalves(mem, p + 4));
      a := Add(a, TwoHalves(mem, p));
    } else if length >= 6 {
      if length == 7 {
        b := Add(b, mem(p + 6) as int * 0x10000);
      }
      b := Add(b, Load16(mem, p + 4));
      a := Add(a, TwoHalves(mem, p));
    } else if length >= 4 {
      if length == 5 {
        b := Add(b, mem(p + 4) as int);
      }
      a := Add(a, TwoHalves(mem, p));
    } else if length >= 2 {
      if length == 3 {
        a := Add(a, mem(p + 2) as int * 0x10000);
      }
      a := Add(a, Load16(mem, p));
    } else {
      a := Add(a, mem(p) as int);
    }
    r := Abc(a, b, c);
  }

  /** The branch of hashlittle for keys at other even addresses. */
  method ByHalves(mem: Memory, key: nat, keyLength: nat, start: Abc) returns (r: Word)
    ensures r == Rounds(start, Key(mem, key, keyLength))
  {
    hide Add, TwoHalves, Key, Mix, Final, Absorb;
    var s, length, k := start, keyLength, key;
    while length > 12
      invariant Rounds(s, Key(mem, k, length)) == Rounds(start, Key(mem, key, keyLength))
    {
      KeyOn(mem, k, length);
      TailByHalves(mem, k, length, s);
      s := Mix(Abc(Add(s.a, TwoHalves(mem, k)), Add(s.b, TwoHalves(mem, k + 4)), Add(s.c, TwoHalves(mem, k + 8))));
      length := length - 12;
      k := k + 12;
    }
    if length == 0 {
      return s.c;
    }
    s := LastByHalves(mem, k, length, s);
    return Final(s);
  }

  // ---------------------------------------------------------------- one byte at a time

  /** What falling through the cases adds to x for a word of which n bytes belong to the key. */
  function BytesOnto(x: Word, mem: Memory, p: nat, n: nat): Word
    requires n > 0
  {
    var x3 := if n >= 4 then Add(x, mem(p + 3) as int * 0x1000000) else x;
    var x2 := if n >= 3 then Add(x3, mem(p + 2) as int * 0x10000) else x3;
    var x1 := if n >= 2 then Add(x2, mem(p + 1) as int * 0x100) else x2;
    Add(x1, mem(p) as int)
  }

  lemma BytesAreParts(x: Word, mem: Memory, p: nat, n: nat)
    requires n > 0
    ensures BytesOnto(x, mem, p, n) == Add(x, Part(mem, p, n))
  {
    var y0, y1, y2, y3 :=
      mem(p) as int, mem(p + 1) as int * 0x100, mem(p + 2) as int * 0x10000, mem(p + 3) as int * 0x1000000;
    hide Add, Part;
    PartIsSum(mem, p, n);
    if n >= 4 {
      AddOn(x, y3, y2);
      AddOn(x, y3 + y2, y1);
      AddOn(x, y3 + y2 + y1, y0);
    } else if n == 3 {
      AddOn(x, y2, y1);
      AddOn(x, y2 + y1, y0);
    } else if n == 2 {
      AddOn(x, y1, y0);
    }
  }

  /** The four additions of a whole word, from the lowest byte up. */
  lemma BytesUp(x: Word, mem: Memory, p: nat)
    ensures Add(Add(Add(Add(x, mem(p) as int), mem(p + 1) as int * 0x100), mem(p + 2) as int * 0x10000),
                mem(p + 3) as int * 0x1000000)
            == Add(x, Load32(mem, p))
  {
    var y0, y1, y2, y3 :=
      mem(p) as int, mem(p + 1) as int * 0x100, mem(p + 2) as int * 0x10000, mem(p + 3) as int * 0x1000000;
    hide Add;
    AddOn(x, y0, y1);
    AddOn(x, y0 + y1, y2);
    AddOn(x, y0 + y1 + y2, y3);
  }

  lemma TailByBytes(mem: Memory, p: nat, length: nat, s: Abc)
    requires 0 < length
    ensures Absorb(s, Key(mem, p, length))
            == Abc(BytesOnto(s.a, mem, p, length),
                   if length > 4 then BytesOnto(s.b, mem, p + 4, length - 4) else s.b,
                   if length > 8 then BytesOnto(s.c, mem, p + 8, length - 8) else s.c)
  {
    hide Absorb, BytesOnto, Add, Part, Key;
    TailByWords(mem, p, length, s);
    BytesAreParts(s.a, mem, p, length);
    if length > 4 {
      BytesAreParts(s.b, mem, p + 4, length - 4);
    }
    if length > 8 {
      BytesAreParts(s.c, mem, p + 8, length - 8);
    }
  }

  /** The last block of the byte branch: every case falls through to the ones below. */
  method LastByBytes(mem: Memory, p: nat, length: nat, s: Abc) returns (r: Abc)
    requires 0 < length <= 12
    ensures r == Absorb(s, Key(mem, p, length))
  {
    hide Add, Key, Absorb;
    TailByBytes(mem, p, length, s);
    var a, b, c := s.a, s.b, s.c;
    if length >= 12 { c := Add(c, mem(p + 11) as int * 0x1000000); }
    if length >= 11 { c := Add(c, mem(p + 10) as int * 0x10000); }
    if length >= 10 { c := Add(c, mem(p + 9) as int * 0x100); }
    if length >= 9 { c := Add(c, mem(p + 8) as int); }
    if length >= 8 { b := Add(b, mem(p + 7) as int * 0x1000000); }
    if length >= 7 { b := Add(b, mem(p + 6) as int * 0x10000); }
    if length >= 6 { b := Add(b, mem(p + 5) as int * 0x100); }
    if length >= 5 { b := Add(b, mem(p + 4) as int); }
    if length >= 4 { a := Add(a, mem(p + 3) as int * 0x1000000); }
    if length >= 3 { a := Add(a, mem(p + 2) as int * 0x10000); }
    if length >= 2 { a := Add(a, mem(p + 1) as int * 0x100); }
    a := Add(a, mem(p) as int);
    r := Abc(a, b, c);
  }

  /** The branch of hashlittle for odd addresses, and for machines that are not little-endian. */
  method ByBytes(mem: Memory, key: nat, keyLength: nat, start: Abc) returns (r: Word)
    ensures r == Rounds(start, Key(mem, key, keyLength))
  {
    hide Add, Load32, Key, Mix, Final, Absorb;
    var s, length, k := start, keyLength, key;
    while length > 12
      invariant Rounds(s, Key(mem, k, length)) == Rounds(start, Key(mem, key, keyLength))
    {
      KeyOn(mem, k, length);
      WholeBlock(mem, k, length, s);
      BytesUp(s.a, mem, k);
      BytesUp(s.b, mem, k + 4);
      BytesUp(s.c, mem, k + 8);
      var a := Add(s.a, mem(k) as int);
      a := Add(a, mem(k + 1) as int * 0x100);
      a := Add(a, mem(k + 2) as int * 0x10000);
      a := Add(a, mem(k + 3) as int * 0x1000000);
      var b := Add(s.b, mem(k + 4) as int);
      b := Add(b, mem(k + 5) as int * 0x100);
      b := Add(b, mem(k + 6) as int * 0x10000);
      b := Add(b, mem(k + 7) as int * 0x1000000);
      var c := Add(s.c, mem(k + 8) as int);
      c := Add(c, mem(k + 9) as int * 0x100);
      c := Add(c, mem(k + 10) as int * 0x10000);
      c := Add(c, mem(k + 11) as int * 0x1000000);
      s := Mix(Abc(a, b, c));
      length := length - 12;
      k := k + 12;
    }
    if length == 0 {
      return s.c;
    }
    s := LastByBytes(mem, k, length, s);
    return Final(s);
  }

  /**
   hashlittle: whatever the address and the machine, the result is the hash of the key's own bytes,
   although the loads of the aligned branch reach behind the key.
   */
  method HashLittle(mem: Memory, key: nat, length: nat, initval: Word, littleEndian: bool) returns (r: Word)
    ensures r == Hash(Key(mem, key, length), initval)
  {
    var start := Initial(length, initval);
    if littleEndian && key % 4 == 0 {
      r := ByWords(mem, key, length, start);
    } else if littleEndian && key % 2 == 0 {
      r := ByHalves(mem, key, length, start);
    } else {
      r := ByBytes(mem, key, length, start);
    }
  }
}
