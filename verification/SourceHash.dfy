/** The content hash of source code: FNV-1a on 64-bit words, written as 16 hexadecimal digits. */
module SourceHash {
  const WORDS: nat := 0x1_0000_0000_0000_0000
  const PRIME: nat := 0x100000001b3
  const OFFSET_BASIS: nat := 0xcbf29ce484222325
  /** The inverse of the prime modulo 2^64, and the multiple of 2^64 their product exceeds 1 by. */
  const INVERSE: nat := 0xce965057aff6957b
  const EXCESS: nat := 887285111055

  type Word = h: nat | h < WORDS witness 0
  type Byte = b: nat | b < 256 witness 0

  /** Bitwise exclusive or. */
  function Xor(a: nat, b: nat): nat
    decreases a + b
  {
    if a == 0 && b == 0 then 0 else 2 * Xor(a / 2, b / 2) + (a + b) % 2
  }

  /** The defining equation needs no case for zero. */
  lemma {:induction false} XorByHalves(a: nat, b: nat)
    ensures Xor(a, b) == 2 * Xor(a / 2, b / 2) + (a + b) % 2
    ensures Xor(a, b) / 2 == Xor(a / 2, b / 2) && Xor(a, b) % 2 == (a + b) % 2
  {
  }

  lemma {:induction false} XorUndone(a: nat, b: nat)
    ensures Xor(Xor(a, b), b) == a
    decreases a + b
  {
    if a != 0 || b != 0 {
      XorUndone(a / 2, b / 2);
      XorByHalves(a, b);
      XorByHalves(Xor(a, b), b);
      ParityUndone(a, b, Xor(a, b));
    }
  }

  lemma {:induction false} ParityUndone(a: nat, b: nat, x: nat)
    requires x % 2 == (a + b) % 2
    ensures (x + b) % 2 == a % 2
  {
  }

  lemma {:induction false} XorCommutes(a: nat, b: nat)
    ensures Xor(a, b) == Xor(b, a)
    decreases a + b
  {
    if a != 0 || b != 0 { XorCommutes(a / 2, b / 2); }
  }

  function Power(base: nat, n: nat): nat {
    if n == 0 then 1 else base * Power(base, n - 1)
  }

  lemma {:induction false} XorFits(a: nat, b: nat, n: nat)
    requires a < Power(2, n) && b < Power(2, n)
    ensures Xor(a, b) < Power(2, n)
    decreases n
  {
    if n > 0 && (a != 0 || b != 0) { XorFits(a / 2, b / 2, n - 1); }
  }

  lemma {:induction false} WordPower()
    ensures Power(2, 64) == WORDS
  {
    assert Power(2, 8) == 256;
    PowerAdds(2, 8, 8);
    PowerAdds(2, 16, 16);
    PowerAdds(2, 32, 32);
  }

  lemma {:induction false} PowerAdds(base: nat, m: nat, n: nat)
    ensures Power(base, m + n) == Power(base, m) * Power(base, n)
    decreases m
  {
    if m > 0 {
      PowerAdds(base, m - 1, n);
      assert base * (Power(base, m - 1) * Power(base, n)) == (base * Power(base, m - 1)) * Power(base, n);
    }
  }

  /** One byte: exclusive or, then a wrapping multiplication. */
  function Mix(h: Word, b: Byte): Word {
    Xor(h, b) * PRIME % WORDS
  }

  function Fold(h: Word, code: seq<Byte>): Word {
    if code == [] then h else Mix(Fold(h, code[..|code| - 1]), code[|code| - 1])
  }

  // ---------- Every step can be undone ----------

  lemma {:induction false} MultiplyUndone(x: Word)
    ensures (x * PRIME % WORDS) * INVERSE % WORDS == x
  {
    var product := x * PRIME;
    var q, r := product / WORDS, product % WORDS;
    var k := x * EXCESS - q * INVERSE;
    assert r * INVERSE == x + k * WORDS;
  }

  lemma {:induction false} MixUndone(h: Word, b: Byte)
    ensures Xor(Mix(h, b) * INVERSE % WORDS, b) == h
  {
    WordPower();
    XorFits(h, b, 64);
    MultiplyUndone(Xor(h, b));
    XorUndone(h, b);
  }

  lemma {:induction false} MixSeparatesBytes(h: Word, b: Byte, c: Byte)
    ensures Mix(h, b) == Mix(h, c) <==> b == c
  {
    if Mix(h, b) == Mix(h, c) {
      WordPower();
      XorFits(h, b, 64);
      XorFits(h, c, 64);
      MultiplyUndone(Xor(h, b));
      MultiplyUndone(Xor(h, c));
      XorCommutes(h, b);
      XorCommutes(h, c);
      XorUndone(b, h);
      XorUndone(c, h);
    }
  }

  lemma {:induction false} FoldJoins(h: Word, front: seq<Byte>, back: seq<Byte>)
    ensures Fold(h, front + back) == Fold(Fold(h, front), back)
    decreases back
  {
    if back == [] {
      assert front + back == front;
    } else {
      var whole := front + back;
      assert whole[..|whole| - 1] == front + back[..|back| - 1];
      FoldJoins(h, front, back[..|back| - 1]);
    }
  }

  /** Whatever follows, two states stay apart. */
  lemma {:induction false} FoldSeparates(h: Word, g: Word, code: seq<Byte>)
    ensures Fold(h, code) == Fold(g, code) <==> h == g
    decreases code
  {
    if code != [] {
      var front, last := code[..|code| - 1], code[|code| - 1];
      FoldSeparates(h, g, front);
      MixUndone(Fold(h, front), last);
      MixUndone(Fold(g, front), last);
    }
  }

  // ---------- Sixteen hexadecimal digits ----------

  const DIGITS := "0123456789abcdef"

  function Hex(h: nat, n: nat): (text: string)
    ensures |text| == n
  {
    if n == 0 then "" else Hex(h / 16, n - 1) + [DIGITS[h % 16]]
  }

  lemma {:induction false} HexSeparates(h: nat, g: nat, n: nat)
    requires h < Power(16, n) && g < Power(16, n) && Hex(h, n) == Hex(g, n)
    ensures h == g
    decreases n
  {
    if n > 0 {
      assert Hex(h, n)[..n - 1] == Hex(h / 16, n - 1) && Hex(g, n)[..n - 1] == Hex(g / 16, n - 1);
      assert Hex(h, n)[n - 1] == DIGITS[h % 16] && Hex(g, n)[n - 1] == DIGITS[g % 16];
      HexSeparates(h / 16, g / 16, n - 1);
      DigitsDiffer(h % 16, g % 16);
    }
  }

  lemma {:induction false} DigitsDiffer(i: nat, j: nat)
    requires i < 16 && j < 16 && DIGITS[i] == DIGITS[j]
    ensures i == j
  {
  }

  // ---------- The hash ----------

  function Hash(code: seq<Byte>): string {
    Hex(Fold(OFFSET_BASIS, code), 16)
  }

  method HashSource(code: seq<Byte>) returns (text: string)
    ensures text == Hash(code)
  {
    var hash: Word := OFFSET_BASIS;
    for i := 0 to |code|
      invariant hash == Fold(OFFSET_BASIS, code[..i])
    {
      assert code[..i + 1][..i] == code[..i];
      hash := Mix(hash, code[i]);
    }
    assert code[..|code|] == code;
    text := Hex(hash, 16);
  }

  lemma {:induction false} HashSeparatesStates(a: seq<Byte>, b: seq<Byte>)
    ensures Hash(a) == Hash(b) <==> Fold(OFFSET_BASIS, a) == Fold(OFFSET_BASIS, b)
  {
    if Hash(a) == Hash(b) {
      PowerAdds(16, 1, 1);
      PowerAdds(16, 2, 2);
      PowerAdds(16, 4, 4);
      PowerAdds(16, 8, 8);
      assert Power(16, 16) == WORDS;
      HexSeparates(Fold(OFFSET_BASIS, a), Fold(OFFSET_BASIS, b), 16);
    }
  }

  /** A common ending neither makes nor hides a collision. */
  lemma {:induction false} CommonEnding(a: seq<Byte>, b: seq<Byte>, ending: seq<Byte>)
    ensures Hash(a + ending) == Hash(b + ending) <==> Hash(a) == Hash(b)
  {
    FoldJoins(OFFSET_BASIS, a, ending);
    FoldJoins(OFFSET_BASIS, b, ending);
    FoldSeparates(Fold(OFFSET_BASIS, a), Fold(OFFSET_BASIS, b), ending);
    HashSeparatesStates(a + ending, b + ending);
    HashSeparatesStates(a, b);
  }

  /** Changing one byte, anywhere, always changes the hash. */
  lemma {:induction false} OneByteEditIsSeen(code: seq<Byte>, i: nat, b: Byte)
    requires i < |code|
    ensures Hash(code[i := b]) == Hash(code) <==> b == code[i]
  {
    var front, ending := code[..i], code[i + 1..];
    assert code == (front + [code[i]]) + ending && code[i := b] == (front + [b]) + ending;
    CommonEnding(front + [code[i]], front + [b], ending);
    HashSeparatesStates(front + [code[i]], front + [b]);
    var h := Fold(OFFSET_BASIS, front);
    assert (front + [code[i]])[..i] == front && (front + [b])[..i] == front;
    MixSeparatesBytes(h, code[i], b);
  }

  /** The published FNV-1a values of the empty text and of `a`. */
  lemma {:induction false} KnownHashes()
    ensures Fold(OFFSET_BASIS, []) == 0xcbf29ce484222325 && Fold(OFFSET_BASIS, [97]) == 0xaf63dc4c8601ec8c
  {
    OneByte(OFFSET_BASIS, 97);
    FirstXor();
    FirstProduct(Xor(OFFSET_BASIS, 97));
  }

  lemma {:induction false} OneByte(h: Word, b: Byte)
    ensures Fold(h, [b]) == Xor(h, b) * PRIME % WORDS
  {
    assert [b][..0] == [];
  }

  lemma {:induction false} FirstProduct(x: nat)
    requires x == 0xcbf29ce484222344
    ensures x * PRIME % WORDS == 0xaf63dc4c8601ec8c
  {
  }

  lemma {:induction false} FirstXor()
    ensures Xor(OFFSET_BASIS, 97) == 0xcbf29ce484222344
  {
    XorZero(0x197e539c9084446);
    XorByHalves(0x32fca739210888c, 1);
    assert Xor(0x32fca739210888c, 1) == 0x32fca739210888d;
    XorByHalves(0x65f94e724211119, 3);
    assert Xor(0x65f94e724211119, 3) == 0x65f94e72421111a;
    XorByHalves(0xcbf29ce48422232, 6);
    assert Xor(0xcbf29ce48422232, 6) == 0xcbf29ce48422234;
    XorByHalves(0x197e539c90844464, 12);
    assert Xor(0x197e539c90844464, 12) == 0x197e539c90844468;
    XorByHalves(0x32fca739210888c9, 24);
    assert Xor(0x32fca739210888c9, 24) == 0x32fca739210888d1;
    XorByHalves(0x65f94e7242111192, 48);
    assert Xor(0x65f94e7242111192, 48) == 0x65f94e72421111a2;
    XorByHalves(0xcbf29ce484222325, 97);
    assert Xor(0xcbf29ce484222325, 97) == 0xcbf29ce484222344;
  }

  lemma {:induction false} XorZero(a: nat)
    ensures Xor(a, 0) == a
  {
    if a != 0 { XorZero(a / 2); }
  }

  /** The number without its last `k` hexadecimal digits. */
  function Shifted(h: nat, k: nat): nat {
    if k == 0 then h else Shifted(h / 16, k - 1)
  }

  /** The digits are those of the number, the most significant first. */
  lemma {:induction false} HexDigits(h: nat, n: nat, k: nat)
    requires k < n
    ensures Hex(h, n)[n - 1 - k] == "0123456789abcdef"[Shifted(h, k) % 16]
    decreases n
  {
    if k > 0 {
      HexDigits(h / 16, n - 1, k - 1);
      assert Hex(h, n)[n - 1 - k] == Hex(h / 16, n - 1)[n - 1 - k];
    }
  }
}
