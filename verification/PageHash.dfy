/** The hash of a page of tokens, and of the extra key that goes with it, in 64-bit arithmetic that wraps around. */
module PageHashing {
  import opened Arithmetic
  import opened PageHistory

  const WORD := 0x1_0000_0000_0000_0000
  const BASE := 1_000_000_007
  const PRIME := 1_099_511_628_211

  /** A polynomial in the tokens; a negative token wraps around. */
  function HashTokenPage(tokens: seq<int>): (h: nat)
    ensures h < WORD
  {
    if tokens == [] then 0 else (HashTokenPage(tokens[..|tokens| - 1]) * BASE + tokens[|tokens| - 1]) % WORD
  }

  /** The exclusive or, bit by bit. */
  function Xor(a: nat, b: nat): nat
    decreases b
  {
    if b == 0 then a else 2 * Xor(a / 2, b / 2) + (a % 2 + b % 2) % 2
  }

  /** A character of a key stands for one byte. */
  function ByteOf(c: char): nat {
    c as nat % 256
  }

  function HashPrefixExtra(h: nat, key: string): nat {
    if key == "" then h else Xor(HashPrefixExtra(h, key[..|key| - 1]), ByteOf(key[|key| - 1])) * PRIME % WORD
  }

  /** The hash that selects the child of a trie node. */
  function PrefixHash(tokens: seq<int>, extra: string): nat {
    HashPrefixExtra(HashTokenPage(tokens), extra)
  }

  method ComputeHashTokenPage(tokens: seq<int>) returns (hash: nat)
    ensures hash == HashTokenPage(tokens)
  {
    hash := 0;
    for i := 0 to |tokens|
      invariant hash == HashTokenPage(tokens[..i])
    {
      assert tokens[..i + 1][..i] == tokens[..i];
      hash := (hash * BASE + tokens[i]) % WORD;
    }
    assert tokens[..|tokens|] == tokens;
  }

  method ComputeHashPrefixExtra(start: nat, key: string) returns (hash: nat)
    ensures hash == HashPrefixExtra(start, key)
  {
    hash := start;
    for i := 0 to |key|
      invariant hash == HashPrefixExtra(start, key[..i])
    {
      assert key[..i + 1][..i] == key[..i];
      hash := Xor(hash, ByteOf(key[i])) * PRIME % WORD;
    }
    assert key[..|key|] == key;
  }

  // --- an extra key never mixes two hashes up ---

  /** The inverse of the odd factor: PRIME * INVERSE is 1 plus ROUNDS times WORD. */
  const INVERSE := 14_886_173_955_864_302_971
  const ROUNDS := 887_285_111_055

  lemma Unscramble(x: nat)
    requires x < WORD
    ensures x * PRIME % WORD * INVERSE % WORD == x
  {
    var q, r := x * PRIME / WORD, x * PRIME % WORD;
    assert x * PRIME == q * WORD + r;
    var m := x * ROUNDS - q * INVERSE;
    assert r * INVERSE == m * WORD + x;
  }

  lemma Halves(x: nat, bit: nat)
    requires bit < 2
    ensures (2 * x + bit) / 2 == x && (2 * x + bit) % 2 == bit
  {
  }

  /** Applying a byte twice changes nothing. */
  lemma {:induction false} XorBack(a: nat, b: nat)
    ensures Xor(Xor(a, b), b) == a
    decreases b
  {
    if b != 0 {
      XorBack(a / 2, b / 2);
      Halves(Xor(a / 2, b / 2), (a % 2 + b % 2) % 2);
      var x := Xor(a, b);
      assert Xor(x, b) == 2 * Xor(x / 2, b / 2) + (x % 2 + b % 2) % 2;
    }
  }

  /** Bit k of a number. */
  function Bit(x: nat, k: nat): nat {
    if k == 0 then x % 2 else Bit(x / 2, k - 1)
  }

  /** A bit is set in the exclusive or exactly when it is set in one of the two numbers. */
  lemma {:induction false} XorBits(a: nat, b: nat, k: nat)
    ensures Bit(Xor(a, b), k) == 1 <==> Bit(a, k) != Bit(b, k)
    decreases k
  {
    if b == 0 {
      BitOfZero(k);
      BitRange(a, k);
    } else {
      Halves(Xor(a / 2, b / 2), (a % 2 + b % 2) % 2);
      if k > 0 {
        XorBits(a / 2, b / 2, k - 1);
      }
    }
  }

  lemma {:induction false} BitOfZero(k: nat)
    ensures Bit(0, k) == 0
  {
    if k > 0 {
      BitOfZero(k - 1);
    }
  }

  lemma {:induction false} BitRange(x: nat, k: nat)
    ensures Bit(x, k) == 0 || Bit(x, k) == 1
  {
    if k > 0 {
      BitRange(x / 2, k - 1);
    }
  }

  /** One byte of an extra key: it is mixed in by exclusive or, and the result is multiplied in 64 bits. */
  lemma OneByte(h: nat, key: string, c: char)
    requires c as nat < 256
    ensures HashPrefixExtra(h, key + [c])
         == Xor(HashPrefixExtra(h, key), c as nat) * 1099511628211 % 18446744073709551616
  {
    assert (key + [c])[..|key|] == key;
  }

  lemma {:induction false} XorFits(a: nat, b: nat, n: nat)
    requires a < Pow2(n) && b < Pow2(n)
    ensures Xor(a, b) < Pow2(n)
    decreases b
  {
    if b != 0 {
      XorFits(a / 2, b / 2, n - 1);
    }
  }

  lemma WordSize()
    ensures Pow2(8) == 256 && Pow2(64) == WORD
  {
    assert Pow2(2) == 4 && Pow2(4) == 4 * Pow2(2) && Pow2(6) == 4 * Pow2(4) && Pow2(8) == 4 * Pow2(6);
    Pow2Add(8, 8);
    Pow2Add(16, 16);
    Pow2Add(32, 32);
  }

  lemma ByteFits(a: nat, c: char)
    requires a < WORD
    ensures Xor(a, ByteOf(c)) < WORD
  {
    WordSize();
    XorFits(a, ByteOf(c), 64);
  }

  /** Behind the same extra key, different hashes stay different. */
  lemma {:induction false} ExtraKeepsApart(g: nat, h: nat, key: string)
    requires g < WORD && h < WORD
    ensures HashPrefixExtra(g, key) < WORD && HashPrefixExtra(h, key) < WORD
    ensures HashPrefixExtra(g, key) == HashPrefixExtra(h, key) <==> g == h
    decreases |key|
  {
    if key != "" {
      var init, c := key[..|key| - 1], key[|key| - 1];
      ExtraKeepsApart(g, h, init);
      var a, b := HashPrefixExtra(g, init), HashPrefixExtra(h, init);
      ByteFits(a, c);
      ByteFits(b, c);
      XorBack(a, ByteOf(c));
      XorBack(b, ByteOf(c));
      hide Xor;
      Unscramble(Xor(a, ByteOf(c)));
      Unscramble(Xor(b, ByteOf(c)));
    }
  }

  /** Two pages take the same edge exactly when their extra keys and the hashes of their tokens agree. */
  lemma SameEdge(a: PageKey, b: PageKey)
    ensures EdgeOf(PrefixHash, a) == EdgeOf(PrefixHash, b) <==>
        a.extra == b.extra && HashTokenPage(a.tokens) == HashTokenPage(b.tokens)
  {
    ExtraKeepsApart(HashTokenPage(a.tokens), HashTokenPage(b.tokens), a.extra);
  }

  // --- when the hashes of two pages of tokens agree ---

  /** The polynomial without wrapping around. */
  function Polynomial(tokens: seq<int>): int {
    if tokens == [] then 0 else Polynomial(tokens[..|tokens| - 1]) * BASE + tokens[|tokens| - 1]
  }

  lemma {:induction false} HashIsPolynomial(tokens: seq<int>)
    ensures HashTokenPage(tokens) == Polynomial(tokens) % WORD
    decreases |tokens|
  {
    if tokens != [] {
      var init, last := tokens[..|tokens| - 1], tokens[|tokens| - 1];
      HashIsPolynomial(init);
      var q := Polynomial(init) / WORD;
      assert Polynomial(init) * BASE + last == (HashTokenPage(init) * BASE + last) + q * BASE * WORD;
      Wrap(HashTokenPage(init) * BASE + last, q * BASE);
    }
  }

  lemma Wrap(x: int, k: int)
    ensures (x + k * WORD) % WORD == x % WORD
  {
    var q := x / WORD;
    assert x + k * WORD == (q + k) * WORD + x % WORD;
  }

  /** Tokens of the range of an int are told apart in pages of up to two tokens when they are below the base... */
  lemma ShortPages(a: seq<int>, b: seq<int>)
    requires |a| == |b| <= 2
    requires forall i :: 0 <= i < |a| ==> 0 <= a[i] < BASE && 0 <= b[i] < BASE
    ensures HashTokenPage(a) == HashTokenPage(b) <==> a == b
  {
    hide HashTokenPage, Polynomial;
    HashIsPolynomial(a);
    HashIsPolynomial(b);
    ShortPolynomial(a);
    ShortPolynomial(b);
  }

  lemma ShortPolynomial(a: seq<int>)
    requires |a| <= 2 && forall i :: 0 <= i < |a| ==> 0 <= a[i] < BASE
    ensures Polynomial(a) == (if |a| == 0 then 0 else if |a| == 1 then a[0] else a[0] * BASE + a[1])
    ensures 0 <= Polynomial(a) < WORD
  {
    if |a| == 2 {
      assert a[..1] == [a[0]];
      assert Polynomial([a[0]]) == a[0];
    }
  }

  /** ...but not in general: these two pages are different and have the same hash. */
  lemma PagesClash()
    ensures [1, 0] != [0, BASE] && HashTokenPage([1, 0]) == HashTokenPage([0, BASE])
    ensures EdgeOf(PrefixHash, PageKey([1, 0], "")) == EdgeOf(PrefixHash, PageKey([0, BASE], ""))
  {
    HashIsPolynomial([1, 0]);
    HashIsPolynomial([0, BASE]);
    assert [1, 0][..1] == [1] && [0, BASE][..1] == [0];
    assert Polynomial([1]) == 1 && Polynomial([0]) == 0;
    SameEdge(PageKey([1, 0], ""), PageKey([0, BASE], ""));
  }
}
