/** The Feistel network of Blowfish and the loops that rewrite its subkeys and S-boxes. */
module Blowfish {

  type word = bv32

  const BF_N: nat := 16
  const P_SIZE: nat := 18
  const S_SIZE: nat := 1024  // four boxes of 256 words, one after the other

  // ---------- the round function, in its two forms ----------

  /** The word at `index` of box `box`. */
  function Box(s: seq<word>, box: nat, index: bv8): word
    requires |s| == S_SIZE && box < 4
  {
    s[box * 256 + index as int]
  }

  function Low8(x: word): bv8 {
    (x & 0xFF) as bv8
  }

  function Mix(a: word, b: word, c: word, d: word): word {
    ((b + a) ^ c) + d
  }

  /** The form for processors that scale an index. */
  function RoundWord(s: seq<word>, l: word): word
    requires |s| == S_SIZE
  {
    Mix(Box(s, 0, Low8(l >> 24)), Box(s, 1, Low8(l >> 16)), Box(s, 2, Low8(l >> 8)), Box(s, 3, Low8(l)))
  }

  /** The word at a byte offset, a multiple of four, into box `box`. */
  function BoxAtOffset(s: seq<word>, box: nat, offset: word): word
    requires |s| == S_SIZE && box < 4
    requires offset & 0x3 == 0 && offset <= 0x3FC
  {
    s[box * 256 + Low8(offset >> 2) as int]
  }

  lemma OffsetFacts(l: word, k: bv8)
    ensures ((l & 0xFF) << 2) & 0x3 == 0 && (l & 0xFF) << 2 <= 0x3FC
    ensures ((l >> 6) & 0x3FC) & 0x3 == 0 && (l >> 6) & 0x3FC <= 0x3FC
    ensures ((l >> 14) & 0x3FC) & 0x3 == 0 && (l >> 14) & 0x3FC <= 0x3FC
    ensures ((l >> 22) & 0x3FC) & 0x3 == 0 && (l >> 22) & 0x3FC <= 0x3FC
  {
  }

  /** The form for the other processors, on byte offsets. */
  function RoundWordByOffset(s: seq<word>, l: word): word
    requires |s| == S_SIZE
  {
    OffsetFacts(l, 0);
    Mix(BoxAtOffset(s, 0, (l >> 22) & 0x3FC), BoxAtOffset(s, 1, (l >> 14) & 0x3FC),
        BoxAtOffset(s, 2, (l >> 6) & 0x3FC), BoxAtOffset(s, 3, (l & 0xFF) << 2))
  }

  lemma Offset0(l: word)
    ensures Low8(((l & 0xFF) << 2) >> 2) == Low8(l)
  {
  }

  lemma Offset1(l: word)
    ensures Low8(((l >> 6) & 0x3FC) >> 2) == Low8(l >> 8)
  {
  }

  lemma Offset2(l: word)
    ensures Low8(((l >> 14) & 0x3FC) >> 2) == Low8(l >> 16)
  {
  }

  lemma Offset3(l: word)
    ensures Low8(((l >> 22) & 0x3FC) >> 2) == Low8(l >> 24)
  {
  }

  lemma BoxFormsAgree(s: seq<word>, l: word)
    requires |s| == S_SIZE
    ensures ((l & 0xFF) << 2) & 0x3 == 0 && (l & 0xFF) << 2 <= 0x3FC
    ensures BoxAtOffset(s, 3, (l & 0xFF) << 2) == Box(s, 3, Low8(l))
  {
    OffsetFacts(l, 0);
    Offset0(l);
  }

  lemma BoxFormsAgree1(s: seq<word>, l: word)
    requires |s| == S_SIZE
    ensures ((l >> 6) & 0x3FC) & 0x3 == 0 && (l >> 6) & 0x3FC <= 0x3FC
    ensures BoxAtOffset(s, 2, (l >> 6) & 0x3FC) == Box(s, 2, Low8(l >> 8))
  {
    OffsetFacts(l, 0);
    Offset1(l);
  }

  lemma BoxFormsAgree2(s: seq<word>, l: word)
    requires |s| == S_SIZE
    ensures ((l >> 14) & 0x3FC) & 0x3 == 0 && (l >> 14) & 0x3FC <= 0x3FC
    ensures BoxAtOffset(s, 1, (l >> 14) & 0x3FC) == Box(s, 1, Low8(l >> 16))
  {
    OffsetFacts(l, 0);
    Offset2(l);
  }

  lemma BoxFormsAgree3(s: seq<word>, l: word)
    requires |s| == S_SIZE
    ensures ((l >> 22) & 0x3FC) & 0x3 == 0 && (l >> 22) & 0x3FC <= 0x3FC
    ensures BoxAtOffset(s, 0, (l >> 22) & 0x3FC) == Box(s, 0, Low8(l >> 24))
  {
    OffsetFacts(l, 0);
    Offset3(l);
  }

  /** Both forms of the round compute the same word. */
  lemma RoundFormsAgree(s: seq<word>, l: word)
    requires |s| == S_SIZE
    ensures RoundWordByOffset(s, l) == RoundWord(s, l)
  {
    BoxFormsAgree(s, l);
    BoxFormsAgree1(s, l);
    BoxFormsAgree2(s, l);
    BoxFormsAgree3(s, l);
  }

  /** The round function that the S-boxes define. */
  function RoundOf(s: seq<word>): word -> word
    requires |s| == S_SIZE
  {
    l => RoundWord(s, l)
  }

  // ---------- one block, whatever the round function ----------

  /** One macro expansion of a round: the half `y` changes, the half `x` is read. */
  function Round(p: seq<word>, f: word -> word, x: word, y: word, n: nat): word
    requires |p| == P_SIZE && n < BF_N
  {
    y ^ p[n + 1] ^ f(x)
  }

  function Xor(a: word, b: word): word {
    a ^ b
  }

  /** The two halves after `n` rounds: the one the next round reads, then the one it changes. */
  function Rounds(p: seq<word>, f: word -> word, l: word, r: word, n: nat): (word, word)
    requires |p| == P_SIZE && n <= BF_N
  {
    if n == 0 then (Xor(l, p[0]), r)
    else
      var (x, y) := Rounds(p, f, l, r, n - 1);
      (Round(p, f, x, y, n - 1), x)
  }

  function Encrypt(p: seq<word>, f: word -> word, l: word, r: word): (word, word)
    requires |p| == P_SIZE
  {
    var (x, y) := Rounds(p, f, l, r, BF_N);
    (Xor(y, p[BF_N + 1]), x)
  }

  /** The sixteen rounds written out, as the macro has them. */
  method EncryptBlock(p: seq<word>, f: word -> word, left: word, right: word) returns (l: word, r: word)
    requires |p| == P_SIZE
    ensures (l, r) == Encrypt(p, f, left, right)
  {
    hide Round, Xor;
    l, r := Xor(left, p[0]), right;
    l, r := FourRounds(p, f, left, right, l, r, 0);
    l, r := FourRounds(p, f, left, right, l, r, 4);
    l, r := FourRounds(p, f, left, right, l, r, 8);
    l, r := FourRounds(p, f, left, right, l, r, 12);
    var tmp4 := r;
    r := l;
    l := Xor(tmp4, p[BF_N + 1]);
  }

  method FourRounds(p: seq<word>, f: word -> word, ghost left: word, ghost right: word, l0: word, r0: word, n: nat)
    returns (l: word, r: word)
    requires |p| == P_SIZE && n + 4 <= BF_N && (l0, r0) == Rounds(p, f, left, right, n)
    ensures (l, r) == Rounds(p, f, left, right, n + 4)
  {
    hide Round;
    l, r := l0, r0;
    r := Round(p, f, l, r, n);
    assert Rounds(p, f, left, right, n + 1) == (r, l);
    l := Round(p, f, r, l, n + 1);
    assert Rounds(p, f, left, right, n + 2) == (l, r);
    r := Round(p, f, l, r, n + 2);
    assert Rounds(p, f, left, right, n + 3) == (r, l);
    l := Round(p, f, r, l, n + 3);
  }

  // ---------- the block cipher is a bijection ----------

  function Reversed(p: seq<word>): (q: seq<word>)
    requires |p| == P_SIZE
    ensures |q| == P_SIZE && forall i :: 0 <= i < P_SIZE ==> q[i] == p[P_SIZE - 1 - i]
  {
    seq(P_SIZE, i requires 0 <= i < P_SIZE => p[P_SIZE - 1 - i])
  }

  lemma XorTwice(x: word, y: word)
    ensures Xor(Xor(x, y), y) == x
  {
  }

  lemma XorBack(y: word, k: word, f: word)
    ensures ((y ^ k ^ f) ^ k) ^ f == y
  {
  }

  /** A round repeated with the same subkey is undone. */
  lemma RoundUndone(p: seq<word>, q: seq<word>, f: word -> word, x: word, y: word, n: nat, m: nat)
    requires |p| == |q| == P_SIZE && n < BF_N && m < BF_N && q[m + 1] == p[n + 1]
    ensures Round(q, f, x, Round(p, f, x, y, n), m) == y
  {
    XorBack(y, p[n + 1], f(x));
  }

  lemma NoRoundsUndone(p: seq<word>, f: word -> word, l: word, r: word)
    requires |p| == P_SIZE
    ensures var (l', r') := Encrypt(p, f, l, r);
            var (x, y) := Rounds(p, f, l, r, BF_N);
            Rounds(Reversed(p), f, l', r', 0) == (y, x)
  {
    hide Round;
    XorTwice(Rounds(p, f, l, r, BF_N).1, p[BF_N + 1]);
  }

  /** Under the reversed subkeys the rounds are walked back, halves exchanged. */
  lemma {:induction false} RoundsUndone(p: seq<word>, f: word -> word, l: word, r: word, k: nat)
    requires |p| == P_SIZE && k <= BF_N
    ensures var (l', r') := Encrypt(p, f, l, r);
            var (x, y) := Rounds(p, f, l, r, BF_N - k);
            Rounds(Reversed(p), f, l', r', k) == (y, x)
  {
    hide Round, Encrypt, Reversed;
    if k == 0 {
      NoRoundsUndone(p, f, l, r);
    } else {
      RoundsUndone(p, f, l, r, k - 1);
      var (x, y) := Rounds(p, f, l, r, BF_N - k);
      RoundUndone(p, Reversed(p), f, x, y, BF_N - k, k - 1);
    }
  }

  /** Encrypting with the subkeys reversed undoes encrypting, for every subkey array and round function. */
  lemma ReversedUndoes(p: seq<word>, f: word -> word, l: word, r: word)
    requires |p| == P_SIZE
    ensures var (l', r') := Encrypt(p, f, l, r); Encrypt(Reversed(p), f, l', r') == (l, r)
  {
    hide Round;
    RoundsUndone(p, f, l, r, BF_N);
    XorTwice(l, p[0]);
  }

  lemma ReversedTwice(p: seq<word>)
    requires |p| == P_SIZE
    ensures Reversed(Reversed(p)) == p
  {
  }

  /** So a block cipher it is: every pair of halves is the encryption of exactly one pair. */
  lemma EncryptIsBijective(p: seq<word>, f: word -> word, l: word, r: word)
    requires |p| == P_SIZE
    ensures exists x, y :: Encrypt(p, f, x, y) == (l, r)
    ensures forall x, y, u, v :: Encrypt(p, f, x, y) == Encrypt(p, f, u, v) ==> x == u && y == v
  {
    hide Rounds;
    var (x, y) := Encrypt(Reversed(p), f, l, r);
    ReversedUndoes(Reversed(p), f, l, r);
    ReversedTwice(p);
    assert Encrypt(p, f, x, y) == (l, r);
    forall a, b, u, v | Encrypt(p, f, a, b) == Encrypt(p, f, u, v)
      ensures a == u && b == v
    {
      ReversedUndoes(p, f, a, b);
      ReversedUndoes(p, f, u, v);
    }
  }
}
