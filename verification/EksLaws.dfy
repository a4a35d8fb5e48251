/** What the expensive key setup and the digest are, said without their loops. */
module EksLaws {
  import opened Blowfish
  import opened EksBlowfish
  import opened Divisibility

  // ---------- the salted expansion ----------

  /** Subkeys `j` and `j + 1` are the pair before them, with words `j` and `j + 1` of the repeated salt mixed in,
      encrypted when all subkeys before were those of `d` and all others still those of `c`. */
  predicate SaltedSubkeys(c: Ctx, d: Ctx, salt: seq<word>, l: word, r: word, i: nat, j: nat)
    requires c.Valid() && d.Valid() && |salt| == 4 && i <= j && j + 2 <= P_SIZE && (j - i) % 2 == 0
  {
    var (x, y) := Before(d.p, l, r, i, j);
    (d.p[j], d.p[j + 1]) == EncryptWith(Ctx(d.p[..j] + c.p[j..], c.s), x ^ salt[j % 4], y ^ salt[(j + 1) % 4])
  }

  /** The same for two words of the boxes; the salt goes on with its third word. */
  predicate SaltedBoxes(c: Ctx, d: Ctx, salt: seq<word>, l: word, r: word, i: nat, j: nat)
    requires c.Valid() && d.Valid() && |salt| == 4 && i <= j && j + 2 <= S_SIZE && (j - i) % 2 == 0
  {
    var (x, y) := Before(d.s, l, r, i, j);
    (d.s[j], d.s[j + 1]) == EncryptWith(Ctx(c.p, d.s[..j] + c.s[j..]), x ^ salt[(j + 2) % 4], y ^ salt[(j + 3) % 4])
  }

  lemma {:induction false} SaltKeepsPrefix(c: Ctx, salt: seq<word>, l: word, r: word, i: nat)
    requires c.Valid() && |salt| == 4 && i <= P_SIZE && i % 2 == 0
    ensures var (d, x, y) := SaltP(c, salt, l, r, i);
            && d.Valid() && d.s == c.s && d.p[..i] == c.p[..i]
            && (if i < P_SIZE then (x, y) == (d.p[P_SIZE - 2], d.p[P_SIZE - 1]) else (x, y) == (l, r))
    decreases P_SIZE - i
  {
    hide EncryptWith, WithSalt;
    if i < P_SIZE {
      var (x, y) := EncryptWith(c, WithSalt(l, salt, i), WithSalt(r, salt, i + 1));
      var next := c.(p := c.p[i := x][i + 1 := y]);
      SaltKeepsPrefix(next, salt, x, y, i + 2);
      var d := SaltP(next, salt, x, y, i + 2).0;
      PrefixPair(next.p, d.p, i);
      ShorterPrefix(c.p, next.p, d.p, i);
    }
  }

  /** The filling from `i` on goes on from `next` with block `x`, `y`, which stay in the subkeys to the end. */
  ghost predicate GoesOn(c: Ctx, next: Ctx, salt: seq<word>, l: word, r: word, x: word, y: word, i: nat)
    requires c.Valid() && next.Valid() && |salt| == 4 && i + 2 <= P_SIZE && i % 2 == 0 == (i + 2) % 2
  {
    hide SaltP;
    var d := SaltP(c, salt, l, r, i).0;
    && SaltP(c, salt, l, r, i) == SaltP(next, salt, x, y, i + 2)
    && d.Valid() && d.p[..i] == c.p[..i] && d.p[i] == x && d.p[i + 1] == y
  }

  lemma SaltStep(c: Ctx, salt: seq<word>, l: word, r: word, i: nat) returns (next: Ctx, x: word, y: word)
    requires c.Valid() && |salt| == 4 && i + 2 <= P_SIZE && i % 2 == 0 == (i + 2) % 2
    ensures (x, y) == EncryptWith(c, WithSalt(l, salt, i), WithSalt(r, salt, i + 1))
    ensures next == c.(p := c.p[i := x][i + 1 := y]) && next.Valid()
    ensures GoesOn(c, next, salt, l, r, x, y, i)
  {
    hide EncryptWith, WithSalt;
    var block := EncryptWith(c, WithSalt(l, salt, i), WithSalt(r, salt, i + 1));
    x, y := block.0, block.1;
    next := c.(p := c.p[i := x][i + 1 := y]);
    SaltKeepsPrefix(c, salt, l, r, i);
    SaltKeepsPrefix(next, salt, x, y, i + 2);
    PrefixPair(next.p, SaltP(next, salt, x, y, i + 2).0.p, i);
  }

  lemma FirstSaltedSubkeys(c: Ctx, d: Ctx, salt: seq<word>, l: word, r: word, i: nat)
    requires c.Valid() && d.Valid() && |salt| == 4 && i + 2 <= P_SIZE && d.p[..i] == c.p[..i]
    requires (d.p[i], d.p[i + 1]) == EncryptWith(c, WithSalt(l, salt, i), WithSalt(r, salt, i + 1))
    ensures SaltedSubkeys(c, d, salt, l, r, i, i)
  {
    hide EncryptWith;
    assert d.p[..i] + c.p[i..] == c.p;
  }

  lemma LaterSaltedSubkeys(c: Ctx, d: Ctx, salt: seq<word>, l: word, r: word, x: word, y: word, i: nat, j: nat)
    requires c.Valid() && d.Valid() && |salt| == 4
    requires i + 2 <= j && j + 2 <= P_SIZE && (j - i) % 2 == 0 == (j - (i + 2)) % 2
    requires d.p[i] == x && d.p[i + 1] == y
    requires SaltedSubkeys(c.(p := c.p[i := x][i + 1 := y]), d, salt, x, y, i + 2, j)
    ensures SaltedSubkeys(c, d, salt, l, r, i, j)
  {
    hide EncryptWith;
    PutPair(c.p, i, x, y, d.p, j);
  }

  lemma {:induction false} SaltedSubkeysAre(c: Ctx, salt: seq<word>, l: word, r: word, i: nat, j: nat)
    requires c.Valid() && |salt| == 4
    requires i <= P_SIZE && i % 2 == 0 && i <= j && j + 2 <= P_SIZE && (j - i) % 2 == 0
    ensures var d := SaltP(c, salt, l, r, i).0; d.Valid() && SaltedSubkeys(c, d, salt, l, r, i, j)
    decreases P_SIZE - i
  {
    hide EncryptWith, WithSalt, SaltedSubkeys, SaltP;
    var next, x, y := SaltStep(c, salt, l, r, i);
    var d := SaltP(c, salt, l, r, i).0;
    if j == i {
      FirstSaltedSubkeys(c, d, salt, l, r, i);
    } else {
      SaltedSubkeysAre(next, salt, x, y, i + 2, j);
      LaterSaltedSubkeys(c, d, salt, l, r, x, y, i, j);
    }
  }

  lemma {:induction false} SaltKeepsBoxPrefix(c: Ctx, salt: seq<word>, l: word, r: word, i: nat)
    requires c.Valid() && |salt| == 4 && i <= S_SIZE && i % 4 == 0
    ensures var d := SaltS(c, salt, l, r, i); d.Valid() && d.p == c.p && d.s[..i] == c.s[..i]
    decreases S_SIZE - i
  {
    hide EncryptWith, WithSalt, SaltQuad;
    if i < S_SIZE {
      FourMore(i);
      var (d, x, y) := SaltQuad(c, salt, l, r, i);
      QuadKeeps(c, salt, l, r, i);
      SaltKeepsBoxPrefix(d, salt, x, y, i + 4);
      var e := SaltS(d, salt, x, y, i + 4);
      assert e.s[..i] == e.s[..i + 4][..i] && d.s[..i] == d.s[..i + 4][..i];
    }
  }

  /** Four words: two pairs, each chained to the one before. */
  lemma QuadKeeps(c: Ctx, salt: seq<word>, l: word, r: word, i: nat)
    requires c.Valid() && |salt| == 4 && i + 4 <= S_SIZE
    ensures var (d, u, v) := SaltQuad(c, salt, l, r, i);
            && d.Valid() && d.p == c.p && d.s[..i] == c.s[..i] && d.s[i + 4..] == c.s[i + 4..]
            && (u, v) == (d.s[i + 2], d.s[i + 3])
            && (d.s[i], d.s[i + 1]) == EncryptWith(c, WithSalt(l, salt, 18), WithSalt(r, salt, 19))
            && (u, v) == EncryptWith(c.(s := c.s[i := d.s[i]][i + 1 := d.s[i + 1]]),
                                     WithSalt(d.s[i], salt, 20), WithSalt(d.s[i + 1], salt, 21))
  {
    hide EncryptWith, WithSalt;
  }

  lemma {:induction false} SaltedBoxesAre(c: Ctx, salt: seq<word>, l: word, r: word, i: nat, j: nat)
    requires c.Valid() && |salt| == 4
    requires i < S_SIZE && i % 4 == 0 && i <= j && j + 2 <= S_SIZE && (j - i) % 2 == 0
    ensures var d := SaltS(c, salt, l, r, i); d.Valid() && SaltedBoxes(c, d, salt, l, r, i, j)
    decreases S_SIZE - i
  {
    hide EncryptWith, WithSalt, SaltQuad, SaltedBoxes;
    FourMore(i);
    var (m, u, v) := SaltQuad(c, salt, l, r, i);
    QuadKeeps(c, salt, l, r, i);
    SaltKeepsBoxPrefix(m, salt, u, v, i + 4);
    var d := SaltS(c, salt, l, r, i);
    assert d == SaltS(m, salt, u, v, i + 4);
    FourPrefix(m.s, d.s, i);
    if j < i + 4 {
      if j == i {
        FirstPairOfQuad(c, d, salt, l, r, i);
      } else {
        assert j == i + 2;
        SecondPairOfQuad(c, d, salt, l, r, i);
      }
    } else {
      SaltedBoxesAre(m, salt, u, v, i + 4, j);
      LaterSaltedBoxes(c, m, d, salt, l, r, i, j);
    }
  }

  lemma FourPrefix<T>(a: seq<T>, b: seq<T>, i: nat)
    requires i + 4 <= |a| == |b| && a[..i + 4] == b[..i + 4]
    ensures a[..i] == b[..i] && a[i] == b[i] && a[i + 1] == b[i + 1] && a[i + 2] == b[i + 2] && a[i + 3] == b[i + 3]
  {
    assert a[..i] == a[..i + 4][..i] && b[..i] == b[..i + 4][..i];
    assert a[i] == a[..i + 4][i] && a[i + 1] == a[..i + 4][i + 1];
    assert a[i + 2] == a[..i + 4][i + 2] && a[i + 3] == a[..i + 4][i + 3];
  }

  lemma ModFour(i: nat)
    requires i % 4 == 0
    ensures (i + 2) % 4 == 2 && (i + 3) % 4 == 3 && (i + 4) % 4 == 0 && (i + 5) % 4 == 1
  {
    var q := i / 4;
    assert i == 4 * q;
    DivModUnique(i + 2, 4, q, 2);
    DivModUnique(i + 3, 4, q, 3);
    DivModUnique(i + 4, 4, q + 1, 0);
    DivModUnique(i + 5, 4, q + 1, 1);
  }

  lemma FirstPairOfQuad(c: Ctx, d: Ctx, salt: seq<word>, l: word, r: word, i: nat)
    requires c.Valid() && d.Valid() && |salt| == 4 && i + 2 <= S_SIZE && i % 4 == 0 && d.s[..i] == c.s[..i]
    requires (d.s[i], d.s[i + 1]) == EncryptWith(c, WithSalt(l, salt, 18), WithSalt(r, salt, 19))
    ensures SaltedBoxes(c, d, salt, l, r, i, i)
  {
    hide EncryptWith;
    ModFour(i);
    assert d.s[..i] + c.s[i..] == c.s;
  }

  lemma SecondPairOfQuad(c: Ctx, d: Ctx, salt: seq<word>, l: word, r: word, i: nat)
    requires c.Valid() && d.Valid() && |salt| == 4 && i + 4 <= S_SIZE && i % 4 == 0 && d.s[..i] == c.s[..i]
    requires (d.s[i + 2], d.s[i + 3]) == EncryptWith(c.(s := c.s[i := d.s[i]][i + 1 := d.s[i + 1]]),
                                                     WithSalt(d.s[i], salt, 20), WithSalt(d.s[i + 1], salt, 21))
    ensures SaltedBoxes(c, d, salt, l, r, i, i + 2)
  {
    hide EncryptWith;
    ModFour(i);
    TwoReplaced(c.s, d.s, i);
  }

  lemma TwoReplaced<T>(a: seq<T>, b: seq<T>, i: nat)
    requires i + 4 <= |a| == |b| && b[..i] == a[..i]
    ensures b[..i + 2] + a[i + 2..] == a[i := b[i]][i + 1 := b[i + 1]]
  {
    assert b[..i + 2] == b[..i] + [b[i], b[i + 1]];
  }

  lemma LaterSaltedBoxes(c: Ctx, m: Ctx, d: Ctx, salt: seq<word>, l: word, r: word, i: nat, j: nat)
    requires c.Valid() && m.Valid() && d.Valid() && |salt| == 4 && m.p == c.p
    requires i + 4 <= j && j + 2 <= S_SIZE && (j - i) % 2 == 0 == (j - (i + 4)) % 2
    requires m.s[i + 4..] == c.s[i + 4..]
    requires SaltedBoxes(m, d, salt, d.s[i + 2], d.s[i + 3], i + 4, j)
    ensures SaltedBoxes(c, d, salt, l, r, i, j)
  {
    hide EncryptWith;
    assert m.s[j..] == m.s[i + 4..][j - i - 4..] == c.s[j..];
  }

  lemma SubkeysAreEnough(c: Ctx, d: Ctx, e: Ctx, salt: seq<word>, j: nat)
    requires c.Valid() && d.Valid() && e.Valid() && d.p == e.p && |salt| == 4 && j + 2 <= P_SIZE && (j - 0) % 2 == 0
    requires SaltedSubkeys(c, d, salt, 0, 0, 0, j)
    ensures SaltedSubkeys(c, e, salt, 0, 0, 0, j)
  {
    hide EncryptWith;
  }

  /** `d` is `c` expanded with the salt, at place `j` of the subkeys and of the boxes. */
  predicate SaltedAt(c: Ctx, d: Ctx, salt: seq<word>, j: nat)
    requires c.Valid() && d.Valid() && |salt| == 4 && (j - 0) % 2 == 0 && j + 2 <= S_SIZE
  {
    && (j + 2 <= P_SIZE ==> SaltedSubkeys(c, d, salt, 0, 0, 0, j))
    && SaltedBoxes(Ctx(d.p, c.s), d, salt, d.p[P_SIZE - 2], d.p[P_SIZE - 1], 0, j)
  }

  lemma SaltedParts(c: Ctx, salt: seq<word>) returns (d: Ctx, l: word, r: word)
    requires c.Valid() && |salt| == 4
    ensures (d, l, r) == SaltP(c, salt, 0, 0, 0) && d.Valid() && d.s == c.s
    ensures (l, r) == (d.p[P_SIZE - 2], d.p[P_SIZE - 1])
    ensures Salted(c, salt) == SaltS(d, salt, l, r, 0) && Salted(c, salt).p == d.p
  {
    hide SaltP, SaltS;
    SaltKeepsPrefix(c, salt, 0, 0, 0);
    var parts := SaltP(c, salt, 0, 0, 0);
    d, l, r := parts.0, parts.1, parts.2;
    SaltKeepsBoxPrefix(d, salt, l, r, 0);
  }

  /** The salted expansion, pair by pair. */
  lemma SaltedIsChained(c: Ctx, salt: seq<word>, j: nat)
    requires c.Valid() && |salt| == 4 && (j - 0) % 2 == 0 && j + 2 <= S_SIZE
    ensures SaltedAt(c, Salted(c, salt), salt, j)
  {
    hide EncryptWith, SaltP, SaltS, SaltedBoxes, SaltedSubkeys, Salted;
    var d, l, r := SaltedParts(c, salt);
    SaltedBoxesAre(d, salt, l, r, 0, j);
    assert d == Ctx(Salted(c, salt).p, c.s);
    if j + 2 <= P_SIZE {
      SaltedSubkeysAre(c, salt, 0, 0, 0, j);
      SubkeysAreEnough(c, d, Salted(c, salt), salt, j);
    }
  }

  // ---------- the costly rounds ----------

  /** One costly round: the key is mixed into the subkeys word by word, all is expanded, the salt is mixed in, its four
      words repeated, and all is expanded again. */
  lemma CostlyRoundIs(c: Ctx, key: seq<word>, salt: seq<word>) returns (keyed: Ctx, salted: Ctx)
    requires c.Valid() && |key| == P_SIZE && |salt| == 4
    ensures keyed.Valid() && keyed.s == c.s && forall i :: 0 <= i < P_SIZE ==> keyed.p[i] == c.p[i] ^ key[i]
    ensures salted.Valid() && salted.s == Salted(keyed, NO_SALT).s
    ensures forall i :: 0 <= i < P_SIZE ==> salted.p[i] == Salted(keyed, NO_SALT).p[i] ^ salt[i % 4]
    ensures CostlyOnce(c, key, salt) == Salted(salted, NO_SALT)
  {
    hide Salted, Body;
    keyed := c.(p := Mixed(c.p, key));
    NoSaltIsPlain(keyed);
    var d := Salted(keyed, NO_SALT);
    salted := d.(p := Mixed(d.p, salt));
    NoSaltIsPlain(salted);
  }

  /** So many costly rounds, one after the other. */
  lemma {:induction false} CostlyIsRounds(c: Ctx, key: seq<word>, salt: seq<word>, rounds: nat)
    returns (states: seq<Ctx>)
    requires c.Valid() && |key| == P_SIZE && |salt| == 4
    ensures |states| == rounds + 1 && states[0] == c && states[rounds] == Costly(c, key, salt, rounds)
    ensures forall k :: 0 <= k <= rounds ==> states[k].Valid()
    ensures forall k: nat :: k < rounds ==> IsCostlyRound(states, key, salt, k)
    decreases rounds
  {
    hide CostlyOnce;
    if rounds == 0 {
      states := [c];
    } else {
      var rest := CostlyIsRounds(CostlyOnce(c, key, salt), key, salt, rounds - 1);
      states := [c] + rest;
      forall k: nat | k < rounds
        ensures IsCostlyRound(states, key, salt, k)
      {
        if k > 0 {
          assert IsCostlyRound(rest, key, salt, k - 1);
        }
      }
    }
  }

  ghost predicate IsCostlyRound(states: seq<Ctx>, key: seq<word>, salt: seq<word>, k: nat)
    requires |key| == P_SIZE && |salt| == 4
  {
    k + 1 < |states| && states[k].Valid() && states[k + 1] == CostlyOnce(states[k], key, salt)
  }

  // ---------- the digest ----------

  ghost predicate IsEncryption(c: Ctx, blocks: seq<(word, word)>, k: nat)
    requires c.Valid()
  {
    k + 1 < |blocks| && blocks[k + 1] == EncryptWith(c, blocks[k].0, blocks[k].1)
  }

  lemma {:induction false} TimesIsIterated(c: Ctx, l: word, r: word, n: nat) returns (blocks: seq<(word, word)>)
    requires c.Valid()
    ensures |blocks| == n + 1 && blocks[0] == (l, r) && blocks[n] == EncryptTimes(c, l, r, n)
    ensures forall k: nat :: k < n ==> IsEncryption(c, blocks, k)
    decreases n
  {
    hide EncryptWith;
    if n == 0 {
      blocks := [(l, r)];
    } else {
      var (x, y) := EncryptWith(c, l, r);
      var rest := TimesIsIterated(c, x, y, n - 1);
      blocks := [(l, r)] + rest;
      forall k: nat | k < n
        ensures IsEncryption(c, blocks, k)
      {
        if k > 0 {
          assert IsEncryption(c, rest, k - 1);
        }
      }
    }
  }

  /** The digest: the tables expanded with the salt, the costly rounds, and then each of the three pairs of magic words
      encrypted 64 times under the same outcome. */
  lemma DigestIs(initial: seq<word>, boxes: seq<word>, magic: seq<word>, key: seq<word>, salt: seq<word>, rounds: nat,
                 pair: nat) returns (states: seq<Ctx>, blocks: seq<(word, word)>)
    requires |initial| == P_SIZE && |boxes| == S_SIZE && |magic| == 6 && |key| == P_SIZE && |salt| == 4 && pair < 3
    ensures |states| == rounds + 1 && states[0] == Salted(Ctx(initial, boxes), salt)
    ensures forall k: nat :: k < rounds ==> IsCostlyRound(states, key, salt, k)
    ensures states[rounds].Valid() && |blocks| == 65 && blocks[0] == (magic[2 * pair], magic[2 * pair + 1])
    ensures forall k: nat :: k < 64 ==> IsEncryption(states[rounds], blocks, k)
    ensures var words := Digest(initial, boxes, magic, key, salt, rounds);
            blocks[64] == (words[2 * pair], words[2 * pair + 1])
  {
    hide Salted, Costly, EncryptTimes;
    states := CostlyIsRounds(Salted(Ctx(initial, boxes), salt), key, salt, rounds);
    blocks := TimesIsIterated(states[rounds], magic[2 * pair], magic[2 * pair + 1], 64);
  }
}
