/** The expensive key setup: loops that rewrite the subkeys and S-boxes in place, and the digest they lead to. */
module EksBlowfish {
  import opened Blowfish

  datatype Ctx = Ctx(p: seq<word>, s: seq<word>) {
    ghost predicate Valid() { |p| == P_SIZE && |s| == S_SIZE }
  }

  function EncryptWith(c: Ctx, l: word, r: word): (word, word)
    requires c.Valid()
  {
    Encrypt(c.p, RoundOf(c.s), l, r)
  }

  // ---------- what each loop computes ----------

  /** Rewrites the subkeys from `i` on, two at a time, chaining the block through. */
  function FillP(c: Ctx, l: word, r: word, i: nat): (Ctx, word, word)
    requires c.Valid() && i <= P_SIZE && i % 2 == 0
    decreases P_SIZE - i
  {
    if i == P_SIZE then (c, l, r)
    else
      var (x, y) := EncryptWith(c, l, r);
      FillP(c.(p := c.p[i := x][i + 1 := y]), x, y, i + 2)
  }

  function FillS(c: Ctx, l: word, r: word, i: nat): Ctx
    requires c.Valid() && i <= S_SIZE && i % 2 == 0
    decreases S_SIZE - i
  {
    if i == S_SIZE then c
    else
      var (x, y) := EncryptWith(c, l, r);
      FillS(c.(s := c.s[i := x][i + 1 := y]), x, y, i + 2)
  }

  function Body(c: Ctx): (d: Ctx)
    requires c.Valid()
    ensures d.Valid()
  {
    hide FillP, FillS;
    FillKeepsSize(c, 0, 0, 0);
    var (d, l, r) := FillP(c, 0, 0, 0);
    FillSKeepsSize(d, l, r, 0);
    FillS(d, l, r, 0)
  }

  lemma {:induction false} FillKeepsSize(c: Ctx, l: word, r: word, i: nat)
    requires c.Valid() && i <= P_SIZE && i % 2 == 0
    ensures FillP(c, l, r, i).0.Valid() && FillP(c, l, r, i).0.s == c.s
    decreases P_SIZE - i
  {
    hide EncryptWith;
    if i < P_SIZE {
      var (x, y) := EncryptWith(c, l, r);
      FillKeepsSize(c.(p := c.p[i := x][i + 1 := y]), x, y, i + 2);
    }
  }

  lemma {:induction false} FillSKeepsSize(c: Ctx, l: word, r: word, i: nat)
    requires c.Valid() && i <= S_SIZE && i % 2 == 0
    ensures FillS(c, l, r, i).Valid() && FillS(c, l, r, i).p == c.p
    decreases S_SIZE - i
  {
    hide EncryptWith;
    if i < S_SIZE {
      var (x, y) := EncryptWith(c, l, r);
      FillSKeepsSize(c.(s := c.s[i := x][i + 1 := y]), x, y, i + 2);
    }
  }

  /** A half of the block with word `i` of the salt mixed in; the four words repeat. */
  function WithSalt(half: word, salt: seq<word>, i: nat): word
    requires |salt| == 4
  {
    half ^ salt[i % 4]
  }

  /** The same with the salt mixed into the block; its words alternate in pairs. */
  function SaltP(c: Ctx, salt: seq<word>, l: word, r: word, i: nat): (Ctx, word, word)
    requires c.Valid() && |salt| == 4 && i <= P_SIZE && i % 2 == 0
    decreases P_SIZE - i
  {
    if i == P_SIZE then (c, l, r)
    else
      var (x, y) := EncryptWith(c, WithSalt(l, salt, i), WithSalt(r, salt, i + 1));
      SaltP(c.(p := c.p[i := x][i + 1 := y]), salt, x, y, i + 2)
  }

  /** Four words of the S-boxes; the salt goes on where the subkeys left it, with its third word. */
  function SaltQuad(c: Ctx, salt: seq<word>, l: word, r: word, i: nat): (quad: (Ctx, word, word))
    requires c.Valid() && |salt| == 4 && i + 4 <= S_SIZE
    ensures quad.0.Valid()
  {
    hide EncryptWith, WithSalt;
    var (x, y) := EncryptWith(c, WithSalt(l, salt, BF_N + 2), WithSalt(r, salt, BF_N + 3));
    var d := c.(s := c.s[i := x][i + 1 := y]);
    var (u, v) := EncryptWith(d, WithSalt(x, salt, BF_N + 4), WithSalt(y, salt, BF_N + 5));
    (d.(s := d.s[i + 2 := u][i + 3 := v]), u, v)
  }

  lemma FourMore(i: nat)
    requires i % 4 == 0 && i < S_SIZE
    ensures i + 4 <= S_SIZE && (i + 4) % 4 == 0
  {
  }

  function SaltS(c: Ctx, salt: seq<word>, l: word, r: word, i: nat): Ctx
    requires c.Valid() && |salt| == 4 && i <= S_SIZE && i % 4 == 0
    decreases S_SIZE - i
  {
    hide SaltQuad;
    if i == S_SIZE then c
    else
      FourMore(i);
      var (d, x, y) := SaltQuad(c, salt, l, r, i);
      SaltS(d, salt, x, y, i + 4)
  }

  function Salted(c: Ctx, salt: seq<word>): (d: Ctx)
    requires c.Valid() && |salt| == 4
    ensures d.Valid()
  {
    hide SaltP, SaltS, SaltQuad;
    SaltPKeepsSize(c, salt, 0, 0, 0);
    var (d, l, r) := SaltP(c, salt, 0, 0, 0);
    SaltSKeepsSize(d, salt, l, r, 0);
    SaltS(d, salt, l, r, 0)
  }

  lemma {:induction false} SaltPKeepsSize(c: Ctx, salt: seq<word>, l: word, r: word, i: nat)
    requires c.Valid() && |salt| == 4 && i <= P_SIZE && i % 2 == 0
    ensures SaltP(c, salt, l, r, i).0.Valid()
    decreases P_SIZE - i
  {
    hide EncryptWith, WithSalt;
    if i < P_SIZE {
      var (x, y) := EncryptWith(c, WithSalt(l, salt, i), WithSalt(r, salt, i + 1));
      SaltPKeepsSize(c.(p := c.p[i := x][i + 1 := y]), salt, x, y, i + 2);
    }
  }

  lemma {:induction false} SaltSKeepsSize(c: Ctx, salt: seq<word>, l: word, r: word, i: nat)
    requires c.Valid() && |salt| == 4 && i <= S_SIZE && i % 4 == 0
    ensures SaltS(c, salt, l, r, i).Valid()
    decreases S_SIZE - i
  {
    hide EncryptWith, WithSalt;
    if i < S_SIZE {
      var (d, x, y) := SaltQuad(c, salt, l, r, i);
      SaltSKeepsSize(d, salt, x, y, i + 4);
    }
  }

  /** The subkeys with `words` mixed in, repeated as often as needed. */
  function Mixed(p: seq<word>, words: seq<word>): (q: seq<word>)
    requires |p| == P_SIZE && |words| > 0
    ensures |q| == P_SIZE
  {
    seq(P_SIZE, i requires 0 <= i < P_SIZE => p[i] ^ words[i % |words|])
  }

  function CostlyOnce(c: Ctx, key: seq<word>, salt: seq<word>): (d: Ctx)
    requires c.Valid() && |key| == P_SIZE && |salt| == 4
    ensures d.Valid()
  {
    var d := Body(c.(p := Mixed(c.p, key)));
    Body(d.(p := Mixed(d.p, salt)))
  }

  function Costly(c: Ctx, key: seq<word>, salt: seq<word>, rounds: nat): (d: Ctx)
    requires c.Valid() && |key| == P_SIZE && |salt| == 4
    ensures d.Valid()
    decreases rounds
  {
    if rounds == 0 then c else Costly(CostlyOnce(c, key, salt), key, salt, rounds - 1)
  }

  function EncryptTimes(c: Ctx, l: word, r: word, n: nat): (word, word)
    requires c.Valid()
    decreases n
  {
    if n == 0 then (l, r)
    else
      var (x, y) := EncryptWith(c, l, r);
      EncryptTimes(c, x, y, n - 1)
  }

  /** The digest of a key schedule, a salt and a number of rounds, over arbitrary initial boxes and magic words. */
  function Digest(initial: seq<word>, boxes: seq<word>, magic: seq<word>, key: seq<word>, salt: seq<word>,
                  rounds: nat): (words: seq<word>)
    requires |initial| == P_SIZE && |boxes| == S_SIZE && |magic| == 6 && |key| == P_SIZE && |salt| == 4
    ensures |words| == 6
  {
    var c := Costly(Salted(Ctx(initial, boxes), salt), key, salt, rounds);
    var (a, b) := EncryptTimes(c, magic[0], magic[1], 64);
    var (d, e) := EncryptTimes(c, magic[2], magic[3], 64);
    var (f, g) := EncryptTimes(c, magic[4], magic[5], 64);
    [a, b, d, e, f, g]
  }

  // ---------- the salted expansion of no salt is the plain one ----------

  const NO_SALT: seq<word> := [0, 0, 0, 0]

  lemma NoSaltChangesNothing(half: word, i: nat)
    ensures WithSalt(half, NO_SALT, i) == half
  {
    assert NO_SALT[i % 4] == 0;
  }

  lemma {:induction false} NoSaltSubkeys(c: Ctx, l: word, r: word, i: nat)
    requires c.Valid() && i <= P_SIZE && i % 2 == 0
    ensures SaltP(c, NO_SALT, l, r, i) == FillP(c, l, r, i)
    decreases P_SIZE - i
  {
    hide EncryptWith, WithSalt;
    if i < P_SIZE {
      NoSaltChangesNothing(l, i);
      NoSaltChangesNothing(r, i + 1);
      var (x, y) := EncryptWith(c, l, r);
      NoSaltSubkeys(c.(p := c.p[i := x][i + 1 := y]), x, y, i + 2);
    }
  }

  /** Four words filled with no salt are a part of the plain filling. */
  predicate FillGoesOn(c: Ctx, l: word, r: word, i: nat)
    requires c.Valid() && i + 4 <= S_SIZE && i % 2 == 0 == (i + 4) % 2
  {
    hide SaltQuad, FillS;
    var (d, x, y) := SaltQuad(c, NO_SALT, l, r, i);
    FillS(d, x, y, i + 4) == FillS(c, l, r, i)
  }

  lemma NoSaltQuad(c: Ctx, l: word, r: word, i: nat)
    requires c.Valid() && i + 4 <= S_SIZE && i % 2 == 0
    ensures FillGoesOn(c, l, r, i)
  {
    hide EncryptWith, WithSalt;
    NoSaltChangesNothing(l, BF_N + 2);
    NoSaltChangesNothing(r, BF_N + 3);
    var (x, y) := EncryptWith(c, l, r);
    NoSaltChangesNothing(x, BF_N + 4);
    NoSaltChangesNothing(y, BF_N + 5);
    var d := c.(s := c.s[i := x][i + 1 := y]);
    assert FillS(c, l, r, i) == FillS(d, x, y, i + 2);
  }

  lemma {:induction false} NoSaltBoxes(c: Ctx, l: word, r: word, i: nat)
    requires c.Valid() && i <= S_SIZE && i % 4 == 0 && i % 2 == 0
    ensures SaltS(c, NO_SALT, l, r, i) == FillS(c, l, r, i)
    decreases S_SIZE - i
  {
    hide EncryptWith, WithSalt, SaltQuad;
    if i < S_SIZE {
      NoSaltQuad(c, l, r, i);
      var (d, x, y) := SaltQuad(c, NO_SALT, l, r, i);
      NoSaltBoxes(d, x, y, i + 4);
    }
  }

  /** Expanding with a salt of zeros, four words of the boxes at a time, is the plain expansion, two at a time. */
  lemma NoSaltIsPlain(c: Ctx)
    requires c.Valid()
    ensures Salted(c, NO_SALT) == Body(c)
  {
    hide SaltP, SaltS, FillP, FillS;
    NoSaltSubkeys(c, 0, 0, 0);
    FillKeepsSize(c, 0, 0, 0);
    var (d, l, r) := FillP(c, 0, 0, 0);
    NoSaltBoxes(d, l, r, 0);
  }

  // ---------- what an expansion leaves, said without its loops ----------

  /** The block that pair `j` encrypts: the pair before it, and the given block for the first. */
  function Before(words: seq<word>, l: word, r: word, i: nat, j: nat): (word, word)
    requires i <= j < |words| && (j - i) % 2 == 0
  {
    if j == i then (l, r) else (words[j - 2], words[j - 1])
  }

  /** Subkeys `j` and `j + 1` are the pair before them, encrypted when all subkeys before had been replaced by those of
      `d` and all others were still those of `c`. */
  predicate SubkeyPair(c: Ctx, d: Ctx, l: word, r: word, i: nat, j: nat)
    requires c.Valid() && d.Valid() && i <= j && j + 2 <= P_SIZE && (j - i) % 2 == 0
  {
    (d.p[j], d.p[j + 1]) ==
      EncryptWith(Ctx(d.p[..j] + c.p[j..], c.s), Before(d.p, l, r, i, j).0, Before(d.p, l, r, i, j).1)
  }

  /** The same for two words of the boxes. */
  predicate BoxPair(c: Ctx, d: Ctx, l: word, r: word, i: nat, j: nat)
    requires c.Valid() && d.Valid() && i <= j && j + 2 <= S_SIZE && (j - i) % 2 == 0
  {
    (d.s[j], d.s[j + 1]) ==
      EncryptWith(Ctx(c.p, d.s[..j] + c.s[j..]), Before(d.s, l, r, i, j).0, Before(d.s, l, r, i, j).1)
  }

  lemma PutPair<T>(a: seq<T>, i: nat, x: T, y: T, rest: seq<T>, j: nat)
    requires i + 2 <= j <= |a| == |rest|
    ensures rest[..j] + a[i := x][i + 1 := y][j..] == rest[..j] + a[j..]
  {
  }

  lemma FirstSubkeyPair(c: Ctx, d: Ctx, l: word, r: word, i: nat)
    requires c.Valid() && d.Valid() && i + 2 <= P_SIZE && d.p[..i] == c.p[..i]
    requires (d.p[i], d.p[i + 1]) == EncryptWith(c, l, r)
    ensures SubkeyPair(c, d, l, r, i, i)
  {
    hide EncryptWith;
    assert d.p[..i] + c.p[i..] == c.p;
  }

  lemma LaterSubkeyPair(c: Ctx, d: Ctx, l: word, r: word, x: word, y: word, i: nat, j: nat)
    requires c.Valid() && d.Valid() && i + 2 <= j && j + 2 <= P_SIZE && (j - i) % 2 == 0 == (j - (i + 2)) % 2
    requires d.p[i] == x && d.p[i + 1] == y
    requires SubkeyPair(c.(p := c.p[i := x][i + 1 := y]), d, x, y, i + 2, j)
    ensures SubkeyPair(c, d, l, r, i, j)
  {
    hide EncryptWith;
    PutPair(c.p, i, x, y, d.p, j);
  }

  /** One step of filling the subkeys: the state and block it goes on with, and what of them stays to the end. */
  lemma FillStep(c: Ctx, l: word, r: word, i: nat) returns (next: Ctx, x: word, y: word)
    requires c.Valid() && i + 2 <= P_SIZE && i % 2 == 0
    ensures (x, y) == EncryptWith(c, l, r) && next == c.(p := c.p[i := x][i + 1 := y]) && next.Valid()
    ensures FillP(c, l, r, i) == FillP(next, x, y, i + 2)
    ensures var d := FillP(c, l, r, i).0; d.Valid() && d.p[..i] == c.p[..i] && d.p[i] == x && d.p[i + 1] == y
  {
    hide EncryptWith;
    var block := EncryptWith(c, l, r);
    x, y := block.0, block.1;
    next := c.(p := c.p[i := x][i + 1 := y]);
    FillKeepsPrefix(c, l, r, i);
    FillKeepsPrefix(next, x, y, i + 2);
    PrefixPair(next.p, FillP(next, x, y, i + 2).0.p, i);
  }

  lemma {:induction false} SubkeysAreChained(c: Ctx, l: word, r: word, i: nat, j: nat)
    requires c.Valid() && i <= P_SIZE && i % 2 == 0 && i <= j && j + 2 <= P_SIZE && (j - i) % 2 == 0
    ensures var d := FillP(c, l, r, i).0; d.Valid() && SubkeyPair(c, d, l, r, i, j)
    decreases P_SIZE - i
  {
    hide EncryptWith, SubkeyPair, FillP;
    var next, x, y := FillStep(c, l, r, i);
    var d := FillP(c, l, r, i).0;
    if j == i {
      FirstSubkeyPair(c, d, l, r, i);
    } else {
      SubkeysAreChained(next, x, y, i + 2, j);
      LaterSubkeyPair(c, d, l, r, x, y, i, j);
    }
  }

  lemma PrefixPair<T>(a: seq<T>, b: seq<T>, i: nat)
    requires i + 2 <= |a| == |b| && a[..i + 2] == b[..i + 2]
    ensures a[i] == b[i] && a[i + 1] == b[i + 1]
  {
    assert a[i] == a[..i + 2][i] && a[i + 1] == a[..i + 2][i + 1];
  }

  lemma {:induction false} FillKeepsPrefix(c: Ctx, l: word, r: word, i: nat)
    requires c.Valid() && i <= P_SIZE && i % 2 == 0
    ensures var (d, x, y) := FillP(c, l, r, i);
            d.Valid() && d.p[..i] == c.p[..i] &&
              (if i < P_SIZE then (x, y) == (d.p[P_SIZE - 2], d.p[P_SIZE - 1]) else (x, y) == (l, r))
    decreases P_SIZE - i
  {
    hide EncryptWith;
    if i < P_SIZE {
      var (x, y) := EncryptWith(c, l, r);
      var next := c.(p := c.p[i := x][i + 1 := y]);
      FillKeepsPrefix(next, x, y, i + 2);
      var d := FillP(next, x, y, i + 2).0;
      PrefixPair(next.p, d.p, i);
      ShorterPrefix(c.p, next.p, d.p, i);
    }
  }

  lemma ShorterPrefix<T>(a: seq<T>, b: seq<T>, d: seq<T>, i: nat)
    requires i + 2 <= |a| == |b| == |d| && a[..i] == b[..i] && b[..i + 2] == d[..i + 2]
    ensures a[..i] == d[..i]
  {
    assert b[..i] == b[..i + 2][..i] && d[..i] == d[..i + 2][..i];
  }

  lemma {:induction false} FillKeepsBoxPrefix(c: Ctx, l: word, r: word, i: nat)
    requires c.Valid() && i <= S_SIZE && i % 2 == 0
    ensures FillS(c, l, r, i).Valid() && FillS(c, l, r, i).p == c.p && FillS(c, l, r, i).s[..i] == c.s[..i]
    decreases S_SIZE - i
  {
    hide EncryptWith;
    if i < S_SIZE {
      var (x, y) := EncryptWith(c, l, r);
      var next := c.(s := c.s[i := x][i + 1 := y]);
      FillKeepsBoxPrefix(next, x, y, i + 2);
      ShorterPrefix(c.s, next.s, FillS(next, x, y, i + 2).s, i);
    }
  }

  lemma FirstBoxPair(c: Ctx, d: Ctx, l: word, r: word, i: nat)
    requires c.Valid() && d.Valid() && i + 2 <= S_SIZE && d.s[..i] == c.s[..i]
    requires (d.s[i], d.s[i + 1]) == EncryptWith(c, l, r)
    ensures BoxPair(c, d, l, r, i, i)
  {
    hide EncryptWith;
    assert d.s[..i] + c.s[i..] == c.s;
  }

  lemma LaterBoxPair(c: Ctx, d: Ctx, l: word, r: word, x: word, y: word, i: nat, j: nat)
    requires c.Valid() && d.Valid() && i + 2 <= j && j + 2 <= S_SIZE && (j - i) % 2 == 0 == (j - (i + 2)) % 2
    requires d.s[i] == x && d.s[i + 1] == y
    requires BoxPair(c.(s := c.s[i := x][i + 1 := y]), d, x, y, i + 2, j)
    ensures BoxPair(c, d, l, r, i, j)
  {
    hide EncryptWith;
    PutPair(c.s, i, x, y, d.s, j);
  }

  /** The same for the boxes. */
  lemma FillBoxStep(c: Ctx, l: word, r: word, i: nat) returns (next: Ctx, x: word, y: word)
    requires c.Valid() && i + 2 <= S_SIZE && i % 2 == 0
    ensures (x, y) == EncryptWith(c, l, r) && next == c.(s := c.s[i := x][i + 1 := y]) && next.Valid()
    ensures FillS(c, l, r, i) == FillS(next, x, y, i + 2)
    ensures var d := FillS(c, l, r, i); d.Valid() && d.s[..i] == c.s[..i] && d.s[i] == x && d.s[i + 1] == y
  {
    hide EncryptWith;
    var block := EncryptWith(c, l, r);
    x, y := block.0, block.1;
    next := c.(s := c.s[i := x][i + 1 := y]);
    FillKeepsBoxPrefix(c, l, r, i);
    FillKeepsBoxPrefix(next, x, y, i + 2);
    PrefixPair(next.s, FillS(next, x, y, i + 2).s, i);
  }

  lemma {:induction false} BoxesAreChained(c: Ctx, l: word, r: word, i: nat, j: nat)
    requires c.Valid() && i <= S_SIZE && i % 2 == 0 && i <= j && j + 2 <= S_SIZE && (j - i) % 2 == 0
    ensures var d := FillS(c, l, r, i); d.Valid() && BoxPair(c, d, l, r, i, j)
    decreases S_SIZE - i
  {
    hide EncryptWith, BoxPair, FillS;
    var next, x, y := FillBoxStep(c, l, r, i);
    var d := FillS(c, l, r, i);
    if j == i {
      FirstBoxPair(c, d, l, r, i);
    } else {
      BoxesAreChained(next, x, y, i + 2, j);
      LaterBoxPair(c, d, l, r, x, y, i, j);
    }
  }

  /** The expansion: every pair of subkeys is the pair before it, the first one zeros, encrypted under what was there
      just then; every pair of the boxes continues with the last subkeys, under the new subkeys. */
  lemma BodyIsChained(c: Ctx, j: nat)
    requires c.Valid() && j % 2 == 0 && j + 2 <= S_SIZE
    ensures j + 2 <= P_SIZE ==> SubkeyPair(c, Body(c), 0, 0, 0, j)
    ensures BoxPair(Ctx(Body(c).p, c.s), Body(c), Body(c).p[P_SIZE - 2], Body(c).p[P_SIZE - 1], 0, j)
  {
    hide EncryptWith, FillP, FillS;
    FillKeepsSize(c, 0, 0, 0);
    FillKeepsPrefix(c, 0, 0, 0);
    var (d, l, r) := FillP(c, 0, 0, 0);
    FillSKeepsSize(d, l, r, 0);
    BoxesAreChained(d, l, r, 0, j);
    assert d == Ctx(Body(c).p, c.s);
    if j + 2 <= P_SIZE {
      SubkeysAreChained(c, 0, 0, 0, j);
      SubkeysOnly(c, d, Body(c), j);
    }
  }

  lemma SubkeysOnly(c: Ctx, d: Ctx, e: Ctx, j: nat)
    requires c.Valid() && d.Valid() && e.Valid() && d.p == e.p && j % 2 == 0 && j + 2 <= P_SIZE &&
             SubkeyPair(c, d, 0, 0, 0, j)
    ensures SubkeyPair(c, e, 0, 0, 0, j)
  {
  }

  // ---------- the loops, in place ----------

  class Workspace {
    const P: array<word>
    const S: array<word>

    ghost predicate Valid()
      reads this
    {
      P.Length == P_SIZE && S.Length == S_SIZE && P != S
    }

    ghost function View(): (c: Ctx)
      requires Valid()
      reads this, P, S
      ensures c.Valid()
    {
      Ctx(P[..], S[..])
    }

    constructor ()
      ensures Valid() && fresh(P) && fresh(S)
    {
      P := new word[P_SIZE];
      S := new word[S_SIZE];
    }

    method EncryptNow(left: word, right: word) returns (l: word, r: word)
      requires Valid()
      ensures (l, r) == EncryptWith(View(), left, right)
    {
      l, r := EncryptBlock(P[..], RoundOf(S[..]), left, right);
    }

    method SetP(i: nat, l: word, r: word)
      requires Valid() && i + 1 < P_SIZE
      modifies P
      ensures View() == old(View()).(p := old(View()).p[i := l][i + 1 := r])
    {
      P[i] := l;
      P[i + 1] := r;
    }

    method SetS(i: nat, l: word, r: word)
      requires Valid() && i + 1 < S_SIZE
      modifies S
      ensures View() == old(View()).(s := old(View()).s[i := l][i + 1 := r])
    {
      S[i] := l;
      S[i + 1] := r;
    }

    method FillSubkeys() returns (l: word, r: word)
      requires Valid()
      modifies P
      ensures (View(), l, r) == FillP(old(View()), 0, 0, 0)
    {
      hide EncryptWith;
      l, r := 0, 0;
      var i := 0;
      while i < P_SIZE
        invariant 0 <= i <= P_SIZE && i % 2 == 0
        invariant FillP(View(), l, r, i) == FillP(old(View()), 0, 0, 0)
      {
        l, r := EncryptNow(l, r);
        SetP(i, l, r);
        i := i + 2;
      }
    }

    method FillBoxes(left: word, right: word)
      requires Valid()
      modifies S
      ensures View() == FillS(old(View()), left, right, 0)
    {
      hide EncryptWith;
      var l, r := left, right;
      var i := 0;
      while i < S_SIZE
        invariant 0 <= i <= S_SIZE && i % 2 == 0
        invariant FillS(View(), l, r, i) == FillS(old(View()), left, right, 0)
      {
        l, r := EncryptNow(l, r);
        SetS(i, l, r);
        i := i + 2;
      }
    }

    method BF_body()
      requires Valid()
      modifies P, S
      ensures View() == Body(old(View()))
    {
      var l, r := FillSubkeys();
      FillBoxes(l, r);
    }

    method SaltSubkeys(salt: seq<word>) returns (l: word, r: word)
      requires Valid() && |salt| == 4
      modifies P
      ensures (View(), l, r) == SaltP(old(View()), salt, 0, 0, 0)
    {
      hide EncryptWith, WithSalt;
      l, r := 0, 0;
      var i := 0;
      while i < P_SIZE
        invariant 0 <= i <= P_SIZE && i % 2 == 0
        invariant SaltP(View(), salt, l, r, i) == SaltP(old(View()), salt, 0, 0, 0)
      {
        l, r := EncryptNow(WithSalt(l, salt, i), WithSalt(r, salt, i + 1));
        SetP(i, l, r);
        i := i + 2;
      }
    }

    method SaltFour(salt: seq<word>, left: word, right: word, i: nat) returns (l: word, r: word)
      requires Valid() && |salt| == 4 && i + 4 <= S_SIZE
      modifies S
      ensures (View(), l, r) == SaltQuad(old(View()), salt, left, right, i)
    {
      hide EncryptWith, WithSalt;
      l, r := EncryptNow(WithSalt(left, salt, BF_N + 2), WithSalt(right, salt, BF_N + 3));
      SetS(i, l, r);
      l, r := EncryptNow(WithSalt(l, salt, BF_N + 4), WithSalt(r, salt, BF_N + 5));
      SetS(i + 2, l, r);
    }

    method SaltBoxes(salt: seq<word>, left: word, right: word)
      requires Valid() && |salt| == 4
      modifies S
      ensures View() == SaltS(old(View()), salt, left, right, 0)
    {
      hide SaltQuad;
      var l, r := left, right;
      var i := 0;
      while i < S_SIZE
        invariant 0 <= i <= S_SIZE && i % 4 == 0
        invariant SaltS(View(), salt, l, r, i) == SaltS(old(View()), salt, left, right, 0)
      {
        l, r := SaltFour(salt, l, r, i);
        i := i + 4;
      }
    }

    method SaltBoth(salt: seq<word>)
      requires Valid() && |salt| == 4
      modifies P, S
      ensures View() == Salted(old(View()), salt)
    {
      var l, r := SaltSubkeys(salt);
      SaltBoxes(salt, l, r);
    }

    method MixP(words: seq<word>)
      requires Valid() && |words| > 0
      modifies P
      ensures View() == old(View()).(p := Mixed(old(View()).p, words))
    {
      var i := 0;
      while i < P_SIZE
        invariant 0 <= i <= P_SIZE
        invariant forall k :: 0 <= k < i ==> P[k] == Mixed(old(P[..]), words)[k]
        invariant forall k :: i <= k < P_SIZE ==> P[k] == old(P[k])
      {
        P[i] := P[i] ^ words[i % |words|];
        i := i + 1;
      }
      assert P[..] == Mixed(old(P[..]), words);
    }

    method CostlyRound(key: seq<word>, salt: seq<word>)
      requires Valid() && |key| == P_SIZE && |salt| == 4
      modifies P, S
      ensures View() == CostlyOnce(old(View()), key, salt)
    {
      MixP(key);
      BF_body();
      MixP(salt);
      BF_body();
    }

    method CostlySetup(key: seq<word>, salt: seq<word>, rounds: nat)
      requires Valid() && |key| == P_SIZE && |salt| == 4 && rounds > 0
      modifies P, S
      ensures View() == Costly(old(View()), key, salt, rounds)
    {
      hide CostlyOnce;
      var count := rounds;
      while count > 0
        invariant 0 <= count <= rounds
        invariant Costly(View(), key, salt, count) == Costly(old(View()), key, salt, rounds)
      {
        CostlyRound(key, salt);
        count := count - 1;
      }
    }

    method EncryptRepeatedly(left: word, right: word) returns (l: word, r: word)
      requires Valid()
      ensures (l, r) == EncryptTimes(View(), left, right, 64)
    {
      l, r := left, right;
      var count: nat := 64;
      while count > 0
        invariant EncryptTimes(View(), l, r, count) == EncryptTimes(View(), left, right, 64)
      {
        l, r := EncryptNow(l, r);
        count := count - 1;
      }
    }

    /** The digest, once the subkeys and boxes hold their initial values. */
    method ComputeDigest(magic: seq<word>, key: seq<word>, salt: seq<word>, rounds: nat) returns (words: seq<word>)
      requires Valid() && |magic| == 6 && |key| == P_SIZE && |salt| == 4 && rounds > 0
      modifies P, S
      ensures words == Digest(old(P[..]), old(S[..]), magic, key, salt, rounds)
    {
      SaltBoth(salt);
      CostlySetup(key, salt, rounds);
      var a, b := EncryptRepeatedly(magic[0], magic[1]);
      var d, e := EncryptRepeatedly(magic[2], magic[3]);
      var f, g := EncryptRepeatedly(magic[4], magic[5]);
      words := [a, b, d, e, f, g];
    }
  }
}
