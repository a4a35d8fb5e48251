/** The key schedule: the password repeated with its terminator, and the measure against the old sign bug. */
module KeySchedule {
  import opened Blowfish
  import opened Divisibility

  /** Byte `k` of the key with its terminator, repeated without end. */
  function KeyByte(key: seq<bv8>, k: nat): bv8 {
    var i := k % (|key| + 1);
    if i < |key| then key[i] else 0
  }

  /** The characters of the key in their order, then a terminator, then the same again. */
  lemma KeyByteIs(key: seq<bv8>, k: nat)
    ensures k < |key| ==> KeyByte(key, k) == key[k]
    ensures k == |key| ==> KeyByte(key, k) == 0
    ensures KeyByte(key, k + (|key| + 1)) == KeyByte(key, k)
  {
    var n := |key| + 1;
    if k <= |key| {
      DivModUnique(k, n, 0, k);
    }
    DivModUnique(k + n, n, k / n + 1, k % n);
  }

  function Extended(c: bv8): word {
    c as word
  }

  /** The character taken as signed and widened: its top bit fills the word. */
  function SignExtended(c: bv8): word {
    if c < 0x80 then c as word else (c as word) | 0xFFFF_FF00
  }

  function ShiftIn(w: word, c: word): word {
    (w << 8) | c
  }

  /** Word `i` after `j` of its bytes, by the correct expansion. */
  function PartialWord(key: seq<bv8>, i: nat, j: nat): word {
    if j == 0 then 0 else ShiftIn(PartialWord(key, i, j - 1), Extended(KeyByte(key, 4 * i + j - 1)))
  }

  /** The same by the expansion that sign-extends. */
  function PartialBug(key: seq<bv8>, i: nat, j: nat): word {
    if j == 0 then 0 else ShiftIn(PartialBug(key, i, j - 1), SignExtended(KeyByte(key, 4 * i + j - 1)))
  }

  function BigEndian(a: bv8, b: bv8, c: bv8, d: bv8): word {
    ((a as word) << 24) | ((b as word) << 16) | ((c as word) << 8) | (d as word)
  }

  lemma ShiftedIn(a: bv8, b: bv8, c: bv8, d: bv8)
    ensures ShiftIn(ShiftIn(ShiftIn(ShiftIn(0, Extended(a)), Extended(b)), Extended(c)), Extended(d)) ==
            BigEndian(a, b, c, d)
  {
  }

  /** The correct expansion takes the key's bytes four by four, most significant first. */
  lemma WordIsBigEndian(key: seq<bv8>, i: nat)
    ensures PartialWord(key, i, 4) ==
            BigEndian(KeyByte(key, 4 * i), KeyByte(key, 4 * i + 1), KeyByte(key, 4 * i + 2), KeyByte(key, 4 * i + 3))
  {
    hide ShiftIn, Extended, KeyByte;
    ShiftedIn(KeyByte(key, 4 * i), KeyByte(key, 4 * i + 1), KeyByte(key, 4 * i + 2), KeyByte(key, 4 * i + 3));
    assert PartialWord(key, i, 1) == ShiftIn(PartialWord(key, i, 0), Extended(KeyByte(key, 4 * i)));
    assert PartialWord(key, i, 2) == ShiftIn(PartialWord(key, i, 1), Extended(KeyByte(key, 4 * i + 1)));
    assert PartialWord(key, i, 3) == ShiftIn(PartialWord(key, i, 2), Extended(KeyByte(key, 4 * i + 2)));
    assert PartialWord(key, i, 4) == ShiftIn(PartialWord(key, i, 3), Extended(KeyByte(key, 4 * i + 3)));
  }

  predicate HighAt(key: seq<bv8>, i: nat, j: nat) {
    KeyByte(key, 4 * i + j) >= 0x80
  }

  predicate AgreesAt(key: seq<bv8>, i: nat) {
    PartialWord(key, i, 4) == PartialBug(key, i, 4)
  }

  /** One of the places 1 to `j` - 1 of word `i` holds a character with its top bit set. */
  predicate HighInWord(key: seq<bv8>, i: nat, j: nat) {
    exists k | 0 < k < j :: HighAt(key, i, k)
  }

  predicate HighInside(key: seq<bv8>, n: nat) {
    exists i | 0 <= i < n :: HighInWord(key, i, 4)
  }

  predicate ExpansionsAgree(key: seq<bv8>, n: nat) {
    forall i | 0 <= i < n :: AgreesAt(key, i)
  }

  /** Keys whose correct expansion is also the buggy expansion of others: the safety measure is for them. */
  predicate NeedsSafety(key: seq<bv8>) {
    ExpansionsAgree(key, P_SIZE) && HighInside(key, P_SIZE)
  }

  // ---------- facts about bits ----------

  lemma TopBitShows(w: word, c: bv8)
    ensures ShiftIn(w, SignExtended(c)) & 0x80 == (if c >= 0x80 then 0x80 else 0)
  {
  }

  /** The branch-free end of the function: bit 16 if wanted, if nothing differs, and if a sign was seen. */
  function SafetyBit(diff: word, sign: word, safety: word): word {
    var d := diff | (diff >> 16);
    var e := (d & 0xFFFF) + 0xFFFF;
    (sign << 9) & (!e & safety)
  }

  lemma SafetyBitWhenDifferent(diff: word, sign: word, safety: word)
    requires diff != 0 && (sign == 0 || sign == 0x80) && (safety == 0 || safety == 0x10000)
    ensures SafetyBit(diff, sign, safety) == 0
  {
  }

  lemma SafetyBitWhenSame(sign: word, safety: word)
    requires (sign == 0 || sign == 0x80) && (safety == 0 || safety == 0x10000)
    ensures SafetyBit(0, sign, safety) == (if sign == 0x80 && safety == 0x10000 then 0x10000 else 0)
  {
  }

  /** The second lowest flag, moved to bit 16. */
  function Safety(flags: bv8): word {
    ((flags as word) & 2) << 15
  }

  lemma SafetyFlag(flags: bv8)
    ensures Safety(flags) == (if flags & 2 != 0 then 0x10000 else 0)
  {
  }

  // ---------- the loops ----------

  /** Bit 7 set or not: the form of the sign flag. */
  function Flag(b: bool): word {
    if b then 0x80 else 0
  }

  lemma FlagOr(a: bool, b: bool)
    ensures Flag(a) | Flag(b) == Flag(a || b)
  {
  }

  lemma TopBitIsFlag(w: word, key: seq<bv8>, i: nat, j: nat)
    ensures ShiftIn(w, SignExtended(KeyByte(key, 4 * i + j))) & 0x80 == Flag(HighAt(key, i, j))
  {
    hide KeyByte;
    TopBitShows(w, KeyByte(key, 4 * i + j));
  }

  lemma HighInWordGrows(key: seq<bv8>, i: nat, j: nat)
    requires j > 0
    ensures HighInWord(key, i, j + 1) <==> HighInWord(key, i, j) || HighAt(key, i, j)
  {
    hide HighAt;
  }

  method CurrentChar(key: seq<bv8>, ptr: nat, ghost k: nat) returns (c: bv8, next: nat)
    requires forall i :: 0 <= i < |key| ==> key[i] != 0
    requires ptr == k % (|key| + 1)
    ensures c == KeyByte(key, k) && next == (k + 1) % (|key| + 1)
  {
    NextPlace(k, |key| + 1);
    c := if ptr < |key| then key[ptr] else 0;
    next := if c == 0 then 0 else ptr + 1;
  }

  /** The inner loop: the four characters of word `i`, both ways, and the sign flag. */
  method OneWord(key: seq<bv8>, i: nat, ptr0: nat, sign0: word, ghost seen: bool)
    returns (correct: word, bug: word, sign: word, ptr: nat)
    requires ptr0 == (4 * i) % (|key| + 1)
    requires forall k :: 0 <= k < |key| ==> key[k] != 0
    requires sign0 == Flag(seen)
    ensures correct == PartialWord(key, i, 4) && bug == PartialBug(key, i, 4)
    ensures ptr == (4 * i + 4) % (|key| + 1)
    ensures sign == Flag(seen || HighInWord(key, i, 4))
  {
    hide ShiftIn, Extended, SignExtended, HighAt, Flag, KeyByte;
    correct, bug, sign, ptr := 0, 0, sign0, ptr0;
    var j := 0;
    while j < 4
      invariant 0 <= j <= 4
      invariant ptr == (4 * i + j) % (|key| + 1)
      invariant correct == PartialWord(key, i, j) && bug == PartialBug(key, i, j)
      invariant sign == Flag(seen || HighInWord(key, i, j))
    {
      var c, next := CurrentChar(key, ptr, 4 * i + j);
      ghost var bugBefore := bug;
      correct := ShiftIn(correct, Extended(c));
      bug := ShiftIn(bug, SignExtended(c));
      if j > 0 {
        TopBitIsFlag(bugBefore, key, i, j);
        FlagOr(seen || HighInWord(key, i, j), HighAt(key, i, j));
        HighInWordGrows(key, i, j);
        sign := sign | (bug & 0x80);
      }
      ptr := next;
      j := j + 1;
    }
  }

  /** The differences so far with those between `a` and `b`. */
  function Differences(diff: word, a: word, b: word): word {
    diff | Xor(a, b)
  }

  lemma OrZero(a: word, b: word)
    ensures a | b == 0 ==> a == 0
    ensures a | b == 0 ==> b == 0
    ensures a == 0 ==> a | b == b
  {
  }

  lemma XorZero(a: word, b: word)
    ensures Xor(a, b) == 0 ==> a == b
    ensures a == b ==> Xor(a, b) == 0
  {
  }

  lemma OrXorZero(diff: word, a: word, b: word)
    ensures Differences(diff, a, b) == 0 <==> diff == 0 && a == b
  {
    hide Xor;
    OrZero(diff, Xor(a, b));
    XorZero(a, b);
  }

  lemma DiffGrows(key: seq<bv8>, i: nat, diff: word)
    requires diff == 0 <==> ExpansionsAgree(key, i)
    ensures Differences(diff, PartialWord(key, i, 4), PartialBug(key, i, 4)) == 0 <==> ExpansionsAgree(key, i + 1)
  {
    hide PartialWord, PartialBug, ExpansionsAgree, Differences;
    OrXorZero(diff, PartialWord(key, i, 4), PartialBug(key, i, 4));
    AgreeGrows(key, i);
  }

  lemma AgreeGrows(key: seq<bv8>, i: nat)
    ensures ExpansionsAgree(key, i + 1) <==> ExpansionsAgree(key, i) && AgreesAt(key, i)
  {
    hide AgreesAt;
  }

  lemma HighInsideGrows(key: seq<bv8>, i: nat)
    ensures HighInside(key, i + 1) <==> HighInside(key, i) || HighInWord(key, i, 4)
  {
  }

  /** What the function writes: the words of one of the two expansions, and they mixed into the initial subkeys,
      with bit 16 of the first flipped when the safety measure is asked for and needed. */
  function ExpandedWord(key: seq<bv8>, flags: bv8, i: nat): word {
    Pick(flags, PartialWord(key, i, 4), PartialBug(key, i, 4))
  }

  /** The lowest flag asks for the sign-extending expansion. */
  function Pick(flags: bv8, correct: word, bug: word): word {
    if flags & 1 != 0 then bug else correct
  }

  function Expanded(key: seq<bv8>, flags: bv8): seq<word> {
    seq(P_SIZE, i requires 0 <= i < P_SIZE => ExpandedWord(key, flags, i))
  }

  function SafetyFlip(key: seq<bv8>, flags: bv8): word {
    if flags & 2 != 0 && NeedsSafety(key) then 0x10000 else 0
  }

  function InitialWord(table: seq<word>, key: seq<bv8>, flags: bv8, i: nat): word
    requires i < |table|
  {
    Xor(table[i], ExpandedWord(key, flags, i))
  }

  function InitialWords(table: seq<word>, key: seq<bv8>, flags: bv8): (p: seq<word>)
    requires |table| == P_SIZE
    ensures |p| == P_SIZE
  {
    seq(P_SIZE, i requires 0 <= i < P_SIZE => InitialWord(table, key, flags, i))
  }

  function InitialSubkeys(table: seq<word>, key: seq<bv8>, flags: bv8): (p: seq<word>)
    requires |table| == P_SIZE
    ensures |p| == P_SIZE
  {
    var words := InitialWords(table, key, flags);
    words[0 := Flip(words[0], SafetyFlip(key, flags))]
  }

  lemma SafetyBitIsFlip(key: seq<bv8>, flags: bv8, diff: word)
    requires diff == 0 <==> ExpansionsAgree(key, P_SIZE)
    ensures SafetyBit(diff, Flag(HighInside(key, P_SIZE)), Safety(flags)) == SafetyFlip(key, flags)
  {
    SafetyFlag(flags);
    if diff == 0 {
      SafetyBitWhenSame(Flag(HighInside(key, P_SIZE)), Safety(flags));
    } else {
      SafetyBitWhenDifferent(diff, Flag(HighInside(key, P_SIZE)), Safety(flags));
    }
  }

  method StoreWord(expanded: array<word>, initial: array<word>, table: seq<word>, i: nat, w: word)
    requires expanded.Length == initial.Length == |table| == P_SIZE && expanded != initial && i < P_SIZE
    modifies expanded, initial
    ensures expanded[i] == w && initial[i] == Xor(table[i], w)
    ensures forall k :: 0 <= k < P_SIZE && k != i ==> expanded[k] == old(expanded[k]) && initial[k] == old(initial[k])
  {
    hide Xor;
    expanded[i] := w;
    initial[i] := Xor(table[i], w);
  }

  /** The outer loop: all words, with `diff` and `sign` gathered on the way. */
  method ExpandAll(key: seq<bv8>, expanded: array<word>, initial: array<word>, table: seq<word>, flags: bv8)
    returns (diff: word, sign: word)
    requires expanded.Length == initial.Length == |table| == P_SIZE && expanded != initial
    requires forall k :: 0 <= k < |key| ==> key[k] != 0
    modifies expanded, initial
    ensures forall k :: 0 <= k < P_SIZE ==> expanded[k] == ExpandedWord(key, flags, k)
    ensures forall k :: 0 <= k < P_SIZE ==> initial[k] == InitialWord(table, key, flags, k)
    ensures (diff == 0 <==> ExpansionsAgree(key, P_SIZE)) && sign == Flag(HighInside(key, P_SIZE))
  {
    hide Flag, PartialWord, PartialBug, HighInWord, HighInside, ExpansionsAgree, Pick, Differences, Xor;
    NothingYet(key);
    diff, sign := 0, 0;
    var ptr := 0;
    var i := 0;
    while i < P_SIZE
      invariant 0 <= i <= P_SIZE
      invariant ptr == (4 * i) % (|key| + 1)
      invariant forall k :: 0 <= k < i ==> expanded[k] == ExpandedWord(key, flags, k)
      invariant forall k :: 0 <= k < i ==> initial[k] == InitialWord(table, key, flags, k)
      invariant (diff == 0 <==> ExpansionsAgree(key, i)) && sign == Flag(HighInside(key, i))
    {
      var correct, bug;
      HighInsideGrows(key, i);
      DiffGrows(key, i, diff);
      correct, bug, sign, ptr := OneWord(key, i, ptr, sign, HighInside(key, i));
      diff := Differences(diff, correct, bug);
      StoreWord(expanded, initial, table, i, Pick(flags, correct, bug));
      i := i + 1;
    }
  }

  lemma NothingYet(key: seq<bv8>)
    ensures !HighInside(key, 0) && ExpansionsAgree(key, 0) && Flag(false) == 0
    ensures 0 % (|key| + 1) == 0
  {
  }

  function Flip(w: word, bits: word): word {
    Xor(w, bits)
  }

  method FlipFirst(a: array<word>, bits: word)
    requires a.Length > 0
    modifies a
    ensures a[..] == old(a[..])[0 := Flip(old(a[0]), bits)]
  {
    hide Flip;
    a[0] := Flip(a[0], bits);
  }

  lemma SameWords(table: seq<word>, key: seq<bv8>, flags: bv8, expanded: seq<word>, initial: seq<word>)
    requires |expanded| == |initial| == |table| == P_SIZE
    requires forall k :: 0 <= k < P_SIZE ==> expanded[k] == ExpandedWord(key, flags, k)
    requires forall k :: 0 <= k < P_SIZE ==> initial[k] == InitialWord(table, key, flags, k)
    ensures expanded == Expanded(key, flags) && initial == InitialWords(table, key, flags)
  {
    hide ExpandedWord, InitialWord;
  }

  method BF_set_key(key: seq<bv8>, expanded: array<word>, initial: array<word>, table: seq<word>, flags: bv8)
    requires expanded.Length == initial.Length == |table| == P_SIZE && expanded != initial
    requires forall k :: 0 <= k < |key| ==> key[k] != 0
    modifies expanded, initial
    ensures expanded[..] == Expanded(key, flags)
    ensures initial[..] == InitialSubkeys(table, key, flags)
  {
    hide ExpandedWord, InitialWord, SafetyFlip, Flag, HighInside, ExpansionsAgree, SafetyBit, InitialWords, Expanded,
         Safety, Flip;
    var safety := Safety(flags);
    var diff, sign := ExpandAll(key, expanded, initial, table, flags);
    SameWords(table, key, flags, expanded[..], initial[..]);
    SafetyBitIsFlip(key, flags, diff);
    FlipFirst(initial, SafetyBit(diff, sign, safety));
  }

  // ---------- what the schedule depends on, and what the safety measure is for ----------

  lemma {:induction false} SamePartialWords(key: seq<bv8>, other: seq<bv8>, i: nat, j: nat)
    requires forall k: nat :: k < 4 * i + j ==> KeyByte(key, k) == KeyByte(other, k)
    ensures PartialWord(key, i, j) == PartialWord(other, i, j) && PartialBug(key, i, j) == PartialBug(other, i, j)
  {
    hide KeyByte, ShiftIn, Extended, SignExtended;
    if j > 0 {
      SamePartialWords(key, other, i, j - 1);
    }
  }

  /** The schedule depends on the first 72 bytes of the repeated key alone. */
  lemma SameBytesSameSchedule(table: seq<word>, key: seq<bv8>, other: seq<bv8>, flags: bv8)
    requires |table| == P_SIZE
    requires forall k: nat :: k < 4 * P_SIZE ==> KeyByte(key, k) == KeyByte(other, k)
    ensures Expanded(key, flags) == Expanded(other, flags)
    ensures InitialSubkeys(table, key, flags) == InitialSubkeys(table, other, flags)
  {
    hide KeyByte, PartialWord, PartialBug, Flip, Pick;
    forall i: nat | i < P_SIZE
      ensures PartialWord(key, i, 4) == PartialWord(other, i, 4) && PartialBug(key, i, 4) == PartialBug(other, i, 4)
    {
      SamePartialWords(key, other, i, 4);
    }
    SameNeed(key, other);
  }

  lemma SameNeed(key: seq<bv8>, other: seq<bv8>)
    requires forall k: nat :: k < 4 * P_SIZE ==> KeyByte(key, k) == KeyByte(other, k)
    requires forall i: nat :: i < P_SIZE ==>
               PartialWord(key, i, 4) == PartialWord(other, i, 4) && PartialBug(key, i, 4) == PartialBug(other, i, 4)
    ensures NeedsSafety(key) <==> NeedsSafety(other)
  {
    hide KeyByte, PartialWord, PartialBug;
    forall i: nat | i < P_SIZE
      ensures AgreesAt(key, i) <==> AgreesAt(other, i)
      ensures HighInWord(key, i, 4) <==> HighInWord(other, i, 4)
    {
      forall j: nat | j < 4
        ensures HighAt(key, i, j) <==> HighAt(other, i, j)
      {
        assert KeyByte(key, 4 * i + j) == KeyByte(other, 4 * i + j);
      }
    }
  }

  lemma FlipShows(w: word, bits: word)
    ensures Flip(w, bits) == w <==> bits == 0
  {
  }

  /** The measure against collisions: hashed with the safety flag, a key sets up the state that some key sets up
      without it, by either expansion, exactly when their words agree and the key does not need the measure. */
  lemma SafetyPreventsCollision(table: seq<word>, key: seq<bv8>, other: seq<bv8>, flags: bv8)
    requires |table| == P_SIZE && flags & 2 == 0
    ensures Expanded(key, 2) == Expanded(other, flags) &&
            InitialSubkeys(table, key, 2) == InitialSubkeys(table, other, flags)
            <==> Expanded(key, 2) == Expanded(other, flags) && !NeedsSafety(key)
  {
    hide ExpandedWord, NeedsSafety, Flip;
    if Expanded(key, 2) == Expanded(other, flags) {
      SameInitialWords(table, key, 2, other, flags);
      var w := InitialWords(table, other, flags)[0];
      FlipShows(w, 0);
      FlipShows(w, 0x10000);
      var a, b := InitialSubkeys(table, key, 2), InitialSubkeys(table, other, flags);
      assert a[0] == Flip(w, SafetyFlip(key, 2)) && b[0] == Flip(w, 0);
    }
  }

  lemma SameInitialWords(table: seq<word>, key: seq<bv8>, flags: bv8, other: seq<bv8>, otherFlags: bv8)
    requires |table| == P_SIZE && Expanded(key, flags) == Expanded(other, otherFlags)
    ensures InitialWords(table, key, flags) == InitialWords(table, other, otherFlags)
  {
    hide ExpandedWord;
    forall i: nat | i < P_SIZE
      ensures ExpandedWord(key, flags, i) == ExpandedWord(other, otherFlags, i)
    {
      assert Expanded(key, flags)[i] == Expanded(other, otherFlags)[i];
    }
  }
}
