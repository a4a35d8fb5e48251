/** The parts of bcrypt against definitions of their own: the alphabet, the layout of bits, the cipher as it is
    published, the expansions of the key, and the text of a hash. */
module BCryptLaws {
  import opened Options
  import opened Base64
  import opened Blowfish
  import opened KeySchedule
  import opened EksBlowfish
  import opened BCrypt
  import opened Passwords

  // ---------- base 64 ----------

  function Letter(v: byte): char
    requires v < 64
  {
    Itoa64(v) as char
  }

  /** The characters of the coding, in order. */
  lemma AlphabetIs()
    ensures [Letter(0), Letter(1), Letter(2), Letter(3), Letter(4), Letter(5), Letter(6), Letter(7)] ==
            "./ABCDEF"
    ensures [Letter(8), Letter(9), Letter(10), Letter(11), Letter(12), Letter(13), Letter(14), Letter(15)] ==
            "GHIJKLMN"
    ensures [Letter(16), Letter(17), Letter(18), Letter(19), Letter(20), Letter(21), Letter(22), Letter(23)] ==
            "OPQRSTUV"
    ensures [Letter(24), Letter(25), Letter(26), Letter(27), Letter(28), Letter(29), Letter(30), Letter(31)] ==
            "WXYZabcd"
    ensures [Letter(32), Letter(33), Letter(34), Letter(35), Letter(36), Letter(37), Letter(38), Letter(39)] ==
            "efghijkl"
    ensures [Letter(40), Letter(41), Letter(42), Letter(43), Letter(44), Letter(45), Letter(46), Letter(47)] ==
            "mnopqrst"
    ensures [Letter(48), Letter(49), Letter(50), Letter(51), Letter(52), Letter(53), Letter(54), Letter(55)] ==
            "uvwxyz01"
    ensures [Letter(56), Letter(57), Letter(58), Letter(59), Letter(60), Letter(61), Letter(62), Letter(63)] ==
            "23456789"
  {
  }

  /** Four characters stand for three bytes, the most significant bits first: as one number they are the same. */
  lemma GroupIsNumber(b1: byte, b2: byte, b3: byte)
    ensures ((Atoi64(Char1(b1)) as word) << 18) | ((Atoi64(Char2(b1, b2)) as word) << 12)
            | ((Atoi64(Char3(b2, b3)) as word) << 6) | (Atoi64(Char4(b3)) as word)
            == ((b1 as word) << 16) | ((b2 as word) << 8) | (b3 as word)
  {
    hide Char1, Char2, Char3, Char4, Atoi64;
    CharsAreValues(b1, b2, b3);
    SameNumber(b1, b2, b3);
  }

  lemma SameNumber(b1: byte, b2: byte, b3: byte)
    ensures (((b1 >> 2) as word) << 18) | (((((b1 & 0x03) << 4) | (b2 >> 4)) as word) << 12)
            | (((((b2 & 0x0F) << 2) | (b3 >> 6)) as word) << 6) | ((b3 & 0x3F) as word)
            == ((b1 as word) << 16) | ((b2 as word) << 8) | (b3 as word)
  {
  }

  // ---------- the cipher ----------

  lemma BytesOfWord(a: byte, b: byte, c: byte, d: byte)
    ensures Low8(BigEndian(a, b, c, d) >> 24) == a
    ensures Low8(BigEndian(a, b, c, d) >> 16) == b
    ensures Low8(BigEndian(a, b, c, d) >> 8) == c
    ensures Low8(BigEndian(a, b, c, d)) == d
  {
  }

  /** The round function of the published cipher on the four bytes of a word, one box for each. */
  lemma RoundFunctionIs(s: seq<word>, a: byte, b: byte, c: byte, d: byte)
    requires |s| == S_SIZE
    ensures RoundWord(s, BigEndian(a, b, c, d)) == Published(Box(s, 0, a), Box(s, 1, b), Box(s, 2, c), Box(s, 3, d))
    ensures Box(s, 0, a) == s[a as int] && Box(s, 1, b) == s[256 + b as int]
    ensures Box(s, 2, c) == s[512 + c as int] && Box(s, 3, d) == s[768 + d as int]
  {
    hide BigEndian, Low8, Mix, Published;
    BytesOfWord(a, b, c, d);
    PublishedIs(Box(s, 0, a), Box(s, 1, b), Box(s, 2, c), Box(s, 3, d));
  }

  function Published(x: word, y: word, z: word, w: word): word {
    ((x + y) ^ z) + w
  }

  lemma PublishedIs(x: word, y: word, z: word, w: word)
    ensures Published(x, y, z, w) == Mix(x, y, z, w)
  {
  }

  /** The published form of the cipher: in each of sixteen rounds the left half takes a subkey and the right half
      takes the round function of the left, and the halves change places; the last exchange is undone and the last two
      subkeys go on. */
  function Textbook(p: seq<word>, f: word -> word, l: word, r: word, n: nat): (word, word)
    requires |p| == P_SIZE && n <= 16
  {
    if n == 0 then (l, r)
    else
      var (x, y) := Textbook(p, f, l, r, n - 1);
      (Xor(y, f(Xor(x, p[n - 1]))), Xor(x, p[n - 1]))
  }

  lemma RoundIsHalves(p: seq<word>, f: word -> word, x: word, y: word, n: nat)
    requires |p| == P_SIZE && n < BF_N
    ensures Round(p, f, x, y, n) == Xor(Xor(y, f(x)), p[n + 1])
  {
    Reorder(y, p[n + 1], f(x));
  }

  lemma Reorder(y: word, k: word, f: word)
    ensures y ^ k ^ f == (y ^ f) ^ k
  {
  }

  lemma StartIsHalves(p: seq<word>, f: word -> word, l: word, r: word)
    requires |p| == P_SIZE
    ensures Rounds(p, f, l, r, 0) == (Xor(l, p[0]), r)
  {
  }

  lemma {:induction false} RoundsAreTextbook(p: seq<word>, f: word -> word, l: word, r: word, n: nat)
    requires |p| == P_SIZE && n <= BF_N
    ensures var (x, y) := Textbook(p, f, l, r, n);
            Rounds(p, f, l, r, n) == (Xor(x, p[n]), y)
    decreases n
  {
    hide Round, Xor;
    if n == 0 {
      StartIsHalves(p, f, l, r);
    } else {
      RoundsAreTextbook(p, f, l, r, n - 1);
      var (x, y) := Textbook(p, f, l, r, n - 1);
      RoundIsHalves(p, f, Xor(x, p[n - 1]), y, n - 1);
    }
  }

  lemma EncryptIsTextbook(p: seq<word>, f: word -> word, l: word, r: word, n: nat)
    requires |p| == P_SIZE && n == 16
    ensures var (x, y) := Textbook(p, f, l, r, n);
            Encrypt(p, f, l, r) == (Xor(y, p[n + 1]), Xor(x, p[n]))
  {
    hide Rounds, Textbook, Xor;
    RoundsAreTextbook(p, f, l, r, n);
  }

  // ---------- the two expansions of the key ----------

  /** A character as a number with a sign, in 32 bits. */
  function Signed(c: byte): word {
    if c < 0x80 then c as word else (c as word) - 0x100
  }

  lemma SignExtendedIs(c: byte)
    ensures SignExtended(c) == Signed(c)
  {
  }

  function MergedOf(w: word, x: word, y: word, z: word): word {
    (w << 24) | (x << 16) | (y << 8) | z
  }

  function Up(w: word, n: bv6): word
    requires n <= 32
  {
    w << n
  }

  function Either(a: word, b: word): word {
    a | b
  }

  lemma ShiftInIs(w: word, c: word)
    ensures ShiftIn(w, c) == Either(Up(w, 8), c) && Either(0, c) == c && Up(0, 8) == 0
  {
  }

  lemma UpSpreads(a: word, b: word)
    ensures Up(Either(a, b), 8) == Either(Up(a, 8), Up(b, 8))
  {
  }

  lemma UpAdds(a: word)
    ensures Up(Up(a, 8), 8) == Up(a, 16) && Up(Up(a, 16), 8) == Up(a, 24)
  {
  }

  lemma MergedOfIs(w: word, x: word, y: word, z: word)
    ensures MergedOf(w, x, y, z) == Either(Either(Either(Up(w, 24), Up(x, 16)), Up(y, 8)), z)
  {
  }

  lemma MergedIs(w: word, x: word, y: word, z: word)
    ensures ShiftIn(ShiftIn(ShiftIn(ShiftIn(0, w), x), y), z) == MergedOf(w, x, y, z)
  {
    hide ShiftIn, Up, Either, MergedOf;
    ShiftInIs(0, w);
    ShiftInIs(w, x);
    var two := Either(Up(w, 8), x);
    ShiftInIs(two, y);
    UpSpreads(Up(w, 8), x);
    UpAdds(w);
    var three := Either(Either(Up(w, 16), Up(x, 8)), y);
    ShiftInIs(three, z);
    UpSpreads(Either(Up(w, 16), Up(x, 8)), y);
    UpSpreads(Up(w, 16), Up(x, 8));
    UpAdds(x);
    MergedOfIs(w, x, y, z);
  }

  /** Four characters with their signs, each merged into the ones before, moved up by eight bits. */
  function Merged(a: byte, b: byte, c: byte, d: byte): word {
    MergedOf(Signed(a), Signed(b), Signed(c), Signed(d))
  }

  lemma BugOfFour(a: byte, b: byte, c: byte, d: byte)
    ensures ShiftIn(ShiftIn(ShiftIn(ShiftIn(0, SignExtended(a)), SignExtended(b)), SignExtended(c)), SignExtended(d)) ==
            Merged(a, b, c, d)
  {
    hide ShiftIn, SignExtended, Signed, MergedOf;
    SignExtendedIs(a);
    SignExtendedIs(b);
    SignExtendedIs(c);
    SignExtendedIs(d);
    MergedIs(Signed(a), Signed(b), Signed(c), Signed(d));
  }

  /** The words of the sign-extending expansion. */
  lemma BugWordIs(key: seq<byte>, i: nat)
    ensures PartialBug(key, i, 4) ==
            Merged(KeyByte(key, 4 * i), KeyByte(key, 4 * i + 1), KeyByte(key, 4 * i + 2), KeyByte(key, 4 * i + 3))
  {
    hide ShiftIn, SignExtended, KeyByte, Merged;
    BugOfFour(KeyByte(key, 4 * i), KeyByte(key, 4 * i + 1), KeyByte(key, 4 * i + 2), KeyByte(key, 4 * i + 3));
    assert PartialBug(key, i, 1) == ShiftIn(PartialBug(key, i, 0), SignExtended(KeyByte(key, 4 * i)));
    assert PartialBug(key, i, 2) == ShiftIn(PartialBug(key, i, 1), SignExtended(KeyByte(key, 4 * i + 1)));
    assert PartialBug(key, i, 3) == ShiftIn(PartialBug(key, i, 2), SignExtended(KeyByte(key, 4 * i + 2)));
    assert PartialBug(key, i, 4) == ShiftIn(PartialBug(key, i, 3), SignExtended(KeyByte(key, 4 * i + 3)));
  }

  function PlainWord(key: seq<byte>, i: nat): word {
    BigEndian(KeyByte(key, 4 * i), KeyByte(key, 4 * i + 1), KeyByte(key, 4 * i + 2), KeyByte(key, 4 * i + 3))
  }

  function MergedWord(key: seq<byte>, i: nat): word {
    Merged(KeyByte(key, 4 * i), KeyByte(key, 4 * i + 1), KeyByte(key, 4 * i + 2), KeyByte(key, 4 * i + 3))
  }

  /** Which expansion each version of a hash takes, and whether it asks for the safety measure: only x takes the one
      with signs, and only a asks. */
  lemma VersionTakes(key: seq<byte>, i: nat)
    requires i < P_SIZE
    ensures Expanded(key, Flags(0x61))[i] == PlainWord(key, i)
    ensures Expanded(key, Flags(0x62))[i] == PlainWord(key, i)
    ensures Expanded(key, Flags(0x79))[i] == PlainWord(key, i)
    ensures Expanded(key, Flags(0x78))[i] == MergedWord(key, i)
    ensures Flags(0x61) & 2 != 0 && Flags(0x62) & 2 == 0 && Flags(0x78) & 2 == 0 && Flags(0x79) & 2 == 0
  {
    hide PartialWord, PartialBug, PlainWord, MergedWord;
    ExpandedIs(key, Flags(0x61), i);
    ExpandedIs(key, Flags(0x62), i);
    ExpandedIs(key, Flags(0x78), i);
    ExpandedIs(key, Flags(0x79), i);
  }

  lemma ExpandedIs(key: seq<byte>, flags: byte, i: nat)
    requires i < P_SIZE
    ensures Expanded(key, flags)[i] == if flags & 1 != 0 then MergedWord(key, i) else PlainWord(key, i)
  {
    hide PartialWord, PartialBug, KeyByte, BigEndian, Merged;
    WordIsBigEndian(key, i);
    BugWordIs(key, i);
  }

  /** When the measure is needed: all 18 words agree, and one of their three later characters has its top bit set. */
  lemma NeedsSafetyIff(key: seq<byte>)
    ensures NeedsSafety(key) <==>
            && (forall i: nat :: i < 18 ==> PlainWord(key, i) == MergedWord(key, i))
            && exists i: nat :: i < 18 && LaterTopBit(key, i)
  {
    hide PartialWord, PartialBug, KeyByte, BigEndian, Merged, PlainWord, MergedWord;
    forall i: nat | i < 18
      ensures AgreesAt(key, i) <==> PlainWord(key, i) == MergedWord(key, i)
      ensures HighInWord(key, i, 4) <==> LaterTopBit(key, i)
    {
      WordsAre(key, i);
      TopBitsAre(key, i);
    }
  }

  lemma WordsAre(key: seq<byte>, i: nat)
    ensures PartialWord(key, i, 4) == PlainWord(key, i) && PartialBug(key, i, 4) == MergedWord(key, i)
  {
    hide PartialWord, PartialBug, KeyByte, BigEndian, Merged;
    WordIsBigEndian(key, i);
    BugWordIs(key, i);
  }

  predicate LaterTopBit(key: seq<byte>, i: nat) {
    KeyByte(key, 4 * i + 1) >= 0x80 || KeyByte(key, 4 * i + 2) >= 0x80 || KeyByte(key, 4 * i + 3) >= 0x80
  }

  lemma TopBitsAre(key: seq<byte>, i: nat)
    ensures HighInWord(key, i, 4) <==> LaterTopBit(key, i)
  {
    hide KeyByte;
    if HighInWord(key, i, 4) {
      var k :| 0 < k < 4 && HighAt(key, i, k);
      assert k == 1 || k == 2 || k == 3;
    }
    assert HighAt(key, i, 1) || HighAt(key, i, 2) || HighAt(key, i, 3) ==> HighInWord(key, i, 4);
  }

  /** The initial subkeys, word by word: the table with the expansion mixed in, and bit 16 of the first flipped when the
      measure is asked for and needed. */
  lemma InitialSubkeysAre(table: seq<word>, key: seq<byte>, flags: byte, i: nat)
    requires |table| == P_SIZE && i < P_SIZE
    ensures var w := Xor(table[i], Expanded(key, flags)[i]);
            InitialSubkeys(table, key, flags)[i] ==
            if i == 0 && flags & 2 != 0 && NeedsSafety(key) then Xor(w, 0x1_0000) else w
  {
    hide ExpandedWord, NeedsSafety, Xor, Flip;
    FlipIs(InitialWord(table, key, flags, 0));
    InitialWordIs(table, key, flags, i);
  }

  lemma FlipIs(w: word)
    ensures Flip(w, 0) == w && Flip(w, 0x1_0000) == Xor(w, 0x1_0000)
  {
  }

  lemma InitialWordIs(table: seq<word>, key: seq<byte>, flags: byte, i: nat)
    requires |table| == P_SIZE && i < P_SIZE
    ensures InitialWord(table, key, flags, i) == Xor(table[i], Expanded(key, flags)[i])
  {
    hide ExpandedWord, Xor;
  }

  // ---------- words and bytes ----------

  /** The bytes of a word make it up again, the most significant first. */
  lemma WordOfBytes(w: word)
    ensures BigEndian(ByteOf(w, 0), ByteOf(w, 1), ByteOf(w, 2), ByteOf(w, 3)) == w
  {
  }

  /** Four bytes of the digest in order are a word of it. */
  lemma DigestBytesAreWords(words: seq<word>, i: nat)
    requires |words| == 6 && i < 5
    ensures var b := DigestBytes(words);
            BigEndian(b[4 * i], b[4 * i + 1], b[4 * i + 2], b[4 * i + 3]) == words[i]
  {
    hide BigEndian, ByteOf;
    WordOfBytes(words[i]);
  }

  /** Of the last word only the first three bytes are kept. */
  lemma LastDigestBytes(words: seq<word>)
    requires |words| == 6
    ensures var b := DigestBytes(words);
            BigEndian(b[20], b[21], b[22], ByteOf(words[5], 3)) == words[5]
  {
    hide BigEndian, ByteOf;
    WordOfBytes(words[5]);
  }

  // ---------- the text of a hash ----------

  /** A setting, character by character: a dollar, a 2, a version, a dollar, a cost of two digits up to 31, and a
      dollar. */
  lemma PrefixIff(s: seq<byte>)
    ensures ValidPrefix(s) <==>
            && |s| >= 7 && s[0] == 0x24 && s[1] == 0x32
            && (s[2] == 0x61 || s[2] == 0x62 || s[2] == 0x78 || s[2] == 0x79)
            && s[3] == 0x24 && Digit(s[4]) < 10 && Digit(s[5]) < 10 && Digit(s[4]) * 10 + Digit(s[5]) <= 31
            && s[6] == 0x24
    ensures ValidPrefix(s) ==> Cost(s) == Digit(s[4]) * 10 + Digit(s[5])
  {
  }

  /** The digits are the characters 0 to 9, in order. */
  lemma DigitsAre(n: nat, c: byte)
    requires n < 10
    ensures Digit(DigitChar(n)) == n
    ensures Digit(c) == n ==> c == DigitChar(n)
    ensures DigitChar(0) == 0x30
  {
    assert n == 0 || n == 1 || n == 2 || n == 3 || n == 4 || n == 5 || n == 6 || n == 7 || n == 8 || n == 9;
  }

  /** The parts of a hash: "$2b$", two digits of the cost, a dollar, the canonical salt, and 31 characters that decode
      to the first 23 bytes of the digest of the password, up to its first terminator, by the plain expansion. */
  lemma HashTextIs(t: Tables, password: seq<byte>, salt: seq<byte>, rounds: nat)
    requires t.Valid() && HashWith(t, password, salt, rounds).Hash?
    ensures var text := HashWith(t, password, salt, rounds).text;
            && |text| == 60 && |salt| >= 22 && Decode(salt, 0, 16).Some?
            && text[0] == 0x24 && text[1] == 0x32 && text[2] == 0x62 && text[3] == 0x24
            && text[4] == DigitChar(rounds / 10) && text[5] == DigitChar(rounds % 10) && text[6] == 0x24
            && text[7..28] == salt[..21] && Decode(text, 7, 16) == Decode(salt, 0, 16)
            && Decode(text, 29, 23) ==
              Some(PasswordDigest(t, CStr(password), Decode(salt, 0, 16).value, CostOfRounds(rounds)))
  {
    hide CStr, Decode, Encode, Hashed, EncodedLength, DigitChar, AllInAlphabet, HashWith, Flags, LastSaltChar, Kept,
         Setting, At, ValidPrefix, Cost, PowerOfTwo, PasswordDigest;
    HashIsCrypt(t, password, salt, rounds);
    HashSucceedsIff(t, password, salt, rounds);
    DecodesIff(salt, 0, 16);
    Lengths();
    SaltInSetting(salt, rounds);
    CryptTextIs(t, CStr(password), Setting(salt, rounds));
    var setting, text := Setting(salt, rounds), HashWith(t, password, salt, rounds).text;
    TextOfSetting(setting, text, salt, rounds);
    DigestOfSetting(t, CStr(password), salt, rounds);
  }

  /** A hash keeps its setting, with the canonical salt, and goes on with the coded digest. */
  lemma CryptTextIs(t: Tables, key: seq<byte>, setting: seq<byte>)
    requires t.Valid() && Crypt(t, key, setting, MIN_COUNT).Some?
    ensures |setting| >= 29 && Decode(setting, 7, 16).Some?
    ensures var text := Crypt(t, key, setting, MIN_COUNT).value;
            && |text| == 60 && text[..29] == Kept(setting) && Decode(text, 7, 16) == Decode(setting, 7, 16)
            && Decode(text, 29, 23) ==
               Some(Hashed(t, key, Flags(At(setting, 2)), Decode(setting, 7, 16).value, PowerOfTwo(Cost(setting))))
  {
    hide Decode, Encode, Hashed, EncodedLength, Flags, LastSaltChar, At, ValidPrefix, Cost, PowerOfTwo, Kept;
    Lengths();
    var text := Crypt(t, key, setting, MIN_COUNT).value;
    var bytes := Hashed(t, key, Flags(At(setting, 2)), Decode(setting, 7, 16).value, PowerOfTwo(Cost(setting)));
    assert text == Kept(setting) + Encode(bytes);
    OccursInPrefix(text, Kept(setting), Encode(bytes));
    DecodeUndoesEncode(bytes, text, 29);
    SameSalt(text, setting, MIN_COUNT);
  }

  lemma DigestOfSetting(t: Tables, key: seq<byte>, salt: seq<byte>, rounds: nat)
    requires t.Valid() && |salt| >= 22 && Decode(salt, 0, 16).Some? && ValidPrefix(Setting(salt, rounds))
    ensures var setting := Setting(salt, rounds);
            Hashed(t, key, Flags(At(setting, 2)), Decode(salt, 0, 16).value, PowerOfTwo(Cost(setting))) ==
            PasswordDigest(t, key, Decode(salt, 0, 16).value, CostOfRounds(rounds))
  {
    hide Setting, At, ValidPrefix, Cost, PowerOfTwo, Flags, Digest, DigestBytes, Expanded, InitialSubkeys, SaltWords,
         Decode;
    VersionOfSetting(salt, rounds);
    SettingIsAcceptable(salt, rounds);
  }

  lemma VersionOfSetting(salt: seq<byte>, rounds: nat)
    requires |salt| >= 22
    ensures Flags(At(Setting(salt, rounds), 2)) == 4
  {
    hide DigitChar;
  }

  lemma TextOfSetting(setting: seq<byte>, text: seq<byte>, salt: seq<byte>, rounds: nat)
    requires |salt| >= 22 && setting == Setting(salt, rounds) && |text| == 60 && text[..29] == Kept(setting)
    ensures text[7..28] == salt[..21]
    ensures text[0] == 0x24 && text[1] == 0x32 && text[2] == 0x62 && text[3] == 0x24
    ensures text[4] == DigitChar(rounds / 10) && text[5] == DigitChar(rounds % 10) && text[6] == 0x24
  {
    hide DigitChar, LastSaltChar;
    KeptIs(text, setting);
    assert text[7..28] == text[..28][7..] == setting[7..28] == salt[..22][..21] == salt[..21];
    assert forall i :: 0 <= i < 7 ==> text[i] == text[..28][i] == setting[..28][i] == setting[i];
  }

  lemma KeptIs(text: seq<byte>, setting: seq<byte>)
    requires |text| == 60 && |setting| == 29 && text[..29] == Kept(setting)
    ensures text[..28] == setting[..28]
  {
    hide LastSaltChar;
    assert text[..28] == text[..29][..28];
  }

  /** The digest of a key by the plain expansion, without the measure. */
  function PasswordDigest(t: Tables, key: seq<byte>, salt: seq<byte>, cost: nat): (bytes: seq<byte>)
    requires t.Valid() && |salt| == 16
  {
    DigestBytes(Digest(InitialSubkeys(t.p, key, 4), t.s, t.magic, Expanded(key, 4), SaltWords(salt), PowerOfTwo(cost)))
  }

  /** What is written instead of a hash. */
  lemma MagicIs(setting: seq<byte>)
    ensures Magic(setting) == [0x2A, 0x30] || Magic(setting) == [0x2A, 0x31]
    ensures Magic(setting) == [0x2A, 0x31] <==> At(setting, 0) == 0x2A && At(setting, 1) == 0x30
  {
  }

  /** The number of costly rounds doubles with every step of the cost. */
  lemma RoundsOfCost(cost: nat)
    ensures PowerOfTwo(0) == 1 && PowerOfTwo(cost + 1) == PowerOfTwo(cost) + PowerOfTwo(cost)
  {
  }
}
