/** The password interface: hashing with a given salt, verifying, and what the two mean for each other. */
module Passwords {
  import opened Options
  import opened Base64
  import opened Blowfish
  import opened KeySchedule
  import opened EksBlowfish
  import opened BCrypt
  import opened Divisibility

  datatype HashResult = Hash(text: seq<byte>) | SaltTooShort | CannotHash

  /** A string as C reads it: up to its first terminator. */
  function CStr(s: seq<byte>): (text: seq<byte>)
    ensures forall k :: 0 <= k < |text| ==> text[k] != 0
    ensures text <= s && (|text| < |s| ==> s[|text|] == 0)
  {
    if s == [] || s[0] == 0 then [] else [s[0]] + CStr(s[1..])
  }

  lemma CStrWhole(s: seq<byte>)
    requires forall k :: 0 <= k < |s| ==> s[k] != 0
    ensures CStr(s) == s
  {
  }

  /** The decimal digit of `n`, as a character computed in one byte. */
  function DigitChar(n: nat): byte {
    0x30 + (n % 256) as byte
  }

  function Setting(salt: seq<byte>, rounds: nat): (setting: seq<byte>)
    requires |salt| >= SALT_SIZE
    ensures |setting| == INFO_SIZE + SALT_SIZE
  {
    [DOLLAR, 0x32, 0x62, DOLLAR, DigitChar(rounds / 10), DigitChar(rounds % 10), DOLLAR] + salt[..SALT_SIZE]
  }

  function HashWith(t: Tables, password: seq<byte>, salt: seq<byte>, rounds: nat): HashResult
    requires t.Valid()
  {
    if |salt| < SALT_SIZE then SaltTooShort
    else
      match Crypt(t, CStr(password), Setting(salt, rounds), MIN_COUNT)
      case None => CannotHash
      case Some(text) => Hash(CStr(text))
  }

  predicate Verifies(t: Tables, hash: seq<byte>, password: seq<byte>)
    requires t.Valid()
  {
    match Crypt(t, CStr(password), hash, MIN_COUNT)
    case None => false
    case Some(text) => hash == CStr(text)
  }

  /** What is written when nothing can be hashed: a text that is no setting, and not this one. */
  function Magic(setting: seq<byte>): (text: seq<byte>)
    ensures text != CStr(setting) && |text| == 2
  {
    if At(setting, 0) == 0x2A && At(setting, 1) == 0x30 then [0x2A, 0x31] else [0x2A, 0x30]
  }

  lemma BeginsHolds<T>(a: array<T>, text: seq<T>)
    requires text <= a[..]
    ensures Holds(a, 0, text)
  {
    forall k | 0 <= k < |text|
      ensures a[k] == text[k]
    {
      assert a[..][k] == text[k];
    }
  }

  /** Hashes, and gives up the result when the self-test that follows is not `sound`. */
  method CryptRn(t: Tables, key: seq<byte>, setting: seq<byte>, output: array<byte>, little: bool, sound: bool)
    returns (ok: bool)
    requires t.Valid()
    requires forall k :: 0 <= k < |key| ==> key[k] != 0
    modifies output
    ensures ok <==> sound && output.Length > HASH_SIZE && Crypt(t, key, setting, MIN_COUNT).Some?
    ensures ok ==> Holds(output, 0, Crypt(t, key, setting, MIN_COUNT).value + [0])
    ensures !ok && output.Length >= 3 ==> Holds(output, 0, Magic(setting) + [0])
  {
    hide Crypt, Magic;
    OutputMagic(setting, output);
    ghost var before := output[..];
    ok := BF_crypt(t, key, setting, output, MIN_COUNT, little);
    if !ok && output.Length >= 3 {
      SameStillHolds(output, before, Magic(setting) + [0]);
    }
    if !sound {
      ok := false;
      OutputMagic(setting, output);
    }
  }

  lemma SameStillHolds<T>(a: array<T>, before: seq<T>, text: seq<T>)
    requires a[..] == before && text <= before
    ensures Holds(a, 0, text)
  {
    BeginsHolds(a, text);
  }

  method OutputMagic(setting: seq<byte>, output: array<byte>)
    modifies output
    ensures output.Length >= 3 ==> Magic(setting) + [0] <= output[..] && Holds(output, 0, Magic(setting) + [0])
  {
    if output.Length >= 3 {
      output[0], output[1], output[2] := 0x2A, 0x30, 0;
      if At(setting, 0) == 0x2A && At(setting, 1) == 0x30 {
        output[1] := 0x31;
      }
      assert output[..3] == Magic(setting) + [0];
      assert output[..3] <= output[..];
    }
  }

  /** The C string that an array holds. */
  method ReadString(a: array<byte>, ghost text: seq<byte>) returns (s: seq<byte>)
    requires Holds(a, 0, text + [0])
    ensures s == CStr(text)
  {
    var n := 0;
    while a[n] != 0
      invariant 0 <= n <= |CStr(text)|
      decreases |text| - n
    {
      assert (text + [0])[n] != 0;
      n := n + 1;
    }
    assert (text + [0])[n] == 0;
    s := a[..n];
    forall k | 0 <= k < n
      ensures s[k] == CStr(text)[k]
    {
      assert a[0 + k] == (text + [0])[k];
    }
  }

  method HashPassword(t: Tables, password: seq<byte>, salt: seq<byte>, rounds: nat, little: bool, sound: bool)
    returns (r: HashResult)
    requires t.Valid()
    ensures sound ==> r == HashWith(t, password, salt, rounds)
    ensures !sound ==> r == if |salt| < SALT_SIZE then SaltTooShort else CannotHash
  {
    hide Crypt, Setting, CStr, Holds;
    if |salt| < SALT_SIZE {
      return SaltTooShort;
    }
    var setting := Setting(salt, rounds);
    var buffer := new byte[HASH_SIZE + 1];
    var ok := CryptRn(t, CStr(password), setting, buffer, little, sound);
    if !ok {
      return CannotHash;
    }
    var text := ReadString(buffer, Crypt(t, CStr(password), setting, MIN_COUNT).value);
    r := Hash(text);
  }

  method Verify(t: Tables, hash: seq<byte>, password: seq<byte>, little: bool, sound: bool) returns (ok: bool)
    requires t.Valid()
    ensures ok <==> sound && Verifies(t, hash, password)
  {
    hide Crypt, CStr, Holds;
    var test := new byte[HASH_SIZE + 1];
    ok := CryptRn(t, CStr(password), hash, test, little, sound);
    if ok {
      var text := ReadString(test, Crypt(t, CStr(password), hash, MIN_COUNT).value);
      ok := hash == text;
    }
  }

  // ---------- the hash as a setting ----------

  lemma ItoaNotNul(v: byte)
    requires v < 64
    ensures Itoa64(v) != 0
  {
  }

  lemma CharsAreNotNul(b1: byte, b2: byte, b3: byte)
    ensures Char1(b1) != 0 && Char2(b1, b2) != 0 && Char3(b2, b3) != 0 && Char4(b3) != 0
  {
    hide Itoa64;
    ItoaNotNul(b1 >> 2);
    ItoaNotNul(((b1 & 0x03) << 4) | (b2 >> 4));
    ItoaNotNul(((b2 & 0x0F) << 2) | (b3 >> 6));
    ItoaNotNul(b3 & 0x3F);
  }

  lemma GroupHasNoNul(src: seq<byte>)
    requires |src| > 0
    ensures forall k :: 0 <= k < |Group(src)| ==> Group(src)[k] != 0
  {
    hide Char1, Char2, Char3, Char4;
    CharsAreNotNul(src[0], if |src| > 1 then src[1] else 0, if |src| > 2 then src[2] else 0);
  }

  lemma {:induction false} EncodeHasNoNul(src: seq<byte>)
    ensures forall k :: 0 <= k < |Encode(src)| ==> Encode(src)[k] != 0
    decreases |src|
  {
    hide Group;
    if src != [] {
      GroupHasNoNul(src);
      EncodeHasNoNul(AfterGroup(src));
    }
  }

  lemma LastSaltCharIsCanonical(c: byte)
    requires Atoi64(c) < 64
    ensures LastSaltChar(c) == CanonicalLast(c, 16) && LastSaltChar(c) != 0
  {
    ItoaNotNul(Atoi64(c) & 0x30);
  }

  lemma Masked(v: byte)
    ensures (v & 0x30) & 0x30 == v & 0x30
  {
  }

  lemma LastSaltCharIdempotent(c: byte)
    ensures LastSaltChar(LastSaltChar(c)) == LastSaltChar(c)
  {
    hide Itoa64, Atoi64;
    ItoaThenAtoi(Atoi64(c) & 0x30);
    Masked(Atoi64(c));
  }

  /** The salt in the beginning of a hash is the encoding of the bytes that the setting's salt decodes to. */
  lemma KeptIsCanonical(setting: seq<byte>, min: nat)
    requires SaltOf(setting, min).Some?
    ensures Kept(setting) == setting[..INFO_SIZE] + Encode(SaltOf(setting, min).value)
  {
    hide Decode, Encode, ValidPrefix, Cost, PowerOfTwo, CanonicalLast, LastSaltChar, EncodedLength;
    Lengths();
    var coded := Encode(SaltOf(setting, min).value);
    EncodeUndoesDecode(setting, INFO_SIZE, 16);
    LastSaltCharIsCanonical(setting[INFO_SIZE + SALT_SIZE - 1]);
    SameUpToLast(setting, INFO_SIZE, coded, LastSaltChar(setting[INFO_SIZE + SALT_SIZE - 1]));
  }

  lemma SameUpToLast<T>(s: seq<T>, pos: nat, coded: seq<T>, last: T)
    requires 0 < |coded| && pos + |coded| <= |s| && coded[|coded| - 1] == last
    requires forall k :: 0 <= k < |coded| - 1 ==> coded[k] == s[pos + k]
    ensures s[..pos + |coded| - 1] + [last] == s[..pos] + coded
  {
    var a, b := s[..pos + |coded| - 1] + [last], s[..pos] + coded;
    forall k | 0 <= k < |a|
      ensures a[k] == b[k]
    {
      if k >= pos {
        assert b[k] == coded[k - pos];
      }
    }
  }

  /** `hash` begins with what is kept of `setting`. */
  predicate BeginsAs(hash: seq<byte>, setting: seq<byte>) {
    |setting| >= INFO_SIZE + SALT_SIZE && Kept(setting) <= hash
  }

  lemma SamePrefix(hash: seq<byte>, setting: seq<byte>)
    requires BeginsAs(hash, setting)
    ensures forall i: nat :: i < INFO_SIZE ==> At(hash, i) == At(setting, i)
  {
    hide LastSaltChar;
    forall i: nat | i < INFO_SIZE
      ensures At(hash, i) == At(setting, i)
    {
      assert Kept(setting)[i] == setting[i];
    }
  }

  lemma OccursInPrefix<T>(s: seq<T>, a: seq<T>, b: seq<T>)
    requires a + b <= s
    ensures Occurs(s, |a|, b)
  {
    forall k | 0 <= k < |b|
      ensures s[|a| + k] == b[k]
    {
      assert (a + b)[|a| + k] == b[k];
    }
  }

  lemma SameSalt(hash: seq<byte>, setting: seq<byte>, min: nat)
    requires BeginsAs(hash, setting) && SaltOf(setting, min).Some?
    ensures SaltOf(hash, min) == SaltOf(setting, min)
    ensures Flags(At(hash, 2)) == Flags(At(setting, 2)) && Cost(hash) == Cost(setting)
  {
    hide Decode, Encode, PowerOfTwo, Digit, Flags, At, LastSaltChar;
    SamePrefix(hash, setting);
    KeptIsCanonical(setting, min);
    OccursInPrefix(hash, setting[..INFO_SIZE], Encode(SaltOf(setting, min).value));
    DecodeUndoesEncode(SaltOf(setting, min).value, hash, INFO_SIZE);
  }

  lemma SameKept(hash: seq<byte>, setting: seq<byte>)
    requires BeginsAs(hash, setting)
    ensures |hash| >= INFO_SIZE + SALT_SIZE && Kept(hash) == Kept(setting)
  {
    hide LastSaltChar;
    LastSaltCharIdempotent(setting[INFO_SIZE + SALT_SIZE - 1]);
    var n := INFO_SIZE + SALT_SIZE - 1;
    assert hash[n] == Kept(setting)[n];
    assert hash[..n] == setting[..n];
  }

  /** A hash serves as the setting it was made with, for every password. */
  lemma HashIsItsOwnSetting(t: Tables, key: seq<byte>, other: seq<byte>, setting: seq<byte>, min: nat)
    requires t.Valid()
    ensures Crypt(t, key, setting, min).Some? ==>
              Crypt(t, other, Crypt(t, key, setting, min).value, min) == Crypt(t, other, setting, min)
  {
    hide Encode, Kept, Hashed, SaltOf, Flags, Cost, PowerOfTwo;
    if Crypt(t, key, setting, min).Some? {
      var hash := Crypt(t, key, setting, min).value;
      SameSalt(hash, setting, min);
      SameKept(hash, setting);
    }
  }

  lemma PrefixHasNoNul(setting: seq<byte>)
    requires ValidPrefix(setting)
    ensures forall i: nat :: i < INFO_SIZE ==> At(setting, i) != 0
  {
  }

  /** The C string of a hash is the whole of it. */
  lemma HashHasNoNul(t: Tables, key: seq<byte>, setting: seq<byte>, min: nat)
    requires t.Valid() && Crypt(t, key, setting, min).Some?
    ensures CStr(Crypt(t, key, setting, min).value) == Crypt(t, key, setting, min).value
  {
    hide Encode, Kept, Hashed, Decode, ValidPrefix, Flags, Cost, PowerOfTwo, CStr, EncodedLength;
    Lengths();
    var salt := SaltOf(setting, min).value;
    var bytes := Hashed(t, key, Flags(At(setting, 2)), salt, PowerOfTwo(Cost(setting)));
    PrefixHasNoNul(setting);
    KeptIsCanonical(setting, min);
    EncodeHasNoNul(salt);
    EncodeHasNoNul(bytes);
    assert forall i: nat :: i < INFO_SIZE ==> setting[i] == At(setting, i);
    CStrWhole(HashText(setting, bytes));
  }

  // ---------- hashing, then verifying ----------

  lemma HashIsCrypt(t: Tables, password: seq<byte>, salt: seq<byte>, rounds: nat)
    requires t.Valid()
    ensures HashWith(t, password, salt, rounds).Hash? <==>
            |salt| >= SALT_SIZE && Crypt(t, CStr(password), Setting(salt, rounds), MIN_COUNT).Some?
    ensures HashWith(t, password, salt, rounds).Hash? ==>
              Crypt(t, CStr(password), Setting(salt, rounds), MIN_COUNT) ==
                Some(HashWith(t, password, salt, rounds).text)
  {
    hide Crypt, CStr, Setting;
    if |salt| >= SALT_SIZE && Crypt(t, CStr(password), Setting(salt, rounds), MIN_COUNT).Some? {
      HashHasNoNul(t, CStr(password), Setting(salt, rounds), MIN_COUNT);
    }
  }

  /** A password is accepted against a hash exactly when it hashes, with the same salt and cost, to that hash. */
  lemma VerifiesIffSameHash(t: Tables, password: seq<byte>, salt: seq<byte>, rounds: nat, attempt: seq<byte>)
    requires t.Valid()
    ensures HashWith(t, password, salt, rounds).Hash? ==>
              (Verifies(t, HashWith(t, password, salt, rounds).text, attempt) <==>
               HashWith(t, attempt, salt, rounds) == HashWith(t, password, salt, rounds))
  {
    hide Crypt, CStr, Setting, HashWith;
    HashIsCrypt(t, password, salt, rounds);
    HashIsCrypt(t, attempt, salt, rounds);
    if HashWith(t, password, salt, rounds).Hash? {
      var hash := HashWith(t, password, salt, rounds).text;
      HashIsItsOwnSetting(t, CStr(password), CStr(attempt), Setting(salt, rounds), MIN_COUNT);
      if Crypt(t, CStr(attempt), hash, MIN_COUNT).Some? {
        HashHasNoNul(t, CStr(attempt), hash, MIN_COUNT);
      }
    }
  }

  /** Whatever was hashed verifies. */
  lemma HashThenVerify(t: Tables, password: seq<byte>, salt: seq<byte>, rounds: nat)
    requires t.Valid()
    ensures HashWith(t, password, salt, rounds).Hash? ==>
              Verifies(t, HashWith(t, password, salt, rounds).text, password)
  {
    hide HashWith, Verifies;
    VerifiesIffSameHash(t, password, salt, rounds, password);
  }

  /** Only texts of sixty characters whose salt is canonical ever verify. */
  lemma VerifiedIsCanonical(t: Tables, hash: seq<byte>, password: seq<byte>)
    requires t.Valid()
    ensures Verifies(t, hash, password) ==>
              |hash| == HASH_SIZE && SaltOf(hash, MIN_COUNT).Some? && Kept(hash) == hash[..INFO_SIZE + SALT_SIZE]
  {
    hide SaltOf, Hashed, Kept, Encode, CStr;
    if Verifies(t, hash, password) {
      HashHasNoNul(t, CStr(password), hash, MIN_COUNT);
    }
  }

  /** Every acceptable hash comes from hashing with its own salt: it verifies for a password iff it is that
      password's. */
  lemma VerifiesIffRehashes(t: Tables, hash: seq<byte>, password: seq<byte>)
    requires t.Valid()
    ensures Verifies(t, hash, password) <==> Crypt(t, CStr(password), hash, MIN_COUNT) == Some(hash)
  {
    hide Crypt, CStr;
    if Crypt(t, CStr(password), hash, MIN_COUNT).Some? {
      HashHasNoNul(t, CStr(password), hash, MIN_COUNT);
    }
  }

  // ---------- when a hash can be made ----------

  lemma DigitOfChar(n: nat)
    ensures Digit(DigitChar(n)) == if n % 256 < 10 then n % 256 else 10
  {
    var m := n % 256;
    if m < 10 {
      assert m == 0 || m == 1 || m == 2 || m == 3 || m == 4 || m == 5 || m == 6 || m == 7 || m == 8 || m == 9;
    } else {
    }
  }

  /** The tens are computed in one byte: the cost is what is left of them. */
  function CostOfRounds(rounds: nat): nat {
    rounds / 10 % 256 * 10 + rounds % 10
  }

  lemma SettingIsAcceptable(salt: seq<byte>, rounds: nat)
    requires |salt| >= SALT_SIZE
    ensures ValidPrefix(Setting(salt, rounds)) <==> CostOfRounds(rounds) <= 31
    ensures ValidPrefix(Setting(salt, rounds)) ==> Cost(Setting(salt, rounds)) == CostOfRounds(rounds)
  {
    hide DigitChar, Digit;
    var s := Setting(salt, rounds);
    DigitOfChar(rounds / 10);
    DigitOfChar(rounds % 10);
    assert At(s, 4) == DigitChar(rounds / 10) && At(s, 5) == DigitChar(rounds % 10);
    assert At(s, 0) == DOLLAR && At(s, 1) == 0x32 && At(s, 2) == 0x62 && At(s, 3) == DOLLAR && At(s, 6) == DOLLAR;
  }

  predicate SameAt(a: seq<byte>, i: nat, b: seq<byte>, j: nat, k: nat) {
    At(a, i + k) == At(b, j + k)
  }

  /** A decoding depends on the characters it reads only. */
  lemma {:induction false} DecodeReads(a: seq<byte>, i: nat, b: seq<byte>, j: nat, size: nat)
    requires forall k: nat :: k < EncodedLength(size) ==> SameAt(a, i, b, j, k)
    ensures Decode(a, i, size) == Decode(b, j, size)
    decreases size
  {
    hide At, Atoi64, Byte1, Byte2, Byte3;
    if size > 0 {
      assert SameAt(a, i, b, j, 0) && SameAt(a, i, b, j, 1);
      if size > 1 {
        assert SameAt(a, i, b, j, 2);
      }
      if size > 2 {
        assert SameAt(a, i, b, j, 3);
      }
      if size > 3 {
        var i', j' := i + 4, j + 4;
        forall k: nat | k < EncodedLength(size - 3)
          ensures SameAt(a, i', b, j', k)
        {
          assert SameAt(a, i, b, j, 4 + k);
        }
        DecodeReads(a, i', b, j', size - 3);
      }
    }
  }

  lemma JoinedAt<T>(a: seq<T>, b: seq<T>, n: nat, k: nat)
    requires k < n <= |b|
    ensures (a + b[..n])[|a| + k] == b[k]
  {
  }

  lemma SaltInSetting(salt: seq<byte>, rounds: nat)
    requires |salt| >= SALT_SIZE
    ensures Decode(Setting(salt, rounds), INFO_SIZE, 16) == Decode(salt, 0, 16)
  {
    hide Decode, EncodedLength, DigitChar;
    Lengths();
    var info := [DOLLAR, 0x32, 0x62, DOLLAR, DigitChar(rounds / 10), DigitChar(rounds % 10), DOLLAR];
    forall k: nat | k < SALT_SIZE
      ensures SameAt(Setting(salt, rounds), INFO_SIZE, salt, 0, k)
    {
      JoinedAt(info, salt, SALT_SIZE, k);
    }
    DecodeReads(Setting(salt, rounds), INFO_SIZE, salt, 0, 16);
  }

  /** Hashing succeeds exactly for a salt of 22 characters of the alphabet and a cost between 4 and 31. */
  lemma HashSucceedsIff(t: Tables, password: seq<byte>, salt: seq<byte>, rounds: nat)
    requires t.Valid()
    ensures HashWith(t, password, salt, rounds).Hash? <==>
            && 4 <= CostOfRounds(rounds) <= 31 && |salt| >= SALT_SIZE
            && AllInAlphabet(salt, 0, SALT_SIZE)
  {
    hide AllInAlphabet, EncodedLength, CStr, Setting, Decode, ValidPrefix, Cost, PowerOfTwo, Hashed, HashText, HashWith;
    HashIsCrypt(t, password, salt, rounds);
    Lengths();
    DecodesIff(salt, 0, 16);
    if |salt| >= SALT_SIZE {
      SaltInSetting(salt, rounds);
      SettingIsAcceptable(salt, rounds);
      CountAtLeastMinimum(CostOfRounds(rounds));
    }
  }

  // ---------- generated salts ----------

  function GeneratedSalt(bytes: seq<byte>): (salt: seq<byte>)
    requires |bytes| >= SALT_SIZE
    ensures |salt| == SALT_SIZE
  {
    Lengths();
    Encode(bytes[..16])
  }

  /** A generated salt holds its sixteen bytes and is canonical: it stands in the hash as it is. */
  lemma GeneratedSaltIsKept(t: Tables, password: seq<byte>, bytes: seq<byte>, rounds: nat)
    requires t.Valid() && |bytes| >= SALT_SIZE && 4 <= CostOfRounds(rounds) <= 31
    ensures Decode(GeneratedSalt(bytes), 0, 16) == Some(bytes[..16])
    ensures HashWith(t, password, GeneratedSalt(bytes), rounds).Hash?
    ensures Setting(GeneratedSalt(bytes), rounds) <= HashWith(t, password, GeneratedSalt(bytes), rounds).text
  {
    hide AllInAlphabet, Decode, Encode, EncodedLength, CStr, Hashed, HashWith, ValidPrefix, Cost, PowerOfTwo, Kept,
         DigitChar;
    Lengths();
    var salt := GeneratedSalt(bytes);
    WholeOccurs(salt);
    DecodeUndoesEncode(bytes[..16], salt, 0);
    DecodesIff(salt, 0, 16);
    HashSucceedsIff(t, password, salt, rounds);
    HashIsCrypt(t, password, salt, rounds);
    SaltInSetting(salt, rounds);
    KeptIsCanonical(Setting(salt, rounds), MIN_COUNT);
    assert salt[..SALT_SIZE] == salt;
    assert Setting(salt, rounds)[..INFO_SIZE] + salt == Setting(salt, rounds);
  }

  lemma WholeOccurs<T>(s: seq<T>)
    ensures Occurs(s, 0, s)
  {
  }

  // ---------- what the cost and the password are reduced to ----------

  /** A cost that wraps round in the byte of its tens is taken for the cost it wraps to. */
  lemma RoundsWrap(t: Tables, password: seq<byte>, salt: seq<byte>, rounds: nat)
    requires t.Valid()
    ensures HashWith(t, password, salt, rounds + 2560) == HashWith(t, password, salt, rounds)
  {
    hide Crypt, CStr;
    assert (rounds + 2560) / 10 % 256 == rounds / 10 % 256;
    assert (rounds + 2560) % 10 == rounds % 10;
    if |salt| >= SALT_SIZE {
      assert Setting(salt, rounds + 2560) == Setting(salt, rounds);
    }
  }

  /** The cost is the one that was asked for exactly below 2560. */
  lemma CostIsKeptIff(rounds: nat)
    ensures CostOfRounds(rounds) == rounds <==> rounds < 2560
    ensures CostOfRounds(2564) == 4
  {
    assert rounds == rounds / 10 * 10 + rounds % 10;
  }

  /** Passwords of 72 characters or more hash by their first 72 alone. */
  lemma OnlyFirstCharactersCount(t: Tables, password: seq<byte>, other: seq<byte>, salt: seq<byte>, rounds: nat)
    requires t.Valid() && |CStr(password)| >= 4 * P_SIZE && |CStr(other)| >= 4 * P_SIZE
    requires CStr(password)[..4 * P_SIZE] == CStr(other)[..4 * P_SIZE]
    ensures HashWith(t, password, salt, rounds) == HashWith(t, other, salt, rounds)
  {
    hide CStr, Digest, DigestBytes, Setting, SaltOf, Flags;
    var key, key' := CStr(password), CStr(other);
    forall flags
      ensures Expanded(key, flags) == Expanded(key', flags)
      ensures InitialSubkeys(t.p, key, flags) == InitialSubkeys(t.p, key', flags)
    {
      SameCharactersExpandAlike(t.p, key, key', flags);
    }
  }

  lemma SameCharactersExpandAlike(table: seq<word>, key: seq<byte>, other: seq<byte>, flags: byte)
    requires |table| == P_SIZE
    requires |key| >= 4 * P_SIZE && |other| >= 4 * P_SIZE && key[..4 * P_SIZE] == other[..4 * P_SIZE]
    ensures Expanded(key, flags) == Expanded(other, flags)
    ensures InitialSubkeys(table, key, flags) == InitialSubkeys(table, other, flags)
  {
    SameKeyBytes(key, other);
    SameBytesSameSchedule(table, key, other, flags);
  }

  lemma SameKeyBytes(key: seq<byte>, other: seq<byte>)
    requires |key| >= 4 * P_SIZE && |other| >= 4 * P_SIZE && key[..4 * P_SIZE] == other[..4 * P_SIZE]
    ensures forall k: nat :: k < 4 * P_SIZE ==> KeyByte(key, k) == KeyByte(other, k)
  {
    forall k: nat | k < 4 * P_SIZE
      ensures KeyByte(key, k) == KeyByte(other, k)
    {
      DivModUnique(k, |key| + 1, 0, k);
      DivModUnique(k, |other| + 1, 0, k);
      SamePrefixAt(key, other, 4 * P_SIZE, k);
    }
  }

  lemma SamePrefixAt<T>(a: seq<T>, b: seq<T>, n: nat, k: nat)
    requires k < n <= |a| && n <= |b| && a[..n] == b[..n]
    ensures a[k] == b[k]
  {
    assert a[k] == a[..n][k];
  }
}
