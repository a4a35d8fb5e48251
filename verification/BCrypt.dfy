/** Password hashes: their text form, how one is computed, and how one is verified. */
module BCrypt {
  import opened Options
  import opened Base64
  import opened Blowfish
  import opened KeySchedule
  import opened EksBlowfish

  const INFO_SIZE: nat := 7
  const SALT_SIZE: nat := 22
  const HASH_SIZE: nat := 60
  const MIN_COUNT: nat := 16

  /** The initial subkeys, the S-boxes and the words that are encrypted: any will do. */
  datatype Tables = Tables(p: seq<word>, s: seq<word>, magic: seq<word>) {
    ghost predicate Valid() { |p| == P_SIZE && |s| == S_SIZE && |magic| == 6 }
  }

  // ---------- byte order ----------

  /** Byte `k` of a word, the most significant first. */
  function ByteOf(w: word, k: nat): byte
    requires k < 4
  {
    if k == 0 then ((w >> 24) & 0xFF) as byte
    else if k == 1 then ((w >> 16) & 0xFF) as byte
    else if k == 2 then ((w >> 8) & 0xFF) as byte
    else (w & 0xFF) as byte
  }

  /** A word as the processor reads it from memory. */
  function Loaded(little: bool, a: byte, b: byte, c: byte, d: byte): word {
    if little then BigEndian(d, c, b, a) else BigEndian(a, b, c, d)
  }

  /** Byte `k` of memory where the processor has written a word. */
  function Stored(little: bool, w: word, k: nat): byte
    requires k < 4
  {
    if little then ByteOf(w, 3 - k) else ByteOf(w, k)
  }

  /** Two half-words exchanged, then the bytes within each. */
  function Swapped(little: bool, w: word): word {
    if little then SwapBytes((w << 16) | (w >> 16)) else w
  }

  function SwapBytes(w: word): word {
    ((w & 0x00FF_00FF) << 8) | ((w >> 8) & 0x00FF_00FF)
  }

  lemma SwapReverses(a: byte, b: byte, c: byte, d: byte)
    ensures Swapped(true, BigEndian(d, c, b, a)) == BigEndian(a, b, c, d)
  {
  }

  lemma SwapByte0(w: word)
    ensures ByteOf(Swapped(true, w), 3) == ByteOf(w, 0)
  {
  }

  lemma SwapByte1(w: word)
    ensures ByteOf(Swapped(true, w), 2) == ByteOf(w, 1)
  {
  }

  lemma SwapByte2(w: word)
    ensures ByteOf(Swapped(true, w), 1) == ByteOf(w, 2)
  {
  }

  lemma SwapByte3(w: word)
    ensures ByteOf(Swapped(true, w), 0) == ByteOf(w, 3)
  {
  }

  /** On a processor of either byte order, a word that is loaded and swapped is the big-endian one. */
  lemma LoadedAndSwapped(little: bool, a: byte, b: byte, c: byte, d: byte)
    ensures Swapped(little, Loaded(little, a, b, c, d)) == BigEndian(a, b, c, d)
  {
    hide BigEndian, SwapBytes;
    SwapReverses(a, b, c, d);
  }

  /** And a word that is swapped and stored has its most significant byte first. */
  lemma SwappedAndStored(little: bool, w: word, k: nat)
    requires k < 4
    ensures Stored(little, Swapped(little, w), k) == ByteOf(w, k)
  {
    hide ByteOf, SwapBytes;
    SwapByte0(w);
    SwapByte1(w);
    SwapByte2(w);
    SwapByte3(w);
  }

  function LoadedWord(little: bool, bytes: seq<byte>, i: nat): word
    requires 4 * i + 4 <= |bytes|
  {
    Loaded(little, bytes[4 * i], bytes[4 * i + 1], bytes[4 * i + 2], bytes[4 * i + 3])
  }

  function SaltWord(bytes: seq<byte>, i: nat): word
    requires 4 * i + 4 <= |bytes|
  {
    BigEndian(bytes[4 * i], bytes[4 * i + 1], bytes[4 * i + 2], bytes[4 * i + 3])
  }

  /** The salt's sixteen bytes as four words, the most significant byte of each first. */
  function SaltWords(bytes: seq<byte>): (words: seq<word>)
    requires |bytes| == 16
    ensures |words| == 4
  {
    seq(4, i requires 0 <= i < 4 => SaltWord(bytes, i))
  }

  /** The digest's first 23 bytes, the most significant byte of each word first. */
  function DigestBytes(words: seq<word>): (bytes: seq<byte>)
    requires |words| == 6
    ensures |bytes| == 23
  {
    seq(23, k requires 0 <= k < 23 => ByteOf(words[k / 4], k % 4))
  }

  method BF_swap(x: array<word>, little: bool)
    requires x.Length > 0
    modifies x
    ensures forall i :: 0 <= i < x.Length ==> x[i] == Swapped(little, old(x[i]))
  {
    hide SwapBytes;
    if little {
      var i := 0;
      while i < x.Length
        invariant 0 <= i <= x.Length
        invariant forall k :: 0 <= k < i ==> x[k] == Swapped(little, old(x[k]))
        invariant forall k :: i <= k < x.Length ==> x[k] == old(x[k])
      {
        x[i] := SwapBytes((x[i] << 16) | (x[i] >> 16));
        i := i + 1;
      }
    }
  }

  // ---------- the setting ----------

  function Flags(c: byte): byte {
    if c == 0x61 then 2
    else if c == 0x62 || c == 0x79 then 4
    else if c == 0x78 then 1
    else 0
  }

  /** The value of a decimal digit, ten for another character. */
  function Digit(c: byte): nat {
    if c == 0x30 then 0
    else if c == 0x31 then 1
    else if c == 0x32 then 2
    else if c == 0x33 then 3
    else if c == 0x34 then 4
    else if c == 0x35 then 5
    else if c == 0x36 then 6
    else if c == 0x37 then 7
    else if c == 0x38 then 8
    else if c == 0x39 then 9
    else 10
  }

  const DOLLAR: byte := 0x24

  predicate ValidPrefix(setting: seq<byte>) {
    && At(setting, 0) == DOLLAR && At(setting, 1) == 0x32
    && Flags(At(setting, 2)) != 0 && At(setting, 3) == DOLLAR
    && Digit(At(setting, 4)) <= 3 && Digit(At(setting, 5)) <= 9
    && !(Digit(At(setting, 4)) == 3 && Digit(At(setting, 5)) > 1)
    && At(setting, 6) == DOLLAR
  }

  function Cost(setting: seq<byte>): nat {
    Digit(At(setting, 4)) * 10 + Digit(At(setting, 5))
  }

  function PowerOfTwo(n: nat): (p: nat)
    ensures p > 0
  {
    if n == 0 then 1 else 2 * PowerOfTwo(n - 1)
  }

  lemma CountAtLeastMinimum(cost: nat)
    ensures PowerOfTwo(cost) >= MIN_COUNT <==> cost >= 4
  {
    assert PowerOfTwo(3) == 8 && PowerOfTwo(4) == 16;
    if cost < 4 {
      PowerGrows(cost, 3);
    } else {
      PowerGrows(4, cost);
    }
  }

  lemma {:induction false} PowerGrows(a: nat, b: nat)
    requires a <= b
    ensures PowerOfTwo(a) <= PowerOfTwo(b)
    decreases b - a
  {
    if a < b {
      PowerGrows(a + 1, b);
    }
  }

  /** The last character of the salt with the four bits that no byte uses cleared. */
  function LastSaltChar(c: byte): byte {
    Itoa64(Atoi64(c) & 0x30)
  }

  /** The setting as it begins the hash. */
  function Kept(setting: seq<byte>): (text: seq<byte>)
    requires |setting| >= INFO_SIZE + SALT_SIZE
    ensures |text| == INFO_SIZE + SALT_SIZE
  {
    setting[..INFO_SIZE + SALT_SIZE - 1] + [LastSaltChar(setting[INFO_SIZE + SALT_SIZE - 1])]
  }

  /** The 23 bytes that end the hash. */
  function Hashed(t: Tables, key: seq<byte>, flags: byte, salt: seq<byte>, count: nat): (bytes: seq<byte>)
    requires t.Valid() && |salt| == 16
    ensures |bytes| == 23
  {
    DigestBytes(Digest(InitialSubkeys(t.p, key, flags), t.s, t.magic, Expanded(key, flags), SaltWords(salt), count))
  }

  /** The salt of an acceptable setting. */
  function SaltOf(setting: seq<byte>, min: nat): (salt: Option<seq<byte>>)
    ensures salt.Some? ==> |salt.value| == 16 && |setting| >= INFO_SIZE + SALT_SIZE
  {
    SaltIsThere(setting);
    if !ValidPrefix(setting) || PowerOfTwo(Cost(setting)) < min then None else Decode(setting, INFO_SIZE, 16)
  }

  lemma SaltIsThere(setting: seq<byte>)
    ensures Decode(setting, INFO_SIZE, 16).Some? ==> |setting| >= INFO_SIZE + SALT_SIZE
  {
    if Decode(setting, INFO_SIZE, 16).Some? {
      DecodedIsThere(setting, INFO_SIZE, 16);
    }
  }

  /** The hash of `key` by `setting`, which may itself be a hash. */
  function Crypt(t: Tables, key: seq<byte>, setting: seq<byte>, min: nat): (hash: Option<seq<byte>>)
    requires t.Valid()
    ensures hash.Some? ==> |hash.value| == HASH_SIZE
  {
    match SaltOf(setting, min)
    case None => None
    case Some(salt) =>
      hide Encode, Kept, Hashed, Cost, Flags, PowerOfTwo, At;
      Some(HashText(setting, Hashed(t, key, Flags(At(setting, 2)), salt, PowerOfTwo(Cost(setting)))))
  }

  function HashText(setting: seq<byte>, bytes: seq<byte>): (text: seq<byte>)
    requires |setting| >= INFO_SIZE + SALT_SIZE && |bytes| == 23
    ensures |text| == HASH_SIZE
  {
    Lengths();
    Kept(setting) + Encode(bytes)
  }

  lemma Lengths()
    ensures EncodedLength(16) == SALT_SIZE
    ensures EncodedLength(23) == 31
  {
    assert EncodedLength(4) == 6 && EncodedLength(7) == 10;
    assert EncodedLength(5) == 7 && EncodedLength(8) == 11;
    assert EncodedLength(11) == 15 && EncodedLength(14) == 19;
    assert EncodedLength(10) == 14 && EncodedLength(13) == 18;
  }

  // ---------- how a hash is computed ----------

  method LoadWords(bytes: seq<byte>, little: bool) returns (words: array<word>)
    requires |bytes| == 16
    ensures fresh(words) && words.Length == 4
    ensures forall i :: 0 <= i < 4 ==> words[i] == LoadedWord(little, bytes, i)
  {
    hide LoadedWord;
    words := new word[4](i requires 0 <= i < 4 => LoadedWord(little, bytes, i));
  }

  method SaltFrom(setting: seq<byte>, little: bool) returns (ok: bool, salt: seq<word>)
    ensures ok <==> Decode(setting, INFO_SIZE, 16).Some?
    ensures ok ==> salt == SaltWords(Decode(setting, INFO_SIZE, 16).value)
  {
    hide Decode, SwapBytes, Swapped, BigEndian, LoadedWord, SaltWord;
    var bytes := new byte[16];
    ok := BF_decode(bytes, setting, INFO_SIZE, 16);
    if !ok {
      return false, [];
    }
    AllHeld(bytes, Decode(setting, INFO_SIZE, 16).value);
    var words := LoadWords(bytes[..], little);
    ghost var loaded := words[..];
    BF_swap(words, little);
    SaltWordsLoaded(bytes[..], little);
    salt := words[..];
    assert salt == SaltWords(bytes[..]);
  }

  lemma AllHeld<T>(a: array<T>, text: seq<T>)
    requires Holds(a, 0, text) && |text| == a.Length
    ensures a[..] == text
  {
  }

  lemma SaltWordsLoaded(bytes: seq<byte>, little: bool)
    requires |bytes| == 16
    ensures forall i :: 0 <= i < 4 ==> Swapped(little, LoadedWord(little, bytes, i)) == SaltWord(bytes, i)
  {
    hide Swapped, Loaded, BigEndian;
    forall i | 0 <= i < 4
      ensures Swapped(little, LoadedWord(little, bytes, i)) == SaltWord(bytes, i)
    {
      LoadedAndSwapped(little, bytes[4 * i], bytes[4 * i + 1], bytes[4 * i + 2], bytes[4 * i + 3]);
    }
  }

  /** The digest's words swapped and seen as bytes. */
  method DigestOut(words: seq<word>, little: bool) returns (bytes: seq<byte>)
    requires |words| == 6
    ensures bytes == DigestBytes(words)
  {
    hide Swapped, Stored, ByteOf;
    var output := new word[6](i requires 0 <= i < 6 => words[i]);
    BF_swap(output, little);
    var swapped := output[..];
    forall k | 0 <= k < 23
      ensures Stored(little, swapped[k / 4], k % 4) == ByteOf(words[k / 4], k % 4)
    {
      SwappedAndStored(little, words[k / 4], k % 4);
    }
    bytes := seq(23, k requires 0 <= k < 23 => Stored(little, swapped[k / 4], k % 4));
  }

  method HashBytes(t: Tables, key: seq<byte>, flags: byte, salt: seq<word>, count: nat, little: bool)
    returns (bytes: seq<byte>)
    requires t.Valid() && |salt| == 4 && count > 0
    requires forall k :: 0 <= k < |key| ==> key[k] != 0
    ensures bytes ==
            DigestBytes(Digest(InitialSubkeys(t.p, key, flags), t.s, t.magic, Expanded(key, flags), salt, count))
  {
    hide Digest, InitialSubkeys, Expanded, DigestBytes;
    var work := new Workspace();
    var expanded := new word[P_SIZE];
    BF_set_key(key, expanded, work.P, t.p, flags);
    CopyInto(work.S, t.s);
    var words := work.ComputeDigest(t.magic, expanded[..], salt, count);
    bytes := DigestOut(words, little);
  }

  method CopyInto<T>(a: array<T>, source: seq<T>)
    requires a.Length == |source|
    modifies a
    ensures a[..] == source
  {
    forall i | 0 <= i < a.Length {
      a[i] := source[i];
    }
  }

  /** Writes the beginning of the hash. */
  method KeepSetting(output: array<byte>, setting: seq<byte>)
    requires output.Length > HASH_SIZE && |setting| >= INFO_SIZE + SALT_SIZE
    modifies output
    ensures Holds(output, 0, Kept(setting))
  {
    forall i | 0 <= i < INFO_SIZE + SALT_SIZE - 1 {
      output[i] := setting[i];
    }
    output[INFO_SIZE + SALT_SIZE - 1] := LastSaltChar(setting[INFO_SIZE + SALT_SIZE - 1]);
  }

  method BF_crypt(t: Tables, key: seq<byte>, setting: seq<byte>, output: array<byte>, min: nat, little: bool)
    returns (ok: bool)
    requires t.Valid()
    requires forall k :: 0 <= k < |key| ==> key[k] != 0
    modifies output
    ensures ok <==> output.Length > HASH_SIZE && Crypt(t, key, setting, min).Some?
    ensures ok ==> Holds(output, 0, Crypt(t, key, setting, min).value + [0])
    ensures !ok ==> output[..] == old(output[..])
  {
    hide Decode, ValidPrefix, Cost, Flags, HashText, SaltWords, PowerOfTwo, At, DigestBytes, Digest, Expanded,
         InitialSubkeys;
    if output.Length < HASH_SIZE + 1 || !ValidPrefix(setting) {
      return false;
    }
    var count := PowerOfTwo(Cost(setting));
    if count < min {
      return false;
    }
    var salt;
    ok, salt := SaltFrom(setting, little);
    if ok {
      SaltIsThere(setting);
      var bytes := HashBytes(t, key, Flags(At(setting, 2)), salt, count, little);
      WriteHash(output, setting, bytes);
    }
  }

  method WriteHash(output: array<byte>, setting: seq<byte>, bytes: seq<byte>)
    requires output.Length > HASH_SIZE && |setting| >= INFO_SIZE + SALT_SIZE && |bytes| == 23
    modifies output
    ensures Holds(output, 0, HashText(setting, bytes) + [0])
  {
    hide Kept, Encode, EncodedLength;
    Lengths();
    KeepSetting(output, setting);
    BF_encode(output, INFO_SIZE + SALT_SIZE, bytes);
    HoldsJoin(output, 0, Kept(setting), Encode(bytes));
    output[HASH_SIZE] := 0;
    HoldsJoin(output, 0, Kept(setting) + Encode(bytes), [0]);
  }
}
