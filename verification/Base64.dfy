/** The bcrypt flavour of base 64: its own alphabet, groups of three bytes, and a partial last group. */
module Base64 {
  import opened Options

  type byte = bv8

  /** The 64 characters in order: full stop, slash, upper case, lower case, digits. */
  function Itoa64(v: byte): byte
    requires v < 64
  {
    if v < 2 then 0x2E + v
    else if v < 28 then 0x41 + (v - 2)
    else if v < 54 then 0x61 + (v - 28)
    else 0x30 + (v - 54)
  }

  /** The value of a character, 64 for one outside the alphabet. */
  function Atoi64(c: byte): byte {
    if 0x2E <= c <= 0x2F then c - 0x2E
    else if 0x30 <= c <= 0x39 then c - 0x30 + 54
    else if 0x41 <= c <= 0x5A then c - 0x41 + 2
    else if 0x61 <= c <= 0x7A then c - 0x61 + 28
    else 64
  }

  lemma ItoaThenAtoi(v: byte)
    requires v < 64
    ensures Atoi64(Itoa64(v)) == v && Itoa64(v) != 0
  {
  }

  lemma AtoiThenItoa(c: byte)
    requires Atoi64(c) < 64
    ensures Itoa64(Atoi64(c)) == c
  {
  }

  /** A C string read at `i`: past the last character there is the terminator. */
  function At(s: seq<byte>, i: nat): byte {
    if i < |s| then s[i] else 0
  }

  function EncodedLength(size: nat): nat {
    if size == 0 then 0
    else if size == 1 then 2
    else if size == 2 then 3
    else 4 + EncodedLength(size - 3)
  }

  // The characters of a group, and the bytes four characters stand for.

  function Char1(b1: byte): byte { Itoa64(b1 >> 2) }
  function Char2(b1: byte, b2: byte): byte { Itoa64(((b1 & 0x03) << 4) | (b2 >> 4)) }
  function Char3(b2: byte, b3: byte): byte { Itoa64(((b2 & 0x0F) << 2) | (b3 >> 6)) }
  function Char4(b3: byte): byte { Itoa64(b3 & 0x3F) }

  function Byte1(c1: byte, c2: byte): byte { (c1 << 2) | ((c2 & 0x30) >> 4) }
  function Byte2(c2: byte, c3: byte): byte { ((c2 & 0x0F) << 4) | ((c3 & 0x3C) >> 2) }
  function Byte3(c3: byte, c4: byte): byte { ((c3 & 0x03) << 6) | c4 }

  /** The characters of the first group of `src`: four, or fewer when fewer than three bytes are left. */
  function Group(src: seq<byte>): seq<byte>
    requires |src| > 0
  {
    if |src| == 1 then [Char1(src[0]), Char2(src[0], 0)]
    else if |src| == 2 then [Char1(src[0]), Char2(src[0], src[1]), Char3(src[1], 0)]
    else [Char1(src[0]), Char2(src[0], src[1]), Char3(src[1], src[2]), Char4(src[2])]
  }

  function AfterGroup(s: seq<byte>): (rest: seq<byte>)
    ensures |rest| == if |s| >= 3 then |s| - 3 else 0
  {
    if |s| >= 3 then s[3..] else []
  }

  function Encode(src: seq<byte>): (text: seq<byte>)
    ensures |text| == EncodedLength(|src|)
    decreases |src|
  {
    if src == [] then [] else Group(src) + Encode(AfterGroup(src))
  }

  /** The bytes of one group, three or fewer if fewer are wanted; None if a character that is read is no value. */
  function Values(src: seq<byte>, pos: nat, size: nat): Option<seq<byte>>
    requires 0 < size
  {
    var c1, c2, c3, c4 := Atoi64(At(src, pos)), Atoi64(At(src, pos + 1)), Atoi64(At(src, pos + 2)),
        Atoi64(At(src, pos + 3));
    if c1 > 63 || c2 > 63 then None
    else if size == 1 then Some([Byte1(c1, c2)])
    else if c3 > 63 then None
    else if size == 2 then Some([Byte1(c1, c2), Byte2(c2, c3)])
    else if c4 > 63 then None
    else Some([Byte1(c1, c2), Byte2(c2, c3), Byte3(c3, c4)])
  }

  /** The `size` bytes that the characters from `pos` on stand for, if all of them that are read are in the alphabet. */
  function Decode(src: seq<byte>, pos: nat, size: nat): (bytes: Option<seq<byte>>)
    ensures bytes.Some? ==> |bytes.value| == size
    decreases size
  {
    if size == 0 then Some([])
    else
      match Values(src, pos, size)
      case None => None
      case Some(group) =>
        if size <= 3 then Some(group)
        else
          match Decode(src, pos + 4, size - 3)
          case None => None
          case Some(rest) => Some(group + rest)
  }

  /** The character at place `k` from `pos` on is there and in the alphabet. */
  predicate InAlphabet(text: seq<byte>, pos: nat, k: nat) {
    Atoi64(At(text, pos + k)) < 64
  }

  predicate AllInAlphabet(text: seq<byte>, pos: nat, n: nat) {
    forall k: nat | k < n :: InAlphabet(text, pos, k)
  }

  lemma ValuesIff(text: seq<byte>, pos: nat, size: nat)
    requires size > 0
    ensures Values(text, pos, size).Some? <==>
            && InAlphabet(text, pos, 0) && InAlphabet(text, pos, 1)
            && (size > 1 ==> InAlphabet(text, pos, 2)) && (size > 2 ==> InAlphabet(text, pos, 3))
  {
    hide Atoi64, At, Byte1, Byte2, Byte3;
  }

  lemma AlphabetAfterGroup(text: seq<byte>, pos: nat, n: nat)
    requires n >= 4
    ensures AllInAlphabet(text, pos, n) <==>
            && InAlphabet(text, pos, 0) && InAlphabet(text, pos, 1) && InAlphabet(text, pos, 2)
            && InAlphabet(text, pos, 3) && AllInAlphabet(text, pos + 4, n - 4)
  {
    hide InAlphabet;
    var next := pos + 4;
    if AllInAlphabet(text, pos, n) {
      forall k: nat | k < n - 4
        ensures InAlphabet(text, next, k)
      {
        SamePlace(text, pos, k);
      }
    } else {
      var k: nat :| k < n && !InAlphabet(text, pos, k);
      if k >= 4 {
        SamePlace(text, pos, k - 4);
      }
    }
  }

  lemma SamePlace(text: seq<byte>, pos: nat, k: nat)
    ensures InAlphabet(text, pos + 4, k) <==> InAlphabet(text, pos, k + 4)
  {
  }

  /** What decodes: exactly text whose every character that is read is in the alphabet. */
  lemma {:induction false} DecodesIff(text: seq<byte>, pos: nat, size: nat)
    ensures Decode(text, pos, size).Some? <==> AllInAlphabet(text, pos, EncodedLength(size))
    decreases size
  {
    hide InAlphabet, Values;
    if size > 0 {
      ValuesIff(text, pos, size);
      if size > 2 {
        AlphabetAfterGroup(text, pos, EncodedLength(size));
        DecodesIff(text, pos + 4, size - 3);
      }
    }
  }

  // ---------- the loops ----------

  lemma NoSecondByte(b: byte)
    ensures Char2(b, 0) == Itoa64((b & 0x03) << 4) && Char3(b, 0) == Itoa64((b & 0x0F) << 2)
  {
    assert ((b & 0x03) << 4) | (0 >> 4) == (b & 0x03) << 4;
    assert ((b & 0x0F) << 2) | (0 >> 6) == (b & 0x0F) << 2;
  }

  /** `text` stands in `dst` from `d` on. */
  predicate Holds<T(==)>(dst: array<T>, d: nat, text: seq<T>)
    reads dst
  {
    d + |text| <= dst.Length && forall k :: 0 <= k < |text| ==> dst[d + k] == text[k]
  }

  /** The body of the encoding loop: one group. */
  method EncodeGroup(dst: array<byte>, d: nat, group: seq<byte>) returns (d': nat, s': nat)
    requires |group| > 0 && d + |Group(group)| <= dst.Length
    modifies dst
    ensures Holds(dst, d, Group(group)) && d' == d + |Group(group)|
    ensures s' == if |group| < 3 then |group| else 3
    ensures forall i :: 0 <= i < dst.Length && !(d <= i < d') ==> dst[i] == old(dst[i])
  {
    dst[d] := Itoa64(group[0] >> 2);
    var c1 := (group[0] & 0x03) << 4;
    if 1 >= |group| {
      NoSecondByte(group[0]);
      dst[d + 1] := Itoa64(c1);
      return d + 2, 1;
    }
    c1 := c1 | (group[1] >> 4);
    dst[d + 1] := Itoa64(c1);
    d', s' := EncodeGroupEnd(dst, d, group);
  }

  /** Its second half, once two characters are written. */
  method EncodeGroupEnd(dst: array<byte>, d: nat, group: seq<byte>) returns (d': nat, s': nat)
    requires |group| > 1 && d + |Group(group)| <= dst.Length
    modifies dst
    ensures d' == d + |Group(group)| && dst[d + 2] == Group(group)[2] && (|group| > 2 ==> dst[d + 3] == Group(group)[3])
    ensures s' == if |group| < 3 then |group| else 3
    ensures forall i :: 0 <= i < dst.Length && !(d + 2 <= i < d') ==> dst[i] == old(dst[i])
  {
    var c1 := (group[1] & 0x0F) << 2;
    if 2 >= |group| {
      NoSecondByte(group[1]);
      dst[d + 2] := Itoa64(c1);
      return d + 3, 2;
    }
    c1 := c1 | (group[2] >> 6);
    dst[d + 2] := Itoa64(c1);
    dst[d + 3] := Itoa64(group[2] & 0x3F);
    return d + 4, 3;
  }

  lemma HoldsJoin<T>(dst: array<T>, d: nat, a: seq<T>, b: seq<T>)
    requires Holds(dst, d, a) && Holds(dst, d + |a|, b)
    ensures Holds(dst, d, a + b)
  {
    forall k | 0 <= k < |a + b|
      ensures dst[d + k] == (a + b)[k]
    {
      if k >= |a| {
        assert dst[d + |a| + (k - |a|)] == b[k - |a|];
      }
    }
  }

  lemma Assoc<T>(a: seq<T>, b: seq<T>, c: seq<T>)
    ensures a + (b + c) == (a + b) + c
  {
  }

  lemma DropDrop<T>(s: seq<T>, i: nat, j: nat)
    requires i + j <= |s|
    ensures s[i..][j..] == s[i + j..]
  {
  }

  lemma DropAll<T>(s: seq<T>)
    ensures s[|s|..] == [] && s[0..] == s && s + [] == s && [] + s == s
  {
  }

  /** `text` stands in `s` from `pos` on. */
  ghost predicate Occurs<T>(s: seq<T>, pos: nat, text: seq<T>) {
    pos + |text| <= |s| && forall k :: 0 <= k < |text| ==> s[pos + k] == text[k]
  }

  lemma OccursSplit<T>(s: seq<T>, pos: nat, a: seq<T>, b: seq<T>)
    requires Occurs(s, pos, a + b)
    ensures Occurs(s, pos, a) && Occurs(s, pos + |a|, b)
  {
    forall k | 0 <= k < |a|
      ensures s[pos + k] == a[k]
    {
      assert (a + b)[k] == a[k];
    }
    forall k | 0 <= k < |b|
      ensures s[pos + |a| + k] == b[k]
    {
      assert s[pos + (|a| + k)] == (a + b)[|a| + k] == b[k];
    }
  }

  lemma OccursAt<T>(s: seq<T>, pos: nat, text: seq<T>, k: nat)
    requires Occurs(s, pos, text) && k < |text|
    ensures pos + k < |s| && s[pos + k] == text[k]
  {
  }

  lemma FirstThree<T>(s: seq<T>)
    requires |s| >= 3
    ensures s == [s[0], s[1], s[2]] + s[3..]
    ensures |s| == 3 ==> s == [s[0], s[1], s[2]]
  {
  }

  /** How many bytes the group at `s` takes. */
  function Step(size: nat, s: nat): nat
    requires s < size
  {
    if size - s < 3 then size - s else 3
  }

  lemma EncodeFrom(src: seq<byte>, s: nat, done: seq<byte>)
    requires s < |src| && Encode(src) == done + Encode(src[s..])
    ensures Encode(src) == (done + Group(src[s..])) + Encode(src[s + Step(|src|, s)..])
  {
    if |src| - s >= 3 {
      DropDrop(src, s, 3);
    } else {
      DropAll(src);
    }
    Assoc(done, Group(src[s..]), Encode(AfterGroup(src[s..])));
  }

  lemma NothingToEncode()
    ensures Encode([]) == []
  {
  }

  /** Writes the encoding of `src` into `dst` from `offset` on and touches nothing else. */
  method BF_encode(dst: array<byte>, offset: nat, src: seq<byte>)
    requires |src| > 0 && offset + EncodedLength(|src|) <= dst.Length
    modifies dst
    ensures Holds(dst, offset, Encode(src))
    ensures forall i :: 0 <= i < dst.Length && !(offset <= i < offset + EncodedLength(|src|)) ==> dst[i] == old(dst[i])
  {
    hide Group, Encode, EncodedLength;
    NothingToEncode();
    ghost var done: seq<byte> := [];
    var s, d := 0, offset;
    DropAll(src);
    DropAll(Encode(src));
    while s < |src|
      invariant 0 <= s <= |src| && d == offset + |done|
      invariant Encode(src) == done + Encode(src[s..])
      invariant Holds(dst, offset, done)
      invariant forall i :: 0 <= i < dst.Length && !(offset <= i < d) ==> dst[i] == old(dst[i])
      decreases |src| - s
    {
      EncodeFrom(src, s, done);
      ghost var group := Group(src[s..]);
      var n;
      d, n := EncodeGroup(dst, d, src[s..]);
      assert n == Step(|src|, s);
      HoldsJoin(dst, offset, done, group);
      done := done + group;
      s := s + n;
    }
    DropAll(done);
  }

  /** The body of the decoding loop: up to three bytes. */
  method DecodeGroup(dst: array<byte>, d: nat, size: nat, src: seq<byte>, s: nat) returns (ok: bool, d': nat)
    requires d < size <= dst.Length
    modifies dst
    ensures ok <==> Values(src, s, size - d).Some?
    ensures ok ==> d' == d + |Values(src, s, size - d).value| <= size && Holds(dst, d, Values(src, s, size - d).value)
    ensures forall i :: 0 <= i < d ==> dst[i] == old(dst[i])
  {
    var c1 := Atoi64(At(src, s));
    if c1 > 63 { return false, d; }
    var c2 := Atoi64(At(src, s + 1));
    if c2 > 63 { return false, d; }
    dst[d] := (c1 << 2) | ((c2 & 0x30) >> 4);
    if d + 1 >= size {
      return true, d + 1;
    }
    ok, d' := DecodeGroupEnd(dst, d, size, src, s, c2);
  }

  /** Its second half, once the first byte is written. */
  method DecodeGroupEnd(dst: array<byte>, d: nat, size: nat, src: seq<byte>, s: nat, c2: byte)
    returns (ok: bool, d': nat)
    requires d + 1 < size <= dst.Length && c2 == Atoi64(At(src, s + 1))
    modifies dst
    ensures ok <==> !(Atoi64(At(src, s + 2)) > 63) && (size - d == 2 || !(Atoi64(At(src, s + 3)) > 63))
    ensures ok ==> d' == (if size - d == 2 then d + 2 else d + 3)
    ensures ok ==> dst[d + 1] == Byte2(c2, Atoi64(At(src, s + 2)))
    ensures ok && size - d > 2 ==> dst[d + 2] == Byte3(Atoi64(At(src, s + 2)), Atoi64(At(src, s + 3)))
    ensures forall i :: 0 <= i <= d ==> dst[i] == old(dst[i])
  {
    var c3 := Atoi64(At(src, s + 2));
    if c3 > 63 { return false, d; }
    dst[d + 1] := ((c2 & 0x0F) << 4) | ((c3 & 0x3C) >> 2);
    if d + 2 >= size {
      return true, d + 2;
    }
    var c4 := Atoi64(At(src, s + 3));
    if c4 > 63 { return false, d; }
    dst[d + 2] := ((c3 & 0x03) << 6) | c4;
    return true, d + 3;
  }

  /** `rest` is what is still to come after `done` if all is to be `whole`. */
  ghost predicate Continues(whole: Option<seq<byte>>, done: seq<byte>, rest: Option<seq<byte>>) {
    match rest
    case None => whole == None
    case Some(more) => whole == Some(done + more)
  }

  lemma DecodeFrom(whole: Option<seq<byte>>, done: seq<byte>, src: seq<byte>, s: nat, left: nat)
    requires 0 < left && Continues(whole, done, Decode(src, s, left))
    ensures Values(src, s, left) == None ==> whole == None
    ensures Values(src, s, left).Some? ==>
              var group := Values(src, s, left).value;
              |group| == (if left < 3 then left else 3) &&
                Continues(whole, done + group, Decode(src, s + 4, left - |group|))
  {
    if Values(src, s, left).Some? {
      var group := Values(src, s, left).value;
      if left <= 3 {
        assert Decode(src, s + 4, 0) == Some([]);
        DropAll(done + group);
      } else if Decode(src, s + 4, left - 3).Some? {
        var rest := Decode(src, s + 4, left - 3).value;
        Assoc(done, group, rest);
      }
    }
  }

  /** Decodes `size` bytes into `dst`; fails at the first character outside the alphabet. */
  method BF_decode(dst: array<byte>, src: seq<byte>, pos: nat, size: nat) returns (ok: bool)
    requires 0 < size <= dst.Length
    modifies dst
    ensures ok <==> Decode(src, pos, size).Some?
    ensures ok <==> AllInAlphabet(src, pos, EncodedLength(size))
    ensures ok ==> Holds(dst, 0, Decode(src, pos, size).value)
  {
    hide Values, At, Atoi64, AllInAlphabet, EncodedLength;
    DecodesIff(src, pos, size);
    var s, d := pos, 0;
    ghost var whole, done: seq<byte> := Decode(src, pos, size), [];
    if whole.Some? {
      DropAll(whole.value);
    }
    ok := true;
    while d < size
      invariant 0 <= d <= size && ok && d == |done|
      invariant Continues(whole, done, Decode(src, s, size - d))
      invariant Holds(dst, 0, done)
      decreases size - d
    {
      DecodeFrom(whole, done, src, s, size - d);
      ghost var group := Values(src, s, size - d);
      ok, d := DecodeGroup(dst, d, size, src, s);
      if !ok {
        return;
      }
      HoldsJoin(dst, 0, done, group.value);
      done := done + group.value;
      s := s + 4;
    }
  }

  // ---------- encoding and decoding undo each other ----------

  lemma GroupRoundTrip(b1: byte, b2: byte, b3: byte)
    ensures Byte1(b1 >> 2, ((b1 & 0x03) << 4) | (b2 >> 4)) == b1
    ensures Byte2(((b1 & 0x03) << 4) | (b2 >> 4), ((b2 & 0x0F) << 2) | (b3 >> 6)) == b2
    ensures Byte3(((b2 & 0x0F) << 2) | (b3 >> 6), b3 & 0x3F) == b3
  {
  }

  lemma CharsAreValues(b1: byte, b2: byte, b3: byte)
    ensures Atoi64(Char1(b1)) == b1 >> 2 && Atoi64(Char2(b1, b2)) == ((b1 & 0x03) << 4) | (b2 >> 4)
    ensures Atoi64(Char3(b2, b3)) == ((b2 & 0x0F) << 2) | (b3 >> 6) && Atoi64(Char4(b3)) == b3 & 0x3F
  {
    ItoaThenAtoi(b1 >> 2);
    ItoaThenAtoi(((b1 & 0x03) << 4) | (b2 >> 4));
    ItoaThenAtoi(((b2 & 0x0F) << 2) | (b3 >> 6));
    ItoaThenAtoi(b3 & 0x3F);
  }

  lemma BytesOfChars(b1: byte, b2: byte, b3: byte)
    ensures Byte1(Atoi64(Char1(b1)), Atoi64(Char2(b1, b2))) == b1
    ensures Byte2(Atoi64(Char2(b1, b2)), Atoi64(Char3(b2, b3))) == b2
    ensures Byte3(Atoi64(Char3(b2, b3)), Atoi64(Char4(b3))) == b3
  {
    hide Atoi64, Char1, Char2, Char3, Char4, Byte1, Byte2, Byte3;
    CharsAreValues(b1, b2, b3);
    GroupRoundTrip(b1, b2, b3);
  }

  lemma CharsAreInAlphabet(b1: byte, b2: byte, b3: byte)
    ensures Atoi64(Char1(b1)) <= 63
    ensures Atoi64(Char2(b1, b2)) <= 63
    ensures Atoi64(Char3(b2, b3)) <= 63
    ensures Atoi64(Char4(b3)) <= 63
  {
    hide Atoi64, Char1, Char2, Char3, Char4;
    CharsAreValues(b1, b2, b3);
  }

  /** The values of the characters of a group. */
  lemma GroupDecodes(src: seq<byte>, text: seq<byte>, pos: nat)
    requires |src| > 0
    requires At(text, pos) == Group(src)[0] && At(text, pos + 1) == Group(src)[1]
    requires |src| > 1 ==> At(text, pos + 2) == Group(src)[2]
    requires |src| > 2 ==> At(text, pos + 3) == Group(src)[3]
    ensures Values(text, pos, |src|) == Some(if |src| < 3 then src else [src[0], src[1], src[2]])
  {
    hide At, Atoi64, Char1, Char2, Char3, Char4, Byte1, Byte2, Byte3;
    var b2, b3 := if |src| > 1 then src[1] else 0, if |src| > 2 then src[2] else 0;
    CharsAreInAlphabet(src[0], b2, b3);
    BytesOfChars(src[0], b2, b3);
    if |src| == 1 {
      assert src == [src[0]];
    } else if |src| == 2 {
      assert src == [src[0], src[1]];
    }
  }

  lemma GroupAt(src: seq<byte>, text: seq<byte>, pos: nat)
    requires |src| > 0 && Occurs(text, pos, Group(src))
    ensures Values(text, pos, |src|) == Some(if |src| < 3 then src else [src[0], src[1], src[2]])
  {
    OccursAt(text, pos, Group(src), 0);
    OccursAt(text, pos, Group(src), 1);
    if |src| > 1 {
      OccursAt(text, pos, Group(src), 2);
    }
    if |src| > 2 {
      OccursAt(text, pos, Group(src), 3);
    }
    GroupDecodes(src, text, pos);
  }

  lemma FullGroup(src: seq<byte>)
    requires |src| >= 3
    ensures |Group(src)| == 4 && AfterGroup(src) == src[3..]
  {
  }

  /** Decoding undoes encoding for every number of bytes, wherever the text stands. */
  lemma {:induction false} DecodeUndoesEncode(src: seq<byte>, text: seq<byte>, pos: nat)
    requires Occurs(text, pos, Encode(src))
    ensures Decode(text, pos, |src|) == Some(src)
    decreases |src|
  {
    hide Group, Values, EncodedLength, Atoi64;
    if |src| > 0 {
      OccursSplit(text, pos, Group(src), Encode(AfterGroup(src)));
      GroupAt(src, text, pos);
      if |src| >= 3 {
        FirstThree(src);
        FullGroup(src);
        DecodeUndoesEncode(src[3..], text, pos + 4);
      }
    }
  }

  // ---------- the canonical text ----------

  /** The character that stands for the bits of `c` that a last group of `size` bytes uses. */
  function CanonicalLast(c: byte, size: nat): byte
    requires Atoi64(c) < 64
  {
    if size % 3 == 1 then Itoa64(Atoi64(c) & 0x30)
    else if size % 3 == 2 then Itoa64(Atoi64(c) & 0x3C)
    else c
  }

  // One fact about bits per lemma.

  lemma Bits1(c1: byte, c2: byte)
    requires c1 < 64 && c2 < 64
    ensures Byte1(c1, c2) >> 2 == c1
  {
  }

  lemma Bits2(c1: byte, c2: byte, c3: byte)
    requires c1 < 64 && c2 < 64 && c3 < 64
    ensures ((Byte1(c1, c2) & 0x03) << 4) | (Byte2(c2, c3) >> 4) == c2
  {
  }

  lemma Bits2Last(c1: byte, c2: byte)
    requires c1 < 64 && c2 < 64
    ensures ((Byte1(c1, c2) & 0x03) << 4) | (0 >> 4) == c2 & 0x30
  {
  }

  lemma Bits3(c2: byte, c3: byte, c4: byte)
    requires c2 < 64 && c3 < 64 && c4 < 64
    ensures ((Byte2(c2, c3) & 0x0F) << 2) | (Byte3(c3, c4) >> 6) == c3
  {
  }

  lemma Bits3Last(c2: byte, c3: byte)
    requires c2 < 64 && c3 < 64
    ensures ((Byte2(c2, c3) & 0x0F) << 2) | (0 >> 6) == c3 & 0x3C
  {
  }

  lemma Bits4(c3: byte, c4: byte)
    requires c3 < 64 && c4 < 64
    ensures Byte3(c3, c4) & 0x3F == c4
  {
  }

  lemma Recodes1(a: byte, b: byte)
    requires Atoi64(a) < 64 && Atoi64(b) < 64
    ensures Char1(Byte1(Atoi64(a), Atoi64(b))) == a
  {
    Bits1(Atoi64(a), Atoi64(b));
    AtoiThenItoa(a);
  }

  lemma Recodes2(a: byte, b: byte, c: byte)
    requires Atoi64(a) < 64 && Atoi64(b) < 64 && Atoi64(c) < 64
    ensures Char2(Byte1(Atoi64(a), Atoi64(b)), Byte2(Atoi64(b), Atoi64(c))) == b
  {
    Bits2(Atoi64(a), Atoi64(b), Atoi64(c));
    AtoiThenItoa(b);
  }

  lemma Recodes2Last(a: byte, b: byte)
    requires Atoi64(a) < 64 && Atoi64(b) < 64
    ensures Char2(Byte1(Atoi64(a), Atoi64(b)), 0) == CanonicalLast(b, 1)
  {
    Bits2Last(Atoi64(a), Atoi64(b));
  }

  lemma Recodes3(b: byte, c: byte, d: byte)
    requires Atoi64(b) < 64 && Atoi64(c) < 64 && Atoi64(d) < 64
    ensures Char3(Byte2(Atoi64(b), Atoi64(c)), Byte3(Atoi64(c), Atoi64(d))) == c
  {
    Bits3(Atoi64(b), Atoi64(c), Atoi64(d));
    AtoiThenItoa(c);
  }

  lemma Recodes3Last(b: byte, c: byte)
    requires Atoi64(b) < 64 && Atoi64(c) < 64
    ensures Char3(Byte2(Atoi64(b), Atoi64(c)), 0) == CanonicalLast(c, 2)
  {
    Bits3Last(Atoi64(b), Atoi64(c));
  }

  lemma Recodes4(c: byte, d: byte)
    requires Atoi64(c) < 64 && Atoi64(d) < 64
    ensures Char4(Byte3(Atoi64(c), Atoi64(d))) == d
  {
    Bits4(Atoi64(c), Atoi64(d));
    AtoiThenItoa(d);
  }

  /** The characters that a group decodes from, its last one canonical, are what the group encodes to. */
  lemma GroupRecodes(text: seq<byte>, pos: nat, size: nat)
    requires 0 < size && Values(text, pos, size).Some?
    ensures var group := Group(Values(text, pos, size).value);
            && (size == 1 ==> group == [At(text, pos), CanonicalLast(At(text, pos + 1), 1)])
            && (size == 2 ==> group == [At(text, pos), At(text, pos + 1), CanonicalLast(At(text, pos + 2), 2)])
            && (size >= 3 ==> group == [At(text, pos), At(text, pos + 1), At(text, pos + 2), At(text, pos + 3)])
  {
    var a, b, c, d := At(text, pos), At(text, pos + 1), At(text, pos + 2), At(text, pos + 3);
    Recodes1(a, b);
    if size == 1 {
      Recodes2Last(a, b);
    } else {
      Recodes2(a, b, c);
      if size == 2 {
        Recodes3Last(b, c);
      } else {
        Recodes3(b, c, d);
        Recodes4(c, d);
      }
    }
  }

  /** Every character a decoding reads is there: the terminator is no value. */
  lemma {:induction false} DecodedIsThere(text: seq<byte>, pos: nat, size: nat)
    requires Decode(text, pos, size).Some?
    ensures size > 0 ==> pos + EncodedLength(size) <= |text|
    decreases size
  {
    if size > 3 {
      DecodedIsThere(text, pos + 4, size - 3);
    }
  }

  /** `text` from `pos` on is `coded`, but for the unused bits of the last of these characters. */
  ghost predicate Matches(text: seq<byte>, pos: nat, coded: seq<byte>, size: nat) {
    && 0 < |coded| && pos + |coded| <= |text|
    && (forall k :: 0 <= k < |coded| - 1 ==> coded[k] == text[pos + k])
    && Atoi64(text[pos + |coded| - 1]) < 64
    && coded[|coded| - 1] == CanonicalLast(text[pos + |coded| - 1], size)
  }

  lemma MatchesAfterGroup(text: seq<byte>, pos: nat, coded: seq<byte>, size: nat)
    requires pos + 4 <= |text| && Matches(text, pos + 4, coded, size)
    ensures Matches(text, pos, [text[pos], text[pos + 1], text[pos + 2], text[pos + 3]] + coded, size + 3)
  {
    var all := [text[pos], text[pos + 1], text[pos + 2], text[pos + 3]] + coded;
    forall k | 0 <= k < |all| - 1
      ensures all[k] == text[pos + k]
    {
      if k >= 4 {
        assert all[k] == coded[k - 4];
      }
    }
    assert (size + 3) % 3 == size % 3;
  }

  /** What decodes re-encodes to itself, but for the unused bits of the last character. */
  lemma {:induction false} EncodeUndoesDecode(text: seq<byte>, pos: nat, size: nat)
    requires size > 0 && Decode(text, pos, size).Some?
    ensures Matches(text, pos, Encode(Decode(text, pos, size).value), size)
    decreases size
  {
    hide Atoi64, CanonicalLast, Values, EncodedLength, Group, Matches;
    DecodedIsThere(text, pos, size);
    if size > 3 {
      var group, rest := Values(text, pos, size).value, Decode(text, pos + 4, size - 3).value;
      ThreeValues(text, pos, size);
      RestIsRest(group, rest);
      FullGroupIsThere(text, pos, size);
      EncodeUndoesDecode(text, pos + 4, size - 3);
      MatchesAfterGroup(text, pos, Encode(rest), size - 3);
    } else {
      OneGroupMatches(text, pos, size);
    }
  }

  lemma ThreeValues(text: seq<byte>, pos: nat, size: nat)
    requires size > 3 && Values(text, pos, size).Some?
    ensures |Values(text, pos, size).value| == 3
  {
  }

  lemma FullGroupIsThere(text: seq<byte>, pos: nat, size: nat)
    requires size > 3 && Decode(text, pos, size).Some?
    ensures pos + 4 <= |text|
    ensures Group(Values(text, pos, size).value) == [text[pos], text[pos + 1], text[pos + 2], text[pos + 3]]
  {
    hide Atoi64, CanonicalLast, Group, Byte1, Byte2, Byte3;
    DecodedIsThere(text, pos, size);
    GroupRecodes(text, pos, size);
  }

  lemma LastIsValue(text: seq<byte>, pos: nat, size: nat)
    requires 0 < size <= 3 && Values(text, pos, size).Some?
    ensures Atoi64(At(text, pos + size)) < 64 && |Values(text, pos, size).value| == size
  {
    hide At, Atoi64, Byte1, Byte2, Byte3;
  }

  lemma EncodeOfGroup(bytes: seq<byte>)
    requires 0 < |bytes| <= 3
    ensures Encode(bytes) == Group(bytes)
  {
    hide Group;
    assert AfterGroup(bytes) == [];
    NothingToEncode();
    DropAll(Group(bytes));
  }

  lemma OneGroupMatches(text: seq<byte>, pos: nat, size: nat)
    requires 0 < size <= 3 && Decode(text, pos, size).Some?
    ensures Matches(text, pos, Encode(Decode(text, pos, size).value), size)
  {
    hide Atoi64, Group, Values, Encode;
    DecodedIsThere(text, pos, size);
    GroupRecodes(text, pos, size);
    LastIsValue(text, pos, size);
    EncodeOfGroup(Values(text, pos, size).value);
  }

  lemma RestIsRest(group: seq<byte>, rest: seq<byte>)
    requires |group| == 3
    ensures Encode(group + rest) == Group(group) + Encode(rest)
  {
    assert AfterGroup(group + rest) == rest;
  }
}
