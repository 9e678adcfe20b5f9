/** The hand-written base64 encoder, the encoding of section 4 of RFC 4648 and its inverse. */
module Base64 {
  import opened Options

  type Bytes = seq<bv8>

  function Letters(first: char, count: nat): string
    requires first as int + count <= 128
  {
    seq(count, i requires 0 <= i < count => first + i as char)
  }

  /** A to Z, a to z, 0 to 9, + and /. */
  const ALPHABET: string := Letters('A', 26) + Letters('a', 26) + Letters('0', 10) + "+/"

  // ----- Section 4 of RFC 4648 -----

  /** The 24-bit group of three octets, the first one in the highest bits. */
  function Group(a: bv8, b: bv8, c: bv8): bv24 {
    (a as bv24 << 16) | (b as bv24 << 8) | c as bv24
  }

  /** The `k`-th of the four 6-bit groups of a 24-bit group, from the highest bits down. */
  function Sextet(g: bv24, k: nat): bv6
    requires k < 4
  {
    var shifted := if k == 0 then g >> 18 else if k == 1 then g >> 12 else if k == 2 then g >> 6 else g;
    (shifted & 0x3F) as bv6
  }

  function Letter(s: bv6): char {
    ALPHABET[s as nat]
  }

  /** The four letters of a 24-bit group. */
  function Word(g: bv24): string {
    [Letter(Sextet(g, 0)), Letter(Sextet(g, 1)), Letter(Sextet(g, 2)), Letter(Sextet(g, 3))]
  }

  /** Missing octets count as zero bits, and a final group of one or two octets is written with
      two or three letters and padded to four characters. */
  function Encoding(bytes: Bytes): string {
    if bytes == [] then ""
    else if |bytes| == 1 then Word(Group(bytes[0], 0, 0))[..2] + "=="
    else if |bytes| == 2 then Word(Group(bytes[0], bytes[1], 0))[..3] + "="
    else Word(Group(bytes[0], bytes[1], bytes[2])) + Encoding(bytes[3..])
  }

  /** The position of a letter in the alphabet. */
  function Position(ch: char): (r: Option<nat>)
    ensures r.Some? ==> r.value < 64
  {
    if 'A' <= ch <= 'Z' then Some(ch as int - 'A' as int)
    else if 'a' <= ch <= 'z' then Some(ch as int - 'a' as int + 26)
    else if '0' <= ch <= '9' then Some(ch as int - '0' as int + 52)
    else if ch == '+' then Some(62)
    else if ch == '/' then Some(63)
    else None
  }

  function Value(ch: char): Option<bv6> {
    match Position(ch) case Some(n) => Some(n as bv6) case None => None
  }

  function Join(s0: bv6, s1: bv6, s2: bv6, s3: bv6): bv24 {
    (s0 as bv24 << 18) | (s1 as bv24 << 12) | (s2 as bv24 << 6) | s3 as bv24
  }

  function Octet(g: bv24, k: nat): bv8
    requires k < 3
  {
    var shifted := if k == 0 then g >> 16 else if k == 1 then g >> 8 else g;
    (shifted & 0xFF) as bv8
  }

  /** One padded group at the end: the bits of the missing octets must be zero. */
  function DecodedTail(s: string): Option<Bytes>
    requires |s| == 4 && s[3] == '='
  {
    match (Value(s[0]), Value(s[1]), Value(s[2]))
    case (Some(s0), Some(s1), Some(s2)) =>
      var g := Join(s0, s1, s2, 0);
      if Octet(g, 2) == 0 then Some([Octet(g, 0), Octet(g, 1)]) else None
    case (Some(s0), Some(s1), None) =>
      var g := Join(s0, s1, 0, 0);
      if s[2] == '=' && Octet(g, 1) == 0 then Some([Octet(g, 0)]) else None
    case _ => None
  }

  /** The 24 bits of four letters of the alphabet. */
  function Letters4(s: string): Option<bv24>
    requires |s| == 4
  {
    match (Value(s[0]), Value(s[1]), Value(s[2]), Value(s[3]))
    case (Some(s0), Some(s1), Some(s2), Some(s3)) => Some(Join(s0, s1, s2, s3))
    case _ => None
  }

  function Octets(g: bv24): Bytes {
    [Octet(g, 0), Octet(g, 1), Octet(g, 2)]
  }

  /** The strict decoder: the letters of the alphabet in groups of four, and padding as above. */
  function Decoded(s: string): Option<Bytes> {
    if s == "" then Some([])
    else if |s| < 4 then None
    else if |s| == 4 && s[3] == '=' then DecodedTail(s)
    else match (Letters4(s[..4]), Decoded(s[4..]))
      case (Some(g), Some(rest)) => Some(Octets(g) + rest)
      case _ => None
  }

  // ----- The two are inverse to each other -----

  lemma PositionInAlphabet(k: nat)
    requires k < 64
    ensures Position(ALPHABET[k]) == Some(k) && ALPHABET[k] != '='
  {
  }

  lemma AlphabetAtPosition(ch: char)
    requires Position(ch).Some?
    ensures ALPHABET[Position(ch).value] == ch
  {
  }

  lemma ValueOfLetter(s: bv6)
    ensures Value(Letter(s)) == Some(s) && Letter(s) != '='
  {
    PositionInAlphabet(s as nat);
  }

  lemma SextetOfIndex(k: nat)
    requires k < 64
    ensures (k as bv6) as nat == k
  {
  }

  lemma LetterOfValue(ch: char)
    requires Value(ch).Some?
    ensures Letter(Value(ch).value) == ch && ch != '='
  {
    var k := Position(ch).value;
    SextetOfIndex(k);
    AlphabetAtPosition(ch);
  }

  lemma JoinOfSextets(g: bv24)
    ensures Join(Sextet(g, 0), Sextet(g, 1), Sextet(g, 2), Sextet(g, 3)) == g
  {
  }

  lemma SextetsOfJoin(s0: bv6, s1: bv6, s2: bv6, s3: bv6)
    ensures var g := Join(s0, s1, s2, s3);
      Sextet(g, 0) == s0 && Sextet(g, 1) == s1 && Sextet(g, 2) == s2 && Sextet(g, 3) == s3
  {
  }

  lemma OctetsOfGroup(a: bv8, b: bv8, c: bv8)
    ensures var g := Group(a, b, c); Octet(g, 0) == a && Octet(g, 1) == b && Octet(g, 2) == c
  {
  }

  lemma GroupOfOctets(g: bv24)
    ensures Group(Octet(g, 0), Octet(g, 1), Octet(g, 2)) == g
  {
  }

  /** The letters that are dropped for missing octets stand for zero bits. */
  lemma MissingOctets(a: bv8, b: bv8)
    ensures Sextet(Group(a, b, 0), 3) == 0
    ensures Sextet(Group(a, 0, 0), 2) == 0 && Sextet(Group(a, 0, 0), 3) == 0
  {
  }

  lemma LastOctetIsZero(s0: bv6, s1: bv6)
    ensures Octet(Join(s0, s1, 0, 0), 2) == 0
  {
  }

  lemma DecodedLetters(g: bv24)
    ensures forall k: nat | k < 4 ::
      Value(Letter(Sextet(g, k))) == Some(Sextet(g, k)) && Letter(Sextet(g, k)) != '='
  {
    forall k: nat | k < 4
      ensures Value(Letter(Sextet(g, k))) == Some(Sextet(g, k)) && Letter(Sextet(g, k)) != '='
    {
      ValueOfLetter(Sextet(g, k));
    }
  }

  lemma DecodedOfOne(a: bv8)
    ensures Decoded(Encoding([a])) == Some([a])
  {
    var g, e := Group(a, 0, 0), Encoding([a]);
    DecodedLetters(g);
    JoinOfSextets(g);
    OctetsOfGroup(a, 0, 0);
    MissingOctets(a, 0);
    assert Value(e[0]) == Some(Sextet(g, 0)) && Value(e[1]) == Some(Sextet(g, 1)) && Value(e[2]) == None;
    assert Join(Sextet(g, 0), Sextet(g, 1), 0, 0) == g;
    assert DecodedTail(e) == Some([a]);
  }

  lemma DecodedOfTwo(a: bv8, b: bv8)
    ensures Decoded(Encoding([a, b])) == Some([a, b])
  {
    var g, e := Group(a, b, 0), Encoding([a, b]);
    DecodedLetters(g);
    JoinOfSextets(g);
    OctetsOfGroup(a, b, 0);
    MissingOctets(a, b);
    assert Value(e[0]) == Some(Sextet(g, 0)) && Value(e[1]) == Some(Sextet(g, 1)) && Value(e[2]) == Some(Sextet(g, 2));
    assert Join(Sextet(g, 0), Sextet(g, 1), Sextet(g, 2), 0) == g;
    assert DecodedTail(e) == Some([a, b]);
  }

  lemma LettersOfWord(g: bv24)
    ensures |Word(g)| == 4 && Word(g)[3] != '=' && Letters4(Word(g)) == Some(g)
  {
    DecodedLetters(g);
    JoinOfSextets(g);
  }

  lemma DecodedOfGroup(g: bv24, rest: string, tail: Bytes)
    requires Decoded(rest) == Some(tail)
    ensures Decoded(Word(g) + rest) == Some(Octets(g) + tail)
  {
    LettersOfWord(g);
    assert (Word(g) + rest)[..4] == Word(g) && (Word(g) + rest)[4..] == rest;
  }

  lemma OctetsOfBytes(bytes: Bytes)
    requires |bytes| > 2
    ensures Octets(Group(bytes[0], bytes[1], bytes[2])) + bytes[3..] == bytes
  {
    OctetsOfGroup(bytes[0], bytes[1], bytes[2]);
  }

  lemma DecodedOfLonger(bytes: Bytes, encoding: string)
    requires |bytes| > 2 && encoding == Word(Group(bytes[0], bytes[1], bytes[2])) + Encoding(bytes[3..])
    requires Decoded(Encoding(bytes[3..])) == Some(bytes[3..])
    ensures Decoded(encoding) == Some(bytes)
  {
    DecodedOfGroup(Group(bytes[0], bytes[1], bytes[2]), Encoding(bytes[3..]), bytes[3..]);
    OctetsOfBytes(bytes);
  }

  /** Decoding an encoding gives the bytes back. */
  lemma {:induction false} DecodedOfEncoding(bytes: Bytes)
    ensures Decoded(Encoding(bytes)) == Some(bytes)
  {
    if |bytes| == 1 {
      assert bytes == [bytes[0]];
      DecodedOfOne(bytes[0]);
    } else if |bytes| == 2 {
      assert bytes == [bytes[0], bytes[1]];
      DecodedOfTwo(bytes[0], bytes[1]);
    } else if bytes != [] {
      DecodedOfEncoding(bytes[3..]);
      DecodedOfLonger(bytes, Encoding(bytes));
    }
  }

  lemma WordOfJoin(s0: bv6, s1: bv6, s2: bv6, s3: bv6)
    ensures Word(Join(s0, s1, s2, s3)) == [Letter(s0), Letter(s1), Letter(s2), Letter(s3)]
  {
    SextetsOfJoin(s0, s1, s2, s3);
  }

  lemma WordOfLetters(s: string)
    requires |s| == 4 && Letters4(s).Some?
    ensures Word(Letters4(s).value) == s
  {
    WordOfJoin(Value(s[0]).value, Value(s[1]).value, Value(s[2]).value, Value(s[3]).value);
    LetterOfValue(s[0]);
    LetterOfValue(s[1]);
    LetterOfValue(s[2]);
    LetterOfValue(s[3]);
  }

  lemma EncodingOfGroup(g: bv24, rest: Bytes)
    ensures Encoding(Octets(g) + rest) == Word(g) + Encoding(rest)
  {
    GroupOfOctets(g);
    assert (Octets(g) + rest)[3..] == rest;
  }

  lemma {:induction false} EncodingOfDecoded(s: string)
    requires Decoded(s).Some?
    ensures Encoding(Decoded(s).value) == s
  {
    if s != "" {
      if |s| == 4 && s[3] == '=' {
        if Value(s[2]).Some? { EncodingOfPaddedTwo(s); } else { EncodingOfPaddedOne(s); }
      } else {
        EncodingOfDecoded(s[4..]);
        WordOfLetters(s[..4]);
        EncodingOfGroup(Letters4(s[..4]).value, Decoded(s[4..]).value);
        assert s == s[..4] + s[4..];
      }
    }
  }

  lemma EncodingOfTwo(g: bv24)
    requires Octet(g, 2) == 0
    ensures Encoding([Octet(g, 0), Octet(g, 1)]) == Word(g)[..3] + "="
  {
    GroupOfOctets(g);
  }

  lemma EncodingOfOne(g: bv24)
    requires Octet(g, 1) == 0 && Octet(g, 2) == 0
    ensures Encoding([Octet(g, 0)]) == Word(g)[..2] + "=="
  {
    GroupOfOctets(g);
  }

  lemma EncodingOfPaddedTwo(s: string)
    requires |s| == 4 && s[3] == '=' && DecodedTail(s).Some? && Value(s[2]).Some?
    ensures Encoding(DecodedTail(s).value) == s
  {
    var g := Join(Value(s[0]).value, Value(s[1]).value, Value(s[2]).value, 0);
    assert Word(g)[..3] == s[..3] by {
      WordOfJoin(Value(s[0]).value, Value(s[1]).value, Value(s[2]).value, 0);
      LetterOfValue(s[0]);
      LetterOfValue(s[1]);
      LetterOfValue(s[2]);
    }
    EncodingOfTwo(g);
    assert s == s[..3] + "=";
  }

  lemma EncodingOfPaddedOne(s: string)
    requires |s| == 4 && s[3] == '=' && DecodedTail(s).Some? && Value(s[2]).None?
    ensures Encoding(DecodedTail(s).value) == s
  {
    var g := Join(Value(s[0]).value, Value(s[1]).value, 0, 0);
    assert Word(g)[..2] == s[..2] by {
      WordOfJoin(Value(s[0]).value, Value(s[1]).value, 0, 0);
      LetterOfValue(s[0]);
      LetterOfValue(s[1]);
    }
    LastOctetIsZero(Value(s[0]).value, Value(s[1]).value);
    EncodingOfOne(g);
    assert s == s[..2] + "==";
  }

  /** The encoder and the strict decoder are inverse to each other: the encodings are exactly the
      strings that the decoder accepts. */
  lemma EncodingIsABijection(bytes: Bytes, s: string)
    ensures Encoding(bytes) == s <==> Decoded(s) == Some(bytes)
  {
    DecodedOfEncoding(bytes);
    if Decoded(s).Some? { EncodingOfDecoded(s); }
  }

  lemma EncodingIsInjective(a: Bytes, b: Bytes)
    requires Encoding(a) == Encoding(b)
    ensures a == b
  {
    DecodedOfEncoding(a);
    DecodedOfEncoding(b);
  }

  lemma VectorSextets()
    ensures var g := Group(0x66, 0x6f, 0x6f);
      Sextet(g, 0) == 25 && Sextet(g, 1) == 38 && Sextet(g, 2) == 61 && Sextet(g, 3) == 47
    ensures var g := Group(0x62, 0x61, 0x72);
      Sextet(g, 0) == 24 && Sextet(g, 1) == 38 && Sextet(g, 2) == 5 && Sextet(g, 3) == 50
    ensures Sextet(Group(0x66, 0, 0), 0) == 25 && Sextet(Group(0x66, 0, 0), 1) == 32
    ensures var g := Group(0xfb, 0xff, 0xbf);
      Sextet(g, 0) == 62 && Sextet(g, 1) == 63 && Sextet(g, 2) == 62 && Sextet(g, 3) == 63
    ensures var g := Group(0x66, 0x6f, 0); Sextet(g, 0) == 25 && Sextet(g, 1) == 38 && Sextet(g, 2) == 60
  {
  }

  lemma VectorLetters()
    ensures Letter(25) == 'Z' && Letter(38) == 'm' && Letter(61) == '9' && Letter(47) == 'v' && Letter(24) == 'Y'
    ensures Letter(62) == '+' && Letter(63) == '/'
    ensures Letter(5) == 'F' && Letter(50) == 'y' && Letter(32) == 'g' && Letter(60) == '8'
  {
  }

  /** Test vectors of section 10 of RFC 4648, the encodings of "f", "fo", "foo" and "foobar", and one
      with the last two letters of the alphabet. */
  lemma TestVectors()
    ensures Encoding([0x66]) == "Zg==" && Encoding([0x66, 0x6f]) == "Zm8=" && Encoding([0x66, 0x6f, 0x6f]) == "Zm9v"
    ensures Encoding([0x66, 0x6f, 0x6f, 0x62, 0x61, 0x72]) == "Zm9vYmFy" && Encoding([0xfb, 0xff, 0xbf]) == "+/+/"
  {
    VectorSextets();
    VectorLetters();
    var foo, bar, last: Bytes := [0x66, 0x6f, 0x6f], [0x62, 0x61, 0x72], [0xfb, 0xff, 0xbf];
    assert Encoding(last) == Word(Group(0xfb, 0xff, 0xbf)) + Encoding(last[3..]) && last[3..] == [];
    assert Encoding(foo) == Word(Group(0x66, 0x6f, 0x6f)) + Encoding(foo[3..]) && foo[3..] == [];
    assert Encoding(bar) == Word(Group(0x62, 0x61, 0x72)) + Encoding(bar[3..]) && bar[3..] == [];
    assert (foo + bar)[3..] == bar && foo + bar == [0x66, 0x6f, 0x6f, 0x62, 0x61, 0x72];
    assert Encoding(foo + bar) == Word(Group(0x66, 0x6f, 0x6f)) + Encoding(bar);
  }

  /** Four characters for every three bytes begun. */
  lemma {:induction false} EncodingLength(bytes: Bytes)
    ensures |Encoding(bytes)| == 4 * ((|bytes| + 2) / 3)
  {
    if |bytes| > 2 { EncodingLength(bytes[3..]); }
  }

  /** How many padding characters end the encoding of `n` bytes. */
  function PadCount(n: nat): nat {
    if n % 3 == 0 then 0 else 3 - n % 3
  }

  lemma WordHasNoPadding(g: bv24)
    ensures |Word(g)| == 4 && forall i | 0 <= i < 4 :: Word(g)[i] != '='
  {
    DecodedLetters(g);
  }

  /** The last `pad` characters are padding and no others are. */
  ghost predicate PadsWith(s: string, pad: nat) {
    forall i | 0 <= i < |s| :: s[i] == '=' <==> i >= |s| - pad
  }

  lemma PaddingAfterWord(w: string, r: string, pad: nat)
    requires PadsWith(w, 0) && PadsWith(r, pad) && pad <= |r|
    ensures PadsWith(w + r, pad)
  {
    forall i | 0 <= i < |w + r| ensures (w + r)[i] == '=' <==> i >= |w + r| - pad {
      assert (w + r)[i] == if i < |w| then w[i] else r[i - |w|];
    }
  }

  lemma PadSize(n: nat)
    requires n > 2
    ensures PadCount(n - 3) == PadCount(n) && PadCount(n) <= 4 * ((n - 3 + 2) / 3)
  {
  }

  /** Padding stands at the end only, in the number that the count of bytes asks for. */
  lemma {:induction false} EncodingPadding(bytes: Bytes)
    ensures PadsWith(Encoding(bytes), PadCount(|bytes|))
  {
    if |bytes| > 2 {
      var g := Group(bytes[0], bytes[1], bytes[2]);
      WordHasNoPadding(g);
      EncodingLength(bytes[3..]);
      EncodingPadding(bytes[3..]);
      PadSize(|bytes|);
      PaddingAfterWord(Word(g), Encoding(bytes[3..]), PadCount(|bytes|));
    } else if |bytes| == 2 {
      WordHasNoPadding(Group(bytes[0], bytes[1], 0));
    } else if |bytes| == 1 {
      WordHasNoPadding(Group(bytes[0], 0, 0));
    }
  }

  // ----- The hand-written encoder -----

  /** Reading past the end of the array gives `undefined`, which the bit operators treat as zero. */
  function At(bytes: Bytes, i: nat): bv8 {
    if i < |bytes| then bytes[i] else 0
  }

  /** `base64Chars[x]`, for a byte below 64. */
  function CharAt(x: bv8): char
    requires x < 64
  {
    ALPHABET[x as nat]
  }

  /** The groups of four letters from position `i` on, without any padding. */
  function WordsFrom(bytes: Bytes, i: nat): string
    decreases |bytes| - i
  {
    if i >= |bytes| then ""
    else Word(Group(bytes[i], At(bytes, i + 1), At(bytes, i + 2))) + WordsFrom(bytes, i + 3)
  }

  function Padded(s: string, len: nat): string
    requires len % 3 == 0 || |s| >= 4
  {
    if len % 3 == 2 then s[..|s| - 1] + "="
    else if len % 3 == 1 then s[..|s| - 2] + "=="
    else s
  }

  method ArrayBufferToBase64(bytes: Bytes) returns (base64: string)
    ensures base64 == Encoding(bytes)
  {
    var len := |bytes|;
    base64 := "";
    var i := 0;
    while i < len
      invariant base64 + WordsFrom(bytes, i) == WordsFrom(bytes, 0)
    {
      ghost var start := base64;
      base64 := AppendWord(base64, bytes[i], At(bytes, i + 1), At(bytes, i + 2));
      MoveWord(bytes, i, start);
      i := i + 3;
    }
    assert base64 == WordsFrom(bytes, 0);
    WordsAreEncoding(bytes, 0);
    assert bytes[0..] == bytes;
    if len % 3 == 2 {
      base64 := base64[..|base64| - 1] + "=";
    } else if len % 3 == 1 {
      base64 := base64[..|base64| - 2] + "==";
    }
  }

  lemma MoveWord(bytes: Bytes, i: nat, start: string)
    requires i < |bytes|
    ensures start + Word(Group(bytes[i], At(bytes, i + 1), At(bytes, i + 2))) + WordsFrom(bytes, i + 3)
         == start + WordsFrom(bytes, i)
  {
  }

  /** The four statements of the loop body. */
  method AppendWord(base64: string, a: bv8, b: bv8, c: bv8) returns (r: string)
    ensures r == base64 + Word(Group(a, b, c))
  {
    ShiftsAreSextets(a, b, c);
    r := base64;
    r := r + [CharAt(a >> 2)];
    r := r + [CharAt(((a & 3) << 4) | (b >> 4))];
    r := r + [CharAt(((b & 15) << 2) | (c >> 6))];
    r := r + [CharAt(c & 63)];
  }

  lemma WidenedSextet(s: bv6, b: bv8)
    requires s as bv8 == b
    ensures s as nat == b as nat
  {
  }

  /** The shifts and masks of the loop pick out the 6-bit groups. */
  lemma ShiftsAreSextets(a: bv8, b: bv8, c: bv8)
    ensures var g := Group(a, b, c);
      && CharAt(a >> 2) == Letter(Sextet(g, 0))
      && CharAt(((a & 3) << 4) | (b >> 4)) == Letter(Sextet(g, 1))
      && CharAt(((b & 15) << 2) | (c >> 6)) == Letter(Sextet(g, 2))
      && CharAt(c & 63) == Letter(Sextet(g, 3))
  {
    var g := Group(a, b, c);
    WidenedSextet(Sextet(g, 0), a >> 2);
    WidenedSextet(Sextet(g, 1), ((a & 3) << 4) | (b >> 4));
    WidenedSextet(Sextet(g, 2), ((b & 15) << 2) | (c >> 6));
    WidenedSextet(Sextet(g, 3), c & 63);
  }

  lemma PaddedConcat(s: string, t: string, len: nat)
    requires |t| >= 4
    ensures Padded(s + t, len) == s + Padded(t, len)
  {
  }

  lemma LastWordIsEncoding(bytes: Bytes, i: nat)
    requires i < |bytes| <= i + 3
    ensures |WordsFrom(bytes, i)| == 4 && Padded(WordsFrom(bytes, i), |bytes| - i) == Encoding(bytes[i..])
  {
    var tail := bytes[i..];
    var w := Word(Group(bytes[i], At(bytes, i + 1), At(bytes, i + 2)));
    assert WordsFrom(bytes, i) == w;
    if |tail| == 3 {
      assert tail[3..] == [];
    }
  }

  lemma PaddingRecurs(s: string, len: nat)
    requires len > 3 && |s| >= 4
    ensures Padded(s, len) == Padded(s, len - 3)
  {
  }

  lemma EncodingSteps(bytes: Bytes, i: nat)
    requires i + 3 <= |bytes|
    ensures Encoding(bytes[i..]) == Word(Group(bytes[i], bytes[i + 1], bytes[i + 2])) + Encoding(bytes[i + 3..])
  {
    assert bytes[i..][3..] == bytes[i + 3..];
  }

  /** What the loop appends from position `i` on, with its end overwritten by padding. */
  lemma {:induction false} WordsAreEncoding(bytes: Bytes, i: nat)
    requires i <= |bytes|
    ensures i < |bytes| ==> |WordsFrom(bytes, i)| >= 4
    ensures Padded(WordsFrom(bytes, i), |bytes| - i) == Encoding(bytes[i..])
    decreases |bytes| - i
  {
    if i + 3 < |bytes| {
      WordsAreEncoding(bytes, i + 3);
      PrependWord(bytes, i);
    } else if i < |bytes| {
      LastWordIsEncoding(bytes, i);
    }
  }

  lemma PrependWord(bytes: Bytes, i: nat)
    requires i + 3 < |bytes| && |WordsFrom(bytes, i + 3)| >= 4
    requires Padded(WordsFrom(bytes, i + 3), |bytes| - (i + 3)) == Encoding(bytes[i + 3..])
    ensures |WordsFrom(bytes, i)| >= 4
    ensures Padded(WordsFrom(bytes, i), |bytes| - i) == Encoding(bytes[i..])
  {
    var word, rest := Word(Group(bytes[i], bytes[i + 1], bytes[i + 2])), WordsFrom(bytes, i + 3);
    assert WordsFrom(bytes, i) == word + rest;
    PaddedConcat(word, rest, |bytes| - i);
    PaddingRecurs(rest, |bytes| - i);
    EncodingSteps(bytes, i);
  }
}
