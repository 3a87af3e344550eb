/**
 Go's `base64.StdEncoding` (section 4 of RFC 4648, padding required, CR and LF skipped,
 unused trailing bits ignored).
*/
module Base64 {
  import opened Outcomes
  import opened Bytes

  const PAD := 61
  const LF := 10
  const CR := 13

  type sextet = v: int | 0 <= v < 64

  /** The letter of the standard alphabet: A-Z a-z 0-9 + / */
  function Letter(v: sextet): (c: byte) {
    if v < 26 then v + 65
    else if v < 52 then v + 71
    else if v < 62 then v - 4
    else if v == 62 then 43
    else 47
  }

  function Sextet(c: byte): Option<sextet> {
    if 65 <= c <= 90 then Some(c - 65)
    else if 97 <= c <= 122 then Some(c - 71)
    else if 48 <= c <= 57 then Some(c + 4)
    else if c == 43 then Some(62)
    else if c == 47 then Some(63)
    else None
  }

  /** Three bytes as four sextets, most significant bits first. */
  function Sextets(x: byte, y: byte, z: byte): (sextet, sextet, sextet, sextet) {
    (x / 4, x % 4 * 16 + y / 16, y % 16 * 4 + z / 64, z % 64)
  }

  function Byte0(v0: sextet, v1: sextet): byte { v0 * 4 + v1 / 16 }

  function Byte1(v1: sextet, v2: sextet): byte { v1 % 16 * 16 + v2 / 4 }

  function Byte2(v2: sextet, v3: sextet): byte { v2 % 4 * 64 + v3 }

  function Encode(b: Text): Text {
    if b == [] then []
    else if |b| == 1 then
      var v := Sextets(b[0], 0, 0);
      [Letter(v.0), Letter(v.1), PAD, PAD]
    else if |b| == 2 then
      var v := Sextets(b[0], b[1], 0);
      [Letter(v.0), Letter(v.1), Letter(v.2), PAD]
    else
      var v := Sextets(b[0], b[1], b[2]);
      [Letter(v.0), Letter(v.1), Letter(v.2), Letter(v.3)] + Encode(b[3..])
  }

  function StripNewlines(s: Text): Text {
    if s == [] then []
    else if s[0] == LF || s[0] == CR then StripNewlines(s[1..])
    else [s[0]] + StripNewlines(s[1..])
  }

  /** One group of four characters: the bytes it holds, fewer than three when padded. */
  function Quantum(c0: byte, c1: byte, c2: byte, c3: byte): (q: Option<Text>)
    ensures q.Some? ==> 1 <= |q.value| <= 3
  {
    match (Sextet(c0), Sextet(c1), Sextet(c2), Sextet(c3))
    case (Some(v0), Some(v1), Some(v2), Some(v3)) => Some([Byte0(v0, v1), Byte1(v1, v2), Byte2(v2, v3)])
    case (Some(v0), Some(v1), Some(v2), None) => if c3 == PAD then Some([Byte0(v0, v1), Byte1(v1, v2)]) else None
    case (Some(v0), Some(v1), None, None) => if c2 == PAD && c3 == PAD then Some([Byte0(v0, v1)]) else None
    case _ => None
  }

  /** Decoding text without line breaks; padding ends it. */
  function DecodeQuanta(s: Text): Option<Text> {
    if s == [] then Some([])
    else if |s| < 4 then None
    else
      match Quantum(s[0], s[1], s[2], s[3])
      case None => None
      case Some(q) =>
        if |q| < 3 && |s| > 4 then None
        else
          match DecodeQuanta(s[4..])
          case None => None
          case Some(rest) => Some(q + rest)
  }

  function Decode(s: Text): Option<Text> {
    DecodeQuanta(StripNewlines(s))
  }

  predicate Valid(s: Text) {
    Decode(s).Some?
  }

  lemma LetterSextet(v: sextet)
    ensures Sextet(Letter(v)) == Some(v)
    ensures Letter(v) != PAD && Letter(v) != LF && Letter(v) != CR
  {
  }

  lemma {:induction false} StripNothing(s: Text)
    requires forall i :: 0 <= i < |s| ==> s[i] != LF && s[i] != CR
    ensures StripNewlines(s) == s
  {
    if s != [] {
      StripNothing(s[1..]);
    }
  }

  lemma {:induction false} EncodeHasNoNewlines(b: Text)
    ensures forall i :: 0 <= i < |Encode(b)| ==> Encode(b)[i] != LF && Encode(b)[i] != CR
  {
    if |b| > 3 {
      EncodeHasNoNewlines(b[3..]);
    }
  }

  lemma SextetsBytes(x: byte, y: byte, z: byte)
    ensures var v := Sextets(x, y, z); Byte0(v.0, v.1) == x && Byte1(v.1, v.2) == y && Byte2(v.2, v.3) == z
  {
  }

  lemma FullQuantum(x: byte, y: byte, z: byte)
    ensures var v := Sextets(x, y, z);
      Quantum(Letter(v.0), Letter(v.1), Letter(v.2), Letter(v.3)) == Some([x, y, z])
  {
    var v := Sextets(x, y, z);
    SextetsBytes(x, y, z);
    LetterSextet(v.0);
    LetterSextet(v.1);
    LetterSextet(v.2);
    LetterSextet(v.3);
  }

  lemma PaddedQuantum(x: byte, y: byte)
    ensures var v := Sextets(x, y, 0); Quantum(Letter(v.0), Letter(v.1), Letter(v.2), PAD) == Some([x, y])
    ensures var v := Sextets(x, 0, 0); Quantum(Letter(v.0), Letter(v.1), PAD, PAD) == Some([x])
  {
    SextetsBytes(x, y, 0);
    SextetsBytes(x, 0, 0);
    LetterSextet(Sextets(x, y, 0).0);
    LetterSextet(Sextets(x, y, 0).1);
    LetterSextet(Sextets(x, y, 0).2);
    LetterSextet(Sextets(x, 0, 0).1);
  }

  /** A decodable group in front of decodable text. */
  lemma PrependQuantum(c0: byte, c1: byte, c2: byte, c3: byte, q: Text, rest: Text, r: Text)
    requires Quantum(c0, c1, c2, c3) == Some(q) && (|q| == 3 || rest == [])
    requires DecodeQuanta(rest) == Some(r)
    ensures DecodeQuanta([c0, c1, c2, c3] + rest) == Some(q + r)
  {
    var s := [c0, c1, c2, c3] + rest;
    assert s[4..] == rest;
    assert |s| > 4 ==> rest != [];
  }

  lemma OnlyQuantum(c0: byte, c1: byte, c2: byte, c3: byte, q: Text)
    requires Quantum(c0, c1, c2, c3) == Some(q)
    ensures DecodeQuanta([c0, c1, c2, c3]) == Some(q)
  {
    assert [c0, c1, c2, c3] + [] == [c0, c1, c2, c3] && q + [] == q;
    PrependQuantum(c0, c1, c2, c3, q, [], []);
  }

  lemma OneByte(x: byte)
    ensures DecodeQuanta(Encode([x])) == Some([x])
  {
    var v := Sextets(x, 0, 0);
    PaddedQuantum(x, 0);
    OnlyQuantum(Letter(v.0), Letter(v.1), PAD, PAD, [x]);
  }

  lemma TwoBytes(x: byte, y: byte)
    ensures DecodeQuanta(Encode([x, y])) == Some([x, y])
  {
    var v := Sextets(x, y, 0);
    PaddedQuantum(x, y);
    OnlyQuantum(Letter(v.0), Letter(v.1), Letter(v.2), PAD, [x, y]);
  }

  lemma {:induction false} DecodeQuantaEncode(b: Text)
    ensures DecodeQuanta(Encode(b)) == Some(b)
  {
    if |b| == 0 {
    } else if |b| == 1 {
      OneByte(b[0]);
      assert b == [b[0]];
    } else if |b| == 2 {
      TwoBytes(b[0], b[1]);
      assert b == [b[0], b[1]];
    } else {
      var v := Sextets(b[0], b[1], b[2]);
      FullQuantum(b[0], b[1], b[2]);
      DecodeQuantaEncode(b[3..]);
      PrependQuantum(Letter(v.0), Letter(v.1), Letter(v.2), Letter(v.3), [b[0], b[1], b[2]], Encode(b[3..]), b[3..]);
      assert b == [b[0], b[1], b[2]] + b[3..];
    }
  }

  /** Decoding undoes encoding, for every byte string. */
  lemma DecodeEncode(b: Text)
    ensures Decode(Encode(b)) == Some(b)
  {
    EncodeHasNoNewlines(b);
    StripNothing(Encode(b));
    DecodeQuantaEncode(b);
  }

  lemma {:induction false} EncodeGrows(b: Text)
    ensures |Encode(b)| >= |b|
    ensures b != [] ==> |Encode(b)| > |b|
  {
    if |b| > 3 {
      EncodeGrows(b[3..]);
    }
  }

  /** Line breaks anywhere in the text do not matter. */
  lemma {:induction false} StripSplit(a: Text, b: Text)
    ensures StripNewlines(a + b) == StripNewlines(a) + StripNewlines(b)
  {
    if a == [] {
      assert a + b == b;
    } else {
      assert (a + b)[1..] == a[1..] + b;
      StripSplit(a[1..], b);
    }
  }

  lemma {:induction false} StripBreaks(breaks: Text)
    requires forall c :: c in breaks ==> c == CR || c == LF
    ensures StripNewlines(breaks) == []
  {
    if breaks != [] {
      assert breaks[0] in breaks && forall c :: c in breaks[1..] ==> c in breaks;
      StripBreaks(breaks[1..]);
    }
  }

  /** Carriage returns and line feeds, in any number and order, are skipped wherever they stand. */
  lemma LineBreaksIgnored(a: Text, breaks: Text, b: Text)
    requires forall c :: c in breaks ==> c == CR || c == LF
    ensures Decode(a + breaks + b) == Decode(a + b)
  {
    StripSplit(a + breaks, b);
    StripSplit(a, breaks);
    StripSplit(a, b);
    StripBreaks(breaks);
    assert StripNewlines(a) + [] == StripNewlines(a);
  }

  /** A text without line breaks is not valid when it holds a character outside the alphabet. */
  lemma {:induction false} BadCharacterInvalid(s: Text, i: nat)
    requires i < |s| && Sextet(s[i]).None? && s[i] != PAD
    ensures DecodeQuanta(s).None?
  {
    if |s| >= 4 && i >= 4 {
      BadCharacterInvalid(s[4..], i - 4);
    }
  }

  lemma {:induction false} OddQuanta(s: Text)
    requires |s| % 4 != 0
    ensures DecodeQuanta(s).None?
  {
    if |s| >= 4 {
      OddQuanta(s[4..]);
    }
  }

  /** A text is not valid when the number of its characters, line breaks aside, is no multiple of four. */
  lemma BadLengthInvalid(s: Text)
    requires |StripNewlines(s)| % 4 != 0
    ensures !Valid(s)
  {
    OddQuanta(StripNewlines(s));
  }

  lemma {:induction false} StripKeeps(s: Text, i: nat) returns (j: nat)
    requires i < |s| && s[i] != LF && s[i] != CR
    ensures j < |StripNewlines(s)| && StripNewlines(s)[j] == s[i]
  {
    if i == 0 {
      j := 0;
    } else {
      j := StripKeeps(s[1..], i - 1);
      if s[0] != LF && s[0] != CR {
        j := j + 1;
      }
    }
  }

  /** A character outside the alphabet, other than padding and line breaks, makes a text invalid. */
  lemma ForeignCharacterInvalid(s: Text, i: nat)
    requires i < |s| && Sextet(s[i]).None? && s[i] != PAD && s[i] != LF && s[i] != CR
    ensures !Valid(s)
  {
    var j := StripKeeps(s, i);
    BadCharacterInvalid(StripNewlines(s), j);
  }

  /** The alphabet: A to Z, a to z, 0 to 9, plus and slash, and each letter decodes to its place. */
  lemma LetterIs(v: sextet)
    ensures Letter(v) == (
      if v < 26 then 'A' as int + v else if v < 52 then 'a' as int + (v - 26)
      else if v < 62 then '0' as int + (v - 52) else if v == 62 then '+' as int else '/' as int)
    ensures Sextet(Letter(v)) == Some(v)
  {
  }

  /** Three bytes are 24 bits, cut into four times six. */
  lemma SextetsAreBits(x: byte, y: byte, z: byte)
    ensures var v := Sextets(x, y, z);
      v.0 * 262144 + v.1 * 4096 + v.2 * 64 + v.3 == x * 65536 + y * 256 + z
  {
  }

  /** The test vectors of section 10 of RFC 4648 for "f", "fo" and "foo". */
  lemma EncodeKnown(b: Text)
    ensures b == [102] ==> Encode(b) == [90, 103, 61, 61]
    ensures b == [102, 111] ==> Encode(b) == [90, 109, 56, 61]
    ensures b == [102, 111, 111] ==> Encode(b) == [90, 109, 57, 118]
  {
    if b == [102, 111, 111] {
      assert b[3..] == [];
    }
  }
}
