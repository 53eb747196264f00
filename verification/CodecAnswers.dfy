/**
 The codecs against their standards (src-tauri/src/bridge/inputs.rs): the alphabet,
 the bit order and the test vectors of RFC 4648, and the marker codes of ITU-T T.81.
 */
module CodecAnswers {
  import opened Wrappers
  import opened Base64
  import Jpeg

  // ------------------------------------------------------------------------ base64

  const UPPER := "ABCDEFGHIJKLMNOPQRSTUVWXYZ"
  const LOWER := "abcdefghijklmnopqrstuvwxyz"
  const DIGITS := "0123456789"

  /** Table 1 of RFC 4648. */
  const ALPHABET := UPPER + LOWER + DIGITS + "+/"

  lemma LettersAreTheAlphabet(v: Sextet)
    ensures Letter(v) == ALPHABET[v]
  {
    if v < 26 {
      UpperLetters(v);
    } else if v < 52 {
      LowerLetters(v - 26);
    } else if v < 62 {
      Digits(v - 52);
    } else {
      assert ALPHABET[v] == "+/"[v - 62];
    }
  }

  lemma UpperLetters(v: nat)
    requires v < 26
    ensures UPPER[v] == 'A' + v as char
  {
  }

  lemma LowerLetters(v: nat)
    requires v < 26
    ensures LOWER[v] == 'a' + v as char
  {
  }

  lemma Digits(v: nat)
    requires v < 10
    ensures DIGITS[v] == '0' + v as char
  {
  }

  /** The three bytes of a group are one 24-bit word, most significant first, and
      its letters are the word's four 6-bit digits (section 4 of RFC 4648). */
  lemma AGroupIsAWord(a: Byte, b: Byte, c: Byte)
    ensures var n := a * 65536 + b * 256 + c;
      Encode([a, b, c])
      == [ALPHABET[n / 262144 % 64], ALPHABET[n / 4096 % 64], ALPHABET[n / 64 % 64], ALPHABET[n % 64]]
  {
    GroupValues(a, b, c);
    AGroupHasFourLetters(a, b, c, First(a), Second(a, b), Third(b, c), Fourth(c));
  }

  lemma AGroupHasFourLetters(a: Byte, b: Byte, c: Byte, w: Sextet, x: Sextet, y: Sextet, z: Sextet)
    requires w == First(a) && x == Second(a, b) && y == Third(b, c) && z == Fourth(c)
    ensures Encode([a, b, c]) == [ALPHABET[w], ALPHABET[x], ALPHABET[y], ALPHABET[z]]
  {
    LettersAreTheAlphabet(w);
    LettersAreTheAlphabet(x);
    LettersAreTheAlphabet(y);
    LettersAreTheAlphabet(z);
    assert ToSextets([a, b, c]) == [w, x, y, z];
  }

  /** A group that is not full is filled with zero bits, and says how much of it is
      missing. */
  lemma LastGroups(a: Byte, b: Byte)
    ensures Encode([a]) == Encode([a, 0, 0])[..2] + "=="
    ensures Encode([a, b]) == Encode([a, b, 0])[..3] + "="
  {
    assert ToSextets([a, 0, 0]) == [First(a), Second(a, 0), Third(0, 0), Fourth(0)];
    assert ToSextets([a, b, 0]) == [First(a), Second(a, b), Third(b, 0), Fourth(0)];
  }

  /** Groups are encoded one after the other. */
  lemma GroupByGroup(a: Byte, b: Byte, c: Byte, rest: seq<Byte>)
    ensures Encode([a, b, c] + rest) == Encode([a, b, c]) + Encode(rest)
  {
    var all := [a, b, c] + rest;
    EncodeSplits(all);
    assert all[..3] == [a, b, c] && all[3..] == rest;
  }

  predicate InAlphabet(c: char) {
    'A' <= c <= 'Z' || 'a' <= c <= 'z' || '0' <= c <= '9' || c in {'+', '/', '-', '_'}
  }

  predicate Ignored(c: char) {
    c in {'=', '\n', '\r', ' ', '\t'}
  }

  /** Line breaks, blanks, tabs and `=` change nothing, wherever they stand. */
  lemma BlanksAnywhere(a: string, blanks: string, b: string)
    requires forall i :: 0 <= i < |blanks| ==> Ignored(blanks[i])
    ensures Decode(a + blanks + b) == Decode(a + b)
  {
    assert forall i :: 0 <= i < |blanks| ==> Ignored(blanks[i]) && Classify(blanks[i]).Skipped?;
    SkippedAnywhere(a, blanks, b);
  }

  /** Decoding fails exactly on a character that is in neither alphabet of RFC 4648
      (sections 4 and 5) and is not ignored. */
  lemma FailsExactlyOutside(text: string)
    ensures Decode(text).None? <==> exists i :: 0 <= i < |text| && !InAlphabet(text[i]) && !Ignored(text[i])
  {
    FailsExactlyOnStrays(text);
    assert forall i :: 0 <= i < |text| ==> (Classify(text[i]).Stray? <==> !InAlphabet(text[i]) && !Ignored(text[i]));
  }

  // -------------------------------------------------------------------------- JPEG

  /** The frame headers of Table B.1: baseline, extended, progressive and lossless,
      Huffman or arithmetic coded, differential or not. */
  const FRAME_CODES: set<Byte> :=
    {0xC0, 0xC1, 0xC2, 0xC3, 0xC5, 0xC6, 0xC7, 0xC9, 0xCA, 0xCB, 0xCD, 0xCE, 0xCF}

  /** Table B.1: RST0 to RST7, SOI, EOI and TEM stand alone. */
  const LONE_CODES: set<Byte> := {0x01, 0xD0, 0xD1, 0xD2, 0xD3, 0xD4, 0xD5, 0xD6, 0xD7, 0xD8, 0xD9}

  lemma MarkerCodes(code: Byte)
    ensures Jpeg.IsSof(code) <==> code in FRAME_CODES
    ensures Jpeg.Standalone(code) <==> code in LONE_CODES
  {
  }

  /** What the standard lets stand between SOI and the frame header. */
  predicate StandardSegment(s: Jpeg.Segment) {
    match s
    case Marker(code) => code in LONE_CODES
    case Sized(code, payload) => code != 0xFF && code !in LONE_CODES + FRAME_CODES && |payload| <= 65533
    case Noise(value) => value != 0xFF
    case FillPair => true
  }

  lemma StandardIsWellFormed(s: Jpeg.Segment)
    requires StandardSegment(s)
    ensures Jpeg.WellFormed(s)
  {
    if s.Marker? || s.Sized? {
      MarkerCodes(s.code);
    }
  }

  lemma StandardAreWellFormed(segments: seq<Jpeg.Segment>)
    requires forall i :: 0 <= i < |segments| ==> StandardSegment(segments[i])
    ensures Jpeg.AllWellFormed(segments)
  {
    forall i | 0 <= i < |segments|
      ensures Jpeg.WellFormed(segments[i])
    {
      StandardIsWellFormed(segments[i]);
    }
  }

  /** Every kind of frame is found, behind any segments of the standard. */
  lemma EveryKindOfFrameIsFound(segments: seq<Jpeg.Segment>, f: Jpeg.Frame)
    requires f.code in FRAME_CODES && forall i :: 0 <= i < |segments| ==> StandardSegment(segments[i])
    ensures Jpeg.AllWellFormed(segments)
    ensures Jpeg.Walk([0xFF, 0xD8] + Jpeg.Serialize(segments) + Jpeg.FrameBytes(f), 2)
         == Some(Jpeg.Dimensions(f.widthHi * 256 + f.widthLo, f.heightHi * 256 + f.heightLo))
  {
    StandardAreWellFormed(segments);
    FrameIsFound(segments, f);
    assert Jpeg.Word(f.widthHi, f.widthLo) == f.widthHi * 256 + f.widthLo;
    assert Jpeg.Word(f.heightHi, f.heightLo) == f.heightHi * 256 + f.heightLo;
  }

  lemma FrameIsFound(segments: seq<Jpeg.Segment>, f: Jpeg.Frame)
    requires f.code in FRAME_CODES && Jpeg.AllWellFormed(segments)
    ensures var size := Jpeg.Dimensions(Jpeg.Word(f.widthHi, f.widthLo), Jpeg.Word(f.heightHi, f.heightLo));
      Jpeg.Walk([0xFF, 0xD8] + Jpeg.Serialize(segments) + Jpeg.FrameBytes(f), 2) == Some(size)
  {
    MarkerCodes(f.code);
    Jpeg.FrameSizeIsFound(segments, f);
  }
}
