/**
 The hand-written base64 codec (src-tauri/src/bridge/inputs.rs): sections 4 and
 5 of RFC 4648, whitespace and padding skipped wherever they stand.
 */
module Base64 {
  import opened Wrappers

  type Sextet = v: nat | v < 64
  /** A 32-bit unsigned word. */
  type Word = w: nat | w < 0x1_0000_0000

  /** `acc << 6`, which drops what leaves the word. */
  function Shl6(w: Word): Word {
    (w * 64) % 0x1_0000_0000
  }

  // ------------------------------------------------------- groups of 24 bits

  // The four 6-bit values of three bytes, and the three bytes of four values.
  function First(a: Byte): Sextet { a / 4 }
  function Second(a: Byte, b: Byte): Sextet { a % 4 * 16 + b / 16 }
  function Third(b: Byte, c: Byte): Sextet { b % 16 * 4 + c / 64 }
  function Fourth(c: Byte): Sextet { c % 64 }
  function High(a: Sextet, b: Sextet): Byte { a * 4 + b / 16 }
  function Middle(b: Sextet, c: Sextet): Byte { b % 16 * 16 + c / 4 }
  function Low(c: Sextet, d: Sextet): Byte { c % 4 * 64 + d }

  /** The 6-bit values of a byte string, the last one filled with zero bits. */
  function ToSextets(bytes: seq<Byte>): seq<Sextet> {
    if bytes == [] then []
    else if |bytes| == 1 then [First(bytes[0]), Second(bytes[0], 0)]
    else if |bytes| == 2 then [First(bytes[0]), Second(bytes[0], bytes[1]), Third(bytes[1], 0)]
    else [First(bytes[0]), Second(bytes[0], bytes[1]), Third(bytes[1], bytes[2]), Fourth(bytes[2])]
         + ToSextets(bytes[3..])
  }

  /** The whole bytes in a string of 6-bit values. */
  function ToBytes(s: seq<Sextet>): seq<Byte> {
    if |s| <= 1 then []
    else if |s| == 2 then [High(s[0], s[1])]
    else if |s| == 3 then [High(s[0], s[1]), Middle(s[1], s[2])]
    else [High(s[0], s[1]), Middle(s[1], s[2]), Low(s[2], s[3])] + ToBytes(s[4..])
  }

  lemma GroupBack(a: Byte, b: Byte, c: Byte)
    ensures High(First(a), Second(a, b)) == a && Middle(Second(a, b), Third(b, c)) == b
    ensures Low(Third(b, c), Fourth(c)) == c
  {
  }

  lemma BytesOfGroup(vs: seq<Sextet>)
    requires |vs| >= 4
    ensures ToBytes(vs) == [High(vs[0], vs[1]), Middle(vs[1], vs[2]), Low(vs[2], vs[3])] + ToBytes(vs[4..])
  {
  }

  lemma BytesOfFirst(bytes: seq<Byte>, rest: seq<Sextet>)
    requires |bytes| >= 3 && rest == ToSextets(bytes[3..])
    ensures ToBytes(ToSextets(bytes)) == bytes[..3] + ToBytes(rest)
  {
    GroupBack(bytes[0], bytes[1], bytes[2]);
    BytesOfGroup(ToSextets(bytes));
    assert ToSextets(bytes)[4..] == rest;
    assert bytes[..3] == [bytes[0], bytes[1], bytes[2]];
  }

  lemma BytesOfLast(bytes: seq<Byte>)
    requires |bytes| < 3
    ensures ToBytes(ToSextets(bytes)) == bytes
  {
    if |bytes| == 1 {
      BytesOfOne(bytes[0]);
      assert bytes == [bytes[0]];
    } else if |bytes| == 2 {
      BytesOfTwo(bytes[0], bytes[1]);
      assert bytes == [bytes[0], bytes[1]];
    }
  }

  lemma SextetsOfFew(a: Byte, b: Byte)
    ensures ToSextets([a]) == [First(a), Second(a, 0)]
    ensures ToSextets([a, b]) == [First(a), Second(a, b), Third(b, 0)]
  {
  }

  lemma BytesOfOne(a: Byte)
    ensures ToBytes(ToSextets([a])) == [a]
  {
    SextetsOfFew(a, 0);
    BytesOfPair(First(a), Second(a, 0));
    GroupBack(a, 0, 0);
  }

  lemma BytesOfPair(x: Sextet, y: Sextet)
    ensures ToBytes([x, y]) == [High(x, y)]
  {
  }

  lemma BytesOfTwo(a: Byte, b: Byte)
    ensures ToBytes(ToSextets([a, b])) == [a, b]
  {
    SextetsOfFew(a, b);
    GroupBack(a, b, 0);
    BytesOfFew(First(a), Second(a, b), Third(b, 0), 0);
  }

  lemma {:induction false} BytesOfSextets(bytes: seq<Byte>)
    ensures ToBytes(ToSextets(bytes)) == bytes
  {
    if |bytes| >= 3 {
      BytesOfSextets(bytes[3..]);
      BytesOfFirst(bytes, ToSextets(bytes[3..]));
    } else {
      BytesOfLast(bytes);
    }
  }

  /** The byte that one more 6-bit value completes, if any. */
  function Completed(sextets: seq<Sextet>, v: Sextet): seq<Byte> {
    var n := |sextets|;
    if n % 4 == 0 then []
    else if n % 4 == 1 then [High(sextets[n - 1], v)]
    else if n % 4 == 2 then [Middle(sextets[n - 1], v)]
    else [Low(sextets[n - 1], v)]
  }

  lemma BytesOfFew(a: Sextet, b: Sextet, c: Sextet, d: Sextet)
    ensures ToBytes([]) == [] && ToBytes([a]) == [] && ToBytes([a, b]) == [High(a, b)]
    ensures ToBytes([a, b, c]) == [High(a, b), Middle(b, c)]
    ensures ToBytes([a, b, c, d]) == [High(a, b), Middle(b, c), Low(c, d)]
  {
    assert [a, b, c, d][4..] == [];
  }

  lemma Spelled(s: seq<Sextet>, v: Sextet)
    ensures |s| == 0 ==> s == [] && s + [v] == [v]
    ensures |s| == 1 ==> s == [s[0]] && s + [v] == [s[0], v]
    ensures |s| == 2 ==> s == [s[0], s[1]] && s + [v] == [s[0], s[1], v]
    ensures |s| == 3 ==> s == [s[0], s[1], s[2]] && s + [v] == [s[0], s[1], s[2], v]
  {
  }

  lemma GrowsFromNone(v: Sextet)
    ensures ToBytes([] + [v]) == ToBytes([]) + Completed([], v)
  {
    BytesOfFew(v, v, v, v);
    assert [] + [v] == [v];
  }

  lemma GrowsFromOne(a: Sextet, v: Sextet)
    ensures ToBytes([a, v]) == ToBytes([a]) + Completed([a], v)
  {
    BytesOfFew(a, v, v, v);
  }

  lemma GrowsFromTwo(a: Sextet, b: Sextet, v: Sextet)
    ensures ToBytes([a, b, v]) == ToBytes([a, b]) + Completed([a, b], v)
  {
    BytesOfFew(a, b, v, v);
  }

  lemma GrowsFromThree(a: Sextet, b: Sextet, c: Sextet, v: Sextet)
    ensures ToBytes([a, b, c, v]) == ToBytes([a, b, c]) + Completed([a, b, c], v)
  {
    BytesOfFew(a, b, c, v);
  }

  lemma FirstGroupGrows(s: seq<Sextet>, v: Sextet)
    requires |s| < 4
    ensures ToBytes(s + [v]) == ToBytes(s) + Completed(s, v)
  {
    Spelled(s, v);
    if |s| == 0 {
      GrowsFromNone(v);
    } else if |s| == 1 {
      GrowsFromOne(s[0], v);
    } else if |s| == 2 {
      GrowsFromTwo(s[0], s[1], v);
    } else {
      GrowsFromThree(s[0], s[1], s[2], v);
    }
  }

  lemma CompletedLater(sextets: seq<Sextet>, v: Sextet)
    requires |sextets| >= 4
    ensures Completed(sextets[4..], v) == Completed(sextets, v)
  {
    assert |sextets[4..]| % 4 == |sextets| % 4;
  }

  lemma LaterGroupGrows(sextets: seq<Sextet>, v: Sextet, bytes: seq<Byte>, more: seq<Byte>)
    requires |sextets| >= 4 && bytes == ToBytes(sextets[4..]) && more == Completed(sextets[4..], v)
    requires ToBytes(sextets[4..] + [v]) == bytes + more
    ensures ToBytes(sextets + [v]) == ToBytes(sextets) + Completed(sextets, v)
  {
    CompletedLater(sextets, v);
    BytesOfGroup(sextets);
    BytesOfGroup(sextets + [v]);
    assert (sextets + [v])[4..] == sextets[4..] + [v];
    var group := [High(sextets[0], sextets[1]), Middle(sextets[1], sextets[2]), Low(sextets[2], sextets[3])];
    Reassociated(group, bytes, more);
  }

  lemma Reassociated(group: seq<Byte>, bytes: seq<Byte>, more: seq<Byte>)
    ensures group + (bytes + more) == group + bytes + more
  {
  }

  lemma {:induction false} BytesGrow(sextets: seq<Sextet>, v: Sextet)
    ensures ToBytes(sextets + [v]) == ToBytes(sextets) + Completed(sextets, v)
  {
    if |sextets| >= 4 {
      var rest := sextets[4..];
      BytesGrow(rest, v);
      LaterGroupGrows(sextets, v, ToBytes(rest), Completed(rest, v));
    } else {
      FirstGroupGrows(sextets, v);
    }
  }

  // --------------------------------------------------------------- characters

  /** The standard alphabet: A-Z, a-z, 0-9, + and /. */
  function Letter(v: Sextet): char {
    if v < 26 then 'A' + v as char
    else if v < 52 then 'a' + (v - 26) as char
    else if v < 62 then '0' + (v - 52) as char
    else if v == 62 then '+'
    else '/'
  }

  datatype Class = Value(v: Sextet) | Skipped | Stray

  /** Standard and URL-safe letters, what is skipped, and anything else. */
  function Classify(c: char): Class {
    if 'A' <= c <= 'Z' then Value(c as int - 'A' as int)
    else if 'a' <= c <= 'z' then Value(c as int - 'a' as int + 26)
    else if '0' <= c <= '9' then Value(c as int - '0' as int + 52)
    else if c == '+' || c == '-' then Value(62)
    else if c == '/' || c == '_' then Value(63)
    else if c == '=' || c == '\n' || c == '\r' || c == ' ' || c == '\t' then Skipped
    else Stray
  }

  lemma LetterIsValue(v: Sextet)
    ensures Classify(Letter(v)) == Value(v)
  {
  }

  /** The 6-bit values a text stands for. */
  function Sextets(text: string): Option<seq<Sextet>> {
    if text == [] then Some([])
    else
      var front := Sextets(text[..|text| - 1]);
      var c := Classify(text[|text| - 1]);
      if front.None? || c.Stray? then None
      else if c.Skipped? then front
      else Some(front.value + [c.v])
  }

  function Decode(text: string): Option<seq<Byte>> {
    var vs := Sextets(text);
    if vs.None? then None else Some(ToBytes(vs.value))
  }

  function Letters(vs: seq<Sextet>): string {
    seq(|vs|, i requires 0 <= i < |vs| => Letter(vs[i]))
  }

  /** The text of a byte string: its letters, padded to a multiple of four. */
  function Encode(bytes: seq<Byte>): string {
    Letters(ToSextets(bytes)) + if |bytes| % 3 == 1 then "==" else if |bytes| % 3 == 2 then "=" else ""
  }

  lemma {:induction false} SextetsOfConcat(a: string, b: string)
    ensures Sextets(a + b) ==
            if Sextets(a).None? || Sextets(b).None? then None else Some(Sextets(a).value + Sextets(b).value)
  {
    if b == [] {
      assert a + b == a;
      assert Sextets(a).Some? ==> Sextets(a).value + [] == Sextets(a).value;
    } else {
      var front := b[..|b| - 1];
      SextetsOfConcat(a, front);
      assert (a + b)[..|a + b| - 1] == a + front;
      assert (a + b)[|a + b| - 1] == b[|b| - 1];
      var c := Classify(b[|b| - 1]);
      if Sextets(a).Some? && Sextets(front).Some? && c.Value? {
        assert Sextets(a).value + Sextets(front).value + [c.v] == Sextets(a).value + (Sextets(front).value + [c.v]);
      }
    }
  }

  lemma {:induction false} SextetsOfLetters(vs: seq<Sextet>)
    ensures Sextets(Letters(vs)) == Some(vs)
  {
    if vs != [] {
      var front := vs[..|vs| - 1];
      SextetsOfLetters(front);
      assert Letters(vs)[..|vs| - 1] == Letters(front);
      LetterIsValue(vs[|vs| - 1]);
      assert front + [vs[|vs| - 1]] == vs;
    }
  }

  lemma {:induction false} SkippedOnly(text: string)
    requires forall i :: 0 <= i < |text| ==> Classify(text[i]).Skipped?
    ensures Sextets(text) == Some([])
  {
    if text != [] {
      SkippedOnly(text[..|text| - 1]);
    }
  }

  /** Decoding undoes encoding, for every byte string. */
  lemma RoundTrip(bytes: seq<Byte>)
    ensures Decode(Encode(bytes)) == Some(bytes)
  {
    var vs := ToSextets(bytes);
    SextetsOfLetters(vs);
    var padding := Encode(bytes)[|vs|..];
    assert Encode(bytes) == Letters(vs) + padding;
    SkippedOnly(padding);
    SextetsOfConcat(Letters(vs), padding);
    assert vs + [] == vs;
    BytesOfSextets(bytes);
  }

  lemma {:induction false} SextetCount(bytes: seq<Byte>)
    ensures |ToSextets(bytes)| == (|bytes| * 4 + 2) / 3
  {
    if |bytes| >= 3 {
      SextetCount(bytes[3..]);
    }
  }

  /** The encoded length is four for every three bytes begun. */
  lemma EncodedLength(bytes: seq<Byte>)
    ensures |Encode(bytes)| == 4 * ((|bytes| + 2) / 3)
  {
    SextetCount(bytes);
    PaddedCount(|bytes|);
  }

  lemma PaddedCount(n: nat)
    ensures 4 * ((n + 2) / 3) == (n * 4 + 2) / 3 + if n % 3 == 0 then 0 else 3 - n % 3
  {
    var k := n / 3;
    assert n == 3 * k + n % 3;
  }

  /** Whitespace and padding change nothing, wherever they are put. */
  lemma SkippedAnywhere(a: string, skipped: string, b: string)
    requires forall i :: 0 <= i < |skipped| ==> Classify(skipped[i]).Skipped?
    ensures Decode(a + skipped + b) == Decode(a + b)
  {
    SkippedOnly(skipped);
    SextetsOfConcat(a, skipped);
    SextetsOfConcat(a + skipped, b);
    SextetsOfConcat(a, b);
    assert Sextets(a).Some? ==> Sextets(a).value + [] == Sextets(a).value;
  }

  /** The same text in the URL-safe alphabet. */
  function UrlSafe(text: string): string {
    seq(|text|, i requires 0 <= i < |text| =>
      if text[i] == '+' then '-' else if text[i] == '/' then '_' else text[i])
  }

  lemma {:induction false} UrlSafeSextets(text: string)
    ensures Sextets(UrlSafe(text)) == Sextets(text)
  {
    if text != [] {
      UrlSafeSextets(text[..|text| - 1]);
      assert UrlSafe(text)[..|text| - 1] == UrlSafe(text[..|text| - 1]);
    }
  }

  /** So the round trip also holds through the URL-safe alphabet. */
  lemma UrlSafeRoundTrip(bytes: seq<Byte>)
    ensures Decode(UrlSafe(Encode(bytes))) == Some(bytes)
  {
    UrlSafeSextets(Encode(bytes));
    RoundTrip(bytes);
  }

  /** Decoding fails exactly on a character that is none of the letters, padding
      or whitespace. */
  lemma {:induction false} FailsExactlyOnStrays(text: string)
    ensures Decode(text).None? <==> exists i :: 0 <= i < |text| && Classify(text[i]).Stray?
  {
    if text != [] {
      var front := text[..|text| - 1];
      FailsExactlyOnStrays(front);
      assert forall i :: 0 <= i < |front| ==> front[i] == text[i];
    }
  }

  /** How many `=` end the text. */
  function Padding(text: string): (n: nat)
    ensures n <= |text| && (n < |text| ==> text[|text| - n - 1] != '=')
    ensures forall i :: |text| - n <= i < |text| ==> text[i] == '='
  {
    if text != "" && text[|text| - 1] == '=' then Padding(text[..|text| - 1]) + 1 else 0
  }

  predicate Standard(c: char) {
    Classify(c).Value? && Letter(Classify(c).v) == c
  }

  /** No bit of the last value is left over: the values of whole bytes. */
  predicate Whole(vs: seq<Sextet>) {
    match |vs| % 4
    case 0 => true
    case 1 => false
    case 2 => vs[|vs| - 1] % 16 == 0
    case 3 => vs[|vs| - 1] % 4 == 0
  }

  /** A text as an encoder writes it: standard letters, padded with at most two
      `=` to a multiple of four, the unused bits of the last letter zero. */
  predicate Canonical(text: string) {
    var n := |text| - Padding(text);
    && |text| % 4 == 0 && Padding(text) <= 2
    && (forall i :: 0 <= i < n ==> Standard(text[i]))
    && (n % 4 == 2 ==> Classify(text[n - 1]).v % 16 == 0)
    && (n % 4 == 3 ==> Classify(text[n - 1]).v % 4 == 0)
  }

  lemma WholeGrows(a: Sextet, b: Sextet, c: Sextet, d: Sextet, rest: seq<Sextet>)
    requires Whole(rest)
    ensures Whole([a, b, c, d] + rest)
  {
    assert rest != [] ==> ([a, b, c, d] + rest)[|rest| + 3] == rest[|rest| - 1];
  }

  lemma {:induction false} SextetsAreWhole(bytes: seq<Byte>)
    ensures Whole(ToSextets(bytes))
  {
    if |bytes| >= 3 {
      SextetsAreWhole(bytes[3..]);
      WholeGrows(First(bytes[0]), Second(bytes[0], bytes[1]), Third(bytes[1], bytes[2]), Fourth(bytes[2]),
                 ToSextets(bytes[3..]));
    } else if |bytes| == 2 {
      assert Third(bytes[1], 0) % 4 == 0;
    }
  }

  /** Four values make three bytes that make the four values again; so do two or
      three whose left-over bits are zero. */
  lemma GroupForth(a: Sextet, b: Sextet, c: Sextet, d: Sextet)
    ensures First(High(a, b)) == a && Second(High(a, b), Middle(b, c)) == b
    ensures Third(Middle(b, c), Low(c, d)) == c && Fourth(Low(c, d)) == d
    ensures b % 16 == 0 ==> Second(High(a, b), 0) == b
    ensures c % 4 == 0 ==> Third(Middle(b, c), 0) == c
  {
    assert High(a, b) % 4 * 16 == b / 16 * 16;
    assert Middle(b, c) % 16 == c / 4 && Middle(b, c) / 16 == b % 16;
  }

  lemma GroupOfSextets(a: Sextet, b: Sextet, c: Sextet, d: Sextet, rest: seq<Byte>)
    ensures ToSextets([High(a, b), Middle(b, c), Low(c, d)] + rest) == [a, b, c, d] + ToSextets(rest)
  {
    GroupForth(a, b, c, d);
    var bytes := [High(a, b), Middle(b, c), Low(c, d)] + rest;
    assert bytes[3..] == rest;
  }

  lemma LastSextets(a: Sextet, b: Sextet, c: Sextet)
    ensures b % 16 == 0 ==> ToSextets(ToBytes([a, b])) == [a, b]
    ensures c % 4 == 0 ==> ToSextets(ToBytes([a, b, c])) == [a, b, c]
  {
    GroupForth(a, b, c, 0);
    BytesOfFew(a, b, c, 0);
  }

  lemma FewSextetsOfBytes(vs: seq<Sextet>)
    requires Whole(vs) && |vs| < 4
    ensures ToSextets(ToBytes(vs)) == vs
  {
    Spelled(vs, 0);
    if |vs| == 3 {
      LastSextets(vs[0], vs[1], vs[2]);
    } else if |vs| == 2 {
      LastSextets(vs[0], vs[1], 0);
    }
  }

  lemma WholeShrinks(vs: seq<Sextet>)
    requires Whole(vs) && |vs| >= 4
    ensures Whole(vs[4..])
  {
    assert vs[4..] != [] ==> vs[4..][|vs| - 5] == vs[|vs| - 1];
  }

  lemma SextetsOfGroup(vs: seq<Sextet>, rest: seq<Byte>)
    requires |vs| >= 4 && rest == ToBytes(vs[4..]) && ToSextets(rest) == vs[4..]
    ensures ToSextets(ToBytes(vs)) == vs
  {
    BytesOfGroup(vs);
    GroupOfSextets(vs[0], vs[1], vs[2], vs[3], rest);
    assert vs == [vs[0], vs[1], vs[2], vs[3]] + vs[4..];
  }

  lemma {:induction false} SextetsOfBytes(vs: seq<Sextet>)
    requires Whole(vs)
    ensures ToSextets(ToBytes(vs)) == vs
  {
    if |vs| >= 4 {
      WholeShrinks(vs);
      SextetsOfBytes(vs[4..]);
      SextetsOfGroup(vs, ToBytes(vs[4..]));
    } else {
      FewSextetsOfBytes(vs);
    }
  }

  lemma {:induction false} ByteCount(vs: seq<Sextet>)
    ensures |ToBytes(vs)| == |vs| * 3 / 4
  {
    if |vs| >= 4 {
      ByteCount(vs[4..]);
      BytesOfGroup(vs);
    }
  }

  lemma {:induction false} StandardSextets(text: string)
    requires forall i :: 0 <= i < |text| ==> Standard(text[i])
    ensures Sextets(text).Some? && Letters(Sextets(text).value) == text
    ensures |Sextets(text).value| == |text|
    ensures text != "" ==> Sextets(text).value[|text| - 1] == Classify(text[|text| - 1]).v
  {
    if text != [] {
      StandardSextets(text[..|text| - 1]);
    }
  }

  lemma {:induction false} PaddingOf(letters: string, pad: string)
    requires forall i :: 0 <= i < |letters| ==> Standard(letters[i])
    requires forall i :: 0 <= i < |pad| ==> pad[i] == '='
    ensures Padding(letters + pad) == |pad|
    decreases |pad|
  {
    if pad == "" {
      assert letters + pad == letters;
    } else {
      assert (letters + pad)[..|letters + pad| - 1] == letters + pad[..|pad| - 1];
      PaddingOf(letters, pad[..|pad| - 1]);
    }
  }

  lemma LettersAreStandard(vs: seq<Sextet>)
    ensures forall i :: 0 <= i < |vs| ==> Classify(Letters(vs)[i]) == Value(vs[i]) && Standard(Letters(vs)[i])
  {
    forall i | 0 <= i < |vs|
      ensures Classify(Letters(vs)[i]) == Value(vs[i])
    {
      LetterIsValue(vs[i]);
    }
  }

  lemma CanonicalParts(text: string, vs: seq<Sextet>, k: nat)
    requires |text| == |vs| + k && Padding(text) == k && k <= 2 && |text| % 4 == 0 && Whole(vs)
    requires forall i :: 0 <= i < |vs| ==> Classify(text[i]) == Value(vs[i]) && Standard(text[i])
    ensures Canonical(text)
  {
  }

  /** Letters of whole bytes with their padding are canonical. */
  lemma PaddedIsCanonical(vs: seq<Sextet>, pad: string)
    requires Whole(vs) && (|vs| + |pad|) % 4 == 0 && |pad| <= 2
    requires forall i :: 0 <= i < |pad| ==> pad[i] == '='
    ensures Canonical(Letters(vs) + pad)
  {
    LettersAreStandard(vs);
    PaddingOf(Letters(vs), pad);
    var text := Letters(vs) + pad;
    assert forall i :: 0 <= i < |vs| ==> text[i] == Letters(vs)[i];
    CanonicalParts(text, vs, |pad|);
  }

  lemma EncodingIsCanonical(bytes: seq<Byte>)
    ensures Canonical(Encode(bytes))
  {
    SextetsAreWhole(bytes);
    EncodedLength(bytes);
    var vs := ToSextets(bytes);
    var pad := Encode(bytes)[|vs|..];
    assert Encode(bytes) == Letters(vs) + pad;
    PaddedIsCanonical(vs, pad);
  }

  lemma TailSkipped(letters: string, pad: string)
    requires forall i :: 0 <= i < |pad| ==> Classify(pad[i]).Skipped?
    ensures Sextets(letters + pad) == Sextets(letters)
  {
    SkippedOnly(pad);
    SextetsOfConcat(letters, pad);
    assert Sextets(letters).Some? ==> Sextets(letters).value + [] == Sextets(letters).value;
  }

  lemma WholeByLast(vs: seq<Sextet>, total: nat)
    requires |vs| <= total <= |vs| + 2 && total % 4 == 0
    requires |vs| % 4 == 2 ==> vs[|vs| - 1] % 16 == 0
    requires |vs| % 4 == 3 ==> vs[|vs| - 1] % 4 == 0
    ensures Whole(vs)
  {
  }

  lemma CanonicalValues(text: string, n: nat)
    requires Canonical(text) && n == |text| - Padding(text)
    ensures Sextets(text[..n]).Some? && Sextets(text) == Sextets(text[..n])
    ensures |Sextets(text[..n]).value| == n
    ensures Letters(Sextets(text[..n]).value) == text[..n] && Whole(Sextets(text[..n]).value)
  {
    StandardSextets(text[..n]);
    assert text == text[..n] + text[n..];
    TailSkipped(text[..n], text[n..]);
    assert n > 0 ==> text[..n][n - 1] == text[n - 1];
    WholeByLast(Sextets(text[..n]).value, |text|);
  }

  /** The text of a canonical text's bytes is that text. */
  lemma CanonicalIsEncoded(text: string, bytes: seq<Byte>)
    requires Canonical(text) && Decode(text) == Some(bytes)
    ensures Encode(bytes) == text
  {
    var n := |text| - Padding(text);
    CanonicalValues(text, n);
    var vs := Sextets(text[..n]).value;
    SextetsOfBytes(vs);
    ByteCount(vs);
    PadOfCount(n, |bytes|, text[n..]);
    assert text == text[..n] + text[n..];
  }

  lemma PadOfCount(letters: nat, bytes: nat, pad: string)
    requires bytes == letters * 3 / 4 && (letters + |pad|) % 4 == 0 && |pad| <= 2
    requires forall i :: 0 <= i < |pad| ==> pad[i] == '='
    ensures pad == if bytes % 3 == 1 then "==" else if bytes % 3 == 2 then "=" else ""
  {
    var q := letters / 4;
    assert letters == 4 * q + letters % 4 && bytes == 3 * q + letters % 4 * 3 / 4;
  }

  /** The decoder is lenient: it also accepts texts no encoder writes. Encoding
      undoes decoding exactly on the canonical ones. */
  lemma EncodingUndoesDecodingExactly(text: string)
    requires Decode(text).Some?
    ensures Encode(Decode(text).value) == text <==> Canonical(text)
  {
    EncodingIsCanonical(Decode(text).value);
    if Canonical(text) {
      CanonicalIsEncoded(text, Decode(text).value);
    }
  }

  /** One that is not: its last letter has left-over bits. */
  lemma EncodingDoesNotUndoDecoding()
    ensures Decode("QR") == Some([65]) && Encode([65]) == "QQ=="
  {
    assert Letters(ToSextets([65])) == [Letter(16), Letter(16)];
    SextetsOfLetters([16, 17]);
    assert Letters([16, 17]) == "QR";
    assert Encode([65]) == "QQ" + "==";
  }

  // ------------------------------------------------------------------ the loops

  method EncodeBase64(bytes: seq<Byte>) returns (out: string)
    ensures out == Encode(bytes)
  {
    out := "";
    var i := 0;
    while i < |bytes|
      invariant 0 <= i <= |bytes|
      invariant out + Encode(bytes[i..]) == Encode(bytes)
      decreases |bytes| - i
    {
      var end := if i + 3 <= |bytes| then i + 3 else |bytes|;
      var group := EncodeGroup(bytes[i..end]);
      EncodeSplits(bytes[i..]);
      assert bytes[i..end] == bytes[i..][..end - i] && bytes[i..][end - i..] == bytes[end..];
      out := out + group;
      i := end;
    }
    assert bytes[i..] == [];
  }

  method EncodeGroup(chunk: seq<Byte>) returns (group: string)
    requires 1 <= |chunk| <= 3
    ensures group == Encode(chunk)
  {
    var b1: Byte := if |chunk| > 1 then chunk[1] else 0;
    var b2: Byte := if |chunk| > 2 then chunk[2] else 0;
    var v0, v1, v2, v3 := SplitGroup(chunk[0], b1, b2);
    group := [Letter(v0), Letter(v1),
              if |chunk| > 1 then Letter(v2) else '=',
              if |chunk| > 2 then Letter(v3) else '='];
    assert ToSextets(chunk[|chunk|..]) == [];
  }

  method SplitGroup(a: Byte, b: Byte, c: Byte) returns (v0: Sextet, v1: Sextet, v2: Sextet, v3: Sextet)
    ensures v0 == First(a) && v1 == Second(a, b) && v2 == Third(b, c) && v3 == Fourth(c)
  {
    var n := a * 65536 + b * 256 + c;
    GroupValues(a, b, c);
    v0, v1, v2, v3 := n / 262144 % 64, n / 4096 % 64, n / 64 % 64, n % 64;
  }

  lemma Times(a: nat, b: nat, d: nat)
    ensures a <= b ==> a * d <= b * d
  {
  }

  lemma Division(n: nat, d: nat, q: nat, r: nat)
    requires d > 0 && n == q * d + r && r < d
    ensures n / d == q && n % d == r
  {
    Times(n / d + 1, q, d);
    Times(q + 1, n / d, d);
  }

  lemma GroupValues(a: Byte, b: Byte, c: Byte)
    ensures var n := a * 65536 + b * 256 + c;
      && n / 262144 % 64 == First(a) && n / 4096 % 64 == Second(a, b)
      && n / 64 % 64 == Third(b, c) && n % 64 == Fourth(c)
  {
    var n := a * 65536 + b * 256 + c;
    GroupQuotients(n, a, b, c);
    Division(n / 4096, 64, a / 4, Second(a, b));
    Division(n / 64, 64, a * 16 + b / 16, Third(b, c));
  }

  lemma GroupQuotients(n: nat, a: Byte, b: Byte, c: Byte)
    requires n == a * 65536 + b * 256 + c
    ensures n / 262144 == a / 4 && n / 4096 == a / 4 * 64 + Second(a, b)
    ensures n / 64 == a * 1024 + b / 16 * 64 + Third(b, c) && n % 64 == Fourth(c)
  {
    Division(n, 262144, a / 4, a % 4 * 65536 + b * 256 + c);
    Division(n, 4096, a / 4 * 64 + Second(a, b), b % 16 * 256 + c);
    Division(n, 64, a * 1024 + b / 16 * 64 + Third(b, c), Fourth(c));
  }

  /** The encoder may work group by group. */
  lemma EncodeSplits(rest: seq<Byte>)
    ensures |rest| >= 3 ==> Encode(rest) == Encode(rest[..3]) + Encode(rest[3..])
    ensures |rest| <= 3 ==> rest[..|rest|] == rest && Encode(rest[|rest|..]) == ""
  {
    if |rest| >= 3 {
      var tail := rest[3..];
      assert ToSextets(rest[3..3]) == [];
      assert ToSextets(rest) == ToSextets(rest[..3]) + ToSextets(tail);
      LettersOfConcat(ToSextets(rest[..3]), ToSextets(tail));
      assert |rest| % 3 == |tail| % 3;
    }
  }

  lemma LettersOfConcat(a: seq<Sextet>, b: seq<Sextet>)
    ensures Letters(a + b) == Letters(a) + Letters(b)
  {
  }

  /** The shift keeps the low 20 bits above the last value and drops the rest. */
  lemma ShiftDrops(acc: Word) returns (kept: nat)
    ensures Shl6(acc) == kept * 4096 + acc % 64 * 64 && kept < 0x10_0000
  {
    var q := acc / 64;
    kept := q % 0x10_0000;
    var dropped := q / 0x10_0000;
    assert acc * 64 == dropped * 0x1_0000_0000 + (kept * 4096 + acc % 64 * 64);
  }

  lemma LowBits(kept: nat, last: Sextet, v: Sextet)
    ensures var n := kept * 4096 + last * 64 + v;
      n % 64 == v && n / 16 % 256 == High(last, v) && n / 4 % 256 == Middle(last, v) && n % 256 == Low(last, v)
  {
    var n := kept * 4096 + last * 64 + v;
    Division(n, 64, kept * 64 + last, v);
    Division(n, 16, kept * 256 + High(last, v), v % 16);
    Division(n / 16, 256, kept, High(last, v));
    Division(n, 4, (kept * 4 + last / 16) * 256 + Middle(last, v), v % 4);
    Division(n / 4, 256, kept * 4 + last / 16, Middle(last, v));
    Division(n, 256, kept * 16 + last / 4, Low(last, v));
  }

  /** `(acc >> bits) as u8` for the shifts that occur. */
  function ByteAt(acc: Word, bits: nat): Byte {
    if bits == 0 then acc % 256 else if bits == 2 then acc / 4 % 256 else acc / 16 % 256
  }

  /** The accumulator ends in the last value taken. */
  predicate EndsIn(acc: Word, taken: seq<Sextet>) {
    if taken == [] then acc == 0 else acc % 64 == taken[|taken| - 1]
  }

  /** One more value shifted in: no overflow, and the byte at the shift, if one
      is due, is the byte the value completes. */
  lemma OneMoreValue(taken: seq<Sextet>, acc: Word, v: Sextet)
    requires EndsIn(acc, taken)
    ensures Shl6(acc) + v < 0x1_0000_0000 && EndsIn(Shl6(acc) + v, taken + [v])
    ensures var bits := |taken| * 6 % 8 + 6;
      && (|taken| + 1) * 6 % 8 == (if bits >= 8 then bits - 8 else bits)
      && Completed(taken, v) == if bits >= 8 then [ByteAt(Shl6(acc) + v, bits - 8)] else []
  {
    var kept := ShiftDrops(acc);
    LowBits(kept, acc % 64, v);
    BitsCycle(|taken|);
  }

  method DecodeBase64(text: string) returns (r: Option<seq<Byte>>)
    ensures r == Decode(text)
  {
    var out: seq<Byte> := [];
    var acc: Word := 0;
    var bits := 0;
    ghost var taken: seq<Sextet> := [];
    for i := 0 to |text|
      invariant Sextets(text[..i]) == Some(taken)
      invariant out == ToBytes(taken)
      invariant bits == |taken| * 6 % 8
      invariant EndsIn(acc, taken)
    {
      assert text[..i + 1][..i] == text[..i];
      var c := Classify(text[i]);
      if c.Skipped? {
        continue;
      }
      if c.Stray? {
        StrayStays(text, i);
        return None;
      }
      OneMoreValue(taken, acc, c.v);
      BytesGrow(taken, c.v);
      acc := Shl6(acc) + c.v;
      bits := bits + 6;
      if bits >= 8 {
        bits := bits - 8;
        out := out + [ByteAt(acc, bits)];
      }
      taken := taken + [c.v];
    }
    assert text[..|text|] == text;
    r := Some(out);
  }

  lemma BitsCycle(n: nat)
    ensures n * 6 % 8 == [0, 6, 4, 2][n % 4] && (n + 1) * 6 % 8 == [6, 4, 2, 0][n % 4]
  {
    var q := n / 4;
    assert n * 6 == q * 24 + n % 4 * 6;
    assert q * 24 == 8 * (q * 3);
  }

  lemma StrayStays(text: string, i: nat)
    requires i < |text| && Classify(text[i]).Stray?
    ensures Decode(text) == None
  {
    FailsExactlyOnStrays(text);
  }
}
