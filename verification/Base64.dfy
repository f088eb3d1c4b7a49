/** Strict base64url and base64: the decoders accept exactly the encodings of non-empty byte strings, and undo the encoder.
    The library's decoder, which ignores the bits past the last whole byte, is modelled group by group. */
module Base64 {
  import opened Octets
  import opened Values

  type Sextet = n: nat | n < 64

  /** The two alphabets differ in the last two characters. */
  datatype Alphabet = Standard | UrlSafe

  function CharOf(al: Alphabet, n: Sextet): char {
    if n < 26 then ('A' as int + n) as char
    else if n < 52 then ('a' as int + n - 26) as char
    else if n < 62 then ('0' as int + n - 52) as char
    else if n == 62 then (if al.Standard? then '+' else '-')
    else (if al.Standard? then '/' else '_')
  }

  predicate InAlphabet(al: Alphabet, c: char) {
    || 'A' <= c <= 'Z' || 'a' <= c <= 'z' || '0' <= c <= '9'
    || (if al.Standard? then c == '+' || c == '/' else c == '-' || c == '_')
  }

  function SextetOf(al: Alphabet, c: char): (n: Sextet)
    requires InAlphabet(al, c)
    ensures CharOf(al, n) == c
  {
    if 'A' <= c <= 'Z' then c as int - 'A' as int
    else if 'a' <= c <= 'z' then c as int - 'a' as int + 26
    else if '0' <= c <= '9' then c as int - '0' as int + 52
    else if c == '+' || c == '-' then 62
    else 63
  }

  // The four sextets of three bytes, and the three bytes of four sextets.
  function First(x: Byte): Sextet { x / 4 }
  function Second(x: Byte, y: Byte): Sextet { x % 4 * 16 + y / 16 }
  function Third(y: Byte, z: Byte): Sextet { y % 16 * 4 + z / 64 }
  function Fourth(z: Byte): Sextet { z % 64 }
  function High(p: Sextet, q: Sextet): Byte { p * 4 + q / 16 }
  function Middle(q: Sextet, r: Sextet): Byte { q % 16 * 16 + r / 4 }
  function Low(r: Sextet, t: Sextet): Byte { r % 4 * 64 + t }

  /** The bits in groups of six, the last group filled up with zero bits. */
  function Sextets(b: Bytes): (r: seq<Sextet>)
    ensures |r| % 4 != 1 && (r == [] <==> b == [])
  {
    if |b| == 0 then []
    else if |b| == 1 then [First(b[0]), Second(b[0], 0)]
    else if |b| == 2 then [First(b[0]), Second(b[0], b[1]), Third(b[1], 0)]
    else
      var rest := Sextets(b[3..]);
      [First(b[0]), Second(b[0], b[1]), Third(b[1], b[2]), Fourth(b[2])] + rest
  }

  /** The whole bytes in groups of six bits; the bits left over in the last group are dropped. */
  function Wholes(s: seq<Sextet>): Bytes
    requires |s| % 4 != 1
  {
    if |s| == 0 then []
    else if |s| == 2 then [High(s[0], s[1])]
    else if |s| == 3 then [High(s[0], s[1]), Middle(s[1], s[2])]
    else [High(s[0], s[1]), Middle(s[1], s[2]), Low(s[2], s[3])] + Wholes(s[4..])
  }

  predicate AllIn(al: Alphabet, s: string) { forall i :: 0 <= i < |s| ==> InAlphabet(al, s[i]) }

  function Spell(al: Alphabet, ns: seq<Sextet>): (s: string)
    ensures |s| == |ns| && AllIn(al, s)
  {
    seq(|ns|, i requires 0 <= i < |ns| => CharOf(al, ns[i]))
  }

  function Read(al: Alphabet, s: string): (ns: seq<Sextet>)
    requires AllIn(al, s)
    ensures |ns| == |s|
  {
    seq(|s|, i requires 0 <= i < |s| => SextetOf(al, s[i]))
  }

  /** The encoding without padding. */
  function Encode(al: Alphabet, b: Bytes): string { Spell(al, Sextets(b)) }

  /** What the library decodes. */
  function DecodeLoosely(al: Alphabet, s: string): Bytes
    requires AllIn(al, s) && |s| % 4 != 1
  {
    Wholes(Read(al, s))
  }

  /** _b64url_decode. */
  function B64UrlDecode(s: string): Option<Bytes> {
    if s == "" || !AllIn(UrlSafe, s) || |s| % 4 == 1 then None
    else
      var raw := DecodeLoosely(UrlSafe, s);
      if Encode(UrlSafe, raw) != s then None else Some(raw)
  }

  function Padding(n: nat): (p: string)
    ensures |p| <= 3
  {
    if n % 4 == 0 then "" else if n % 4 == 3 then "=" else if n % 4 == 2 then "==" else "==="
  }

  /** The padded encoding. */
  function EncodePadded(b: Bytes): string { var s := Encode(Standard, b); s + Padding(|s|) }

  /** The characters before the padding of `s`, when it is at most two signs long. */
  function Unpadded(s: string): string {
    if s != "" && s[|s| - 1] == '=' then
      if |s| > 1 && s[|s| - 2] == '=' then s[..|s| - 2] else s[..|s| - 1]
    else s
  }

  /** _unb64. */
  function Unb64(s: string): Option<Bytes> {
    var body := Unpadded(s);
    if s == "" || |s| % 4 != 0 || !AllIn(Standard, body) || |body| % 4 == 1 then None
    else
      var raw := DecodeLoosely(Standard, body);
      if EncodePadded(raw) != s then None else Some(raw)
  }

  // ------------------------------------------------------------------ decoding undoes encoding

  lemma ReadSpelled(al: Alphabet, ns: seq<Sextet>)
    ensures Read(al, Spell(al, ns)) == ns
  {}

  lemma SpellRead(al: Alphabet, s: string)
    requires AllIn(al, s)
    ensures Spell(al, Read(al, s)) == s
  {}

  /** Three bytes read back from their four sextets. */
  lemma BytesBack(x: Byte, y: Byte, z: Byte)
    ensures High(First(x), Second(x, y)) == x
    ensures Middle(Second(x, y), Third(y, z)) == y
    ensures Low(Third(y, z), Fourth(z)) == z
  {}

  lemma {:induction false} WholesOfSextets(b: Bytes)
    ensures Wholes(Sextets(b)) == b
    decreases |b|
  {
    hide First, Second, Third, Fourth, High, Middle, Low;
    if |b| == 1 {
      BytesBack(b[0], 0, 0);
    } else if |b| == 2 {
      BytesBack(b[0], b[1], 0);
    } else if |b| >= 3 {
      BytesBack(b[0], b[1], b[2]);
      WholesOfSextets(b[3..]);
      assert Sextets(b)[4..] == Sextets(b[3..]);
      assert b == [b[0], b[1], b[2]] + b[3..];
    }
  }

  lemma DecodeUndoesEncode(al: Alphabet, b: Bytes)
    ensures DecodeLoosely(al, Encode(al, b)) == b
  {
    ReadSpelled(al, Sextets(b));
    WholesOfSextets(b);
  }

  /** Accepted exactly when it is the encoding of a non-empty byte string, which is then what is read. */
  lemma UrlDecodeIsInverse(s: string, b: Bytes)
    ensures B64UrlDecode(s) == Some(b) <==> b != [] && s == Encode(UrlSafe, b)
  {
    DecodeUndoesEncode(UrlSafe, b);
  }

  lemma PaddingStrips(s: string)
    requires s != "" && |s| % 4 != 1 && AllIn(Standard, s)
    ensures Unpadded(s + Padding(|s|)) == s && |s + Padding(|s|)| % 4 == 0
  {
    assert s[|s| - 1] != '=';
  }

  lemma Unb64IsInverse(s: string, b: Bytes)
    ensures Unb64(s) == Some(b) <==> b != [] && s == EncodePadded(b)
  {
    DecodeUndoesEncode(Standard, b);
    if b != [] { PaddingStrips(Encode(Standard, b)); }
  }

  /** No byte string has two accepted spellings. */
  lemma OneSpelling(s: string, t: string)
    ensures B64UrlDecode(s).Some? && B64UrlDecode(s) == B64UrlDecode(t) ==> s == t
    ensures Unb64(s).Some? && Unb64(s) == Unb64(t) ==> s == t
  {
    if B64UrlDecode(s).Some? && B64UrlDecode(s) == B64UrlDecode(t) {
      UrlDecodeIsInverse(s, B64UrlDecode(s).value);
      UrlDecodeIsInverse(t, B64UrlDecode(s).value);
    }
    if Unb64(s).Some? && Unb64(s) == Unb64(t) {
      Unb64IsInverse(s, Unb64(s).value);
      Unb64IsInverse(t, Unb64(s).value);
    }
  }

  // ------------------------------------------------------------------ which texts are accepted

  /** The bits past the last whole byte are zero (section 3.5 of RFC 4648). */
  predicate ZeroTrail(ns: seq<Sextet>) {
    (|ns| % 4 == 2 ==> ns[|ns| - 1] % 16 == 0) && (|ns| % 4 == 3 ==> ns[|ns| - 1] % 4 == 0)
  }

  /** Four sextets read back from their three bytes. */
  lemma SextetsBack(p: Sextet, q: Sextet, r: Sextet, t: Sextet)
    ensures First(High(p, q)) == p
    ensures Second(High(p, q), Middle(q, r)) == q && Second(High(p, q), 0) == q - q % 16
    ensures Third(Middle(q, r), Low(r, t)) == r && Third(Middle(q, r), 0) == r - r % 4
    ensures Fourth(Low(r, t)) == t
  {}

  lemma TwoSextets(p: Sextet, q: Sextet)
    ensures Sextets(Wholes([p, q])) == [p, q] <==> q % 16 == 0
  {
    hide First, Second, High;
    SextetsBack(p, q, 0, 0);
    assert Sextets([High(p, q)]) == [p, Second(High(p, q), 0)];
    assert [p, Second(High(p, q), 0)] == [p, q] <==> Second(High(p, q), 0) == q by {
      assert [p, Second(High(p, q), 0)][1] == Second(High(p, q), 0);
    }
  }

  lemma ThreeSextets(p: Sextet, q: Sextet, r: Sextet)
    ensures Sextets(Wholes([p, q, r])) == [p, q, r] <==> r % 4 == 0
  {
    hide First, Second, Third, High, Middle;
    SextetsBack(p, q, r, 0);
    var b := [High(p, q), Middle(q, r)];
    assert Wholes([p, q, r]) == b;
    assert Sextets(b) == [p, q, Third(b[1], 0)];
    assert [p, q, Third(b[1], 0)] == [p, q, r] <==> Third(b[1], 0) == r by {
      assert [p, q, Third(b[1], 0)][2] == Third(b[1], 0);
    }
  }

  lemma FourAndRest(ns: seq<Sextet>, b: Bytes)
    requires |ns| >= 4 && |b| >= 3
    requires First(b[0]) == ns[0] && Second(b[0], b[1]) == ns[1] && Third(b[1], b[2]) == ns[2] && Fourth(b[2]) == ns[3]
    ensures Sextets(b) == ns <==> Sextets(b[3..]) == ns[4..]
  {
    hide First, Second, Third, Fourth;
    var rest := Sextets(b[3..]);
    assert Sextets(b) == [ns[0], ns[1], ns[2], ns[3]] + rest;
    assert ([ns[0], ns[1], ns[2], ns[3]] + rest)[4..] == rest;
    assert ns == [ns[0], ns[1], ns[2], ns[3]] + ns[4..];
  }

  lemma WholesOfFour(ns: seq<Sextet>)
    requires |ns| >= 4 && |ns| % 4 != 1
    ensures var b := Wholes(ns);
            && |b| >= 3 && b[3..] == Wholes(ns[4..])
            && b[0] == High(ns[0], ns[1]) && b[1] == Middle(ns[1], ns[2]) && b[2] == Low(ns[2], ns[3])
  {
    hide High, Middle, Low;
  }

  lemma FourMore(ns: seq<Sextet>)
    requires |ns| >= 4 && |ns| % 4 != 1
    ensures Sextets(Wholes(ns)) == ns <==> Sextets(Wholes(ns[4..])) == ns[4..]
  {
    hide First, Second, Third, Fourth, High, Middle, Low, Sextets, Wholes;
    WholesOfFour(ns);
    SextetsBack(ns[0], ns[1], ns[2], ns[3]);
    FourAndRest(ns, Wholes(ns));
  }

  lemma TrailOfRest(ns: seq<Sextet>)
    requires |ns| >= 4 && |ns| % 4 != 1
    ensures ZeroTrail(ns) <==> ZeroTrail(ns[4..])
  {}

  lemma {:induction false} SextetsOfWholes(ns: seq<Sextet>)
    requires |ns| % 4 != 1
    ensures Sextets(Wholes(ns)) == ns <==> ZeroTrail(ns)
    decreases |ns|
  {
    if |ns| >= 4 {
      hide Sextets, Wholes, ZeroTrail;
      SextetsOfWholes(ns[4..]);
      FourMore(ns);
      TrailOfRest(ns);
    } else if |ns| == 3 {
      hide Sextets, Wholes;
      ThreeSextets(ns[0], ns[1], ns[2]);
      assert ns == [ns[0], ns[1], ns[2]];
    } else if |ns| == 2 {
      hide Sextets, Wholes;
      TwoSextets(ns[0], ns[1]);
      assert ns == [ns[0], ns[1]];
    }
  }

  /** The texts accepted: the alphabet only, a length an encoding has, zero bits at the end. */
  lemma UrlAccepts(s: string)
    ensures B64UrlDecode(s).Some?
       <==> s != "" && |s| % 4 != 1 && AllIn(UrlSafe, s) && ZeroTrail(Read(UrlSafe, s))
  {
    if s != "" && |s| % 4 != 1 && AllIn(UrlSafe, s) {
      var ns := Read(UrlSafe, s);
      SextetsOfWholes(ns);
      SpellRead(UrlSafe, s);
      ReadSpelled(UrlSafe, Sextets(Wholes(ns)));
    }
  }

  // ------------------------------------------------------------------ the encoding keeps the bits

  /** The number whose digits to base 256 are the bytes, after `acc`. */
  function ByteNumber(b: Bytes, acc: nat): nat { if b == [] then acc else ByteNumber(b[1..], acc * 256 + b[0]) }

  function SextetNumber(ns: seq<Sextet>, acc: nat): nat {
    if ns == [] then acc else SextetNumber(ns[1..], acc * 64 + ns[0])
  }

  lemma FourSextets(ns: seq<Sextet>, acc: nat)
    requires |ns| >= 4
    ensures SextetNumber(ns, acc) == SextetNumber(ns[4..], (((acc * 64 + ns[0]) * 64 + ns[1]) * 64 + ns[2]) * 64 + ns[3])
  {
    assert ns[1..][1..] == ns[2..] && ns[2..][1..] == ns[3..] && ns[3..][1..] == ns[4..];
    var a1 := acc * 64 + ns[0];
    var a2 := a1 * 64 + ns[1];
    var a3 := a2 * 64 + ns[2];
    assert SextetNumber(ns, acc) == SextetNumber(ns[1..], a1);
    assert SextetNumber(ns[1..], a1) == SextetNumber(ns[2..], a2);
    assert SextetNumber(ns[2..], a2) == SextetNumber(ns[3..], a3);
    assert SextetNumber(ns[3..], a3) == SextetNumber(ns[4..], a3 * 64 + ns[3]);
  }

  lemma ThreeBytes(b: Bytes, acc: nat)
    requires |b| >= 3
    ensures ByteNumber(b, acc) == ByteNumber(b[3..], ((acc * 256 + b[0]) * 256 + b[1]) * 256 + b[2])
  {
    assert b[1..][1..] == b[2..] && b[2..][1..] == b[3..];
    var a1 := acc * 256 + b[0];
    var a2 := a1 * 256 + b[1];
    assert ByteNumber(b, acc) == ByteNumber(b[1..], a1);
    assert ByteNumber(b[1..], a1) == ByteNumber(b[2..], a2);
    assert ByteNumber(b[2..], a2) == ByteNumber(b[3..], a2 * 256 + b[2]);
  }

  lemma SameNumber(x: Byte, y: Byte, z: Byte, acc: nat)
    ensures (((acc * 64 + First(x)) * 64 + Second(x, y)) * 64 + Third(y, z)) * 64 + Fourth(z)
         == ((acc * 256 + x) * 256 + y) * 256 + z
  {
    assert x == x / 4 * 4 + x % 4 && y == y / 16 * 16 + y % 16 && z == z / 64 * 64 + z % 64;
    var x1, x2, y1, y2, z1, z2 := x / 4, x % 4, y / 16, y % 16, z / 64, z % 64;
    assert (((acc * 64 + x1) * 64 + (x2 * 16 + y1)) * 64 + (y2 * 4 + z1)) * 64 + z2
        == ((acc * 256 + (x1 * 4 + x2)) * 256 + (y1 * 16 + y2)) * 256 + (z1 * 64 + z2);
  }

  lemma NoBits()
    ensures Third(0, 0) == Fourth(0) == 0
  {}

  /** Zero bits that fill up the last character. */
  function FillBits(n: nat): nat { if n % 3 == 0 then 1 else if n % 3 == 1 then 16 else 4 }

  lemma FewSextets(p: Sextet, q: Sextet, r: Sextet, acc: nat)
    ensures SextetNumber([p, q], acc) == (acc * 64 + p) * 64 + q
    ensures SextetNumber([p, q, r], acc) == ((acc * 64 + p) * 64 + q) * 64 + r
  {
    var a1 := acc * 64 + p;
    var a2 := a1 * 64 + q;
    assert [p, q][1..] == [q] && [q][1..] == [] && [p, q, r][1..] == [q, r] && [q, r][1..] == [r] && [r][1..] == [];
    assert SextetNumber([q], a1) == SextetNumber([], a2) == a2;
    assert SextetNumber([q, r], a1) == SextetNumber([r], a2) == SextetNumber([], a2 * 64 + r);
  }

  lemma FewBytes(x: Byte, y: Byte, acc: nat)
    ensures ByteNumber([x], acc) == acc * 256 + x
    ensures ByteNumber([x, y], acc) == (acc * 256 + x) * 256 + y
  {
    assert [x][1..] == [] && [x, y][1..] == [y] && [y][1..] == [];
    assert ByteNumber([y], acc * 256 + x) == ByteNumber([], (acc * 256 + x) * 256 + y);
  }

  lemma LastBits(b: Bytes, acc: nat)
    requires |b| < 3
    ensures SextetNumber(Sextets(b), acc) == ByteNumber(b, acc) * FillBits(|b|)
  {
    hide First, Second, Third, Fourth, SextetNumber, ByteNumber;
    NoBits();
    if |b| == 2 {
      SameNumber(b[0], b[1], 0, acc);
      FewSextets(First(b[0]), Second(b[0], b[1]), Third(b[1], 0), acc);
      FewBytes(b[0], b[1], acc);
      assert b == [b[0], b[1]];
    } else if |b| == 1 {
      SameNumber(b[0], 0, 0, acc);
      FewSextets(First(b[0]), Second(b[0], 0), 0, acc);
      FewBytes(b[0], 0, acc);
      assert b == [b[0]];
    } else {
      NoDigits(acc);
    }
  }

  lemma NoDigits(acc: nat)
    ensures SextetNumber([], acc) == ByteNumber([], acc) == acc
  {}

  /** Read as one binary number, the characters of an encoding are its bytes, with zero bits filling up the last. */
  lemma {:induction false} EncodingKeepsBits(b: Bytes, acc: nat)
    ensures SextetNumber(Sextets(b), acc) == ByteNumber(b, acc) * FillBits(|b|)
    decreases |b|
  {
    hide SextetNumber, ByteNumber, First, Second, Third, Fourth;
    if |b| < 3 {
      LastBits(b, acc);
    } else {
      var ns := Sextets(b);
      assert ns[4..] == Sextets(b[3..]);
      FourSextets(ns, acc);
      ThreeBytes(b, acc);
      SameNumber(b[0], b[1], b[2], acc);
      EncodingKeepsBits(b[3..], ((acc * 256 + b[0]) * 256 + b[1]) * 256 + b[2]);
      assert FillBits(|b|) == FillBits(|b[3..]|);
    }
  }

  /** What a character counts, by the tables of sections 4 and 5 of RFC 4648. */
  function Counts(al: Alphabet, c: char): int {
    if 'A' <= c <= 'Z' then c as int - 65
    else if 'a' <= c <= 'z' then c as int - 71
    else if '0' <= c <= '9' then c as int + 4
    else if c == (match al case Standard => '+' case UrlSafe => '-') then 62
    else if c == (match al case Standard => '/' case UrlSafe => '_') then 63
    else -1
  }

  /** The number whose digits to base 64 are the characters, after `acc`. */
  function TextNumber(al: Alphabet, s: string, acc: int): int {
    if s == "" then acc else TextNumber(al, s[1..], acc * 64 + Counts(al, s[0]))
  }

  lemma CharCounts(al: Alphabet, n: Sextet)
    ensures Counts(al, CharOf(al, n)) == n
  {}

  lemma {:induction false} SpelledNumber(al: Alphabet, ns: seq<Sextet>, acc: nat)
    ensures TextNumber(al, Spell(al, ns), acc) == SextetNumber(ns, acc)
    decreases |ns|
  {
    if ns != [] {
      var s := Spell(al, ns);
      CharCounts(al, ns[0]);
      assert s[1..] == Spell(al, ns[1..]);
      SpelledNumber(al, ns[1..], acc * 64 + ns[0]);
    }
  }

  /** How many characters encode so many bytes. */
  function EncodedLength(n: nat): nat { (n * 4 + 2) / 3 }

  lemma {:induction false} SextetsLength(b: Bytes)
    ensures |Sextets(b)| == EncodedLength(|b|)
    decreases |b|
  {
    if |b| >= 3 { SextetsLength(b[3..]); }
  }

  /** What is decoded, without the encoder: as one binary number the characters of an accepted text are the bytes, with zero
      bits at the end, and there are just enough of them. */
  lemma DecodedIsTheNumber(s: string, b: Bytes)
    requires B64UrlDecode(s) == Some(b)
    ensures TextNumber(UrlSafe, s, 0) == ByteNumber(b, 0) * (if |b| % 3 == 0 then 1 else if |b| % 3 == 1 then 16 else 4)
    ensures |s| == EncodedLength(|b|)
  {
    hide TextNumber, SextetNumber, ByteNumber, Sextets;
    SpelledNumber(UrlSafe, Sextets(b), 0);
    EncodingKeepsBits(b, 0);
    SextetsLength(b);
  }

  /** The same for the padded form, before its padding to a length divisible by four. */
  lemma PaddedIsTheNumber(s: string, b: Bytes)
    requires Unb64(s) == Some(b)
    ensures var n := EncodedLength(|b|);
            && n <= |s| && |s| % 4 == 0 && |s| < n + 4 && (forall i :: n <= i < |s| ==> s[i] == '=')
            && TextNumber(Standard, s[..n], 0) == ByteNumber(b, 0) * (if |b| % 3 == 0 then 1 else if |b| % 3 == 1 then 16 else 4)
  {
    hide TextNumber, SextetNumber, ByteNumber, Sextets, Unb64;
    Unb64IsInverse(s, b);
    SpelledNumber(Standard, Sextets(b), 0);
    EncodingKeepsBits(b, 0);
    SextetsLength(b);
    var body := Encode(Standard, b);
    assert s[..|body|] == body;
  }
}
