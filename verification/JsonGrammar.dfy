/** The texts the strict reader accepts are those of the JSON grammar of RFC 8259 without white space, whose numbers are
    portable integers, whose objects repeat no key and whose surrogates stand in pairs. */
module JsonGrammar {
  import opened Values
  import opened CanonicalJson
  import opened CanonicalLaws
  import opened Rearrangements

  // ------------------------------------------------------------------ the grammar

  const LOWER: string := "0123456789abcdef"
  const UPPER: string := "0123456789ABCDEF"

  ghost predicate HexDigit(c: char, d: int) { 0 <= d < 16 && (c == LOWER[d] || c == UPPER[d]) }

  /** Four hexadecimal digits and the number they spell. */
  ghost predicate FourHex(t: Text, n: int) {
    |t| == 4 && exists a, b, c, d :: n == ((a * 16 + b) * 16 + c) * 16 + d && Nibbles(t, a, b, c, d)
  }

  ghost predicate Nibbles(t: Text, a: int, b: int, c: int, d: int)
    requires |t| == 4
  {
    HexDigit(t[0], a) && HexDigit(t[1], b) && HexDigit(t[2], c) && HexDigit(t[3], d)
  }

  /** The escapes of two characters. */
  ghost predicate ShortEscape(c: char, t: Text) {
    || (c == '"' && t == "\\\"") || (c == '\\' && t == "\\\\") || (c == '/' && t == "\\/")
    || (c as int == 0x08 && t == "\\b") || (c as int == 0x0C && t == "\\f") || (c as int == 0x0A && t == "\\n")
    || (c as int == 0x0D && t == "\\r") || (c as int == 0x09 && t == "\\t")
  }

  ghost predicate OneEscape(c: char, t: Text) { |t| == 6 && t[..2] == "\\u" && FourHex(t[2..], c as int) }

  /** A pair of surrogate escapes. */
  ghost predicate PairEscape(c: char, t: Text) {
    |t| == 12 && t[..2] == "\\u" && t[6..8] == "\\u" &&
    exists h, l :: FourHex(t[2..6], h) && FourHex(t[8..], l) && 0xD800 <= h <= 0xDBFF && 0xDC00 <= l <= 0xDFFF &&
                   c as int == 0x10000 + (h - 0xD800) * 0x400 + (l - 0xDC00)
  }

  /** One character inside quotes. */
  ghost predicate SpellsChar(c: char, t: Text) {
    (t == [c] && c != '"' && c != '\\' && c as int >= 0x20) || ShortEscape(c, t) || OneEscape(c, t) || PairEscape(c, t)
  }

  ghost predicate SpellsChars(s: string, t: Text)
    decreases |s|
  {
    if s == [] then t == [] else exists k :: 0 < k <= |t| && SpellsChar(s[0], t[..k]) && SpellsChars(s[1..], t[k..])
  }

  ghost predicate SpellsString(s: string, t: Text) {
    |t| >= 2 && t[0] == '"' && t[|t| - 1] == '"' && SpellsChars(s, t[1..|t| - 1])
  }

  /** The number decimal digits spell. */
  function DigitsValue(t: Text): int {
    if t == [] then 0 else DigitsValue(t[..|t| - 1]) * 10 + (t[|t| - 1] as int - '0' as int)
  }

  ghost predicate SpellsNat(n: int, t: Text) {
    && t != [] && (forall i :: 0 <= i < |t| ==> '0' <= t[i] <= '9') && (t[0] == '0' ==> |t| == 1)
    && n == DigitsValue(t)
  }

  /** A portable integer: no fraction, no exponent, no leading zero. */
  ghost predicate SpellsInt(n: int, t: Text) {
    -9007199254740991 <= n <= 9007199254740991 && if t != [] && t[0] == '-' then SpellsNat(-n, t[1..]) else SpellsNat(n, t)
  }

  ghost predicate SpellsValue(j: Json, t: Text)
    decreases j, 0
  {
    match j
    case Null => t == "null"
    case Bool(b) => t == if b then "true" else "false"
    case Num(n) => SpellsInt(n, t)
    case Str(s) => SpellsString(s, t)
    case Arr(xs) => |t| >= 2 && t[0] == '[' && t[|t| - 1] == ']' && SpellsItems(xs, t[1..|t| - 1])
    case Obj(ms) => |t| >= 2 && t[0] == '{' && t[|t| - 1] == '}' && SpellsMembers(ms, t[1..|t| - 1]) && UniqueKeys(ms)
  }

  /** Values with commas between them. */
  ghost predicate SpellsItems(xs: seq<Json>, t: Text)
    decreases xs, 1
  {
    if xs == [] then t == []
    else if |xs| == 1 then SpellsValue(xs[0], t)
    else exists k :: 0 <= k < |t| && t[k] == ',' && SpellsValue(xs[0], t[..k]) && SpellsItems(xs[1..], t[k + 1..])
  }

  ghost predicate SpellsMember(m: Member, t: Text)
    decreases m, 1
  {
    exists k :: 0 <= k < |t| && t[k] == ':' && SpellsString(m.key, t[..k]) && SpellsValue(m.val, t[k + 1..])
  }

  ghost predicate SpellsMembers(ms: seq<Member>, t: Text)
    decreases ms, 2
  {
    if ms == [] then t == []
    else if |ms| == 1 then SpellsMember(ms[0], t)
    else exists k :: 0 <= k < |t| && t[k] == ',' && SpellsMember(ms[0], t[..k]) && SpellsMembers(ms[1..], t[k + 1..])
  }

  // ------------------------------------------------------------------ characters

  /** `rest` is what is left of `t`, and this is what was taken. */
  function Taken(t: Text, rest: Text): Text
    requires |rest| <= |t|
  {
    t[..|t| - |rest|]
  }

  lemma HexIs(c: char)
    ensures IsHex(c) <==> exists d :: HexDigit(c, d)
    ensures IsHex(c) ==> HexDigit(c, HexValue(c)) && forall d :: HexDigit(c, d) ==> d == HexValue(c)
  {
    hide LOWER, UPPER;
    forall d ensures HexDigit(c, d) <==> 0 <= d < 16 && IsHex(c) && HexValue(c) == d { if 0 <= d < 16 { DigitsAre(d); } }
    if IsHex(c) { assert HexDigit(c, HexValue(c)); }
  }

  lemma DigitsAre(d: int)
    requires 0 <= d < 16
    ensures LOWER[d] == if d < 10 then ('0' as int + d) as char else ('a' as int + d - 10) as char
    ensures UPPER[d] == if d < 10 then ('0' as int + d) as char else ('A' as int + d - 10) as char
  {}

  lemma Hex4Is(t: Text, n: nat)
    requires |t| >= 4
    ensures Hex4(t) == Some(n) <==> FourHex(t[..4], n)
  {
    hide HexDigit, IsHex, HexValue;
    HexIs(t[0]);
    HexIs(t[1]);
    HexIs(t[2]);
    HexIs(t[3]);
    var p := t[..4];
    if Hex4(t) == Some(n) { assert Nibbles(p, HexValue(t[0]), HexValue(t[1]), HexValue(t[2]), HexValue(t[3])); }
    if a, b, c, d :| n == ((a * 16 + b) * 16 + c) * 16 + d && Nibbles(p, a, b, c, d) {
      assert IsHex(p[0]) && IsHex(p[1]) && IsHex(p[2]) && IsHex(p[3]);
      assert a == HexValue(t[0]) && b == HexValue(t[1]) && c == HexValue(t[2]) && d == HexValue(t[3]);
    }
  }

  lemma PairParts(t: Text, p: Text)
    requires |t| >= 12 && p == t[..12]
    ensures p[..2] == [t[0], t[1]] && p[2..6] == t[2..6] && p[6..8] == [t[6], t[7]] && p[8..] == t[8..12]
  {}

  lemma CharSound(t: Text, c: char, rest: Text)
    requires t != [] && t[0] != '"' && ReadChar(t) == Got(c, rest)
    ensures |rest| < |t| && t[|t| - |rest|..] == rest && SpellsChar(c, Taken(t, rest))
  {
    hide Hex4, FourHex;
    var p := Taken(t, rest);
    if t[0] == '\\' && t[1] == 'u' {
      var n := Hex4(t[2..]).value;
      Hex4Is(t[2..], n);
      assert t[2..][..4] == t[2..6];
      if High(n) {
        var m := Hex4(t[8..]).value;
        Hex4Is(t[8..], m);
        assert t[8..][..4] == t[8..12];
        assert |rest| == |t| - 12;
        PairParts(t, p);
        assert PairEscape(c, p);
      } else {
        assert p == t[..6] && p[..2] == "\\u" && p[2..] == t[2..6];
        assert OneEscape(c, p);
      }
    } else if t[0] == '\\' {
      assert p == t[..2] && p == [t[0], t[1]];
    } else {
      assert p == [t[0]];
    }
  }

  lemma CharComplete(c: char, p: Text, rest: Text)
    requires SpellsChar(c, p)
    ensures p != [] && p[0] != '"' && ReadChar(p + rest) == Got(c, rest)
  {
    hide Hex4, FourHex;
    var t := p + rest;
    assert t[|p|..] == rest;
    if OneEscape(c, p) {
      assert p[0] == p[..2][0] && p[1] == p[..2][1];
      assert t[2..][..4] == p[2..];
      Hex4Is(t[2..], c as int);
    } else if PairEscape(c, p) {
      var h, l :| FourHex(p[2..6], h) && FourHex(p[8..], l) && 0xD800 <= h <= 0xDBFF && 0xDC00 <= l <= 0xDFFF &&
                  c as int == 0x10000 + (h - 0xD800) * 0x400 + (l - 0xDC00);
      assert p[0] == p[..2][0] && p[1] == p[..2][1] && p[6] == p[6..8][0] && p[7] == p[6..8][1];
      assert t[2..][..4] == p[2..6] && t[8..][..4] == p[8..];
      Hex4Is(t[2..], h);
      Hex4Is(t[8..], l);
    }
  }

  lemma {:induction false} CharsSound(t: Text, s: string, rest: Text)
    requires ReadChars(t) == Got(s, rest)
    ensures |rest| < |t| && t[|t| - |rest|..] == rest && t[|t| - |rest| - 1] == '"'
    ensures SpellsChars(s, t[..|t| - |rest| - 1])
    decreases |t|
  {
    hide ReadChar, SpellsChar;
    if t[0] == '"' {
      assert t[..0] == [];
    } else {
      var c := ReadChar(t);
      CharSound(t, c.value, c.rest);
      CharsSound(c.rest, s[1..], rest);
      var k := |t| - |c.rest|;
      var body := t[..|t| - |rest| - 1];
      assert t[k..] == c.rest;
      assert body[..k] == t[..k] && body[k..] == c.rest[..|c.rest| - |rest| - 1];
      assert s[0] == c.value;
    }
  }

  lemma {:induction false} CharsComplete(s: string, body: Text, rest: Text)
    requires SpellsChars(s, body)
    ensures ReadChars(body + (['"'] + rest)) == Got(s, rest)
    decreases |s|
  {
    hide ReadChar, SpellsChar;
    var t := body + (['"'] + rest);
    if s == [] {
      assert t == ['"'] + rest && t[1..] == rest;
    } else {
      var k :| 0 < k <= |body| && SpellsChar(s[0], body[..k]) && SpellsChars(s[1..], body[k..]);
      CharsComplete(s[1..], body[k..], rest);
      var after := body[k..] + (['"'] + rest);
      assert t == body[..k] + after;
      CharComplete(s[0], body[..k], after);
      assert t[0] == body[..k][0];
      assert [s[0]] + s[1..] == s;
    }
  }

  lemma StringSound(t: Text, s: string, rest: Text)
    requires t != [] && t[0] == '"' && ReadChars(t[1..]) == Got(s, rest)
    ensures |rest| < |t| && t[|t| - |rest|..] == rest && SpellsString(s, Taken(t, rest))
  {
    hide ReadChars, SpellsChars;
    CharsSound(t[1..], s, rest);
    var p := Taken(t, rest);
    assert p[1..|p| - 1] == t[1..][..|t[1..]| - |rest| - 1];
    assert t[|t| - |rest|..] == t[1..][|t[1..]| - |rest|..];
  }

  lemma StringComplete(s: string, p: Text, rest: Text)
    requires SpellsString(s, p)
    ensures p + rest != [] && (p + rest)[0] == '"' && ReadChars((p + rest)[1..]) == Got(s, rest)
  {
    hide SpellsChars, ReadChars;
    var body := p[1..|p| - 1];
    CharsComplete(s, body, rest);
    assert (p + rest)[1..] == body + (['"'] + rest);
  }

  // ------------------------------------------------------------------ numbers

  lemma {:induction false} DigitsAreHorner(t: Text)
    requires forall i :: 0 <= i < |t| ==> IsDigit(t[i])
    ensures DigitsValue(t) == Horner(t, 0)
    decreases |t|
  {
    if t != [] {
      var n := |t| - 1;
      DigitsAreHorner(t[..n]);
      HornerSnoc(t[..n], t[n], 0);
      assert t[..n] + [t[n]] == t;
    }
  }

  /** `rest` follows the longest run of digits, whose number after `acc` is `n`. */
  ghost predicate Munched(t: Text, acc: nat, n: nat, rest: Text) {
    && |rest| <= |t| && t[|t| - |rest|..] == rest && (forall i :: 0 <= i < |t| - |rest| ==> IsDigit(Taken(t, rest)[i]))
    && n == Horner(Taken(t, rest), acc) && (rest == [] || !IsDigit(rest[0]))
  }

  lemma {:induction false} MunchTakes(t: Text, acc: nat)
    ensures Munched(t, acc, Munch(t, acc).0, Munch(t, acc).1)
    decreases |t|
  {
    hide Munched;
    if t != [] && IsDigit(t[0]) {
      MunchTakes(t[1..], acc * 10 + DigitValue(t[0]));
      MunchStep(t, acc, Munch(t, acc).0, Munch(t, acc).1);
    } else {
      MunchNone(t, acc);
    }
  }

  lemma MunchNone(t: Text, acc: nat)
    requires t == [] || !IsDigit(t[0])
    ensures Munched(t, acc, acc, t)
  {
    assert t[..0] == [];
  }

  lemma MunchStep(t: Text, acc: nat, n: nat, rest: Text)
    requires t != [] && IsDigit(t[0]) && Munched(t[1..], acc * 10 + DigitValue(t[0]), n, rest)
    ensures Munched(t, acc, n, rest)
  {
    var p, q := Taken(t, rest), Taken(t[1..], rest);
    assert p == [t[0]] + q && p[1..] == q;
    assert t[|t| - |rest|..] == t[1..][|t[1..]| - |rest|..];
  }

  lemma DigitsSound(d: Text, n: nat, rest: Text)
    requires d != [] && IsDigit(d[0])
    requires (n, rest) == if d[0] == '0' then (0, d[1..]) else Munch(d[1..], DigitValue(d[0]))
    ensures |rest| < |d| && d[|d| - |rest|..] == rest && SpellsNat(n, Taken(d, rest))
  {
    hide Munch;
    MunchTakes(d[1..], DigitValue(d[0]));
    var p := Taken(d, rest);
    if d[0] == '0' {
      assert p == [d[0]] && p[..|p| - 1] == [] && DigitsValue([]) == 0;
    } else {
      var q := Taken(d[1..], rest);
      assert p == [d[0]] + q && p[1..] == q;
      DigitsAreHorner(p);
      assert d[|d| - |rest|..] == d[1..][|d[1..]| - |rest|..];
    }
  }

  lemma NumberSound(t: Text, n: int, rest: Text)
    requires ReadNumber(t) == Got(n, rest)
    ensures |rest| < |t| && t[|t| - |rest|..] == rest && SpellsInt(n, Taken(t, rest))
  {
    hide Munch;
    var neg := t[0] == '-';
    var d := if neg then t[1..] else t;
    DigitsSound(d, if neg then -n else n, rest);
    if neg { assert Taken(t, rest)[1..] == Taken(d, rest); }
  }

  /** What may follow an integer: not what would make it another number. */
  predicate Ends(rest: Text) {
    rest == [] || (!IsDigit(rest[0]) && rest[0] != '.' && rest[0] != 'e' && rest[0] != 'E')
  }

  lemma NatComplete(n: nat, digits: Text, rest: Text)
    requires SpellsNat(n, digits) && Ends(rest)
    ensures var d := digits + rest;
            d != [] && IsDigit(d[0]) && (n, rest) == if d[0] == '0' then (0, d[1..]) else Munch(d[1..], DigitValue(d[0]))
  {
    hide Munch;
    assert forall i :: 0 <= i < |digits| ==> IsDigit(digits[i]);
    DigitsAreHorner(digits);
    var d := digits + rest;
    if digits[0] == '0' {
      assert d[1..] == rest && digits[1..] == [];
    } else {
      assert d[1..] == digits[1..] + rest;
      MunchAll(digits[1..], rest, DigitValue(d[0]));
    }
  }

  lemma NumberComplete(n: int, p: Text, rest: Text)
    requires SpellsInt(n, p) && Ends(rest)
    ensures ReadNumber(p + rest) == Got(n, rest)
  {
    hide Munch, DigitsValue;
    var neg := p[0] == '-';
    var digits := if neg then p[1..] else p;
    NatIsPositive(if neg then -n else n, digits);
    NatComplete(if neg then -n else n, digits, rest);
    var d := digits + rest;
    assert p + rest == if neg then ['-'] + d else d;
    if neg { assert (p + rest)[1..] == d; }
  }

  lemma NatIsPositive(n: int, digits: Text)
    requires SpellsNat(n, digits)
    ensures n >= 0
  {
    DigitsAreHorner(digits);
  }

  // ------------------------------------------------------------------ values

  /** What is read is what the text in front of `rest` spells. */
  lemma {:induction false} ValueSound(t: Text, v: Json, rest: Text)
    requires ReadValue(t) == Got(v, rest)
    ensures |rest| < |t| && t[|t| - |rest|..] == rest && SpellsValue(v, Taken(t, rest))
    decreases |t|, 2
  {
    hide ReadChars, ReadNumber, ReadItems, ReadMembers, SpellsString, SpellsInt, SpellsItems, SpellsMembers, UniqueKeys;
    if t[0] == '"' {
      StringSound(t, v.s, rest);
    } else if t[0] == '[' {
      ListSound(t, v, rest);
    } else if t[0] == '{' {
      ObjectSound(t, v, rest);
    } else if !StartsWith(t, "null") && !StartsWith(t, "true") && !StartsWith(t, "false") {
      NumberSound(t, v.n, rest);
    } else {
      WordSound(t, v, rest);
    }
  }

  lemma WordSound(t: Text, v: Json, rest: Text)
    requires ReadValue(t) == Got(v, rest) && t[0] !in ['"', '[', '{']
    requires StartsWith(t, "null") || StartsWith(t, "true") || StartsWith(t, "false")
    ensures |rest| < |t| && t[|t| - |rest|..] == rest && SpellsValue(v, Taken(t, rest))
  {}

  lemma {:induction false} ListSound(t: Text, v: Json, rest: Text)
    requires t != [] && t[0] == '[' && ReadValue(t) == Got(v, rest)
    ensures |rest| < |t| && t[|t| - |rest|..] == rest && SpellsValue(v, Taken(t, rest))
    decreases |t|, 1
  {
    hide ReadItems, SpellsItems, SpellsMembers, UniqueKeys;
    if |t| > 1 && t[1] == ']' {
      assert Taken(t, rest) == t[..2] && t[..2][1..1] == [];
      NoItems();
    } else {
      ItemsSound(t[1..], v.items, rest);
      Inner(t, rest, 1);
    }
  }

  lemma {:induction false} ObjectSound(t: Text, v: Json, rest: Text)
    requires t != [] && t[0] == '{' && ReadValue(t) == Got(v, rest)
    ensures |rest| < |t| && t[|t| - |rest|..] == rest && SpellsValue(v, Taken(t, rest))
    decreases |t|, 1
  {
    hide ReadMembers, SpellsItems, SpellsMembers, UniqueKeys;
    NoItems();
    if |t| > 1 && t[1] == '}' {
      assert Taken(t, rest) == t[..2] && t[..2][1..1] == [];
    } else {
      MembersSound(t[1..], [], v.members, rest);
      Inner(t, rest, 1);
      assert v.members[0..] == v.members;
    }
  }

  lemma NoItems()
    ensures SpellsItems([], []) && SpellsMembers([], []) && UniqueKeys([])
  {}

  /** The text between the first and the last character taken. */
  lemma Inner(t: Text, rest: Text, n: nat)
    requires n <= |t| && |rest| < |t[n..]| && t[n..][|t[n..]| - |rest|..] == rest
    ensures t[|t| - |rest|..] == rest
    ensures Taken(t, rest)[n..|Taken(t, rest)| - 1] == t[n..][..|t[n..]| - |rest| - 1]
    ensures Taken(t, rest)[|Taken(t, rest)| - 1] == t[n..][|t[n..]| - |rest| - 1]
  {}

  /** The text of a list before its closing bracket. */
  lemma {:induction false} ItemsSound(t: Text, xs: seq<Json>, rest: Text)
    requires ReadItems(t) == Got(xs, rest)
    ensures |rest| < |t| && t[|t| - |rest|..] == rest && t[|t| - |rest| - 1] == ']'
    ensures xs != [] && SpellsItems(xs, t[..|t| - |rest| - 1])
    decreases |t|, 3
  {
    hide ReadValue, SpellsValue;
    var x := ReadValue(t);
    ValueSound(t, x.value, x.rest);
    var k := |t| - |x.rest|;
    if x.rest[0] == ']' {
      assert xs == [x.value] && t[..k] == t[..|t| - |rest| - 1];
    } else {
      ItemsSound(x.rest[1..], xs[1..], rest);
      var body := t[..|t| - |rest| - 1];
      assert t[k..] == x.rest && t[k] == x.rest[0] == ',';
      assert body[..k] == t[..k] && body[k + 1..] == x.rest[1..][..|x.rest[1..]| - |rest| - 1];
      assert xs[0] == x.value;
    }
  }

  /** The text of the members behind `acc`, before the closing brace. */
  lemma {:induction false} MembersSound(t: Text, acc: seq<Member>, all: seq<Member>, rest: Text)
    requires ReadMembers(t, acc) == Got(all, rest)
    ensures |rest| < |t| && t[|t| - |rest|..] == rest && t[|t| - |rest| - 1] == '}'
    ensures acc < all && SpellsMembers(all[|acc|..], t[..|t| - |rest| - 1])
    ensures UniqueKeys(acc) ==> UniqueKeys(all)
    decreases |t|, 3
  {
    hide ReadMembers, UniqueKeys, SpellsMember, SpellsMembers, Has;
    var m, after := MemberTaken(t, acc, all, rest);
    SnocIsUnique(acc, m);
    if after[0] == '}' {
      LastMember(t, acc, m, after);
    } else {
      MembersSound(after[1..], acc + [m], all, rest);
      OneMoreMember(t, acc, m, all, after, rest);
    }
  }

  lemma {:induction false} MemberTaken(t: Text, acc: seq<Member>, all: seq<Member>, rest: Text)
    returns (m: Member, after: Text)
    requires ReadMembers(t, acc) == Got(all, rest)
    ensures |after| < |t| && t[|t| - |after|..] == after && SpellsMember(m, t[..|t| - |after|]) && !Has(acc, m.key)
    ensures after != [] && (after[0] == '}' || after[0] == ',')
    ensures after[0] == '}' ==> all == acc + [m] && rest == after[1..]
    ensures after[0] == ',' ==> ReadMembers(after[1..], acc + [m]) == Got(all, rest)
    decreases |t|, 2
  {
    hide ReadMembers, ReadValue, ReadChars, SpellsValue, SpellsString, SpellsMember, Has;
    var afterKey;
    m, afterKey, after := MemberParts(t, acc, all, rest);
    StringSound(t, m.key, afterKey);
    ValueSound(afterKey[1..], m.val, after);
    MemberSound(t, m, afterKey, after);
  }

  lemma MemberParts(t: Text, acc: seq<Member>, all: seq<Member>, rest: Text) returns (m: Member, afterKey: Text, after: Text)
    requires ReadMembers(t, acc) == Got(all, rest)
    ensures t != [] && t[0] == '"' && ReadChars(t[1..]) == Got(m.key, afterKey) && |afterKey| < |t|
    ensures afterKey != [] && afterKey[0] == ':' && !Has(acc, m.key) && ReadValue(afterKey[1..]) == Got(m.val, after)
    ensures after != [] && (after[0] == '}' || after[0] == ',')
    ensures after[0] == '}' ==> all == acc + [m] && rest == after[1..]
    ensures after[0] == ',' ==> ReadMembers(after[1..], acc + [m]) == Got(all, rest)
  {
    hide ReadValue, ReadChars, Has;
    var key := ReadChars(t[1..]);
    var v := ReadValue(key.rest[1..]);
    m, afterKey, after := Member(key.value, v.value), key.rest, v.rest;
  }

  lemma LastMember(t: Text, acc: seq<Member>, m: Member, after: Text)
    requires |after| <= |t| && t[|t| - |after|..] == after && after != [] && SpellsMember(m, t[..|t| - |after|])
    ensures var rest := after[1..];
            t[|t| - |rest|..] == rest && t[|t| - |rest| - 1] == after[0] && SpellsMembers((acc + [m])[|acc|..], t[..|t| - |rest| - 1])
  {
    hide SpellsMember;
    assert (acc + [m])[|acc|..] == [m];
  }

  lemma OneMoreMember(t: Text, acc: seq<Member>, m: Member, all: seq<Member>, after: Text, rest: Text)
    requires |after| <= |t| && t[|t| - |after|..] == after && after != [] && after[0] == ',' && SpellsMember(m, t[..|t| - |after|])
    requires |rest| < |after[1..]| && after[1..][|after[1..]| - |rest|..] == rest
    requires acc + [m] < all && SpellsMembers(all[|acc| + 1..], after[1..][..|after[1..]| - |rest| - 1])
    ensures acc < all && t[|t| - |rest|..] == rest && t[|t| - |rest| - 1] == after[1..][|after[1..]| - |rest| - 1]
    ensures SpellsMembers(all[|acc|..], t[..|t| - |rest| - 1])
  {
    hide SpellsMember;
    var k, body, ms := |t| - |after|, t[..|t| - |rest| - 1], all[|acc|..];
    assert all[..|acc| + 1] == acc + [m];
    assert ms[0] == all[|acc|] == m && ms[1..] == all[|acc| + 1..] && |ms| > 1;
    assert t[k] == ',' && body[..k] == t[..k] && body[k + 1..] == after[1..][..|after[1..]| - |rest| - 1];
  }

  lemma MemberSound(t: Text, m: Member, afterKey: Text, after: Text)
    requires |afterKey| < |t| && t[|t| - |afterKey|..] == afterKey && afterKey != [] && afterKey[0] == ':'
    requires SpellsString(m.key, Taken(t, afterKey))
    requires |after| < |afterKey[1..]| && afterKey[1..][|afterKey[1..]| - |after|..] == after
    requires SpellsValue(m.val, Taken(afterKey[1..], after))
    ensures t[|t| - |after|..] == after && SpellsMember(m, t[..|t| - |after|])
  {
    hide SpellsValue, SpellsString;
    var p, k := t[..|t| - |after|], |t| - |afterKey|;
    assert p[k] == t[k..][0] == ':' && p[..k] == Taken(t, afterKey);
    assert p[k + 1..] == t[k..][1..][..|afterKey[1..]| - |after|];
  }

  lemma SnocIsUnique(acc: seq<Member>, m: Member)
    requires !Has(acc, m.key)
    ensures UniqueKeys(acc) ==> UniqueKeys(acc + [m])
  {
    if UniqueKeys(acc) {
      var all := acc + [m];
      forall i, j | 0 <= i < j < |all| ensures KeySeq(all)[i] != KeySeq(all)[j] {
        if j < |acc| { assert KeySeq(acc)[i] != KeySeq(acc)[j]; } else { assert acc[i].key != m.key; }
      }
    }
  }

  // ------------------------------------------------------------------ and the other way

  lemma PlainHead(v: Json, p: Text)
    requires SpellsValue(v, p)
    ensures p != [] && (p[0] == '"' <==> v.Str?) && (p[0] == '[' <==> v.Arr?) && (p[0] == '{' <==> v.Obj?)
    ensures v.Num? ==> IsDigit(p[0]) || p[0] == '-'
    ensures p[0] != ']' && p[0] != '}'
  {
    hide SpellsItems, SpellsMembers, DigitsValue, SpellsChars;
  }

  /** Every text of the grammar is read, and what follows it is left. */
  lemma {:induction false} ValueComplete(v: Json, p: Text, rest: Text)
    requires SpellsValue(v, p) && Ends(rest)
    ensures ReadValue(p + rest) == Got(v, rest)
    decreases v, 0
  {
    hide ReadChars, ReadNumber, ReadItems, ReadMembers, SpellsString, SpellsInt, SpellsItems, SpellsMembers;
    PlainHead(v, p);
    var t := p + rest;
    assert t[0] == p[0] && t[|p|..] == rest;
    match v {
      case Null =>
      case Bool(_) =>
      case Num(n) => NumberComplete(n, p, rest); NoWordAtNumber(t);
      case Str(s) => StringComplete(s, p, rest);
      case Arr(xs) =>
        var body := p[1..|p| - 1];
        BehindFirst(p, rest);
        if xs == [] { EmptyInside(body, t); } else { ItemsComplete(xs, body, rest); ItemsStart(xs, body); }
      case Obj(ms) =>
        var body := p[1..|p| - 1];
        BehindFirst(p, rest);
        if ms == [] {
          EmptyInside(body, t);
        } else {
          MembersComplete([], ms, body, rest);
          MembersStart(ms, body);
          assert [] + ms == ms;
        }
    }
  }

  lemma BehindFirst(p: Text, rest: Text)
    requires |p| >= 2
    ensures (p + rest)[1..] == p[1..|p| - 1] + ([p[|p| - 1]] + rest)
  {}

  lemma EmptyInside(body: Text, t: Text)
    requires (SpellsItems([], body) || SpellsMembers([], body)) && |t| >= 2
    ensures body == []
  {}

  lemma ItemsStart(xs: seq<Json>, body: Text)
    requires xs != [] && SpellsItems(xs, body)
    ensures body != [] && body[0] != ']'
  {
    hide SpellsValue;
    if |xs| == 1 {
      PlainHead(xs[0], body);
    } else {
      var k :| 0 <= k < |body| && body[k] == ',' && SpellsValue(xs[0], body[..k]) && SpellsItems(xs[1..], body[k + 1..]);
      PlainHead(xs[0], body[..k]);
      assert body[..k][0] == body[0];
    }
  }

  lemma MemberStart(m: Member, body: Text)
    requires SpellsMember(m, body)
    ensures body != [] && body[0] == '"'
  {
    hide SpellsValue, SpellsChars;
    var k :| 0 <= k < |body| && body[k] == ':' && SpellsString(m.key, body[..k]) && SpellsValue(m.val, body[k + 1..]);
    assert body[..k][0] == body[0];
  }

  lemma MembersStart(ms: seq<Member>, body: Text)
    requires ms != [] && SpellsMembers(ms, body)
    ensures body != [] && body[0] == '"'
  {
    hide SpellsMember;
    if |ms| == 1 {
      MemberStart(ms[0], body);
    } else {
      var k :| 0 <= k < |body| && body[k] == ',' && SpellsMember(ms[0], body[..k]) && SpellsMembers(ms[1..], body[k + 1..]);
      MemberStart(ms[0], body[..k]);
      assert body[..k][0] == body[0];
    }
  }

  lemma {:induction false} ItemsComplete(xs: seq<Json>, body: Text, rest: Text)
    requires xs != [] && SpellsItems(xs, body)
    ensures ReadItems(body + ([']'] + rest)) == Got(xs, rest)
    decreases xs, 1
  {
    hide ReadValue, SpellsValue;
    var t := body + ([']'] + rest);
    if |xs| == 1 {
      ValueComplete(xs[0], body, [']'] + rest);
      assert ([']'] + rest)[1..] == rest && xs == [xs[0]];
    } else {
      var k :| 0 <= k < |body| && body[k] == ',' && SpellsValue(xs[0], body[..k]) && SpellsItems(xs[1..], body[k + 1..]);
      var after := body[k + 1..] + ([']'] + rest);
      ValueComplete(xs[0], body[..k], [','] + after);
      ItemsComplete(xs[1..], body[k + 1..], rest);
      assert t == body[..k] + ([','] + after) && ([','] + after)[1..] == after;
      assert [xs[0]] + xs[1..] == xs;
    }
  }

  lemma KeyIsFresh(acc: seq<Member>, m: Member, ms: seq<Member>)
    requires UniqueKeys(acc + ([m] + ms))
    ensures !Has(acc, m.key)
  {
    var all := acc + ([m] + ms);
    forall i | 0 <= i < |acc| ensures acc[i].key != m.key { assert KeySeq(all)[i] != KeySeq(all)[|acc|]; }
  }

  /** One member, its key not yet read. */
  lemma {:induction false} MemberComplete(acc: seq<Member>, m: Member, p: Text, after: Text)
    requires SpellsMember(m, p) && !Has(acc, m.key) && after != [] && (after[0] == ',' || after[0] == '}')
    ensures ReadMembers(p + after, acc) ==
            if after[0] == '}' then Got(acc + [m], after[1..]) else ReadMembers(after[1..], acc + [m])
    decreases m, 1
  {
    hide ReadValue, ReadChars, SpellsValue, SpellsString, Has, ReadMembers;
    var k :| 0 <= k < |p| && p[k] == ':' && SpellsString(m.key, p[..k]) && SpellsValue(m.val, p[k + 1..]);
    var t, tail := p + after, [':'] + (p[k + 1..] + after);
    assert t == p[..k] + tail && tail[1..] == p[k + 1..] + after;
    StringComplete(m.key, p[..k], tail);
    ValueComplete(m.val, p[k + 1..], after);
    MemberReads(t, acc, m, tail, after);
  }

  lemma MemberReads(t: Text, acc: seq<Member>, m: Member, tail: Text, after: Text)
    requires t != [] && t[0] == '"' && ReadChars(t[1..]) == Got(m.key, tail) && tail != [] && tail[0] == ':' && !Has(acc, m.key)
    requires ReadValue(tail[1..]) == Got(m.val, after) && after != [] && (after[0] == ',' || after[0] == '}')
    ensures ReadMembers(t, acc) == if after[0] == '}' then Got(acc + [m], after[1..]) else ReadMembers(after[1..], acc + [m])
  {
    hide ReadValue, ReadChars, Has;
  }

  lemma {:induction false} MembersComplete(acc: seq<Member>, ms: seq<Member>, body: Text, rest: Text)
    requires ms != [] && SpellsMembers(ms, body) && UniqueKeys(acc + ms)
    ensures ReadMembers(body + (['}'] + rest), acc) == Got(acc + ms, rest)
    decreases ms, 2
  {
    hide ReadValue, ReadMembers, SpellsValue, SpellsMember, UniqueKeys, Has;
    var m := ms[0];
    assert ms == [m] + ms[1..];
    KeyIsFresh(acc, m, ms[1..]);
    var t := body + (['}'] + rest);
    if |ms| == 1 {
      MemberComplete(acc, m, body, ['}'] + rest);
      assert (['}'] + rest)[1..] == rest && ms == [m];
    } else {
      var k :| 0 <= k < |body| && body[k] == ',' && SpellsMember(m, body[..k]) && SpellsMembers(ms[1..], body[k + 1..]);
      var after := body[k + 1..] + (['}'] + rest);
      MemberComplete(acc, m, body[..k], [','] + after);
      assert t == body[..k] + ([','] + after) && ([','] + after)[1..] == after;
      assert acc + [m] + ms[1..] == acc + ms;
      MembersComplete(acc + [m], ms[1..], body[k + 1..], rest);
    }
  }

  /** The strict loader accepts exactly the texts of the grammar that nest at most 512 deep, and gives what they spell. */
  lemma LoadsExactly(t: Text, v: Json)
    ensures LoadsStrict(t) == Some(v) <==> SpellsValue(v, t) && Depth(v) <= 512
  {
    hide ReadValue, SpellsValue, LoadsStrict;
    LoaderIsBoundedReader(t, v);
    if ReadValue(t) == Got(v, []) {
      ValueSound(t, v, []);
      assert Taken(t, []) == t;
    }
    if SpellsValue(v, t) {
      ValueComplete(v, t, []);
      assert t + [] == t;
    }
  }

  lemma NoWordAtNumber(t: Text)
    requires t != [] && (IsDigit(t[0]) || t[0] == '-')
    ensures !StartsWith(t, "null") && !StartsWith(t, "true") && !StartsWith(t, "false")
  {
    forall word: Text | |word| > 0 && StartsWith(t, word) ensures t[0] == word[0] { assert t[..|word|][0] == word[0]; }
  }

  // ------------------------------------------------------------------ the spelling the canonical form takes

  /** Printable ASCII, with lower-case letters in what is escaped. */
  predicate Plain(p: Text) {
    (forall i :: 0 <= i < |p| ==> 0x20 <= p[i] as int <= 0x7e) && (|p| > 1 ==> forall i :: 0 <= i < |p| ==> !('A' <= p[i] <= 'F'))
  }

  lemma HexCharIs(d: nat)
    requires d < 16
    ensures HexChar(d) == LOWER[d] && 0x20 <= HexChar(d) as int <= 0x7e && !('A' <= HexChar(d) <= 'F')
  {}

  lemma LowerHexIs(c: char, d: int)
    requires HexDigit(c, d) && !('A' <= c <= 'F')
    ensures c == HexChar(d)
  {
    HexCharIs(d);
  }

  lemma EscapeIs(p: Text, n: int)
    requires |p| == 6 && p[..2] == "\\u" && FourHex(p[2..], n) && forall i :: 0 <= i < |p| ==> !('A' <= p[i] <= 'F')
    ensures 0 <= n < 0x10000 && p == UnicodeEscape(n)
  {
    hide HexDigit, HexChar;
    var a, b, c, d :| n == ((a * 16 + b) * 16 + c) * 16 + d && Nibbles(p[2..], a, b, c, d);
    NibblesFit(p[2..], a, b, c, d);
    LowerHexIs(p[2], a);
    LowerHexIs(p[3], b);
    LowerHexIs(p[4], c);
    LowerHexIs(p[5], d);
    NibblesOf(a, b, c, d);
    assert p[0] == p[..2][0] && p[1] == p[..2][1];
    assert p == [p[0], p[1], p[2], p[3], p[4], p[5]];
  }

  lemma NibblesFit(t: Text, a: int, b: int, c: int, d: int)
    requires |t| == 4 && Nibbles(t, a, b, c, d)
    ensures 0 <= a < 16 && 0 <= b < 16 && 0 <= c < 16 && 0 <= d < 16
  {}

  lemma NibblesOf(a: nat, b: nat, c: nat, d: nat)
    requires a < 16 && b < 16 && c < 16 && d < 16
    ensures var n := ((a * 16 + b) * 16 + c) * 16 + d;
            n < 0x10000 && n / 4096 == a && n / 256 % 16 == b && n / 16 % 16 == c && n % 16 == d
  {}

  lemma EscapeSpells(n: nat)
    requires n < 0x10000
    ensures var p := UnicodeEscape(n);
            p[..2] == "\\u" && FourHex(p[2..], n) && forall i :: 0 <= i < |p| ==> 0x20 <= p[i] as int <= 0x7e && !('A' <= p[i] <= 'F')
  {
    hide HexChar;
    var p, a, b, c, d := UnicodeEscape(n), n / 4096, n / 256 % 16, n / 16 % 16, n % 16;
    HexCharIs(a);
    HexCharIs(b);
    HexCharIs(c);
    HexCharIs(d);
    FourDigits(n);
    assert p[2..] == [HexChar(a), HexChar(b), HexChar(c), HexChar(d)];
    assert Nibbles(p[2..], a, b, c, d);
    assert n == ((a * 16 + b) * 16 + c) * 16 + d;
  }

  /** The canonical form spells a character in lower-case printable ASCII, as shortly as the grammar allows, and no other
      such spelling is as short. */
  lemma PrintedIsShortest(c: char, p: Text)
    requires SpellsChar(c, p) && Plain(p)
    ensures |PrintChar(c)| <= |p| && (|PrintChar(c)| == |p| ==> PrintChar(c) == p)
  {
    hide FourHex, UnicodeEscape, HexChar;
    var n := c as int;
    if OneEscape(c, p) {
      EscapeIs(p, n);
    } else if PairEscape(c, p) {
      var h, l :| FourHex(p[2..6], h) && FourHex(p[8..], l) && 0xD800 <= h <= 0xDBFF && 0xDC00 <= l <= 0xDFFF &&
                  c as int == 0x10000 + (h - 0xD800) * 0x400 + (l - 0xDC00);
      assert p[..6][..2] == p[..2] && p[..6][2..] == p[2..6] && p[6..][..2] == p[6..8] && p[6..][2..] == p[8..];
      EscapeIs(p[..6], h);
      EscapeIs(p[6..], l);
      assert p == p[..6] + p[6..];
      assert (n - 0x10000) / 0x400 == h - 0xD800 && (n - 0x10000) % 0x400 == l - 0xDC00;
    } else if p == [c] {
      assert p[0] == c;
    }
  }

  lemma PrintedSpells(c: char)
    ensures SpellsChar(c, PrintChar(c)) && Plain(PrintChar(c))
  {
    hide FourHex, UnicodeEscape;
    var n, p := c as int, PrintChar(c);
    if n >= 0x10000 {
      var h, l := 0xD800 + (n - 0x10000) / 0x400, 0xDC00 + (n - 0x10000) % 0x400;
      EscapeSpells(h);
      EscapeSpells(l);
      var a, b := UnicodeEscape(h), UnicodeEscape(l);
      assert p == a + b && p[..2] == a[..2] && p[6..8] == b[..2] && p[2..6] == a[2..] && p[8..] == b[2..];
      assert PairEscape(c, p);
    } else if p == UnicodeEscape(n) {
      EscapeSpells(n);
    }
  }

  // ------------------------------------------------------------------ the order of keys

  /** Code point order: the first place where two texts differ decides, and a text comes before its continuations. */
  ghost predicate Before(a: string, b: string, i: nat) {
    i <= |a| && i < |b| && a[..i] == b[..i] && (i == |a| || a[i] < b[i])
  }

  lemma {:induction false} BelowIsBefore(a: string, b: string)
    ensures Below(a, b) <==> exists i: nat :: Before(a, b, i)
    decreases |a|
  {
    if Below(a, b) {
      if a == [] {
        assert Before(a, b, 0);
      } else if a[0] < b[0] {
        assert Before(a, b, 0);
      } else {
        BelowIsBefore(a[1..], b[1..]);
        var i: nat :| Before(a[1..], b[1..], i);
        assert a[..i + 1] == [a[0]] + a[1..][..i] && b[..i + 1] == [b[0]] + b[1..][..i];
        assert Before(a, b, i + 1);
      }
    }
    if i: nat :| Before(a, b, i) {
      if i > 0 {
        assert a[0] == a[..i][0] == b[..i][0] == b[0];
        assert a[1..][..i - 1] == a[..i][1..] && b[1..][..i - 1] == b[..i][1..];
        assert Before(a[1..], b[1..], i - 1);
        BelowIsBefore(a[1..], b[1..]);
      }
    }
  }
}
