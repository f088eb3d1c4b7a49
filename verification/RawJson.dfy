/** The spelling of a written pack: characters beyond ASCII as they are, where the canonical form escapes them. */
module RawJson {
  import opened Values
  import opened CanonicalJson
  import opened CanonicalLaws
  import JsonGrammar

  // ------------------------------------------------------------------ the spelling

  /** One character with ensure_ascii off: only quotes, backslashes and control characters are escaped. */
  function RawChar(c: char): Text {
    if c == '"' || c == '\\' || c as int < 0x20 then PrintChar(c) else [c]
  }

  function RawChars(s: string): Text { if s == [] then [] else RawChar(s[0]) + RawChars(s[1..]) }

  function RawString(s: string): Text { ['"'] + RawChars(s) + ['"'] }

  function Raw(j: Json): Text
    decreases j, 0
  {
    match j
    case Str(s) => RawString(s)
    case Arr(xs) => "[" + RawItems(xs) + "]"
    case Obj(ms) => "{" + RawMembers(ms) + "}"
    case _ => Print(j)
  }

  function RawItems(xs: seq<Json>): Text
    decreases xs, 1
  {
    if xs == [] then []
    else if |xs| == 1 then Raw(xs[0])
    else Raw(xs[0]) + "," + RawItems(xs[1..])
  }

  function RawMember(m: Member): Text
    decreases m, 1
  {
    RawString(m.key) + ":" + Raw(m.val)
  }

  function RawMembers(ms: seq<Member>): Text
    decreases ms, 2
  {
    if ms == [] then []
    else if |ms| == 1 then RawMember(ms[0])
    else RawMember(ms[0]) + "," + RawMembers(ms[1..])
  }

  /** The file spells a character as shortly as the grammar allows. */
  lemma RawIsShortest(c: char, p: Text)
    requires JsonGrammar.SpellsChar(c, p)
    ensures JsonGrammar.SpellsChar(c, RawChar(c)) && |RawChar(c)| <= |p| && (|p| == 1 ==> p == RawChar(c))
  {
    hide JsonGrammar.FourHex, UnicodeEscape, HexChar;
    JsonGrammar.PrintedSpells(c);
    if p == [c] { assert p[0] == c; }
  }

  // ------------------------------------------------------------------ it reads the same

  lemma ReadRawChar(c: char, rest: Text)
    ensures RawChar(c) != [] && RawChar(c)[0] != '"' && ReadChar(RawChar(c) + rest) == Got(c, rest)
  {
    if RawChar(c) == [c] { assert ([c] + rest)[1..] == rest; }
    ReadPrintedChar(c, rest);
  }

  lemma {:induction false} ReadRawChars(s: string, rest: Text)
    ensures ReadChars(RawChars(s) + (['"'] + rest)) == Got(s, rest)
    decreases |s|
  {
    hide ReadChar, RawChar;
    var q := ['"'] + rest;
    if s == [] {
      assert RawChars(s) + q == q && q[1..] == rest;
    } else {
      var tail := RawChars(s[1..]) + q;
      assert RawChars(s) + q == RawChar(s[0]) + tail;
      ReadRawChar(s[0], tail);
      ReadRawChars(s[1..], rest);
      assert s == [s[0]] + s[1..];
    }
  }

  lemma ReadRawString(s: string, rest: Text)
    ensures RawString(s) + rest != [] && (RawString(s) + rest)[0] == '"'
    ensures ReadChars((RawString(s) + rest)[1..]) == Got(s, rest)
  {
    assert (RawString(s) + rest)[1..] == RawChars(s) + (['"'] + rest);
    ReadRawChars(s, rest);
  }

  /** The first character tells the kind and is no closing bracket. */
  lemma RawHead(j: Json)
    ensures var p := Raw(j); p != [] && p[0] != ']' && p[0] != '}'
  {
    PrintedHead(j);
  }

  /** Reading a value so spelled gives it back, and leaves what follows. */
  lemma {:induction false} ReadRaw(j: Json, rest: Text)
    requires Valid(j) && InProfile(j) && Boundary(rest)
    ensures ReadValue(Raw(j) + rest) == Got(j, rest)
    decreases j, 0
  {
    match j {
      case Str(s) => ReadRawString(s, rest);
      case Arr(xs) => ReadRawList(xs, rest);
      case Obj(ms) => ReadRawObject(ms, rest);
      case _ => ReadPrinted(j, rest);
    }
  }

  lemma {:induction false} ReadRawList(xs: seq<Json>, rest: Text)
    requires forall i :: 0 <= i < |xs| ==> Valid(xs[i]) && InProfile(xs[i])
    ensures ReadValue(Raw(Arr(xs)) + rest) == Got(Arr(xs), rest)
    decreases xs, 2
  {
    hide ReadValue, ReadItems, Valid, InProfile;
    var t := Raw(Arr(xs)) + rest;
    if xs == [] {
      assert t == "[]" + rest;
      ReadEmpty(t, rest);
    } else {
      ReadRawItems(xs, rest);
      Bracketed('[', RawItems(xs), ']', rest);
      RawHead(xs[0]);
      assert RawItems(xs)[0] == Raw(xs[0])[0] == t[1];
      ReadList(t, xs, rest);
    }
  }

  lemma RawMembersHead(ms: seq<Member>)
    requires ms != []
    ensures RawMembers(ms) != [] && RawMembers(ms)[0] == '"'
  {
    assert RawMember(ms[0])[0] == '"';
  }

  lemma {:induction false} ReadRawObject(ms: seq<Member>, rest: Text)
    requires UniqueKeys(ms) && forall i :: 0 <= i < |ms| ==> Valid(ms[i].val) && InProfile(ms[i].val)
    ensures ReadValue(Raw(Obj(ms)) + rest) == Got(Obj(ms), rest)
    decreases ms, 3
  {
    hide ReadValue, ReadMembers, Valid, InProfile, UniqueKeys;
    var t := Raw(Obj(ms)) + rest;
    if ms == [] {
      assert t == "{}" + rest;
      ReadEmpty(t, rest);
    } else {
      assert [] + ms == ms;
      ReadRawMembers([], ms, rest);
      Bracketed('{', RawMembers(ms), '}', rest);
      RawMembersHead(ms);
      assert t[1] == RawMembers(ms)[0];
      ReadObject(t, ms, rest);
    }
  }

  lemma {:induction false} ReadRawItems(xs: seq<Json>, rest: Text)
    requires xs != [] && forall i :: 0 <= i < |xs| ==> Valid(xs[i]) && InProfile(xs[i])
    ensures ReadItems(RawItems(xs) + ([']'] + rest)) == Got(xs, rest)
    decreases xs, 1
  {
    hide ReadValue, Valid, InProfile;
    var close := [']'] + rest;
    if |xs| == 1 {
      ReadRaw(xs[0], close);
      assert close[1..] == rest && xs == [xs[0]];
    } else {
      var tail := RawItems(xs[1..]) + close;
      Separated(Raw(xs[0]), RawItems(xs[1..]), close);
      ReadRaw(xs[0], [','] + tail);
      ReadRawItems(xs[1..], rest);
      ReadItemsStep(RawItems(xs) + close, xs[0], tail, xs[1..], rest);
      assert xs == [xs[0]] + xs[1..];
    }
  }

  lemma ReadRawMember(m: Member, acc: seq<Member>, rest: Text)
    requires Valid(m.val) && InProfile(m.val) && Boundary(rest) && rest != [] && !Has(acc, m.key)
    ensures rest[0] == '}' ==> ReadMembers(RawMember(m) + rest, acc) == Got(acc + [m], rest[1..])
    ensures rest[0] == ',' ==> ReadMembers(RawMember(m) + rest, acc) == ReadMembers(rest[1..], acc + [m])
    decreases m, 1
  {
    hide ReadMembers, ReadValue, ReadChars, RawChars, Has;
    var after := Raw(m.val) + rest;
    assert RawMember(m) + rest == RawString(m.key) + ([':'] + after);
    ReadRawString(m.key, [':'] + after);
    ReadRaw(m.val, rest);
    ReadMembersStep(RawMember(m) + rest, acc, m.key, after, m.val, rest);
  }

  lemma {:induction false} ReadRawMembers(acc: seq<Member>, ms: seq<Member>, rest: Text)
    requires ms != [] && UniqueKeys(acc + ms)
    requires forall i :: 0 <= i < |ms| ==> Valid(ms[i].val) && InProfile(ms[i].val)
    ensures ReadMembers(RawMembers(ms) + (['}'] + rest), acc) == Got(acc + ms, rest)
    decreases ms, 2
  {
    hide ReadMembers, Valid, InProfile;
    var close := ['}'] + rest;
    KeyIsNew(acc, ms);
    if |ms| == 1 {
      ReadRawMember(ms[0], acc, close);
      assert close[1..] == rest && ms == [ms[0]];
    } else {
      var tail := RawMembers(ms[1..]) + close;
      Separated(RawMember(ms[0]), RawMembers(ms[1..]), close);
      ReadRawMember(ms[0], acc, [','] + tail);
      assert acc + ms == (acc + [ms[0]]) + ms[1..];
      ReadRawMembers(acc + [ms[0]], ms[1..], rest);
    }
  }

  /** The strict loader gives the same for a value as it is written to a file, keys sorted and characters raw, as for its
      canonical form; its two scans hold nothing against either. */
  lemma RawLoadsAsCanon(j: Json)
    requires Valid(j) && InProfile(j)
    ensures LoadsStrict(Raw(Norm(j))) == LoadsStrict(Canon(j))
  {
    hide LoadsStrict, Raw, Canon, Norm, ReadValue;
    CanonRoundTrip(j);
    NormIsValid(j);
    DepthOfNorm(j);
    ReadRaw(Norm(j), []);
    assert Raw(Norm(j)) + [] == Raw(Norm(j));
    var l := LoadsStrict(Raw(Norm(j)));
    if l.Some? { LoaderIsBoundedReader(Raw(Norm(j)), l.value); }
    LoaderIsBoundedReader(Raw(Norm(j)), Norm(j));
  }
}
