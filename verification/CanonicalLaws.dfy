/** The strict reader gives back what the printer wrote; the scans before it are exact; canonical forms are equal for
    equal values only. */
module CanonicalLaws {
  import opened Values
  import opened CanonicalJson
  import opened Rearrangements

  /** Integers within the portable range, all the way down. */
  ghost predicate InProfile(j: Json) {
    match j
    case Num(n) => -9007199254740991 <= n <= 9007199254740991
    case Arr(xs) => forall i :: 0 <= i < |xs| ==> InProfile(xs[i])
    case Obj(ms) => forall i :: 0 <= i < |ms| ==> InProfile(ms[i].val)
    case _ => true
  }

  /** What may follow a value. */
  predicate Boundary(rest: Text) { rest == [] || rest[0] == ',' || rest[0] == ']' || rest[0] == '}' }

  // ------------------------------------------------------------------ numbers

  function Horner(s: Text, acc: nat): nat
    requires forall i :: 0 <= i < |s| ==> IsDigit(s[i])
  {
    if s == [] then acc else Horner(s[1..], acc * 10 + DigitValue(s[0]))
  }

  lemma {:induction false} MunchAll(s: Text, rest: Text, acc: nat)
    requires forall i :: 0 <= i < |s| ==> IsDigit(s[i])
    requires rest == [] || !IsDigit(rest[0])
    ensures Munch(s + rest, acc) == (Horner(s, acc), rest)
    decreases |s|
  {
    if s == [] {
      assert s + rest == rest;
    } else {
      assert (s + rest)[1..] == s[1..] + rest;
      MunchAll(s[1..], rest, acc * 10 + DigitValue(s[0]));
    }
  }

  lemma {:induction false} HornerSnoc(s: Text, c: char, acc: nat)
    requires (forall i :: 0 <= i < |s| ==> IsDigit(s[i])) && IsDigit(c)
    ensures Horner(s + [c], acc) == Horner(s, acc) * 10 + DigitValue(c)
    decreases |s|
  {
    if s == [] {
      assert s + [c] == [c];
    } else {
      assert (s + [c])[1..] == s[1..] + [c];
      HornerSnoc(s[1..], c, acc * 10 + DigitValue(s[0]));
    }
  }

  /** Decimal digits without a leading zero, whose value is the number. */
  lemma {:induction false} PrintNatDigits(n: nat)
    ensures |PrintNat(n)| > 0 && forall i :: 0 <= i < |PrintNat(n)| ==> IsDigit(PrintNat(n)[i])
    ensures Horner(PrintNat(n), 0) == n
    ensures PrintNat(n)[0] == '0' <==> n == 0
    decreases n
  {
    if n >= 10 {
      PrintNatDigits(n / 10);
      HornerSnoc(PrintNat(n / 10), DigitChar(n % 10), 0);
    } else {
      assert PrintNat(n)[1..] == [];
    }
  }

  /** A digit string read at the front, up to what is no digit. */
  lemma ReadDigits(s: Text, rest: Text)
    requires s != [] && (forall i :: 0 <= i < |s| ==> IsDigit(s[i])) && (s[0] == '0' ==> |s| == 1) && Boundary(rest)
    ensures s[0] == '0' ==> (s + rest)[1..] == rest && Horner(s, 0) == 0
    ensures s[0] != '0' ==> Munch((s + rest)[1..], DigitValue(s[0])) == (Horner(s, 0), rest)
  {
    hide Munch;
    assert (s + rest)[1..] == s[1..] + rest;
    if s[0] == '0' {
      assert s[1..] == [];
    } else {
      MunchAll(s[1..], rest, DigitValue(s[0]));
    }
  }

  lemma NumberReads(t: Text, neg: bool, d: Text, n: int, rest: Text)
    requires d != [] && IsDigit(d[0]) && t == (if neg then ['-'] + d else d) && 0 <= n <= SAFE_INT && Boundary(rest)
    requires if d[0] == '0' then d[1..] == rest && n == 0 else Munch(d[1..], DigitValue(d[0])) == (n, rest)
    ensures ReadNumber(t) == Got(if neg then -n else n, rest)
  {
    if neg {
      assert t[1..] == d;
    }
  }

  lemma ReadPrintedNumber(n: int, rest: Text)
    requires -SAFE_INT <= n <= SAFE_INT && Boundary(rest)
    ensures ReadNumber(PrintInt(n) + rest) == Got(n, rest)
  {
    hide ReadNumber, Horner, Munch;
    var m := if n < 0 then -n else n;
    var s := PrintNat(m);
    PrintNatDigits(m);
    ReadDigits(s, rest);
    assert (s + rest)[0] == s[0];
    assert PrintInt(n) + rest == if n < 0 then ['-'] + (s + rest) else s + rest;
    NumberReads(PrintInt(n) + rest, n < 0, s + rest, m, rest);
  }

  // ------------------------------------------------------------------ strings

  lemma HexCharReads(d: nat)
    requires d < 16
    ensures IsHex(HexChar(d)) && HexValue(HexChar(d)) == d
  {}

  lemma FourDigits(n: nat)
    requires n < 0x10000
    ensures n / 4096 < 16 && n / 4096 * 4096 + n / 256 % 16 * 256 + n / 16 % 16 * 16 + n % 16 == n
  {}

  lemma HexReads(n: nat, rest: Text)
    requires n < 0x10000
    ensures Hex4((UnicodeEscape(n) + rest)[2..]) == Some(n)
    ensures (UnicodeEscape(n) + rest)[6..] == rest
  {
    var t := (UnicodeEscape(n) + rest)[2..];
    FourDigits(n);
    HexCharReads(n / 4096);
    HexCharReads(n / 256 % 16);
    HexCharReads(n / 16 % 16);
    HexCharReads(n % 16);
    assert t[0] == HexChar(n / 4096) && t[1] == HexChar(n / 256 % 16) && t[2] == HexChar(n / 16 % 16) && t[3] == HexChar(n % 16);
  }

  lemma PairReads(t: Text, n: nat, m: nat)
    requires |t| >= 12 && t[0] == '\\' && t[1] == 'u' && t[6] == '\\' && t[7] == 'u'
    requires Hex4(t[2..]) == Some(n) && Hex4(t[8..]) == Some(m) && High(n) && Low(m)
    ensures ReadChar(t) == Got((0x10000 + (n - 0xD800) * 0x400 + (m - 0xDC00)) as char, t[12..])
  {}

  lemma ReadPrintedPair(c: char, rest: Text)
    requires c as int >= 0x10000
    ensures ReadChar(PrintChar(c) + rest) == Got(c, rest)
  {
    var n := c as int;
    var h, l := 0xD800 + (n - 0x10000) / 0x400, 0xDC00 + (n - 0x10000) % 0x400;
    var tail := UnicodeEscape(l) + rest;
    var t := PrintChar(c) + rest;
    assert t == UnicodeEscape(h) + tail;
    HexReads(h, tail);
    HexReads(l, rest);
    assert t[6..] == tail && t[8..] == tail[2..] && t[12..] == tail[6..];
    PairReads(t, h, l);
  }

  lemma ReadPrintedChar(c: char, rest: Text)
    ensures PrintChar(c) != [] && PrintChar(c)[0] != '"' && ReadChar(PrintChar(c) + rest) == Got(c, rest)
  {
    var n := c as int;
    var p := PrintChar(c);
    if p == [c] {
      assert (p + rest)[1..] == rest;
    } else if |p| == 2 {
      assert (p + rest)[2..] == rest;
    } else if n < 0x10000 {
      HexReads(n, rest);
    } else {
      ReadPrintedPair(c, rest);
    }
  }

  lemma {:induction false} ReadPrintedChars(s: string, rest: Text)
    ensures ReadChars(PrintChars(s) + (['"'] + rest)) == Got(s, rest)
    decreases |s|
  {
    var q := ['"'] + rest;
    if s == [] {
      assert PrintChars(s) + q == q && q[1..] == rest;
    } else {
      var tail := PrintChars(s[1..]) + q;
      assert PrintChars(s) + q == PrintChar(s[0]) + tail;
      ReadPrintedChar(s[0], tail);
      ReadPrintedChars(s[1..], rest);
      assert s == [s[0]] + s[1..];
    }
  }

  lemma ReadPrintedString(s: string, rest: Text)
    ensures PrintString(s) + rest != [] && (PrintString(s) + rest)[0] == '"'
    ensures ReadChars((PrintString(s) + rest)[1..]) == Got(s, rest)
  {
    assert (PrintString(s) + rest)[1..] == PrintChars(s) + (['"'] + rest);
    ReadPrintedChars(s, rest);
  }

  // ------------------------------------------------------------------ values

  /** The first character of a printed value tells its kind and is no closing bracket. */
  lemma PrintedHead(j: Json)
    ensures var p := Print(j); p != [] && p[0] != ']' && p[0] != '}'
  {
    if j.Num? { PrintNatDigits(if j.n < 0 then -j.n else j.n); }
  }

  lemma NoWord(t: Text, word: Text)
    requires t != [] && word != [] && t[0] != word[0]
    ensures !StartsWith(t, word)
  {
    assert |word| <= |t| ==> t[..|word|][0] == t[0];
  }

  lemma ReadWord(j: Json, rest: Text)
    requires j.Null? || j.Bool?
    ensures ReadValue(Print(j) + rest) == Got(j, rest)
  {
    var p := Print(j);
    var t := p + rest;
    assert t[..|p|] == p && t[|p|..] == rest && t[0] == p[0];
    if !j.Null? { NoWord(t, "null"); }
    if j == Bool(false) { NoWord(t, "true"); }
  }

  lemma ReadInt(n: int, rest: Text)
    requires -SAFE_INT <= n <= SAFE_INT && Boundary(rest)
    ensures ReadValue(PrintInt(n) + rest) == Got(Num(n), rest)
  {
    var t := PrintInt(n) + rest;
    PrintNatDigits(if n < 0 then -n else n);
    assert t[0] == PrintInt(n)[0];
    NoWord(t, "null");
    NoWord(t, "true");
    NoWord(t, "false");
    ReadPrintedNumber(n, rest);
  }

  /** A list whose elements are read is read. */
  lemma ReadList(t: Text, xs: seq<Json>, rest: Text)
    requires |t| > 1 && t[0] == '[' && t[1] != ']' && ReadItems(t[1..]) == Got(xs, rest)
    ensures ReadValue(t) == Got(Arr(xs), rest)
  {}

  lemma ReadObject(t: Text, ms: seq<Member>, rest: Text)
    requires |t| > 1 && t[0] == '{' && t[1] != '}' && ReadMembers(t[1..], []) == Got(ms, rest)
    ensures ReadValue(t) == Got(Obj(ms), rest)
  {}

  /** Reading a printed value gives it back, and leaves what follows. */
  lemma {:induction false} ReadPrinted(j: Json, rest: Text)
    requires Valid(j) && InProfile(j) && Boundary(rest)
    ensures ReadValue(Print(j) + rest) == Got(j, rest)
    decreases j, 0
  {
    match j {
      case Null => ReadWord(j, rest);
      case Bool(b) => ReadWord(j, rest);
      case Num(n) => ReadInt(n, rest);
      case Str(s) => ReadPrintedString(s, rest);
      case Arr(xs) => ReadPrintedList(xs, rest);
      case Obj(ms) => ReadPrintedObject(ms, rest);
    }
  }

  lemma Bracketed(open: char, body: Text, close: char, rest: Text)
    ensures ([open] + body + [close]) + rest == [open] + (body + ([close] + rest))
    ensures (([open] + body + [close]) + rest)[1..] == body + ([close] + rest)
  {}

  lemma ReadEmpty(t: Text, rest: Text)
    requires t == "[]" + rest || t == "{}" + rest
    ensures ReadValue(t) == Got(if t[0] == '[' then Arr([]) else Obj([]), rest)
  {
    assert t[2..] == rest;
  }

  lemma {:induction false} ReadPrintedList(xs: seq<Json>, rest: Text)
    requires forall i :: 0 <= i < |xs| ==> Valid(xs[i]) && InProfile(xs[i])
    ensures ReadValue(Print(Arr(xs)) + rest) == Got(Arr(xs), rest)
    decreases xs, 2
  {
    var t := Print(Arr(xs)) + rest;
    if xs == [] {
      assert t == "[]" + rest;
      ReadEmpty(t, rest);
    } else {
      ReadPrintedItems(xs, rest);
      Bracketed('[', PrintItems(xs), ']', rest);
      PrintedHead(xs[0]);
      assert PrintItems(xs)[0] == Print(xs[0])[0] == t[1];
      ReadList(t, xs, rest);
    }
  }

  lemma PrintMembersHead(ms: seq<Member>)
    requires ms != []
    ensures PrintMembers(ms) != [] && PrintMembers(ms)[0] == '"'
  {
    assert PrintMember(ms[0])[0] == '"';
  }

  lemma {:induction false} ReadPrintedObject(ms: seq<Member>, rest: Text)
    requires UniqueKeys(ms) && forall i :: 0 <= i < |ms| ==> Valid(ms[i].val) && InProfile(ms[i].val)
    ensures ReadValue(Print(Obj(ms)) + rest) == Got(Obj(ms), rest)
    decreases ms, 3
  {
    hide ReadValue, ReadMembers, Valid, InProfile, UniqueKeys;
    var t := Print(Obj(ms)) + rest;
    if ms == [] {
      assert t == "{}" + rest;
      ReadEmpty(t, rest);
    } else {
      assert [] + ms == ms;
      ReadPrintedMembers([], ms, rest);
      Bracketed('{', PrintMembers(ms), '}', rest);
      PrintMembersHead(ms);
      assert t[1] == PrintMembers(ms)[0];
      ReadObject(t, ms, rest);
    }
  }

  /** One element, a comma, and the rest of the list. */
  lemma ReadItemsStep(t: Text, x: Json, tail: Text, xs: seq<Json>, rest: Text)
    requires ReadValue(t) == Got(x, [','] + tail) && ReadItems(tail) == Got(xs, rest)
    ensures ReadItems(t) == Got([x] + xs, rest)
  {
    assert ([','] + tail)[1..] == tail;
  }

  lemma Separated(head: Text, tail: Text, close: Text)
    ensures (head + "," + tail) + close == head + ([','] + (tail + close))
    ensures ([','] + (tail + close))[1..] == tail + close
  {}

  lemma {:induction false} ReadPrintedItems(xs: seq<Json>, rest: Text)
    requires xs != [] && forall i :: 0 <= i < |xs| ==> Valid(xs[i]) && InProfile(xs[i])
    ensures ReadItems(PrintItems(xs) + ([']'] + rest)) == Got(xs, rest)
    decreases xs, 1
  {
    var close := [']'] + rest;
    if |xs| == 1 {
      ReadPrinted(xs[0], close);
      assert close[1..] == rest && xs == [xs[0]];
    } else {
      var tail := PrintItems(xs[1..]) + close;
      Separated(Print(xs[0]), PrintItems(xs[1..]), close);
      ReadPrinted(xs[0], [','] + tail);
      ReadPrintedItems(xs[1..], rest);
      ReadItemsStep(PrintItems(xs) + close, xs[0], tail, xs[1..], rest);
      assert xs == [xs[0]] + xs[1..];
    }
  }

  lemma KeyIsNew(acc: seq<Member>, ms: seq<Member>)
    requires ms != [] && UniqueKeys(acc + ms)
    ensures !Has(acc, ms[0].key)
  {
    forall i | 0 <= i < |acc| ensures acc[i].key != ms[0].key {
      assert KeySeq(acc + ms)[i] != KeySeq(acc + ms)[|acc|];
    }
  }

  /** One member read: what follows it is a comma and more members, or the closing brace. */
  lemma ReadMembersStep(t: Text, acc: seq<Member>, k: string, after: Text, v: Json, rest: Text)
    requires t != [] && t[0] == '"' && ReadChars(t[1..]) == Got(k, [':'] + after) && ReadValue(after) == Got(v, rest)
    requires !Has(acc, k) && rest != []
    ensures rest[0] == '}' ==> ReadMembers(t, acc) == Got(acc + [Member(k, v)], rest[1..])
    ensures rest[0] == ',' ==> ReadMembers(t, acc) == ReadMembers(rest[1..], acc + [Member(k, v)])
  {
    assert ([':'] + after)[1..] == after;
  }

  lemma ReadPrintedMember(m: Member, acc: seq<Member>, rest: Text)
    requires Valid(m.val) && InProfile(m.val) && Boundary(rest) && rest != [] && !Has(acc, m.key)
    ensures rest[0] == '}' ==> ReadMembers(PrintMember(m) + rest, acc) == Got(acc + [m], rest[1..])
    ensures rest[0] == ',' ==> ReadMembers(PrintMember(m) + rest, acc) == ReadMembers(rest[1..], acc + [m])
    decreases m, 1
  {
    hide ReadMembers, ReadValue, ReadChars, PrintChars, Has;
    var after := Print(m.val) + rest;
    assert PrintMember(m) + rest == PrintString(m.key) + ([':'] + after);
    ReadPrintedString(m.key, [':'] + after);
    ReadPrinted(m.val, rest);
    ReadMembersStep(PrintMember(m) + rest, acc, m.key, after, m.val, rest);
  }

  lemma {:induction false} ReadPrintedMembers(acc: seq<Member>, ms: seq<Member>, rest: Text)
    requires ms != [] && UniqueKeys(acc + ms)
    requires forall i :: 0 <= i < |ms| ==> Valid(ms[i].val) && InProfile(ms[i].val)
    ensures ReadMembers(PrintMembers(ms) + (['}'] + rest), acc) == Got(acc + ms, rest)
    decreases ms, 2
  {
    hide ReadMembers, Valid, InProfile;
    var close := ['}'] + rest;
    KeyIsNew(acc, ms);
    if |ms| == 1 {
      ReadPrintedMember(ms[0], acc, close);
      assert close[1..] == rest && ms == [ms[0]];
    } else {
      var tail := PrintMembers(ms[1..]) + close;
      Separated(PrintMember(ms[0]), PrintMembers(ms[1..]), close);
      ReadPrintedMember(ms[0], acc, [','] + tail);
      assert acc + ms == (acc + [ms[0]]) + ms[1..];
      ReadPrintedMembers(acc + [ms[0]], ms[1..], rest);
    }
  }

  // ------------------------------------------------------------------ values out of profile

  lemma RefusePrintedNumber(n: int, rest: Text)
    requires !(-SAFE_INT <= n <= SAFE_INT) && Boundary(rest)
    ensures ReadValue(PrintInt(n) + rest) == Refused
  {
    hide ReadNumber, Horner, Munch;
    var m := if n < 0 then -n else n;
    var s := PrintNat(m);
    var t := PrintInt(n) + rest;
    PrintNatDigits(m);
    ReadDigits(s, rest);
    assert (s + rest)[0] == s[0] && t[0] == PrintInt(n)[0];
    assert t == if n < 0 then ['-'] + (s + rest) else s + rest;
    NoWord(t, "null");
    NoWord(t, "true");
    NoWord(t, "false");
    LargeRefused(t, n < 0, s + rest, m, rest);
  }

  lemma LargeRefused(t: Text, neg: bool, d: Text, n: nat, rest: Text)
    requires d != [] && IsDigit(d[0]) && d[0] != '0' && t == (if neg then ['-'] + d else d) && n > SAFE_INT && Boundary(rest)
    requires Munch(d[1..], DigitValue(d[0])) == (n, rest)
    ensures ReadNumber(t) == Refused
  {
    if neg {
      assert t[1..] == d;
    }
  }

  /** A list or an object whose content is refused is refused. */
  lemma RefuseContent(t: Text)
    requires |t| > 1
    requires (t[0] == '[' && t[1] != ']' && ReadItems(t[1..]) == Refused)
          || (t[0] == '{' && t[1] != '}' && ReadMembers(t[1..], []) == Refused)
    ensures ReadValue(t) == Refused
  {}

  /** A value that holds an integer past the portable range anywhere is refused, whatever is around it. */
  lemma {:induction false} RefusePrinted(j: Json, rest: Text)
    requires Valid(j) && !InProfile(j) && Boundary(rest)
    ensures ReadValue(Print(j) + rest) == Refused
    decreases j, 0
  {
    hide ReadValue, Print;
    match j {
      case Num(n) => PrintOfNumber(n); RefusePrintedNumber(n, rest);
      case Arr(xs) => RefusePrintedList(xs, rest);
      case Obj(ms) => RefusePrintedObject(ms, rest);
    }
  }

  lemma PrintOfNumber(n: int)
    ensures Print(Num(n)) == PrintInt(n)
  {}

  lemma {:induction false} RefusePrintedList(xs: seq<Json>, rest: Text)
    requires xs != [] && (forall i :: 0 <= i < |xs| ==> Valid(xs[i])) && exists i :: 0 <= i < |xs| && !InProfile(xs[i])
    ensures ReadValue(Print(Arr(xs)) + rest) == Refused
    decreases xs, 2
  {
    hide ReadItems, ReadValue;
    var t := Print(Arr(xs)) + rest;
    RefusePrintedItems(xs, rest);
    Bracketed('[', PrintItems(xs), ']', rest);
    PrintedHead(xs[0]);
    assert PrintItems(xs)[0] == Print(xs[0])[0] == t[1];
    RefuseContent(t);
  }

  lemma {:induction false} RefusePrintedObject(ms: seq<Member>, rest: Text)
    requires ms != [] && UniqueKeys(ms)
    requires (forall i :: 0 <= i < |ms| ==> Valid(ms[i].val)) && exists i :: 0 <= i < |ms| && !InProfile(ms[i].val)
    ensures ReadValue(Print(Obj(ms)) + rest) == Refused
    decreases ms, 3
  {
    hide ReadMembers, ReadValue;
    var t := Print(Obj(ms)) + rest;
    assert [] + ms == ms;
    RefusePrintedMembers([], ms, rest);
    Bracketed('{', PrintMembers(ms), '}', rest);
    PrintMembersHead(ms);
    assert t[1] == PrintMembers(ms)[0];
    RefuseContent(t);
  }

  lemma {:induction false} RefusePrintedItems(xs: seq<Json>, rest: Text)
    requires xs != [] && (forall i :: 0 <= i < |xs| ==> Valid(xs[i])) && exists i :: 0 <= i < |xs| && !InProfile(xs[i])
    ensures ReadItems(PrintItems(xs) + ([']'] + rest)) == Refused
    decreases xs, 1
  {
    hide ReadValue, Valid, InProfile;
    var close := [']'] + rest;
    if |xs| == 1 {
      RefusePrinted(xs[0], close);
    } else {
      var tail := PrintItems(xs[1..]) + close;
      Separated(Print(xs[0]), PrintItems(xs[1..]), close);
      if !InProfile(xs[0]) {
        RefusePrinted(xs[0], [','] + tail);
      } else {
        ReadPrinted(xs[0], [','] + tail);
        var i :| 0 <= i < |xs| && !InProfile(xs[i]);
        assert xs[1..][i - 1] == xs[i];
        RefusePrintedItems(xs[1..], rest);
        assert ([','] + tail)[1..] == tail;
      }
    }
  }

  lemma RefusePrintedMember(m: Member, acc: seq<Member>, rest: Text)
    requires Valid(m.val) && !InProfile(m.val) && Boundary(rest) && rest != []
    ensures ReadMembers(PrintMember(m) + rest, acc) == Refused
    decreases m, 1
  {
    hide ReadValue, ReadChars, PrintChars, Has;
    var after := Print(m.val) + rest;
    assert PrintMember(m) + rest == PrintString(m.key) + ([':'] + after);
    ReadPrintedString(m.key, [':'] + after);
    RefusePrinted(m.val, rest);
    assert ([':'] + after)[1..] == after;
  }

  lemma {:induction false} RefusePrintedMembers(acc: seq<Member>, ms: seq<Member>, rest: Text)
    requires ms != [] && UniqueKeys(acc + ms)
    requires (forall i :: 0 <= i < |ms| ==> Valid(ms[i].val)) && exists i :: 0 <= i < |ms| && !InProfile(ms[i].val)
    ensures ReadMembers(PrintMembers(ms) + (['}'] + rest), acc) == Refused
    decreases ms, 2
  {
    hide ReadMembers, Valid, InProfile;
    var close := ['}'] + rest;
    if |ms| == 1 {
      RefusePrintedMember(ms[0], acc, close);
    } else {
      var tail := PrintMembers(ms[1..]) + close;
      Separated(PrintMember(ms[0]), PrintMembers(ms[1..]), close);
      if !InProfile(ms[0].val) {
        RefusePrintedMember(ms[0], acc, [','] + tail);
      } else {
        KeyIsNew(acc, ms);
        ReadPrintedMember(ms[0], acc, [','] + tail);
        var i :| 0 <= i < |ms| && !InProfile(ms[i].val);
        assert ms[1..][i - 1] == ms[i];
        assert acc + ms == (acc + [ms[0]]) + ms[1..];
        RefusePrintedMembers(acc + [ms[0]], ms[1..], rest);
      }
    }
  }

  // ------------------------------------------------------------------ sorting keys

  lemma {:induction false} NormMembersAt(ms: seq<Member>, i: nat)
    requires i < |ms|
    ensures NormMembers(ms)[i] == Member(ms[i].key, Norm(ms[i].val))
    decreases |ms|
  {
    if i > 0 { NormMembersAt(ms[1..], i - 1); }
  }

  lemma {:induction false} NormItemsAt(xs: seq<Json>, i: nat)
    requires i < |xs|
    ensures NormItems(xs)[i] == Norm(xs[i])
    decreases |xs|
  {
    if i > 0 { NormItemsAt(xs[1..], i - 1); }
  }

  /** A member of the sorted object is a member of the object, sorted inside. */
  lemma SortedMember(ms: seq<Member>, m: Member) returns (i: nat)
    requires m in Sort(NormMembers(ms))
    ensures i < |ms| && m == Member(ms[i].key, Norm(ms[i].val))
  {
    assert m in multiset(NormMembers(ms));
    i :| 0 <= i < |NormMembers(ms)| && NormMembers(ms)[i] == m;
    NormMembersAt(ms, i);
  }

  lemma {:induction false} NormIsValid(j: Json)
    requires Valid(j)
    ensures Valid(Norm(j)) && (InProfile(j) <==> InProfile(Norm(j)))
    decreases j, 0
  {
    match j {
      case Arr(xs) =>
        forall i | 0 <= i < |xs| ensures Valid(NormItems(xs)[i]) && (InProfile(xs[i]) <==> InProfile(NormItems(xs)[i])) {
          NormItemsAt(xs, i);
          NormIsValid(xs[i]);
        }
      case Obj(ms) => NormObjectIsValid(ms);
      case _ =>
    }
  }

  lemma {:induction false} NormObjectIsValid(ms: seq<Member>)
    requires Valid(Obj(ms))
    ensures Valid(Norm(Obj(ms))) && (InProfile(Obj(ms)) <==> InProfile(Norm(Obj(ms))))
    decreases ms, 1
  {
    hide Sort;
    var ns := Sort(NormMembers(ms));
    UniqueAfterNorm(ms);
    forall i | 0 <= i < |ms|
      ensures Valid(Norm(ms[i].val)) && (InProfile(ms[i].val) <==> InProfile(Norm(ms[i].val)))
    {
      NormIsValid(ms[i].val);
    }
    forall k | 0 <= k < |ns| ensures Valid(ns[k].val) && (InProfile(Obj(ms)) ==> InProfile(ns[k].val)) {
      var i := SortedMember(ms, ns[k]);
    }
    if InProfile(Obj(ns)) {
      forall i | 0 <= i < |ms| ensures InProfile(ms[i].val) { var k := SortedPlace(ms, i); }
    }
  }

  /** Where the sorted object keeps a member. */
  lemma SortedPlace(ms: seq<Member>, i: nat) returns (k: nat)
    requires i < |ms|
    ensures k < |Sort(NormMembers(ms))| && Sort(NormMembers(ms))[k] == Member(ms[i].key, Norm(ms[i].val))
  {
    var m := Member(ms[i].key, Norm(ms[i].val));
    NormMembersAt(ms, i);
    assert m in multiset(Sort(NormMembers(ms)));
    k :| 0 <= k < |Sort(NormMembers(ms))| && Sort(NormMembers(ms))[k] == m;
  }

  lemma UniqueAfterNorm(ms: seq<Member>)
    requires UniqueKeys(ms)
    ensures UniqueKeys(NormMembers(ms)) && UniqueKeys(Sort(NormMembers(ms)))
  {
    forall i, j | 0 <= i < j < |ms| ensures KeySeq(NormMembers(ms))[i] != KeySeq(NormMembers(ms))[j] {
      NormMembersAt(ms, i);
      NormMembersAt(ms, j);
      assert KeySeq(ms)[i] != KeySeq(ms)[j];
    }
    KeysOfRearranged(NormMembers(ms), Sort(NormMembers(ms)));
  }

  /** The strict reader gives back the canonical value of every in-profile value. */
  lemma CanonReads(j: Json)
    requires Valid(j) && InProfile(j)
    ensures ReadValue(Canon(j)) == Got(Norm(j), [])
  {
    NormIsValid(j);
    ReadPrinted(Norm(j), []);
    assert Canon(j) + [] == Canon(j);
  }

  /** Equal canonical forms mean equal values up to the order of keys, and the other way round. */
  lemma CanonIsInjective(a: Json, b: Json)
    requires Valid(a) && Valid(b) && InProfile(a) && InProfile(b)
    ensures Canon(a) == Canon(b) <==> Norm(a) == Norm(b)
  {
    CanonReads(a);
    CanonReads(b);
  }

  /** What sorting keys keeps: looking a key up finds the same value, sorted inside. */
  lemma NormLookup(ms: seq<Member>, k: string)
    requires UniqueKeys(ms)
    ensures Lookup(Sort(NormMembers(ms)), k)
         == match Lookup(ms, k) case None => None case Some(v) => Some(Norm(v))
  {
    var ns := Sort(NormMembers(ms));
    UniqueAfterNorm(ms);
    if Has(ns, k) {
      var m := Member(k, Lookup(ns, k).value);
      var i := SortedMember(ms, m);
      LookupUnique(ms, ms[i]);
    } else if Has(ms, k) {
      var i :| 0 <= i < |ms| && ms[i].key == k;
      NormMembersAt(ms, i);
      assert NormMembers(ms)[i] in multiset(ns);
    }
  }

  lemma {:induction false} LookupUnique(ms: seq<Member>, m: Member)
    requires UniqueKeys(ms) && m in ms
    ensures Lookup(ms, m.key) == Some(m.val)
    decreases |ms|
  {
    var i :| 0 <= i < |ms| && ms[i] == m;
    if i > 0 {
      assert KeySeq(ms)[0] != KeySeq(ms)[i];
      assert UniqueKeys(ms[1..]) by {
        forall p, q | 0 <= p < q < |ms| - 1 ensures KeySeq(ms[1..])[p] != KeySeq(ms[1..])[q] {
          assert KeySeq(ms)[p + 1] != KeySeq(ms)[q + 1];
        }
      }
      assert ms[1..][i - 1] == m;
      LookupUnique(ms[1..], m);
    }
  }

  // ------------------------------------------------------------------ the scans are exact

  function Raise(s: Scan, to: int): Scan { s.(deepest := if s.deepest < to then to else s.deepest) }

  predicate Outside(s: Scan) { !s.inString && !s.escaped && s.depth <= s.deepest }

  lemma ScanTwo(s: Scan, t: Text)
    requires |t| >= 2
    ensures ScanText(s, t) == ScanText(ScanChar(ScanChar(s, t[0]), t[1]), t[2..])
  {
    assert t[1..][1..] == t[2..];
  }

  lemma {:induction false} ScanPlain(s: Scan, t: Text, n: nat)
    requires n <= |t| && s.inString && !s.escaped && forall i :: 0 <= i < n ==> t[i] != '"' && t[i] != '\\'
    ensures ScanText(s, t) == ScanText(s, t[n..])
    decreases n
  {
    if n > 0 {
      ScanPlain(s, t[1..], n - 1);
      assert t[1..][n - 1..] == t[n..];
    } else {
      assert t[0..] == t;
    }
  }

  /** An escape of two characters, or of `\u` and four digits. */
  lemma ScanEscape(s: Scan, t: Text)
    requires s.inString && !s.escaped && |t| >= 2 && t[0] == '\\'
    ensures ScanText(s, t) == ScanText(s, t[2..])
    ensures t[1] == 'u' && Hex4(t[2..]).Some? ==> ScanText(s, t) == ScanText(s, t[6..])
  {
    ScanTwo(s, t);
    assert ScanChar(ScanChar(s, t[0]), t[1]) == s;
    if Hex4(t[2..]).Some? {
      ScanPlain(s, t[2..], 4);
      assert t[2..][4..] == t[6..];
    }
  }

  /** A character read inside a string leaves the scan inside the string. */
  lemma ScanOverChar(s: Scan, t: Text)
    requires s.inString && !s.escaped && t != [] && t[0] != '"' && ReadChar(t).Got?
    ensures ScanText(s, t) == ScanText(s, ReadChar(t).rest)
  {
    if t[0] == '\\' {
      ScanEscape(s, t);
      if t[1] == 'u' && High(Hex4(t[2..]).value) {
        assert t[6..][2..] == t[8..] && t[6..][6..] == t[12..];
        ScanEscape(s, t[6..]);
      }
    }
  }

  lemma {:induction false} ScanOverChars(s: Scan, t: Text)
    requires s.inString && !s.escaped && ReadChars(t).Got?
    ensures ScanText(s, t) == ScanText(s.(inString := false), ReadChars(t).rest)
    decreases |t|
  {
    if t[0] != '"' {
      ScanOverChar(s, t);
      ScanOverChars(s, ReadChar(t).rest);
    }
  }

  lemma {:induction false} ScanOverDigits(s: Scan, t: Text, acc: nat)
    requires Outside(s)
    ensures ScanText(s, t) == ScanText(s, Munch(t, acc).1)
    decreases |t|
  {
    if t != [] && IsDigit(t[0]) { ScanOverDigits(s, t[1..], acc * 10 + DigitValue(t[0])); }
  }

  lemma ScanOverNumber(s: Scan, t: Text)
    requires Outside(s) && ReadNumber(t).Got?
    ensures ScanText(s, t) == ScanText(s, ReadNumber(t).rest)
  {
    var d := if t[0] == '-' then t[1..] else t;
    assert ScanText(s, t) == ScanText(s, d);
    assert ScanText(s, d) == ScanText(s, d[1..]);
    if d[0] != '0' { ScanOverDigits(s, d[1..], DigitValue(d[0])); }
  }

  lemma ScanOverWord(s: Scan, t: Text, n: nat)
    requires Outside(s) && n <= |t| && forall i :: 0 <= i < n ==> 'a' <= t[i] <= 'z'
    ensures ScanText(s, t) == ScanText(s, t[n..])
    decreases n
  {
    if n > 0 {
      ScanOverWord(s, t[1..], n - 1);
      assert t[1..][n - 1..] == t[n..];
    } else {
      assert t[0..] == t;
    }
  }

  lemma ScanHead(s: Scan, t: Text)
    requires t != []
    ensures ScanText(s, t) == ScanText(ScanChar(s, t[0]), t[1..])
  {}

  /** An empty list or object. */
  lemma ScanEmpty(s: Scan, t: Text)
    requires Outside(s) && |t| >= 2 && (t[0] == '[' || t[0] == '{') && (t[1] == ']' || t[1] == '}')
    ensures ScanText(s, t) == ScanText(Raise(s, s.depth + 1), t[2..])
  {
    ScanTwo(s, t);
  }

  /** Raising the mark twice is raising it to the larger. */
  lemma RaiseTwice(s: Scan, a: int, b: int)
    ensures Raise(Raise(s, a), b) == Raise(s, if a < b then b else a)
  {}

  lemma ScanOverOther(s: Scan, t: Text)
    requires Outside(s) && ReadValue(t).Got? && !IsContainer(ReadValue(t).value)
    ensures ScanText(s, t) == ScanText(s, ReadValue(t).rest)
  {
    if t[0] == '"' {
      ScanHead(s, t);
      ScanOverChars(s.(inString := true), t[1..]);
    } else if StartsWith(t, "null") || StartsWith(t, "true") {
      assert forall i :: 0 <= i < 4 ==> t[i] == t[..4][i];
      ScanOverWord(s, t, 4);
    } else if StartsWith(t, "false") {
      assert forall i :: 0 <= i < 5 ==> t[i] == t[..5][i];
      ScanOverWord(s, t, 5);
    } else {
      ScanOverNumber(s, t);
    }
  }

  function Inner(s: Scan): Scan { Raise(s, s.depth + 1).(depth := s.depth + 1) }

  function Leave(s: Scan): Scan { s.(depth := s.depth - 1) }

  /** An opening bracket around content of depth `d`, its closing bracket included. */
  lemma Wrap(s: Scan, t: Text, d: nat, rest: Text)
    requires Outside(s) && t != [] && (t[0] == '[' || t[0] == '{')
    requires ScanText(Inner(s), t[1..]) == ScanText(Leave(Raise(Inner(s), s.depth + 1 + d)), rest)
    ensures ScanText(s, t) == ScanText(Raise(s, s.depth + 1 + d), rest)
  {
    ScanHead(s, t);
    assert ScanChar(s, t[0]) == Inner(s);
    assert Leave(Raise(Inner(s), s.depth + 1 + d)) == Raise(s, s.depth + 1 + d);
  }

  /** A part of depth `a`, a comma, and what follows, of depth `b` with its closing bracket. */
  lemma Continue(s: Scan, t: Text, a: nat, after: Text, b: nat, rest: Text)
    requires Outside(s) && ScanText(s, t) == ScanText(Raise(s, s.depth + a), after) && after != [] && after[0] == ','
    requires ScanText(Raise(s, s.depth + a), after[1..]) == ScanText(Leave(Raise(Raise(s, s.depth + a), s.depth + b)), rest)
    ensures ScanText(s, t) == ScanText(Leave(Raise(s, s.depth + Max(a, b))), rest)
  {
    ScanHead(Raise(s, s.depth + a), after);
    RaiseTwice(s, s.depth + a, s.depth + b);
  }

  /** A last part of depth `a` and its closing bracket. */
  lemma Close(s: Scan, t: Text, a: nat, after: Text)
    requires Outside(s) && ScanText(s, t) == ScanText(Raise(s, s.depth + a), after)
    requires after != [] && (after[0] == ']' || after[0] == '}')
    ensures ScanText(s, t) == ScanText(Leave(Raise(s, s.depth + a)), after[1..])
  {
    ScanHead(Raise(s, s.depth + a), after);
  }

  /** Whatever text the reader accepts, the scan sees exactly the depth of the value read. */
  lemma {:induction false} ScanOverValue(s: Scan, t: Text)
    requires Outside(s) && ReadValue(t).Got?
    ensures ScanText(s, t) == ScanText(Raise(s, s.depth + Depth(ReadValue(t).value)), ReadValue(t).rest)
    decreases |t|, 0
  {
    hide ScanText, ReadItems, ReadMembers;
    if !IsContainer(ReadValue(t).value) {
      ScanOverOther(s, t);
    } else if |t| > 1 && ((t[0] == '[' && t[1] == ']') || (t[0] == '{' && t[1] == '}')) {
      ScanEmpty(s, t);
    } else if t[0] == '[' {
      var r := ReadItems(t[1..]);
      ScanOverItems(Inner(s), t[1..]);
      Wrap(s, t, ItemsDepth(r.value), r.rest);
    } else {
      var r := ReadMembers(t[1..], []);
      ScanOverMembers(Inner(s), t[1..], []);
      Wrap(s, t, MembersDepth(r.value), r.rest);
    }
  }

  /** The first element read and what is left of the list after it. */
  lemma ItemsRead(t: Text) returns (x: Read<Json>)
    requires ReadItems(t).Got?
    ensures x == ReadValue(t) && x.Got? && x.rest != [] && (x.rest[0] == ']' || x.rest[0] == ',')
    ensures x.rest[0] == ']' ==> ReadItems(t) == Got([x.value], x.rest[1..]) && ItemsDepth(ReadItems(t).value) == Depth(x.value)
    ensures x.rest[0] == ',' ==>
              var r := ReadItems(x.rest[1..]);
              r.Got? && ReadItems(t).rest == r.rest && ItemsDepth(ReadItems(t).value) == Max(Depth(x.value), ItemsDepth(r.value))
  {
    x := ReadValue(t);
    if x.rest[0] == ',' {
      var xs := ReadItems(x.rest[1..]).value;
      assert ([x.value] + xs)[1..] == xs;
    } else {
      assert [x.value][1..] == [];
    }
  }

  lemma {:induction false} ScanOverItems(s: Scan, t: Text)
    requires Outside(s) && ReadItems(t).Got?
    ensures ScanText(s, t) == ScanText(Leave(Raise(s, s.depth + ItemsDepth(ReadItems(t).value))), ReadItems(t).rest)
    decreases |t|, 1
  {
    hide ScanText, ReadValue, ReadItems;
    var x := ItemsRead(t);
    ScanOverValue(s, t);
    var a := Depth(x.value);
    if x.rest[0] == ',' {
      ScanOverItems(Raise(s, s.depth + a), x.rest[1..]);
      var r := ReadItems(x.rest[1..]);
      Continue(s, t, a, x.rest, ItemsDepth(r.value), r.rest);
    } else {
      Close(s, t, a, x.rest);
    }
  }

  lemma {:induction false} MembersDepthConcat(a: seq<Member>, b: seq<Member>)
    ensures MembersDepth(a + b) == Max(MembersDepth(a), MembersDepth(b))
    decreases |a|
  {
    if a == [] {
      assert a + b == b;
    } else {
      assert (a + b)[1..] == a[1..] + b;
      MembersDepthConcat(a[1..], b);
    }
  }

  lemma MembersDepthSnoc(ms: seq<Member>, m: Member)
    ensures MembersDepth(ms + [m]) == Max(MembersDepth(ms), Depth(m.val))
  {
    MembersDepthConcat(ms, [m]);
    assert [m][1..] == [];
  }

  /** A key, its colon, and then the value. */
  lemma ScanOverKey(s: Scan, t: Text)
    requires Outside(s) && t != [] && t[0] == '"' && ReadChars(t[1..]).Got?
    requires ReadChars(t[1..]).rest != [] && ReadChars(t[1..]).rest[0] == ':'
    ensures ScanText(s, t) == ScanText(s, ReadChars(t[1..]).rest[1..])
  {
    ScanHead(s, t);
    ScanOverChars(s.(inString := true), t[1..]);
    ScanHead(s, ReadChars(t[1..]).rest);
  }

  /** The first member read and what is left of the object after it. */
  lemma MembersRead(t: Text, acc: seq<Member>) returns (after: Text, ms: seq<Member>, v: Read<Json>)
    requires ReadMembers(t, acc).Got?
    ensures t != [] && t[0] == '"' && ReadChars(t[1..]).Got? && ReadChars(t[1..]).rest != [] && ReadChars(t[1..]).rest[0] == ':'
    ensures after == ReadChars(t[1..]).rest[1..] && |after| < |t| && v == ReadValue(after) && v.Got? && v.rest != []
    ensures ms == acc + [Member(ReadChars(t[1..]).value, v.value)]
    ensures v.rest[0] == '}' || v.rest[0] == ','
    ensures v.rest[0] == '}' ==> ReadMembers(t, acc) == Got(ms, v.rest[1..])
    ensures v.rest[0] == ',' ==> ReadMembers(t, acc) == ReadMembers(v.rest[1..], ms)
  {
    after := ReadChars(t[1..]).rest[1..];
    v := ReadValue(after);
    ms := acc + [Member(ReadChars(t[1..]).value, v.value)];
  }

  lemma {:induction false} ScanOverMember(s: Scan, t: Text, acc: seq<Member>, after: Text)
    requires Outside(s) && ReadMembers(t, acc).Got? && after == ReadChars(t[1..]).rest[1..]
    requires ReadValue(after).Got? && |after| < |t|
    ensures ScanText(s, t) == ScanText(Raise(s, s.depth + Depth(ReadValue(after).value)), ReadValue(after).rest)
    decreases |t|, 0
  {
    ScanOverKey(s, t);
    ScanOverValue(s, after);
  }

  /** The members read, those of `acc` scanned before. */
  lemma {:induction false} ScanOverMembers(s: Scan, t: Text, acc: seq<Member>)
    requires Outside(s) && ReadMembers(t, acc).Got? && s.depth + MembersDepth(acc) <= s.deepest
    ensures ScanText(s, t)
         == ScanText(Leave(Raise(s, s.depth + MembersDepth(ReadMembers(t, acc).value))), ReadMembers(t, acc).rest)
    decreases |t|, 1
  {
    hide ScanText, ReadValue, ReadMembers, ReadChars, MembersDepth, Depth;
    var after, ms, v := MembersRead(t, acc);
    ScanOverMember(s, t, acc, after);
    var a := Depth(v.value);
    MembersDepthSnoc(acc, ms[|acc|]);
    if v.rest[0] == ',' {
      ScanOverMembers(Raise(s, s.depth + a), v.rest[1..], ms);
      MembersOnlyGrow(v.rest[1..], ms);
      var r := ReadMembers(t, acc);
      Continue(s, t, a, v.rest, MembersDepth(r.value), r.rest);
    } else {
      Close(s, t, a, v.rest);
      RaiseTwice(s, s.depth + MembersDepth(acc), s.depth + a);
    }
  }

  lemma {:induction false} MembersOnlyGrow(t: Text, acc: seq<Member>)
    requires ReadMembers(t, acc).Got?
    ensures MembersDepth(acc) <= MembersDepth(ReadMembers(t, acc).value)
    decreases |t|
  {
    var _, ms, v := MembersRead(t, acc);
    MembersDepthSnoc(acc, ms[|acc|]);
    if v.rest[0] == ',' { MembersOnlyGrow(v.rest[1..], ms); }
  }

  /** The depth of the text of any value the reader accepts is the depth of the value, whatever its strings contain. */
  lemma DepthScanIsDepth(t: Text)
    requires ReadValue(t).Got? && ReadValue(t).rest == []
    ensures DepthScan(t) == Depth(ReadValue(t).value)
  {
    ScanOverValue(Scan(0, 0, false, false), t);
  }

  // ------------------------------------------------------------------ surrogates

  lemma {:induction false} LonePlain(t: Text, n: nat)
    requires n <= |t| && forall i :: 0 <= i < n ==> t[i] != '\\'
    ensures LoneSurrogate(t) == LoneSurrogate(t[n..])
    decreases n
  {
    if n > 0 {
      LonePlain(t[1..], n - 1);
      assert t[1..][n - 1..] == t[n..];
    } else {
      assert t[0..] == t;
    }
  }

  lemma LoneOverChar(t: Text)
    requires t != [] && t[0] != '"' && ReadChar(t).Got?
    ensures LoneSurrogate(t) == LoneSurrogate(ReadChar(t).rest)
  {}

  lemma {:induction false} LoneOverChars(t: Text)
    requires ReadChars(t).Got?
    ensures LoneSurrogate(t) == LoneSurrogate(ReadChars(t).rest)
    decreases |t|
  {
    if t[0] != '"' {
      LoneOverChar(t);
      LoneOverChars(ReadChar(t).rest);
    }
  }

  lemma {:induction false} LoneOverDigits(t: Text, acc: nat)
    ensures LoneSurrogate(t) == LoneSurrogate(Munch(t, acc).1)
    decreases |t|
  {
    if t != [] && IsDigit(t[0]) { LoneOverDigits(t[1..], acc * 10 + DigitValue(t[0])); }
  }

  lemma LoneOverNumber(t: Text)
    requires ReadNumber(t).Got?
    ensures LoneSurrogate(t) == LoneSurrogate(ReadNumber(t).rest)
  {
    var d := if t[0] == '-' then t[1..] else t;
    assert LoneSurrogate(t) == LoneSurrogate(d);
    assert LoneSurrogate(d) == LoneSurrogate(d[1..]);
    if d[0] != '0' { LoneOverDigits(d[1..], DigitValue(d[0])); }
  }

  lemma {:induction false} LoneOverValue(t: Text)
    requires ReadValue(t).Got?
    ensures LoneSurrogate(t) == LoneSurrogate(ReadValue(t).rest)
    decreases |t|, 0
  {
    if t[0] == '"' {
      LoneOverChars(t[1..]);
    } else if t[0] == '[' {
      if |t| > 1 && t[1] == ']' { LonePlain(t, 2); } else { LoneOverItems(t[1..]); }
    } else if t[0] == '{' {
      if |t| > 1 && t[1] == '}' { LonePlain(t, 2); } else { LoneOverMembers(t[1..], []); }
    } else if StartsWith(t, "null") || StartsWith(t, "true") {
      assert forall i :: 0 <= i < 4 ==> t[i] == t[..4][i];
      LonePlain(t, 4);
    } else if StartsWith(t, "false") {
      assert forall i :: 0 <= i < 5 ==> t[i] == t[..5][i];
      LonePlain(t, 5);
    } else {
      LoneOverNumber(t);
    }
  }

  lemma {:induction false} LoneOverItems(t: Text)
    requires ReadItems(t).Got?
    ensures LoneSurrogate(t) == LoneSurrogate(ReadItems(t).rest)
    decreases |t|, 1
  {
    LoneOverValue(t);
    var rest := ReadValue(t).rest;
    if rest[0] == ',' { LoneOverItems(rest[1..]); }
  }

  lemma {:induction false} LoneOverMembers(t: Text, acc: seq<Member>)
    requires ReadMembers(t, acc).Got?
    ensures LoneSurrogate(t) == LoneSurrogate(ReadMembers(t, acc).rest)
    decreases |t|, 1
  {
    var k := ReadChars(t[1..]);
    LoneOverChars(t[1..]);
    LoneOverValue(k.rest[1..]);
    var v := ReadValue(k.rest[1..]);
    if v.rest[0] == ',' { LoneOverMembers(v.rest[1..], acc + [Member(k.value, v.value)]); }
  }

  /** The strict loader is the reader with a depth bound: its two scans refuse nothing else the reader accepts. */
  lemma LoaderIsBoundedReader(t: Text, v: Json)
    ensures LoadsStrict(t) == Some(v) <==> ReadValue(t) == Got(v, []) && Depth(v) <= 512
  {
    if ReadValue(t) == Got(v, []) {
      DepthScanIsDepth(t);
      LoneOverValue(t);
    }
  }

  lemma {:induction false} DepthOfNorm(j: Json)
    ensures Depth(Norm(j)) == Depth(j)
    decreases j, 0
  {
    match j {
      case Arr(xs) => ItemsDepthOfNorm(xs);
      case Obj(ms) =>
        MembersDepthOfNorm(ms);
        DepthOfSort(NormMembers(ms));
      case _ =>
    }
  }

  lemma {:induction false} ItemsDepthOfNorm(xs: seq<Json>)
    ensures ItemsDepth(NormItems(xs)) == ItemsDepth(xs)
    decreases xs, 1
  {
    if xs != [] {
      DepthOfNorm(xs[0]);
      ItemsDepthOfNorm(xs[1..]);
      assert NormItems(xs)[1..] == NormItems(xs[1..]);
    }
  }

  lemma {:induction false} MembersDepthOfNorm(ms: seq<Member>)
    ensures MembersDepth(NormMembers(ms)) == MembersDepth(ms)
    decreases ms, 1
  {
    if ms != [] {
      DepthOfNorm(ms[0].val);
      MembersDepthOfNorm(ms[1..]);
      assert NormMembers(ms)[1..] == NormMembers(ms[1..]);
    }
  }

  lemma {:induction false} DepthOfInsert(m: Member, ms: seq<Member>)
    ensures MembersDepth(Insert(m, ms)) == Max(Depth(m.val), MembersDepth(ms))
    decreases |ms|
  {
    if ms != [] && !Below(m.key, ms[0].key) {
      DepthOfInsert(m, ms[1..]);
      assert Insert(m, ms)[1..] == Insert(m, ms[1..]);
    } else {
      assert Insert(m, ms) == [m] + ms && ([m] + ms)[1..] == ms;
    }
  }

  lemma {:induction false} DepthOfSort(ms: seq<Member>)
    ensures MembersDepth(Sort(ms)) == MembersDepth(ms)
    decreases |ms|
  {
    if ms != [] {
      DepthOfSort(ms[1..]);
      DepthOfInsert(ms[0], Sort(ms[1..]));
    }
  }

  /** Writing a value canonically and loading it strictly gives it back, keys sorted, exactly when its integers are within
      the portable range and it nests at most 512 deep; any other is refused. */
  lemma CanonRoundTrip(j: Json)
    requires Valid(j)
    ensures LoadsStrict(Canon(j)) == if InProfile(j) && Depth(j) <= 512 then Some(Norm(j)) else None
    ensures InProfile(j) ==> DepthScan(Canon(j)) == Depth(j) && !LoneSurrogate(Canon(j))
  {
    hide DepthScan, LoneSurrogate, ReadValue;
    if InProfile(j) {
      CanonReads(j);
      DepthOfNorm(j);
      DepthScanIsDepth(Canon(j));
      LoneOverValue(Canon(j));
      NothingIsLone();
    } else {
      NormIsValid(j);
      RefusePrinted(Norm(j), []);
      assert Canon(j) + [] == Canon(j);
    }
  }

  lemma NothingIsLone()
    ensures !LoneSurrogate([])
  {}
}
