/** Which integer a JSON number literal with a fraction or an exponent denotes, decided on its decimal digits. */
module IntegralLiteral {
  import opened Values
  import opened CanonicalJson
  import opened CanonicalLaws

  predicate AllDigits(s: string) { forall i :: 0 <= i < |s| ==> IsDigit(s[i]) }

  // ------------------------------------------------------------------ the literal

  datatype Exponent = Exponent(marker: char, sign: string, digits: string)

  /** The parts of a literal; `fp` is empty without a fraction. */
  datatype Literal = Literal(neg: bool, ip: string, fp: string, ex: Option<Exponent>)

  predicate ExponentOk(e: Exponent) {
    (e.marker == 'e' || e.marker == 'E') && (e.sign == "" || e.sign == "+" || e.sign == "-")
    && e.digits != "" && AllDigits(e.digits)
  }

  predicate LiteralOk(n: Literal) {
    n.ip != "" && AllDigits(n.ip) && AllDigits(n.fp) && (n.ex.Some? ==> ExponentOk(n.ex.value))
  }

  function Spell(n: Literal): string {
    (if n.neg then "-" else "") + (n.ip + (SpellFraction(n.fp) + SpellExponent(n.ex)))
  }

  function SpellFraction(fp: string): string { if fp == "" then "" else "." + fp }

  function SpellExponent(ex: Option<Exponent>): string {
    match ex case None => "" case Some(e) => [e.marker] + (e.sign + e.digits)
  }

  /** How many digits `t` starts with. */
  function Run(t: string): (n: nat)
    ensures n <= |t| && AllDigits(t[..n]) && (n < |t| ==> !IsDigit(t[n]))
  {
    if t == "" || !IsDigit(t[0]) then 0
    else
      var n := Run(t[1..]);
      assert t[..n + 1] == [t[0]] + t[1..][..n];
      n + 1
  }

  function ScanExponent(t: string): Option<Option<Exponent>> {
    if t == "" then Some(None)
    else if t[0] != 'e' && t[0] != 'E' then None
    else
      var x := t[1..];
      var sign := if x != "" && (x[0] == '+' || x[0] == '-') then x[..1] else "";
      var digits := x[|sign|..];
      if digits == "" || Run(digits) < |digits| then None else Some(Some(Exponent(t[0], sign, digits)))
  }

  /** The digits of the fraction, and what follows. */
  function ScanFraction(t: string): Option<(string, string)> {
    if t == "" || t[0] != '.' then Some(("", t))
    else
      var m := Run(t[1..]);
      if m == 0 then None else Some((t[1..][..m], t[1..][m..]))
  }

  /** The match of the whole text against the pattern of a number literal. */
  function Scan(t: string): Option<Literal> {
    var neg := t != "" && t[0] == '-';
    var d := if neg then t[1..] else t;
    var n := Run(d);
    if n == 0 then None
    else
      match ScanFraction(d[n..])
      case None => None
      case Some((fp, tail)) =>
        match ScanExponent(tail)
        case None => None
        case Some(ex) => Some(Literal(neg, d[..n], fp, ex))
  }

  lemma {:induction false} RunStops(s: string, rest: string)
    requires AllDigits(s) && (rest == "" || !IsDigit(rest[0]))
    ensures Run(s + rest) == |s|
    decreases |s|
  {
    if s == "" {
      assert s + rest == rest;
    } else {
      assert (s + rest)[1..] == s[1..] + rest;
      RunStops(s[1..], rest);
    }
  }

  lemma ScanSpelledExponent(ex: Option<Exponent>)
    requires ex.Some? ==> ExponentOk(ex.value)
    ensures ScanExponent(SpellExponent(ex)) == Some(ex)
  {
    if ex.Some? {
      var e := ex.value;
      var x := e.sign + e.digits;
      assert SpellExponent(ex)[1..] == x;
      assert x[0] == if e.sign == "" then e.digits[0] else e.sign[0];
      assert x[..|e.sign|] == e.sign && x[|e.sign|..] == e.digits;
      assert e.digits + "" == e.digits;
      RunStops(e.digits, "");
    }
  }

  lemma ScanSpelledFraction(fp: string, tail: string)
    requires AllDigits(fp) && (tail == "" || (!IsDigit(tail[0]) && tail[0] != '.'))
    ensures ScanFraction(SpellFraction(fp) + tail) == Some((fp, tail))
  {
    if fp == "" {
      assert "" + tail == tail;
    } else {
      var t := SpellFraction(fp) + tail;
      assert t[1..] == fp + tail;
      RunStops(fp, tail);
      assert (fp + tail)[..|fp|] == fp && (fp + tail)[|fp|..] == tail;
    }
  }

  /** The scan finds the parts of every well-formed literal. */
  lemma ScanSpelled(n: Literal)
    requires LiteralOk(n)
    ensures Scan(Spell(n)) == Some(n)
  {
    hide ScanFraction, ScanExponent, Run, SpellFraction, SpellExponent, ExponentOk;
    var tail := SpellExponent(n.ex);
    var rest := SpellFraction(n.fp) + tail;
    TailStarts(n);
    RunStops(n.ip, rest);
    ScanSpelledFraction(n.fp, tail);
    ScanSpelledExponent(n.ex);
    SignSpelled(n, n.ip + rest);
    DigitsSpelled(n.ip, rest);
  }

  lemma TailStarts(n: Literal)
    requires LiteralOk(n)
    ensures var tail := SpellExponent(n.ex); tail == "" || (!IsDigit(tail[0]) && tail[0] != '.')
    ensures var rest := SpellFraction(n.fp) + SpellExponent(n.ex); rest == "" || !IsDigit(rest[0])
  {
    if n.fp != "" { assert (SpellFraction(n.fp) + SpellExponent(n.ex))[0] == '.'; }
  }

  lemma SignSpelled(n: Literal, d: string)
    requires LiteralOk(n) && d == n.ip + (SpellFraction(n.fp) + SpellExponent(n.ex))
    ensures var t := Spell(n);
            t != "" && (t[0] == '-' <==> n.neg) && (if n.neg then t[1..] else t) == d
  {
    hide SpellFraction, SpellExponent;
    if n.neg {
      assert Spell(n)[1..] == d;
    } else {
      assert Spell(n) == d && d[0] == n.ip[0] && IsDigit(n.ip[0]);
    }
  }

  lemma DigitsSpelled(ip: string, rest: string)
    ensures (ip + rest)[..|ip|] == ip && (ip + rest)[|ip|..] == rest
  {}

  lemma ExponentScanned(t: string)
    requires ScanExponent(t).Some?
    ensures var ex := ScanExponent(t).value; SpellExponent(ex) == t && (ex.Some? ==> ExponentOk(ex.value))
  {
    if t != "" {
      var e := ScanExponent(t).value.value;
      assert e.digits[..|e.digits|] == e.digits;
      assert t[1..] == e.sign + e.digits;
    }
  }

  lemma FractionScanned(t: string)
    requires ScanFraction(t).Some?
    ensures var (fp, tail) := ScanFraction(t).value; AllDigits(fp) && SpellFraction(fp) + tail == t
  {
    var (fp, tail) := ScanFraction(t).value;
    if t != "" && t[0] == '.' { assert t[1..] == fp + tail; }
  }

  /** Only well-formed literals are scanned, into the parts that spell them. */
  lemma ScannedSpells(t: string)
    requires Scan(t).Some?
    ensures LiteralOk(Scan(t).value) && Spell(Scan(t).value) == t
  {
    hide ScanFraction, ScanExponent, SpellFraction, SpellExponent;
    var n := Scan(t).value;
    var d := if n.neg then t[1..] else t;
    var rest := d[|n.ip|..];
    assert d == n.ip + rest;
    FractionScanned(rest);
    ExponentScanned(ScanFraction(rest).value.1);
  }

  // ------------------------------------------------------------------ decimal numbers

  function Pow10(n: nat): (p: nat)
    ensures p >= 1
  {
    if n == 0 then 1 else 10 * Pow10(n - 1)
  }

  /** The number a digit string spells. */
  function Number(s: string): nat
    requires AllDigits(s)
  {
    Horner(s, 0)
  }

  lemma {:induction false} PowAdds(a: nat, b: nat)
    ensures Pow10(a + b) == Pow10(a) * Pow10(b)
    decreases a
  {
    if a > 0 {
      PowAdds(a - 1, b);
      TenTimes(Pow10(a - 1), Pow10(b));
      assert Pow10(a + b) == 10 * Pow10(a - 1 + b);
    }
  }

  lemma TenTimes(x: nat, y: nat)
    ensures (10 * x) * y == 10 * (x * y)
  {}

  lemma {:induction false} PowGrows(a: nat, b: nat)
    requires a <= b
    ensures Pow10(a) <= Pow10(b)
    decreases b - a
  {
    if a < b { PowGrows(a, b - 1); }
  }

  lemma {:induction false} HornerFrom(s: string, acc: nat)
    requires AllDigits(s)
    ensures Horner(s, acc) == acc * Pow10(|s|) + Number(s)
    decreases |s|
  {
    if s != "" {
      var d := DigitValue(s[0]);
      HornerFrom(s[1..], acc * 10 + d);
      HornerFrom(s[1..], d);
      HornerStep(acc, d, Pow10(|s| - 1));
      assert Number(s) == Horner(s[1..], 0 * 10 + d);
    }
  }

  lemma HornerStep(acc: nat, d: nat, p: nat)
    ensures (acc * 10 + d) * p == acc * (10 * p) + d * p
  {}

  lemma {:induction false} HornerConcat(a: string, b: string, acc: nat)
    requires AllDigits(a) && AllDigits(b)
    ensures AllDigits(a + b) && Horner(a + b, acc) == Horner(b, Horner(a, acc))
    decreases |a|
  {
    if a == "" {
      assert a + b == b;
    } else {
      assert (a + b)[1..] == a[1..] + b;
      HornerConcat(a[1..], b, acc * 10 + DigitValue(a[0]));
    }
  }

  lemma NumberSplits(s: string, k: nat)
    requires AllDigits(s) && k <= |s|
    ensures AllDigits(s[..k]) && AllDigits(s[k..]) && Number(s) == Number(s[..k]) * Pow10(|s| - k) + Number(s[k..])
  {
    hide Horner, Pow10;
    assert s == s[..k] + s[k..];
    HornerConcat(s[..k], s[k..], 0);
    HornerFrom(s[k..], Number(s[..k]));
  }

  lemma {:induction false} NumberBound(s: string)
    requires AllDigits(s)
    ensures Number(s) < Pow10(|s|)
    ensures s != "" && s[0] != '0' ==> Pow10(|s| - 1) <= Number(s)
    decreases |s|
  {
    if s != "" {
      var d := DigitValue(s[0]);
      NumberBound(s[1..]);
      HornerFrom(s[1..], d);
      assert Number(s) == d * Pow10(|s| - 1) + Number(s[1..]);
      Scale(d, 9, Pow10(|s| - 1));
      if s[0] != '0' { Scale(1, d, Pow10(|s| - 1)); }
    }
  }

  lemma Scale(a: nat, b: nat, p: nat)
    requires a <= b
    ensures a * p <= b * p
  {}

  predicate AllZeros(s: string) { forall i :: 0 <= i < |s| ==> s[i] == '0' }

  lemma {:induction false} ZeroNumber(s: string)
    requires AllDigits(s)
    ensures Number(s) == 0 <==> AllZeros(s)
    decreases |s|
  {
    if s != "" {
      var d := DigitValue(s[0]);
      HornerFrom(s[1..], d);
      ZeroNumber(s[1..]);
      assert AllZeros(s) <==> s[0] == '0' && AllZeros(s[1..]) by {
        assert forall i :: 1 <= i < |s| ==> s[i] == s[1..][i - 1];
      }
      Scale(if d == 0 then 0 else 1, d, Pow10(|s| - 1));
      assert Number(s) == d * Pow10(|s| - 1) + Number(s[1..]);
    }
  }

  /** lstrip("0"). */
  function StripZeros(s: string): (r: string)
    requires AllDigits(s)
    ensures |r| <= |s| && AllDigits(r) && (r != "" ==> r[0] != '0')
    ensures Number(r) == Number(s)
  {
    if s != "" && s[0] == '0' then StripZeros(s[1..]) else s
  }

  // ------------------------------------------------------------------ the decision

  /** The number after the marker. */
  function ExponentOf(n: Literal): int
    requires LiteralOk(n)
  {
    match n.ex
    case None => 0
    case Some(e) => if e.sign == "-" then -(Number(e.digits) as int) else Number(e.digits)
  }

  /** _integral_literal, once the text is scanned. */
  function Integral(n: Literal): Option<int>
    requires LiteralOk(n)
  {
    var digits := StripZeros(n.ip + n.fp);
    if digits == "" then Some(0)
    else if n.ex.Some? && |StripZeros(n.ex.value.digits)| > 9 then None
    else
      var shift := ExponentOf(n) - |n.fp|;
      if shift < 0 && (|digits| <= -shift || !AllZeros(digits[|digits| + shift..])) then None
      else
        var kept := if shift < 0 then digits[..|digits| + shift] else digits;
        var up := if shift < 0 then 0 else shift;
        if |kept| + up > 16 then None
        else
          var v: int := Number(kept) * Pow10(up);
          if v > SAFE_INT then None else Some(if n.neg then -v else v)
  }

  function IntegralLiteral(text: string): Option<int> {
    match Scan(text)
    case None => None
    case Some(n) =>
      ScannedSpells(text);
      Integral(n)
  }

  /** The exact value of a literal, the decimal number of its digits times a power of ten, is the integer `v`. */
  ghost predicate Denotes(n: Literal, v: int)
    requires LiteralOk(n)
  {
    var m := Number(n.ip + n.fp);
    var shift := ExponentOf(n) - |n.fp|;
    (if n.neg then -v else v) * Pow10(if shift < 0 then -shift else 0) == m * Pow10(if shift < 0 then 0 else shift)
  }

  lemma SixteenDigits()
    ensures Pow10(16) > SAFE_INT && Pow10(9) == 1000000000
  {
    assert Pow10(4) == 10000;
    PowAdds(4, 4);
    PowAdds(8, 8);
    PowAdds(8, 1);
    assert Pow10(1) == 10;
  }

  lemma {:induction false} StepGrows(a: int, b: int, p: nat)
    requires a < b
    ensures a * p + p <= b * p
    decreases b - a
  {
    OneMore(b - 1, p);
    if a < b - 1 { StepGrows(a, b - 1, p); }
  }

  lemma OneMore(a: int, p: nat)
    ensures (a + 1) * p == a * p + p
  {}

  /** A multiple of `p` between two: only at the lower one. */
  lemma Divides(w: int, hi: nat, lo: nat, p: nat)
    requires p > 0 && lo < p
    ensures w * p == hi * p + lo <==> w == hi && lo == 0
  {
    if w > hi { StepGrows(hi, w, p); }
    if w < hi { StepGrows(w, hi, p); }
  }

  lemma UnitFactor(w: int)
    ensures w * Pow10(0) == w
  {}

  /** Fewer digits than places below the units: a proper fraction. */
  lemma TooSmall(digits: string, k: nat, w: int)
    requires AllDigits(digits) && digits != "" && digits[0] != '0' && |digits| <= k
    ensures w * Pow10(k) != Number(digits)
  {
    NumberBound(digits);
    PowGrows(|digits|, k);
    Divides(w, 0, Number(digits), Pow10(k));
  }

  /** More than sixteen digits before the point. */
  lemma TooLarge(digits: string, up: nat)
    requires AllDigits(digits) && digits != "" && digits[0] != '0' && |digits| + up > 16
    ensures Number(digits) * Pow10(up) > SAFE_INT
  {
    NumberBound(digits);
    Scale(Pow10(|digits| - 1), Number(digits), Pow10(up));
    PowAdds(|digits| - 1, up);
    PowGrows(16, |digits| - 1 + up);
    SixteenDigits();
  }

  /** The decision without the cut of long exponents. */
  lemma ShortExponent(n: Literal, v: int)
    requires LiteralOk(n) && (n.ex.Some? ==> |StripZeros(n.ex.value.digits)| <= 9)
    ensures Integral(n) == Some(v) <==> Denotes(n, v) && -SAFE_INT <= v <= SAFE_INT
  {
    hide ExponentOf, Number, Pow10;
    var digits := StripZeros(n.ip + n.fp);
    var shift := ExponentOf(n) - |n.fp|;
    var w := if n.neg then -v else v;
    UnitFactor(w);
    UnitFactor(Number(digits));
    if digits == "" {
      EmptyIsZero();
      OnlyZero(w, Pow10(if shift < 0 then -shift else 0));
    } else if shift >= 0 {
      if |digits| + shift > 16 { TooLarge(digits, shift); }
    } else if |digits| <= -shift {
      TooSmall(digits, -shift, w);
    } else {
      var k := |digits| + shift;
      NumberSplits(digits, k);
      NumberBound(digits[k..]);
      ZeroNumber(digits[k..]);
      Divides(w, Number(digits[..k]), Number(digits[k..]), Pow10(-shift));
      UnitFactor(Number(digits[..k]));
      if k > 16 { TooLarge(digits[..k], 0); }
    }
  }

  lemma EmptyIsZero()
    ensures Number("") == 0
  {}

  lemma OnlyZero(w: int, p: nat)
    requires p >= 1
    ensures w * p == 0 <==> w == 0
  {}

  /** An exponent of ten digits or more puts every literal with parts of this length out of range, one way or the other. */
  lemma LongExponent(n: Literal, v: int)
    requires LiteralOk(n) && n.ex.Some? && |StripZeros(n.ex.value.digits)| > 9
    requires |n.ip| <= 1000000000 && |n.fp| <= 999999984 && Number(n.ip + n.fp) > 0 && -SAFE_INT <= v <= SAFE_INT
    ensures !Denotes(n, v)
  {
    hide Number, Pow10;
    var digits := StripZeros(n.ip + n.fp);
    var e := StripZeros(n.ex.value.digits);
    EmptyIsZero();
    NumberBound(e);
    PowGrows(9, |e| - 1);
    SixteenDigits();
    var shift := ExponentOf(n) - |n.fp|;
    var w := if n.neg then -v else v;
    UnitFactor(w);
    UnitFactor(Number(digits));
    if n.ex.value.sign == "-" {
      TooSmall(digits, -shift, w);
    } else {
      TooLarge(digits, shift);
    }
  }

  /** The exponent is cut off as too long: ten significant digits or more, on a literal that is not zero. */
  predicate Cut(n: Literal)
    requires LiteralOk(n)
  {
    n.ex.Some? && |StripZeros(n.ex.value.digits)| > 9 && StripZeros(n.ip + n.fp) != ""
  }

  /** For every text of any length, the answer is `v` exactly when the text is a number literal whose exact decimal value is
      `v`, within the portable range, and its exponent is not cut off. */
  lemma IntegralUnlessCut(text: string, v: int)
    ensures IntegralLiteral(text) == Some(v)
       <==> exists n :: LiteralOk(n) && text == Spell(n) && Denotes(n, v) && -SAFE_INT <= v <= SAFE_INT && !Cut(n)
  {
    hide Spell, Denotes, Integral, Cut, LiteralOk;
    if Scan(text).Some? {
      ScannedSpells(text);
      CutOrExact(Scan(text).value, v);
    }
    if n :| LiteralOk(n) && text == Spell(n) && Denotes(n, v) && -SAFE_INT <= v <= SAFE_INT && !Cut(n) { ScanSpelled(n); }
  }

  lemma CutOrExact(n: Literal, v: int)
    requires LiteralOk(n)
    ensures Integral(n) == Some(v) <==> Denotes(n, v) && -SAFE_INT <= v <= SAFE_INT && !Cut(n)
  {
    hide Number, Pow10, ExponentOf;
    if n.ex.None? || |StripZeros(n.ex.value.digits)| <= 9 {
      ShortExponent(n, v);
    } else if StripZeros(n.ip + n.fp) == "" {
      ZeroLiteral(n, v);
    }
  }

  /** So it is exact for every text shorter than 999999998 characters, far past the 64 MiB of a pack. */
  lemma IntegralIsExact(text: string, v: int)
    requires |text| < 999999998
    ensures IntegralLiteral(text) == Some(v)
       <==> exists n :: LiteralOk(n) && text == Spell(n) && Denotes(n, v) && -SAFE_INT <= v <= SAFE_INT
  {
    hide Denotes, Cut, LiteralOk, Spell;
    IntegralUnlessCut(text, v);
    forall n | LiteralOk(n) && text == Spell(n) && Denotes(n, v) && -SAFE_INT <= v <= SAFE_INT ensures !Cut(n) {
      if Cut(n) { CutIsLong(n, v); }
    }
  }

  /** A literal that is cut off although it denotes an integer in range is long. */
  lemma CutIsLong(n: Literal, v: int)
    requires LiteralOk(n) && Cut(n) && Denotes(n, v) && -SAFE_INT <= v <= SAFE_INT
    ensures |Spell(n)| >= 999999998
  {
    hide Number, Pow10, Denotes;
    NumberBound(StripZeros(n.ip + n.fp));
    if |n.ip| <= 1000000000 && |n.fp| <= 999999984 { LongExponent(n, v); }
  }

  lemma ZeroLiteral(n: Literal, v: int)
    requires LiteralOk(n) && StripZeros(n.ip + n.fp) == ""
    ensures Denotes(n, v) <==> v == 0
  {
    hide Number, Pow10, ExponentOf;
    EmptyIsZero();
    var shift := ExponentOf(n) - |n.fp|;
    OnlyZero(if n.neg then -v else v, Pow10(if shift < 0 then -shift else 0));
  }

  function Zeros(n: nat): (s: string)
    ensures |s| == n && AllZeros(s) && AllDigits(s)
  {
    seq(n, _ => '0')
  }

  lemma OneAndZeros(n: nat)
    ensures AllDigits("1" + Zeros(n)) && Number("1" + Zeros(n)) == Pow10(n)
  {
    var s := "1" + Zeros(n);
    assert s[1..] == Zeros(n);
    HornerFrom(Zeros(n), 1);
    ZeroNumber(Zeros(n));
    assert Number(s) == Horner(s[1..], 1);
  }

  /** The literal of a one, `n` zeros and the exponent `-n`. */
  function OneLiteral(n: nat): Literal { Literal(false, "1" + Zeros(n), "", Some(Exponent('e', "-", PrintNat(n)))) }

  lemma OneLiteralOk(n: nat)
    ensures LiteralOk(OneLiteral(n)) && OneLiteral(n).ip + OneLiteral(n).fp == "1" + Zeros(n)
  {
    NumberOfPrinted(n);
    OneAndZeros(n);
  }

  lemma OneLiteralDenotes(n: nat)
    requires n > 0
    ensures LiteralOk(OneLiteral(n)) && Denotes(OneLiteral(n), 1)
  {
    hide Pow10, Number, Zeros, PrintNat;
    OneLiteralOk(n);
    OneAndZeros(n);
    NumberOfPrinted(n);
    UnitFactor(Pow10(n));
  }

  lemma CutRefuses(n: Literal)
    requires LiteralOk(n) && n.ex.Some? && |StripZeros(n.ex.value.digits)| > 9 && Number(n.ip + n.fp) > 0
    ensures IntegralLiteral(Spell(n)) == None
  {
    hide Pow10, Number;
    EmptyIsZero();
    ScanSpelled(n);
  }

  /** A whole family of texts is refused although they denote an integer: a one, `n` zeros and the exponent `-n` denote 1, and
      from a thousand million on the answer is None. */
  lemma CutRefusesOne(n: nat)
    requires n >= 1000000000
    ensures LiteralOk(OneLiteral(n)) && Denotes(OneLiteral(n), 1) && IntegralLiteral(Spell(OneLiteral(n))) == None
  {
    hide Pow10, Number, Zeros, PrintNat, Spell, IntegralLiteral, Denotes;
    OneLiteralOk(n);
    OneLiteralDenotes(n);
    OneAndZeros(n);
    LongEnough(n);
    CutRefuses(OneLiteral(n));
  }

  /** A one at the last of `k + 1` places, times ten to the thousand millionth. */
  function SmallCut(k: nat): Literal { Literal(false, "0", Zeros(k) + "1", Some(Exponent('e', "", "1000000000"))) }

  lemma ZerosThenOne(k: nat)
    ensures AllDigits(Zeros(k) + "1") && Number(Zeros(k) + "1") == 1
  {
    hide Pow10, Horner;
    var s := Zeros(k) + "1";
    NumberSplits(s, k);
    assert s[..k] == Zeros(k) && s[k..] == "1";
    ZeroNumber(Zeros(k));
    assert Number("1") == 1 by { DigitOne(); }
  }

  lemma DigitOne()
    ensures AllDigits("1") && Number("1") == 1
  {
    assert "1"[1..] == "";
    assert Horner("", 1) == 1;
  }

  lemma Billion()
    ensures AllDigits("1000000000") && Number("1000000000") == 1000000000 && |StripZeros("1000000000")| == 10
  {
    hide Horner, Pow10;
    assert "1000000000" == "1" + Zeros(9);
    OneAndZeros(9);
    SixteenDigits();
  }

  lemma SmallCutReads(k: nat)
    ensures var n := SmallCut(k);
            LiteralOk(n) && Number(n.ip + n.fp) == 1 && ExponentOf(n) == 1000000000 && |Spell(n)| == k + 14
  {
    hide Pow10, Horner, Number, Zeros;
    var n := SmallCut(k);
    ZerosThenOne(k);
    ZerosThenOne(k + 1);
    assert "0" + (Zeros(k) + "1") == Zeros(k + 1) + "1" by { OneMoreZero(k); }
    Billion();
    assert |SpellFraction(n.fp)| == k + 2 && |SpellExponent(n.ex)| == 11;
  }

  lemma OneMoreZero(k: nat)
    ensures "0" + (Zeros(k) + "1") == Zeros(k + 1) + "1"
  {}

  /** The shortest text that is refused so: 999999998 characters, which denote a one and fifteen zeros. */
  lemma ShortestCutRefused()
    ensures var n := SmallCut(999999984);
            && LiteralOk(n) && |Spell(n)| == 999999998 && Denotes(n, Pow10(15)) && Pow10(15) <= SAFE_INT
            && IntegralLiteral(Spell(n)) == None
  {
    hide Pow10, Number, Zeros, IntegralLiteral, Spell;
    var n := SmallCut(999999984);
    SmallCutReads(999999984);
    Billion();
    CutRefuses(n);
    assert |n.fp| == 999999985 by { ZerosThenOne(999999984); }
    UnitFactor(Pow10(15));
    FifteenZeros();
  }

  lemma FifteenZeros()
    ensures Pow10(15) <= SAFE_INT
  {
    assert Pow10(5) == 100000;
    PowAdds(5, 5);
    PowAdds(10, 5);
  }

  lemma LongEnough(n: nat)
    requires n >= 1000000000
    ensures AllDigits(PrintNat(n)) && |StripZeros(PrintNat(n))| > 9
  {
    hide Pow10, Number, PrintNat;
    var e := PrintNat(n);
    NumberOfPrinted(n);
    NumberBound(e);
    SixteenDigits();
    if |e| <= 9 { PowGrows(|e|, 9); }
  }

  lemma NumberOfPrinted(n: nat)
    ensures AllDigits(PrintNat(n)) && PrintNat(n) != "" && Number(PrintNat(n)) == n && (n > 0 ==> PrintNat(n)[0] != '0')
  {
    PrintNatDigits(n);
  }
}
