/** Canonical JSON as `_canon` prints it, the strict reader, and the two scans that run before the reader. */
module CanonicalJson {
  import opened Values

  type Text = string

  const SAFE_INT: int := 9007199254740991

  // ------------------------------------------------------------------ printing

  function DigitChar(d: nat): char
    requires d < 10
  {
    ('0' as int + d) as char
  }

  predicate IsDigit(c: char) { '0' <= c <= '9' }

  function DigitValue(c: char): nat
    requires IsDigit(c)
  {
    c as int - '0' as int
  }

  function PrintNat(n: nat): Text {
    if n < 10 then [DigitChar(n)] else PrintNat(n / 10) + [DigitChar(n % 10)]
  }

  function PrintInt(n: int): Text { if n < 0 then "-" + PrintNat(-n) else PrintNat(n) }

  function HexChar(d: nat): char
    requires d < 16
  {
    if d < 10 then ('0' as int + d) as char else ('a' as int + d - 10) as char
  }

  /** `\u` and four lower-case hexadecimal digits. */
  function UnicodeEscape(n: nat): (r: Text)
    requires n < 0x10000
    ensures |r| == 6
  {
    ['\\', 'u', HexChar(n / 4096), HexChar(n / 256 % 16), HexChar(n / 16 % 16), HexChar(n % 16)]
  }

  /** One character of a string: printable ASCII as it is, the rest escaped, beyond the 16-bit plane as a pair. */
  function PrintChar(c: char): Text {
    var n := c as int;
    if c == '"' then "\\\""
    else if c == '\\' then "\\\\"
    else if n == 10 then "\\n"
    else if n == 13 then "\\r"
    else if n == 9 then "\\t"
    else if n == 8 then "\\b"
    else if n == 12 then "\\f"
    else if 0x20 <= n <= 0x7e then [c]
    else if n < 0x10000 then UnicodeEscape(n)
    else UnicodeEscape(0xD800 + (n - 0x10000) / 0x400) + UnicodeEscape(0xDC00 + (n - 0x10000) % 0x400)
  }

  function PrintChars(s: string): Text {
    if s == [] then [] else PrintChar(s[0]) + PrintChars(s[1..])
  }

  function PrintString(s: string): Text { ['"'] + PrintChars(s) + ['"'] }

  /** Code point order, the order of sort_keys. */
  predicate Below(a: string, b: string) {
    b != [] && (a == [] || a[0] < b[0] || (a[0] == b[0] && Below(a[1..], b[1..])))
  }

  function Insert(m: Member, ms: seq<Member>): (r: seq<Member>)
    ensures |r| == |ms| + 1
    ensures multiset(r) == multiset(ms) + multiset{m}
  {
    if ms == [] then [m]
    else if Below(m.key, ms[0].key) then [m] + ms
    else
      assert ms == [ms[0]] + ms[1..];
      [ms[0]] + Insert(m, ms[1..])
  }

  function Sort(ms: seq<Member>): (r: seq<Member>)
    ensures |r| == |ms| && multiset(r) == multiset(ms)
  {
    if ms == [] then []
    else
      assert ms == [ms[0]] + ms[1..];
      Insert(ms[0], Sort(ms[1..]))
  }

  /** The value with the keys of every object sorted: what a canonical form stands for. */
  function Norm(j: Json): Json
    decreases j, 0
  {
    match j
    case Arr(xs) => Arr(NormItems(xs))
    case Obj(ms) => Obj(Sort(NormMembers(ms)))
    case _ => j
  }

  function NormItems(xs: seq<Json>): (r: seq<Json>)
    ensures |r| == |xs|
    decreases xs, 1
  {
    if xs == [] then [] else [Norm(xs[0])] + NormItems(xs[1..])
  }

  function NormMembers(ms: seq<Member>): (r: seq<Member>)
    ensures |r| == |ms|
    decreases ms, 1
  {
    if ms == [] then [] else [Member(ms[0].key, Norm(ms[0].val))] + NormMembers(ms[1..])
  }

  /** The text of a value whose members are printed in the order they stand. */
  function Print(j: Json): Text
    decreases j, 0
  {
    match j
    case Null => "null"
    case Bool(b) => if b then "true" else "false"
    case Num(n) => PrintInt(n)
    case Str(s) => PrintString(s)
    case Arr(xs) => "[" + PrintItems(xs) + "]"
    case Obj(ms) => "{" + PrintMembers(ms) + "}"
  }

  function PrintItems(xs: seq<Json>): Text
    decreases xs, 1
  {
    if xs == [] then []
    else if |xs| == 1 then Print(xs[0])
    else Print(xs[0]) + "," + PrintItems(xs[1..])
  }

  function PrintMember(m: Member): Text
    decreases m, 1
  {
    PrintString(m.key) + ":" + Print(m.val)
  }

  function PrintMembers(ms: seq<Member>): Text
    decreases ms, 2
  {
    if ms == [] then []
    else if |ms| == 1 then PrintMember(ms[0])
    else PrintMember(ms[0]) + "," + PrintMembers(ms[1..])
  }

  /** json.dumps with sorted keys and compact separators. */
  function Canon(j: Json): Text { Print(Norm(j)) }

  function CanonOf(v: Option<Json>): Option<Text> { match v case None => None case Some(j) => Some(Canon(j)) }

  function CanonSet(xs: seq<Json>): set<Text> { set x | x in xs :: Canon(x) }

  // ------------------------------------------------------------------ reading

  predicate IsHex(c: char) { '0' <= c <= '9' || 'a' <= c <= 'f' || 'A' <= c <= 'F' }

  function HexValue(c: char): (n: nat)
    requires IsHex(c)
    ensures n < 16
  {
    if '0' <= c <= '9' then c as int - '0' as int
    else if 'a' <= c <= 'f' then c as int - 'a' as int + 10
    else c as int - 'A' as int + 10
  }

  /** Four hexadecimal digits at the front. */
  function Hex4(t: Text): (r: Option<nat>)
    ensures r.Some? ==> r.value < 0x10000 && |t| >= 4
  {
    if |t| >= 4 && IsHex(t[0]) && IsHex(t[1]) && IsHex(t[2]) && IsHex(t[3])
    then Some(HexValue(t[0]) * 4096 + HexValue(t[1]) * 256 + HexValue(t[2]) * 16 + HexValue(t[3]))
    else None
  }

  predicate High(n: nat) { 0xD800 <= n <= 0xDBFF }
  predicate Low(n: nat) { 0xDC00 <= n <= 0xDFFF }

  datatype Read<+T> = Got(value: T, rest: Text) | Refused

  /** One character inside a string; a surrogate escape stands only in a pair. */
  function ReadChar(t: Text): (r: Read<char>)
    requires t != [] && t[0] != '"'
    ensures r.Got? ==> |r.rest| < |t|
  {
    if t[0] != '\\' then (if t[0] as int < 0x20 then Refused else Got(t[0], t[1..]))
    else if |t| < 2 then Refused
    else if t[1] == '"' || t[1] == '\\' || t[1] == '/' then Got(t[1], t[2..])
    else if t[1] == 'b' then Got(8 as char, t[2..])
    else if t[1] == 'f' then Got(12 as char, t[2..])
    else if t[1] == 'n' then Got(10 as char, t[2..])
    else if t[1] == 'r' then Got(13 as char, t[2..])
    else if t[1] == 't' then Got(9 as char, t[2..])
    else if t[1] != 'u' then Refused
    else
      match Hex4(t[2..])
      case None => Refused
      case Some(n) =>
        if Low(n) then Refused
        else if !High(n) then Got(n as char, t[6..])
        else if |t| < 12 || t[6] != '\\' || t[7] != 'u' then Refused
        else
          match Hex4(t[8..])
          case None => Refused
          case Some(m) =>
            if !Low(m) then Refused else Got((0x10000 + (n - 0xD800) * 0x400 + (m - 0xDC00)) as char, t[12..])
  }

  /** The characters up to the closing quote, which is read too. */
  function ReadChars(t: Text): (r: Read<string>)
    ensures r.Got? ==> |r.rest| < |t|
    decreases |t|
  {
    if t == [] then Refused
    else if t[0] == '"' then Got([], t[1..])
    else
      match ReadChar(t)
      case Refused => Refused
      case Got(c, rest) =>
        match ReadChars(rest)
        case Refused => Refused
        case Got(s, rest') => Got([c] + s, rest')
  }

  /** The longest run of digits, after those that gave `acc`. */
  function Munch(t: Text, acc: nat): (r: (nat, Text))
    ensures |r.1| <= |t|
  {
    if t != [] && IsDigit(t[0]) then Munch(t[1..], acc * 10 + DigitValue(t[0])) else (acc, t)
  }

  /** An integer literal within the portable range; a fraction or an exponent is refused. */
  function ReadNumber(t: Text): (r: Read<int>)
    ensures r.Got? ==> |r.rest| < |t|
  {
    var neg := t != [] && t[0] == '-';
    var d := if neg then t[1..] else t;
    if d == [] || !IsDigit(d[0]) then Refused
    else
      var (n, rest) := if d[0] == '0' then (0, d[1..]) else Munch(d[1..], DigitValue(d[0]));
      if rest != [] && (rest[0] == '.' || rest[0] == 'e' || rest[0] == 'E') then Refused
      else if n > SAFE_INT then Refused
      else Got(if neg then -n else n, rest)
  }

  predicate StartsWith(t: Text, word: Text) { |word| <= |t| && t[..|word|] == word }

  function ReadValue(t: Text): (r: Read<Json>)
    ensures r.Got? ==> |r.rest| < |t|
    decreases |t|, 0
  {
    if t == [] then Refused
    else if t[0] == '"' then
      match ReadChars(t[1..]) case Refused => Refused case Got(s, rest) => Got(Str(s), rest)
    else if t[0] == '[' then
      if |t| > 1 && t[1] == ']' then Got(Arr([]), t[2..])
      else match ReadItems(t[1..]) case Refused => Refused case Got(xs, rest) => Got(Arr(xs), rest)
    else if t[0] == '{' then
      if |t| > 1 && t[1] == '}' then Got(Obj([]), t[2..])
      else match ReadMembers(t[1..], []) case Refused => Refused case Got(ms, rest) => Got(Obj(ms), rest)
    else if StartsWith(t, "null") then Got(Null, t[4..])
    else if StartsWith(t, "true") then Got(Bool(true), t[4..])
    else if StartsWith(t, "false") then Got(Bool(false), t[5..])
    else match ReadNumber(t) case Refused => Refused case Got(n, rest) => Got(Num(n), rest)
  }

  /** The elements of a non-empty list, up to and with its closing bracket. */
  function ReadItems(t: Text): (r: Read<seq<Json>>)
    ensures r.Got? ==> |r.rest| < |t|
    decreases |t|, 1
  {
    match ReadValue(t)
    case Refused => Refused
    case Got(x, rest) =>
      if rest == [] then Refused
      else if rest[0] == ']' then Got([x], rest[1..])
      else if rest[0] != ',' then Refused
      else match ReadItems(rest[1..]) case Refused => Refused case Got(xs, rest') => Got([x] + xs, rest')
  }

  /** The members of a non-empty object after those of `acc`; a key already read is refused. */
  function ReadMembers(t: Text, acc: seq<Member>): (r: Read<seq<Member>>)
    ensures r.Got? ==> |r.rest| < |t|
    decreases |t|, 1
  {
    if t == [] || t[0] != '"' then Refused
    else
      match ReadChars(t[1..])
      case Refused => Refused
      case Got(k, rest) =>
        if rest == [] || rest[0] != ':' || Has(acc, k) then Refused
        else
          match ReadValue(rest[1..])
          case Refused => Refused
          case Got(v, rest') =>
            var ms := acc + [Member(k, v)];
            if rest' == [] then Refused
            else if rest'[0] == '}' then Got(ms, rest'[1..])
            else if rest'[0] != ',' then Refused
            else ReadMembers(rest'[1..], ms)
  }

  // ------------------------------------------------------------------ the scans before the reader

  /** The state of the depth scan. */
  datatype Scan = Scan(depth: int, deepest: int, inString: bool, escaped: bool)

  function ScanChar(s: Scan, c: char): Scan {
    if s.inString then
      if s.escaped then s.(escaped := false)
      else if c == '\\' then s.(escaped := true)
      else if c == '"' then s.(inString := false)
      else s
    else if c == '"' then s.(inString := true)
    else if c == '[' || c == '{' then
      Scan(s.depth + 1, if s.deepest < s.depth + 1 then s.depth + 1 else s.deepest, false, s.escaped)
    else if c == ']' || c == '}' then s.(depth := s.depth - 1)
    else s
  }

  function ScanText(s: Scan, t: Text): Scan
    decreases |t|
  {
    if t == [] then s else ScanText(ScanChar(s, t[0]), t[1..])
  }

  function DepthScan(t: Text): int { ScanText(Scan(0, 0, false, false), t).deepest }

  /** A lone surrogate escape somewhere in `t`. */
  predicate LoneSurrogate(t: Text)
    decreases |t|
  {
    if t == [] then false
    else if t[0] != '\\' then LoneSurrogate(t[1..])
    else if |t| > 5 && t[1] == 'u' then
      match Hex4(t[2..])
      case None => LoneSurrogate(t[2..])
      case Some(n) =>
        if High(n) then
          if |t| <= 7 || t[6] != '\\' || t[7] != 'u' then true
          else
            match Hex4(t[8..])
            case None => true
            case Some(m) => if !Low(m) then true else LoneSurrogate(t[12..])
        else if Low(n) then true
        else LoneSurrogate(t[6..])
    else LoneSurrogate(if |t| < 2 then [] else t[2..])
  }

  const MAX_JSON_DEPTH: int := 512

  /** loads_strict: the two scans, then the reader on the whole text. */
  function LoadsStrict(t: Text): Option<Json> {
    if DepthScan(t) > MAX_JSON_DEPTH || LoneSurrogate(t) then None
    else match ReadValue(t) case Got(v, rest) => if rest == [] then Some(v) else None case Refused => None
  }

  /** _nesting_depth: one pass with flags. */
  method NestingDepth(text: Text) returns (mx: int)
    ensures mx == DepthScan(text)
  {
    var depth := 0;
    mx := 0;
    var inStr, esc := false, false;
    for i := 0 to |text|
      invariant ScanText(Scan(depth, mx, inStr, esc), text[i..]) == ScanText(Scan(0, 0, false, false), text)
    {
      var ch := text[i];
      assert text[i..][0] == ch && text[i..][1..] == text[i + 1..];
      if inStr {
        if esc { esc := false; }
        else if ch == '\\' { esc := true; }
        else if ch == '"' { inStr := false; }
      } else if ch == '"' {
        inStr := true;
      } else if ch == '[' || ch == '{' {
        depth := depth + 1;
        mx := if mx < depth then depth else mx;
      } else if ch == ']' || ch == '}' {
        depth := depth - 1;
      }
    }
  }

  /** _has_lone_surrogate: an index that jumps over escapes. */
  method HasLoneSurrogate(text: Text) returns (lone: bool)
    ensures lone <==> LoneSurrogate(text)
  {
    var i, n := 0, |text|;
    while i < n
      invariant 0 <= i
      invariant LoneSurrogate(if i <= n then text[i..] else []) <==> LoneSurrogate(text)
    {
      var here := text[i..];
      if text[i] != '\\' { assert here[1..] == text[i + 1..]; i := i + 1; continue; }
      if i + 1 < n && text[i + 1] == 'u' && i + 5 < n {
        assert here[2..] == text[i + 2..];
        var cp := Hex4(text[i + 2..]);
        if cp.None? { i := i + 2; continue; }
        if High(cp.value) {
          if i + 7 >= n || text[i + 6] != '\\' || text[i + 7] != 'u' { return true; }
          assert here[8..] == text[i + 8..];
          var lo := Hex4(text[i + 8..]);
          if lo.None? || !Low(lo.value) { return true; }
          assert here[12..] == text[i + 12..];
          i := i + 12;
          continue;
        }
        if Low(cp.value) { return true; }
        assert here[6..] == text[i + 6..];
        i := i + 6;
        continue;
      }
      assert |here| >= 2 ==> here[2..] == text[i + 2..];
      i := i + 2;
    }
    return false;
  }
}
