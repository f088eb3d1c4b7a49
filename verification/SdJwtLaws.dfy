/** What the parts of a presentation are: the reading undoes the writing, and what it forgets. */
module SdJwtLaws {
  import opened Values
  import opened Base64
  import opened SdJwt

  /** The parts with the separator between them. */
  function Join(parts: seq<string>, sep: char): string
    requires parts != []
  {
    if |parts| == 1 then parts[0] else parts[0] + ([sep] + Join(parts[1..], sep))
  }

  lemma {:induction false} JoinOfSplit(s: string, sep: char)
    ensures Join(Split(s, sep), sep) == s
    decreases |s|
  {
    if s != "" {
      var rest, parts := Split(s[1..], sep), Split(s, sep);
      JoinOfSplit(s[1..], sep);
      if s[0] == sep {
        assert parts == [""] + rest && parts[1..] == rest;
        assert "" + ([sep] + s[1..]) == s;
      } else {
        assert parts[0] == [s[0]] + rest[0] && parts[1..] == rest[1..];
        PrependToFirst(s[0], rest, parts, sep);
        assert [s[0]] + s[1..] == s;
      }
    }
  }

  lemma PrependToFirst(c: char, rest: seq<string>, parts: seq<string>, sep: char)
    requires rest != [] && |parts| == |rest| && parts[0] == [c] + rest[0] && parts[1..] == rest[1..]
    ensures Join(parts, sep) == [c] + Join(rest, sep)
  {
    if |rest| > 1 {
      var tail := [sep] + Join(rest[1..], sep);
      assert ([c] + rest[0]) + tail == [c] + (rest[0] + tail);
    }
  }

  lemma {:induction false} SplitOfPart(p: string, sep: char)
    requires sep !in p
    ensures Split(p, sep) == [p]
    decreases |p|
  {
    if p != "" {
      SplitOfPart(p[1..], sep);
      assert p == [p[0]] + p[1..];
    }
  }

  lemma {:induction false} SplitFirst(p: string, rest: string, sep: char)
    requires sep !in p
    ensures Split(p + ([sep] + rest), sep) == [p] + Split(rest, sep)
    decreases |p|
  {
    var s := p + ([sep] + rest);
    if p == "" {
      assert s[0] == sep && s[1..] == rest;
    } else {
      assert s[1..] == p[1..] + ([sep] + rest) && s[0] == p[0];
      SplitFirst(p[1..], rest, sep);
      assert p == [p[0]] + p[1..];
      assert ([p[1..]] + Split(rest, sep))[1..] == Split(rest, sep);
    }
  }

  /** Splitting undoes joining, for parts without the separator. */
  lemma {:induction false} SplitOfJoin(parts: seq<string>, sep: char)
    requires parts != [] && forall i :: 0 <= i < |parts| ==> sep !in parts[i]
    ensures Split(Join(parts, sep), sep) == parts
    decreases |parts|
  {
    if |parts| == 1 {
      SplitOfPart(parts[0], sep);
      assert parts == [parts[0]];
    } else {
      SplitOfJoin(parts[1..], sep);
      SplitFirst(parts[0], Join(parts[1..], sep), sep);
      assert parts == [parts[0]] + parts[1..];
    }
  }

  // ------------------------------------------------------------------ a presentation

  lemma SafeHas(c: char, s: string)
    requires B64UrlDecode(s).Some? && (c == '.' || c == '~')
    ensures c !in s
  {
    forall i | 0 <= i < |s| ensures s[i] != c { assert InAlphabet(UrlSafe, s[i]); }
  }

  /** The parts of a presentation as its writer joins them: the JWT, the disclosures, and the key-binding JWT or nothing. */
  function Parts(seg: seq<string>, ds: seq<string>, kb: string): seq<string>
    requires |seg| == 3
  {
    [Join(seg, '.')] + ds + [kb]
  }

  lemma {:induction false} KeepsNonEmpty(ds: seq<string>)
    requires forall i :: 0 <= i < |ds| ==> ds[i] != ""
    ensures NonEmpty(ds) == ds
    decreases |ds|
  {
    if ds != [] { KeepsNonEmpty(ds[1..]); }
  }

  lemma {:induction false} NonEmptyShrinks(ds: seq<string>)
    ensures |NonEmpty(ds)| <= |ds|
    ensures |NonEmpty(ds)| == |ds| <==> forall i :: 0 <= i < |ds| ==> ds[i] != ""
    decreases |ds|
  {
    if ds != [] {
      NonEmptyShrinks(ds[1..]);
      assert forall i :: 1 <= i < |ds| ==> ds[i] == ds[1..][i - 1];
    }
  }

  lemma JwtHasNoTilde(seg: seq<string>)
    requires |seg| == 3 && forall i :: 0 <= i < 3 ==> B64UrlDecode(seg[i]).Some?
    ensures '~' !in Join(seg, '.') && Split(Join(seg, '.'), '.') == seg
  {
    hide B64UrlDecode;
    forall i | 0 <= i < 3 ensures '.' !in seg[i] && '~' !in seg[i] {
      SafeHas('.', seg[i]);
      SafeHas('~', seg[i]);
    }
    SplitOfJoin(seg, '.');
    assert Join([seg[2]], '.') == seg[2];
    assert seg[1..][1..] == [seg[2]] && seg[1..][0] == seg[1];
    assert Join(seg[1..], '.') == seg[1] + (['.'] + seg[2]);
  }

  /** Parsing gives back what was joined, whatever blanks are around it: the header is the first segment of the JWT, the
      payload the second, the signature the third, the disclosures are in order, those that are empty dropped, and an empty
      last part is no key-binding JWT. */
  lemma ParseReads(lib: Library, s: string, seg: seq<string>, ds: seq<string>, kb: string)
    requires |seg| == 3 && (forall i :: 0 <= i < 3 ==> B64UrlDecode(seg[i]).Some?)
    requires LoadSegment(lib, seg[0]).Some? && LoadSegment(lib, seg[1]).Some?
    requires (forall i :: 0 <= i < |ds| ==> '~' !in ds[i]) && '~' !in kb
    requires Trim(lib, s) == Join(Parts(seg, ds, kb), '~')
    ensures var text := Join(Parts(seg, ds, kb), '~');
            Parse(lib, s) == Some(Parsed(text, LoadSegment(lib, seg[0]).value, LoadSegment(lib, seg[1]).value,
                                         B64UrlDecode(seg[2]).value, seg[0] + "." + seg[1], NonEmpty(ds), kb))
    ensures (forall i :: 0 <= i < |ds| ==> ds[i] != "") ==> NonEmpty(ds) == ds
  {
    hide *;
    JwtHasNoTilde(seg);
    PresentationSplits(seg, ds, kb);
    ParseOfParts(lib, s, Join(Parts(seg, ds, kb), '~'), seg, ds, kb);
    if forall i :: 0 <= i < |ds| ==> ds[i] != "" { KeepsNonEmpty(ds); }
  }

  lemma ParseOfParts(lib: Library, s: string, text: string, seg: seq<string>, ds: seq<string>, kb: string)
    requires |seg| == 3 && Split(Join(seg, '.'), '.') == seg && Split(text, '~') == Parts(seg, ds, kb) && Trim(lib, s) == text
    requires LoadSegment(lib, seg[0]).Some? && LoadSegment(lib, seg[1]).Some? && B64UrlDecode(seg[2]).Some?
    ensures Parse(lib, s) == Some(Parsed(text, LoadSegment(lib, seg[0]).value, LoadSegment(lib, seg[1]).value,
                                         B64UrlDecode(seg[2]).value, seg[0] + "." + seg[1], NonEmpty(ds), kb))
  {
    hide B64UrlDecode, LoadSegment, Trim, Join, Split, NonEmpty;
    var parts := Split(text, '~');
    assert parts[1..|parts| - 1] == ds;
  }

  lemma PresentationSplits(seg: seq<string>, ds: seq<string>, kb: string)
    requires |seg| == 3 && '~' !in Join(seg, '.') && (forall i :: 0 <= i < |ds| ==> '~' !in ds[i]) && '~' !in kb
    ensures Split(Join(Parts(seg, ds, kb), '~'), '~') == Parts(seg, ds, kb)
  {
    hide Join, Split;
    var parts := Parts(seg, ds, kb);
    forall i | 0 <= i < |parts| ensures '~' !in parts[i] {
      if 0 < i < |parts| - 1 { assert parts[i] == ds[i - 1]; }
    }
    SplitOfJoin(parts, '~');
  }

  /** A JWT with an empty part between two separators parses, and what is kept joins to a text without that part. */
  lemma EmptyPartIsLost(lib: Library, seg: seq<string>)
    requires |seg| == 3 && (forall i :: 0 <= i < 3 ==> B64UrlDecode(seg[i]).Some?)
    requires LoadSegment(lib, seg[0]).Some? && LoadSegment(lib, seg[1]).Some?
    requires Trim(lib, Join(seg, '.') + "~~") == Join(seg, '.') + "~~"
    ensures var jwt := Join(seg, '.');
            && Parse(lib, jwt + "~~").Some? && Parse(lib, jwt + "~~").value.compact == jwt + "~~"
            && Parse(lib, jwt + "~~").value.disclosures == [] && Parse(lib, jwt + "~~").value.kb == ""
            && Join([jwt] + [] + [""], '~') == jwt + "~" != jwt + "~~"
  {
    hide B64UrlDecode, LoadSegment, Trim, Parse;
    var jwt := Join(seg, '.');
    ThreeJoined(jwt);
    assert [jwt] + [""] + [""] == [jwt, "", ""];
    ParseReads(lib, jwt + "~~", seg, [""], "");
    assert NonEmpty([""]) == [] by { assert [""][1..] == []; }
  }

  lemma ThreeJoined(jwt: string)
    ensures Join([jwt, "", ""], '~') == jwt + "~~" && Join([jwt] + [] + [""], '~') == jwt + "~"
  {
    assert [jwt, "", ""][1..] == ["", ""] && ["", ""][1..] == [""];
    assert Join(["", ""], '~') == "~";
    assert [jwt] + [] + [""] == [jwt, ""] && [jwt, ""][1..] == [""];
    assert ['~'] + "~" == "~~";
  }

  /** The parts kept are those of the text exactly when no disclosure between two separators is empty: an empty one is
      dropped, and joining the rest is another text. */
  lemma JoinsBackUnlessEmpty(lib: Library, text: string, p: Parsed)
    requires Parse(lib, text) == Some(p) && '~' in p.compact
    ensures var parts := Split(p.compact, '~');
            |parts| >= 2 &&
            (Join([parts[0]] + p.disclosures + [p.kb], '~') == p.compact
             <==> forall i :: 0 < i < |parts| - 1 ==> parts[i] != "")
  {
    hide B64UrlDecode, LoadSegment, Trim, Split, Join, NonEmpty;
    SplitsAtSeparator(p.compact, '~');
    JoinOfSplit(p.compact, '~');
    PartsHaveNoSeparator(p.compact, '~');
    var parts := Split(p.compact, '~');
    var n, middle := |parts| - 1, parts[1..|parts| - 1];
    assert parts == [parts[0]] + middle + [parts[n]];
    forall i | 0 <= i < |middle| ensures middle[i] == parts[i + 1] {}
    KeptJoins(parts[0], middle, parts[n]);
    if forall i :: 0 < i < n ==> parts[i] != "" {
      forall i | 0 <= i < |middle| ensures middle[i] != "" {}
    } else {
      var i :| 0 < i < n && parts[i] == "";
      assert middle[i - 1] == "";
    }
  }

  /** Parts without a separator join to the same text without their empty middle ones exactly when there are none. */
  lemma KeptJoins(head: string, middle: seq<string>, last: string)
    requires '~' !in head && '~' !in last && forall i :: 0 <= i < |middle| ==> '~' !in middle[i]
    ensures Join([head] + NonEmpty(middle) + [last], '~') == Join([head] + middle + [last], '~')
       <==> forall i :: 0 <= i < |middle| ==> middle[i] != ""
  {
    hide *;
    var some := NonEmpty(middle);
    NonEmptyShrinks(middle);
    if |some| == |middle| {
      KeepsNonEmpty(middle);
    } else {
      forall i | 0 <= i < |some| ensures '~' !in some[i] { KeptIsPart(middle, i); }
      SplitOfParts(head, some, last);
      SplitOfParts(head, middle, last);
    }
  }

  lemma SplitOfParts(head: string, middle: seq<string>, last: string)
    requires '~' !in head && '~' !in last && forall i :: 0 <= i < |middle| ==> '~' !in middle[i]
    ensures Split(Join([head] + middle + [last], '~'), '~') == [head] + middle + [last]
    ensures |[head] + middle + [last]| == |middle| + 2
  {
    hide *;
    var all := [head] + middle + [last];
    forall i | 0 <= i < |all| ensures '~' !in all[i] { if 0 < i < |all| - 1 { assert all[i] == middle[i - 1]; } }
    SplitOfJoin(all, '~');
  }

  lemma {:induction false} KeptIsPart(ss: seq<string>, i: nat)
    requires i < |NonEmpty(ss)|
    ensures NonEmpty(ss)[i] in ss
    decreases |ss|
  {
    if ss[0] == "" {
      KeptIsPart(ss[1..], i);
    } else if i > 0 {
      KeptIsPart(ss[1..], i - 1);
    }
  }

  lemma {:induction false} PartsHaveNoSeparator(s: string, sep: char)
    ensures forall i :: 0 <= i < |Split(s, sep)| ==> sep !in Split(s, sep)[i]
    decreases |s|
  {
    if s != "" { PartsHaveNoSeparator(s[1..], sep); }
  }

  lemma {:induction false} SplitsAtSeparator(s: string, sep: char)
    requires sep in s
    ensures |Split(s, sep)| >= 2
    decreases |s|
  {
    if s[0] != sep {
      assert s == [s[0]] + s[1..];
      SplitsAtSeparator(s[1..], sep);
    }
  }

  // ------------------------------------------------------------------ what a key-binding JWT binds

  lemma {:induction false} LastPart(s: string, sep: char)
    requires sep in s
    ensures |BeforeLast(s, sep)| < |s| && s[..|BeforeLast(s, sep)|] == BeforeLast(s, sep) && s[|BeforeLast(s, sep)|] == sep
    ensures Split(s, sep)[|Split(s, sep)| - 1] == s[|BeforeLast(s, sep)| + 1..]
    decreases |s|
  {
    BeforeLastIs(s, sep);
    var b := BeforeLast(s, sep);
    var tail := s[|b| + 1..];
    assert s == b + ([sep] + tail);
    SplitLast(b, tail, sep);
  }

  lemma {:induction false} BeforeLastIs(s: string, sep: char)
    requires sep in s
    ensures var b := BeforeLast(s, sep); |b| < |s| && s[..|b|] == b && s[|b|] == sep && sep !in s[|b| + 1..]
    decreases |s|
  {
    var n := |s| - 1;
    if s[n] != sep {
      assert s == s[..n] + [s[n]];
      BeforeLastIs(s[..n], sep);
      var b := BeforeLast(s[..n], sep);
      assert s[|b| + 1..] == s[..n][|b| + 1..] + [s[n]];
    }
  }

  lemma {:induction false} SplitLast(b: string, tail: string, sep: char)
    requires sep !in tail
    ensures var parts := Split(b + ([sep] + tail), sep); |parts| >= 2 && parts[|parts| - 1] == tail
    decreases |b|
  {
    var s := b + ([sep] + tail);
    if b == "" {
      assert s[0] == sep && s[1..] == tail;
      SplitOfPart(tail, sep);
    } else {
      assert s[0] == b[0] && s[1..] == b[1..] + ([sep] + tail);
      SplitLast(b[1..], tail, sep);
    }
  }

  /** A presentation is what its key-binding JWT commits to, and that JWT. */
  lemma PresentationAndKb(lib: Library, text: string, p: Parsed)
    requires Parse(lib, text) == Some(p) && '~' in p.compact
    ensures p.compact == Presentation(p.compact) + p.kb
  {
    hide B64UrlDecode, LoadSegment, Trim, Split, BeforeLast;
    LastPart(p.compact, '~');
    SplitsAtSeparator(p.compact, '~');
    LastRest(p.compact, BeforeLast(p.compact, '~'));
  }

  lemma LastRest(s: string, b: string)
    requires |b| < |s| && s[..|b|] == b && s[|b|] == '~'
    ensures s == (b + "~") + s[|b| + 1..]
  {}

  lemma SameDigest(lib: Library, x: string, y: string)
    requires DigestOf(lib)(x) == DigestOf(lib)(y)
    ensures lib.sha(x) == lib.sha(y)
  {
    DecodeUndoesEncode(UrlSafe, lib.sha(x));
    DecodeUndoesEncode(UrlSafe, lib.sha(y));
  }

  ghost predicate HashHolds(lib: Library, p: Parsed, resolved: Json) {
    match CheckKb(lib, p, resolved) case Some(WithKb(HolderKeyFound(_, sdHashOk, _))) => sdHashOk case _ => false
  }

  /** A key-binding JWT belongs to one presentation: with any other, whatever is added to its disclosures, dropped or put in
      another order, and even when the parts read are the same, its sd_hash does not hold, or SHA-256 has a collision. */
  lemma KbBindsPresentation(lib: Library, s: string, t: string, p: Parsed, q: Parsed, rp: Json, rq: Json)
    requires Parse(lib, s) == Some(p) && Parse(lib, t) == Some(q) && p.kb == q.kb
    requires HashHolds(lib, p, rp) && HashHolds(lib, q, rq)
    ensures p == q || (Presentation(p.compact) != Presentation(q.compact)
                       && lib.sha(Presentation(p.compact)) == lib.sha(Presentation(q.compact)))
  {
    hide B64UrlDecode, LoadSegment, Trim, Split, Presentation, DigestOf, Es256, Recorded;
    var x, y := Presentation(p.compact), Presentation(q.compact);
    SameDigest(lib, x, y);
    KbNeedsSeparator(lib, s, p);
    KbNeedsSeparator(lib, t, q);
    PresentationAndKb(lib, s, p);
    PresentationAndKb(lib, t, q);
  }

  lemma KbNeedsSeparator(lib: Library, s: string, p: Parsed)
    requires Parse(lib, s) == Some(p) && p.kb != ""
    ensures '~' in p.compact
  {
    hide B64UrlDecode, LoadSegment, Trim;
    if '~' !in p.compact { SplitOfPart(p.compact, '~'); }
  }

  // ------------------------------------------------------------------ stripping

  ghost predicate AllBlank(lib: Library, s: string) { forall i :: 0 <= i < |s| ==> lib.blank(s[i]) }

  lemma {:induction false} TrimmedLeft(lib: Library, s: string) returns (n: nat)
    ensures n <= |s| && AllBlank(lib, s[..n]) && TrimLeft(lib, s) == s[n..]
    ensures TrimLeft(lib, s) != "" ==> !lib.blank(TrimLeft(lib, s)[0])
    decreases |s|
  {
    n := 0;
    if s != "" && lib.blank(s[0]) {
      var m := TrimmedLeft(lib, s[1..]);
      n := m + 1;
      assert s[..n] == [s[0]] + s[1..][..m];
    }
  }

  lemma {:induction false} TrimmedRight(lib: Library, s: string) returns (n: nat)
    ensures n <= |s| && AllBlank(lib, s[n..]) && TrimRight(lib, s) == s[..n]
    ensures TrimRight(lib, s) != "" ==> !lib.blank(TrimRight(lib, s)[n - 1])
    decreases |s|
  {
    n := |s|;
    if s != "" && lib.blank(s[|s| - 1]) {
      n := TrimmedRight(lib, s[..|s| - 1]);
      assert s[n..] == s[..|s| - 1][n..] + [s[|s| - 1]];
    }
  }

  /** What is stripped is blank, at either end, and what is left begins and ends with a character that is not. */
  lemma TrimStrips(lib: Library, s: string) returns (n: nat, m: nat)
    ensures n <= m <= |s| && Trim(lib, s) == s[n..m] && AllBlank(lib, s[..n]) && AllBlank(lib, s[m..])
    ensures n < m ==> !lib.blank(s[n]) && !lib.blank(s[m - 1])
  {
    n := TrimmedLeft(lib, s);
    var k := TrimmedRight(lib, s[n..]);
    m := n + k;
  }
}
