/** The string helpers behind recipient domains.

    A Go string is a sequence of bytes, written here as characters below 256.  White space
    is all of Go's, in UTF-8; lower-casing changes ASCII letters only. */
module Addresses {
  // A white-space character takes one byte (the ASCII ones), two (U+0085, U+00A0) or three
  // (U+1680, U+2000 to U+200A, U+2028, U+2029, U+202F, U+205F, U+3000) in UTF-8.

  predicate IsSpace1(a: char) {
    a == ' ' || '\t' <= a <= '\r'
  }

  predicate IsSpace2(a: char, b: char) {
    a == '\U{C2}' && (b == '\U{85}' || b == '\U{A0}')
  }

  predicate IsSpace3(a: char, b: char, c: char) {
    || (a == '\U{E1}' && b == '\U{9A}' && c == '\U{80}')
    || (a == '\U{E2}' && b == '\U{80}'
        && ('\U{80}' <= c <= '\U{8A}' || c == '\U{A8}' || c == '\U{A9}' || c == '\U{AF}'))
    || (a == '\U{E2}' && b == '\U{81}' && c == '\U{9F}')
    || (a == '\U{E3}' && b == '\U{80}' && c == '\U{80}')
  }

  /** Bytes of the white-space character `s` starts with, 0 if it starts with none. */
  function SpaceBefore(s: string): (n: nat)
    ensures n <= |s|
  {
    if |s| >= 1 && IsSpace1(s[0]) then 1
    else if |s| >= 2 && IsSpace2(s[0], s[1]) then 2
    else if |s| >= 3 && IsSpace3(s[0], s[1], s[2]) then 3
    else 0
  }

  /** Bytes of the white-space character `s` ends with, 0 if it ends with none. */
  function SpaceAfter(s: string): (n: nat)
    ensures n <= |s|
  {
    var k := |s|;
    if k >= 1 && IsSpace1(s[k - 1]) then 1
    else if k >= 2 && IsSpace2(s[k - 2], s[k - 1]) then 2
    else if k >= 3 && IsSpace3(s[k - 3], s[k - 2], s[k - 1]) then 3
    else 0
  }

  predicate StartsWithSpace(s: string) {
    SpaceBefore(s) > 0
  }

  predicate EndsWithSpace(s: string) {
    SpaceAfter(s) > 0
  }

  function LowerChar(c: char): char {
    if 'A' <= c <= 'Z' then c + ('a' - 'A') else c
  }

  function ToLower(s: string): (r: string)
    ensures |r| == |s| && forall i :: 0 <= i < |s| ==> r[i] == LowerChar(s[i])
  {
    seq(|s|, i requires 0 <= i < |s| => LowerChar(s[i]))
  }

  function TrimLeft(s: string): string {
    if StartsWithSpace(s) then TrimLeft(s[SpaceBefore(s)..]) else s
  }

  function TrimRight(s: string): string {
    if EndsWithSpace(s) then TrimRight(s[..|s| - SpaceAfter(s)]) else s
  }

  function TrimSpace(s: string): string {
    TrimRight(TrimLeft(s))
  }

  function SplitOn(s: string, sep: char): (parts: seq<string>)
    ensures parts != []
  {
    if s == "" then [""]
    else if s[0] == sep then [""] + SplitOn(s[1..], sep)
    else
      var rest := SplitOn(s[1..], sep);
      [[s[0]] + rest[0]] + rest[1..]
  }

  /** What follows the '@' of an address, "" when the trimmed address does not hold
      exactly one '@'. */
  function DomainPart(addr: string): string {
    var parts := SplitOn(TrimSpace(addr), '@');
    if |parts| != 2 then "" else parts[1]
  }

  /** internal/service/send.go:38-44 */
  function ExtractDomain(addr: string): string {
    ToLower(DomainPart(addr))
  }

  /** How the event queries read a domain argument before comparing it
      (internal/repo/event_repo.go:112-115). */
  function QueryDomain(domain: string): string {
    ToLower(TrimSpace(domain))
  }

  // ---- White space at the ends ----

  lemma SolidSuffix(s: string, k: nat)
    requires k <= |s| && !EndsWithSpace(s)
    ensures !EndsWithSpace(s[k..])
  {
  }

  lemma {:induction false} TrimRightShape(s: string)
    ensures TrimRight(s) <= s && !EndsWithSpace(TrimRight(s))
  {
    if EndsWithSpace(s) {
      TrimRightShape(s[..|s| - SpaceAfter(s)]);
    }
  }

  lemma {:induction false} TrimLeftShape(s: string)
    ensures !StartsWithSpace(TrimLeft(s))
    ensures |TrimLeft(s)| <= |s| && TrimLeft(s) == s[|s| - |TrimLeft(s)|..]
  {
    if StartsWithSpace(s) {
      TrimLeftShape(s[SpaceBefore(s)..]);
    }
  }

  lemma SpaceIsNotAll(s: string)
    requires s != "" && !EndsWithSpace(s)
    ensures SpaceBefore(s) < |s|
  {
  }

  /** Text that does not end with white space is not white space all over. */
  lemma {:induction false} TrimLeftLeavesEnd(s: string)
    requires s != "" && !EndsWithSpace(s)
    ensures TrimLeft(s) != "" && !EndsWithSpace(TrimLeft(s))
  {
    if StartsWithSpace(s) {
      SpaceIsNotAll(s);
      SolidSuffix(s, SpaceBefore(s));
      TrimLeftLeavesEnd(s[SpaceBefore(s)..]);
    }
  }

  /** Of text without white space at its end, trimming takes off what is in front. */
  lemma TrimOfSolidEnd(s: string)
    requires s != "" && !EndsWithSpace(s)
    ensures TrimSpace(s) != "" && !StartsWithSpace(TrimSpace(s)) && !EndsWithSpace(TrimSpace(s))
    ensures !StartsWithSpace(s) ==> TrimSpace(s) == s
  {
    TrimLeftShape(s);
    TrimLeftLeavesEnd(s);
  }

  // ---- The shape of a recipient domain ----

  lemma LaterEnd(s: string, n: nat)
    requires s != "" && n < |s|
    ensures s[1..][|s| - 1 - n..] == s[|s| - n..]
  {
  }

  lemma {:induction false} SplitKeepsEnd(s: string, sep: char)
    ensures |SplitOn(s, sep)| == 1 ==> SplitOn(s, sep)[0] == s
    ensures var parts := SplitOn(s, sep); var last := parts[|parts| - 1];
            |last| <= |s| && last == s[|s| - |last|..]
  {
    if s != "" {
      SplitKeepsEnd(s[1..], sep);
      var rest := SplitOn(s[1..], sep);
      var last := rest[|rest| - 1];
      if s[0] != sep && |rest| == 1 {
        assert [s[0]] + rest[0] == s;
        assert SplitOn(s, sep) == [s];
      } else {
        assert SplitOn(s, sep)[|SplitOn(s, sep)| - 1] == last;
        LaterEnd(s, |last|);
      }
    }
  }

  lemma DomainPartEnd(addr: string)
    ensures !EndsWithSpace(DomainPart(addr))
  {
    var t := TrimSpace(addr);
    TrimRightShape(TrimLeft(addr));
    SplitKeepsEnd(t, '@');
    var parts := SplitOn(t, '@');
    if |parts| == 2 {
      SolidSuffix(t, |t| - |parts[1]|);
    }
  }

  /** What any lower-casing that works letter by letter does: nothing to text already in
      lower case, and nothing to white space. */
  ghost predicate LowersLetters(lower: string -> string) {
    forall s: string ::
      && lower(lower(s)) == lower(s)
      && (lower(s) == "" <==> s == "")
      && (StartsWithSpace(lower(s)) <==> StartsWithSpace(s))
      && (EndsWithSpace(lower(s)) <==> EndsWithSpace(s))
  }

  /** A recipient domain is lower case and never ends in white space: what separates it
      from its query form is leading white space alone, whatever letters there are. */
  lemma DomainShapeBy(lower: string -> string, addr: string)
    requires LowersLetters(lower) && lower(DomainPart(addr)) != ""
    ensures var d := lower(DomainPart(addr)); var query := lower(TrimSpace(d));
            && lower(d) == d
            && !EndsWithSpace(d)
            && query != "" && !StartsWithSpace(query)
            && (query == d <==> !StartsWithSpace(d))
  {
    var d := lower(DomainPart(addr));
    DomainPartEnd(addr);
    assert lower(d) == d && !EndsWithSpace(d);
    TrimOfSolidEnd(d);
    var t := TrimSpace(d);
    assert (lower(t) == "" <==> t == "") && (StartsWithSpace(lower(t)) <==> StartsWithSpace(t));
  }

  lemma ToLowerKeepsEnds(s: string)
    ensures ToLower(ToLower(s)) == ToLower(s)
    ensures SpaceBefore(ToLower(s)) == SpaceBefore(s)
    ensures SpaceAfter(ToLower(s)) == SpaceAfter(s)
  {
  }

  lemma ToLowerLowersLetters()
    ensures LowersLetters(ToLower)
  {
    forall s: string
      ensures ToLower(ToLower(s)) == ToLower(s)
      ensures SpaceBefore(ToLower(s)) == SpaceBefore(s) && SpaceAfter(ToLower(s)) == SpaceAfter(s)
    {
      ToLowerKeepsEnds(s);
    }
  }

  lemma ExtractedDomainShape(addr: string)
    requires ExtractDomain(addr) != ""
    ensures var d := ExtractDomain(addr);
            && ToLower(d) == d
            && !EndsWithSpace(d)
            && QueryDomain(d) != ""
            && (QueryDomain(d) == d <==> !StartsWithSpace(d))
  {
    ToLowerLowersLetters();
    DomainShapeBy(ToLower, addr);
  }

  // ---- Domains that differ from their query form ----

  lemma {:induction false} SplitWhole(s: string, sep: char)
    requires sep !in s
    ensures SplitOn(s, sep) == [s]
  {
    if s != "" {
      SplitWhole(s[1..], sep);
      assert [s[0]] + s[1..] == s && [s[1..]][1..] == [];
    }
  }

  lemma SplitFirst(c: char, rest: string, sep: char)
    ensures var parts := SplitOn(rest, sep);
            SplitOn([c] + rest, sep) == if c == sep then [""] + parts else [[c] + parts[0]] + parts[1..]
  {
    assert ([c] + rest)[1..] == rest;
  }

  lemma SplitSpaced(domain: string)
    requires '@' !in domain
    ensures SplitOn("u@ " + domain, '@') == ["u", " " + domain]
  {
    var rest := " " + domain;
    SplitWhole(rest, '@');
    SplitFirst('@', rest, '@');
    assert SplitOn(['@'] + rest, '@') == ["", rest];
    SplitFirst('u', ['@'] + rest, '@');
    assert ['u'] + "" == "u" && ["", rest][1..] == [rest];
    assert "u@ " + domain == ['u'] + (['@'] + rest);
  }

  lemma SolidIsTrimmed(s: string)
    requires !StartsWithSpace(s) && !EndsWithSpace(s)
    ensures TrimSpace(s) == s
  {
  }

  lemma AsciiInFront(c: char, s: string)
    requires s != "" && !EndsWithSpace(s) && c < '\U{80}'
    ensures !EndsWithSpace([c] + s)
  {
  }

  lemma SpacedIsTrimmed(domain: string)
    requires domain != "" && !StartsWithSpace(domain) && !EndsWithSpace(domain)
    ensures TrimSpace(" " + domain) == domain && TrimSpace("u@ " + domain) == "u@ " + domain
  {
    var spaced := " " + domain;
    assert SpaceBefore(spaced) == 1 && spaced[1..] == domain;
    assert TrimLeft(spaced) == TrimLeft(domain) == domain;
    AsciiInFront(' ', domain);
    AsciiInFront('@', spaced);
    AsciiInFront('u', ['@'] + spaced);
    assert "u@ " + domain == ['u'] + (['@'] + spaced);
    SolidIsTrimmed("u@ " + domain);
  }

  /** For every domain there is a recipient whose extracted domain is that domain with a
      space in front, and whose query form is the domain itself. */
  lemma SpacedDomain(domain: string)
    requires domain != "" && '@' !in domain && ToLower(domain) == domain
    requires !StartsWithSpace(domain) && !EndsWithSpace(domain)
    ensures ExtractDomain("u@ " + domain) == " " + domain && QueryDomain(" " + domain) == domain
  {
    SplitSpaced(domain);
    SpacedIsTrimmed(domain);
    assert ToLower(" " + domain) == " " + ToLower(domain);
  }

  lemma TrimmedPart(s: string, c: char)
    requires c !in s
    ensures c !in TrimSpace(s)
  {
    TrimLeftShape(s);
    TrimRightShape(TrimLeft(s));
  }

  lemma TrimSpaceShape(s: string)
    ensures !StartsWithSpace(TrimSpace(s)) && !EndsWithSpace(TrimSpace(s))
  {
    TrimLeftShape(s);
    TrimRightShape(TrimLeft(s));
  }

  /** A query form is in lower case and has no white space at its ends. */
  lemma QueryFormShape(domain: string)
    ensures var q := QueryDomain(domain);
            ToLower(q) == q && !StartsWithSpace(q) && !EndsWithSpace(q) && ('@' !in domain ==> '@' !in q)
  {
    TrimSpaceShape(domain);
    ToLowerKeepsEnds(TrimSpace(domain));
    if '@' !in domain {
      TrimmedPart(domain, '@');
    }
  }
}
