/** What the string helpers do, written out byte by byte: the white space of Go, trimming,
    lower case, and the domain of every address. */
module AddressMeaning {
  import opened Addresses

  /** `i` is the one place in `s` that holds `c`. */
  predicate OnlyAt(s: string, c: char, i: nat) {
    i < |s| && s[i] == c && forall j :: 0 <= j < |s| && j != i ==> s[j] != c
  }

  lemma {:induction false} SplitAt(s: string, sep: char, i: nat)
    requires OnlyAt(s, sep, i)
    ensures SplitOn(s, sep) == [s[..i], s[i + 1..]]
  {
    if i == 0 {
      SplitWhole(s[1..], sep);
      assert [s[1..]] == [s[i + 1..]] && s[..0] == "";
    } else {
      assert OnlyAt(s[1..], sep, i - 1);
      SplitAt(s[1..], sep, i - 1);
      assert [s[0]] + s[1..][..i - 1] == s[..i] && s[1..][i..] == s[i + 1..];
    }
  }

  lemma {:induction false} SplitInTwo(s: string, sep: char) returns (i: nat)
    requires |SplitOn(s, sep)| == 2
    ensures OnlyAt(s, sep, i)
  {
    if s[0] == sep {
      SplitInOne(s[1..], sep);
      i := 0;
    } else {
      i := SplitInTwo(s[1..], sep);
      i := i + 1;
    }
  }

  lemma {:induction false} SplitInOne(s: string, sep: char)
    requires |SplitOn(s, sep)| == 1
    ensures sep !in s
  {
    if s != "" {
      SplitInOne(s[1..], sep);
    }
  }

  /** The domain of an address is what follows its '@' in lower case, when the trimmed
      address has exactly one '@', and "" otherwise, whatever stands before it. */
  lemma ExtractDomainExactly(addr: string)
    ensures var t := TrimSpace(addr);
            && (forall i: nat :: OnlyAt(t, '@', i) ==> ExtractDomain(addr) == ToLower(t[i + 1..]))
            && ((forall i: nat :: !OnlyAt(t, '@', i)) ==> ExtractDomain(addr) == "")
  {
    var t := TrimSpace(addr);
    forall i: nat | OnlyAt(t, '@', i) ensures ExtractDomain(addr) == ToLower(t[i + 1..]) {
      SplitAt(t, '@', i);
    }
    if |SplitOn(t, '@')| == 2 {
      var i := SplitInTwo(t, '@');
    }
  }

  /** Lower case has no ASCII capitals: a capital becomes the letter at its place in the
      alphabet, anything else stays. */
  lemma ToLowerExactly(s: string, i: nat)
    requires i < |s|
    ensures |ToLower(s)| == |s| && !('A' <= ToLower(s)[i] <= 'Z')
    ensures 'A' <= s[i] <= 'Z' ==> 'a' <= ToLower(s)[i] <= 'z' && ToLower(s)[i] - 'a' == s[i] - 'A'
    ensures !('A' <= s[i] <= 'Z') ==> ToLower(s)[i] == s[i]
  {
  }

  /** A domain is its own query form exactly when it has no ASCII capitals and no white space
      at its ends. */
  lemma QueryFormExactly(domain: string)
    ensures QueryDomain(domain) == domain
            <==> !StartsWithSpace(domain) && !EndsWithSpace(domain)
                 && forall i :: 0 <= i < |domain| ==> !('A' <= domain[i] <= 'Z')
  {
    QueryFormShape(domain);
    if !StartsWithSpace(domain) && !EndsWithSpace(domain) {
      assert TrimSpace(domain) == domain;
    }
    if QueryDomain(domain) == domain {
      forall i | 0 <= i < |domain| ensures !('A' <= domain[i] <= 'Z') {
        ToLowerExactly(domain, i);
      }
    }
  }

  /** Nothing but white-space characters, one after the other. */
  predicate AllSpace(s: string) {
    s != "" ==> SpaceBefore(s) > 0 && AllSpace(s[SpaceBefore(s)..])
  }

  lemma {:induction false} SpaceAppend(a: string, b: string)
    requires AllSpace(a) && AllSpace(b)
    ensures AllSpace(a + b)
    decreases |a|
  {
    if a == "" {
      assert a + b == b;
    } else {
      var n := SpaceBefore(a);
      assert SpaceBefore(a + b) == n;
      assert (a + b)[n..] == a[n..] + b;
      SpaceAppend(a[n..], b);
    }
  }

  lemma Regroup(a: string, b: string, c: string)
    ensures a + (b + c) == a + b + c
  {
  }

  lemma SpaceInFront(space: string, s: string)
    requires space != "" && SpaceBefore(space) == |space|
    ensures AllSpace(s) ==> AllSpace(space + s)
  {
    assert SpaceBefore(space + s) == |space| && (space + s)[|space|..] == s;
  }

  lemma {:induction false} LeftTrimmed(s: string) returns (front: string)
    ensures s == front + TrimLeft(s) && AllSpace(front)
  {
    front := "";
    if StartsWithSpace(s) {
      var k := SpaceBefore(s);
      var rest := LeftTrimmed(s[k..]);
      front := s[..k] + rest;
      SpaceInFront(s[..k], rest);
      Regroup(s[..k], rest, TrimLeft(s));
    }
  }

  lemma LastIsSpace(s: string)
    requires EndsWithSpace(s)
    ensures AllSpace(s[|s| - SpaceAfter(s)..])
  {
    var last := s[|s| - SpaceAfter(s)..];
    assert SpaceBefore(last) == |last| && last[|last|..] == "";
  }

  lemma {:induction false} RightTrimmed(s: string) returns (back: string)
    ensures s == TrimRight(s) + back && AllSpace(back)
  {
    back := "";
    if EndsWithSpace(s) {
      var k := |s| - SpaceAfter(s);
      var rest := RightTrimmed(s[..k]);
      back := rest + s[k..];
      LastIsSpace(s);
      SpaceAppend(rest, s[k..]);
      Regroup(TrimRight(s), rest, s[k..]);
    }
  }

  /** Trimming takes off white space at both ends, and all of it. */
  lemma TrimSpaceExactly(s: string) returns (front: string, back: string)
    ensures s == front + TrimSpace(s) + back
    ensures AllSpace(front) && AllSpace(back)
    ensures !StartsWithSpace(TrimSpace(s)) && !EndsWithSpace(TrimSpace(s))
  {
    front := LeftTrimmed(s);
    back := RightTrimmed(TrimLeft(s));
    TrimSpaceShape(s);
    Regroup(front, TrimSpace(s), back);
  }

  /** Go's white-space characters, in UTF-8. */
  const WHITE_SPACE: seq<string> := [
    " ", "\t", "\n", "\U{0B}", "\U{0C}", "\r", "\U{C2}\U{85}", "\U{C2}\U{A0}", "\U{E1}\U{9A}\U{80}",
    "\U{E2}\U{80}\U{80}", "\U{E2}\U{80}\U{81}", "\U{E2}\U{80}\U{82}", "\U{E2}\U{80}\U{83}",
    "\U{E2}\U{80}\U{84}", "\U{E2}\U{80}\U{85}", "\U{E2}\U{80}\U{86}", "\U{E2}\U{80}\U{87}",
    "\U{E2}\U{80}\U{88}", "\U{E2}\U{80}\U{89}", "\U{E2}\U{80}\U{8A}", "\U{E2}\U{80}\U{A8}",
    "\U{E2}\U{80}\U{A9}", "\U{E2}\U{80}\U{AF}", "\U{E2}\U{81}\U{9F}", "\U{E3}\U{80}\U{80}"]

  lemma Listed(i: nat, w: string)
    requires i < |WHITE_SPACE| && WHITE_SPACE[i] == w
    ensures w in WHITE_SPACE
  {
  }

  lemma OneByteListed(a: char)
    requires IsSpace1(a)
    ensures [a] in WHITE_SPACE
  {
    var i := if a == ' ' then 0 else if a == '\t' then 1 else if a == '\n' then 2 else if a == '\U{0B}' then 3
             else if a == '\U{0C}' then 4 else 5;
    Listed(i, [a]);
  }

  lemma TwoBytesListed(a: char, b: char)
    requires IsSpace2(a, b)
    ensures [a, b] in WHITE_SPACE
  {
    Listed(if b == '\U{85}' then 6 else 7, [a, b]);
  }

  lemma ThreeBytesListed(a: char, b: char, c: char)
    requires IsSpace3(a, b, c)
    ensures [a, b, c] in WHITE_SPACE
  {
    var i := if a == '\U{E1}' then 8 else if a == '\U{E3}' then 24 else if b == '\U{81}' then 23
             else if c == '\U{AF}' then 22 else if c == '\U{A9}' then 21 else if c == '\U{A8}' then 20
             else 9 + (c - '\U{80}') as int;
    Listed(i, [a, b, c]);
  }

  /** A listed text is recognised by its bytes. */
  lemma ListedIsSpace(w: string)
    requires w in WHITE_SPACE
    ensures || (|w| == 1 && IsSpace1(w[0]))
            || (|w| == 2 && IsSpace2(w[0], w[1]))
            || (|w| == 3 && IsSpace3(w[0], w[1], w[2]))
  {
    var i :| 0 <= i < |WHITE_SPACE| && WHITE_SPACE[i] == w;
  }

  lemma FirstListed(s: string)
    requires StartsWithSpace(s)
    ensures s[..SpaceBefore(s)] in WHITE_SPACE
  {
    match SpaceBefore(s)
    case 1 => OneByteListed(s[0]); assert s[..1] == [s[0]];
    case 2 => TwoBytesListed(s[0], s[1]); assert s[..2] == [s[0], s[1]];
    case _ => ThreeBytesListed(s[0], s[1], s[2]); assert s[..3] == [s[0], s[1], s[2]];
  }

  lemma LastListed(s: string)
    requires EndsWithSpace(s)
    ensures s[|s| - SpaceAfter(s)..] in WHITE_SPACE
  {
    var k := |s|;
    match SpaceAfter(s)
    case 1 => OneByteListed(s[k - 1]); assert s[k - 1..] == [s[k - 1]];
    case 2 => TwoBytesListed(s[k - 2], s[k - 1]); assert s[k - 2..] == [s[k - 2], s[k - 1]];
    case _ => ThreeBytesListed(s[k - 3], s[k - 2], s[k - 1]); assert s[k - 3..] == [s[k - 3], s[k - 2], s[k - 1]];
  }

  predicate StartsWith(s: string, w: string) {
    |w| <= |s| && s[..|w|] == w
  }

  predicate EndsWith(s: string, w: string) {
    |w| <= |s| && s[|s| - |w|..] == w
  }

  lemma ListedInFront(s: string, w: string)
    requires w in WHITE_SPACE && StartsWith(s, w)
    ensures StartsWithSpace(s)
  {
    ListedIsSpace(w);
  }

  lemma ListedBehind(s: string, w: string)
    requires w in WHITE_SPACE && EndsWith(s, w)
    ensures EndsWithSpace(s)
  {
    ListedIsSpace(w);
  }

  /** Text starts, or ends, with white space exactly when it starts, or ends, with a
      character of the list. */
  lemma WhiteSpaceExactly(s: string)
    ensures StartsWithSpace(s) <==> exists w :: w in WHITE_SPACE && StartsWith(s, w)
    ensures EndsWithSpace(s) <==> exists w :: w in WHITE_SPACE && EndsWith(s, w)
  {
    forall w | w in WHITE_SPACE && StartsWith(s, w) ensures StartsWithSpace(s) {
      ListedInFront(s, w);
    }
    forall w | w in WHITE_SPACE && EndsWith(s, w) ensures EndsWithSpace(s) {
      ListedBehind(s, w);
    }
    if StartsWithSpace(s) {
      FirstListed(s);
      assert StartsWith(s, s[..SpaceBefore(s)]);
    }
    if EndsWithSpace(s) {
      LastListed(s);
      assert EndsWith(s, s[|s| - SpaceAfter(s)..]);
    }
  }
}
