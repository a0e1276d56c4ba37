/** What splitting, joining and rewriting promise, and for exactly which data. */
module HeaderProperties {
  import opened Addresses
  import opened HeaderText

  predicate SevenBit(s: string) {
    forall i :: 0 <= i < |s| ==> s[i] < '\U{80}'
  }

  predicate NoBreaks(s: string) {
    '\r' !in s && '\n' !in s
  }

  /** A line that one more trip through the splitter leaves alone. */
  predicate Plain(line: string) {
    SevenBit(line) && NoBreaks(line)
  }

  predicate AllPlain(lines: seq<string>) {
    forall i :: 0 <= i < |lines| ==> Plain(lines[i])
  }

  predicate NoLineFeeds(lines: seq<string>) {
    forall i :: 0 <= i < |lines| ==> '\n' !in lines[i]
  }

  // ---- One line through the splitter ----

  function Encoded(line: string): string {
    if line == "" then ""
    else (if line[0] == '\r' then "" else ByteString(line[0])) + Encoded(line[1..])
  }

  function EncodedAll(lines: seq<string>): (r: seq<string>)
    ensures |r| == |lines|
    ensures forall i :: 0 <= i < |r| ==> r[i] == Encoded(lines[i])
  {
    seq(|lines|, i requires 0 <= i < |lines| => Encoded(lines[i]))
  }

  lemma {:induction false} EncodedPlain(line: string)
    requires Plain(line)
    ensures Encoded(line) == line
  {
    if line != "" {
      EncodedPlain(line[1..]);
    }
  }

  lemma {:induction false} EncodedGrows(line: string)
    requires NoBreaks(line)
    ensures |Encoded(line)| >= |line|
    ensures |Encoded(line)| == |line| <==> Plain(line)
  {
    if line != "" {
      EncodedGrows(line[1..]);
      assert forall i :: 0 <= i < |line[1..]| ==> line[1..][i] == line[i + 1];
      assert Plain(line) <==> line[0] < '\U{80}' && Plain(line[1..]);
    }
  }

  lemma {:induction false} LinesFromLine(line: string, rest: string, cur: string)
    requires '\n' !in line
    ensures LinesFrom(line + rest, cur) == LinesFrom(rest, cur + Encoded(line))
    decreases |line|
  {
    if line == "" {
      assert line + rest == rest && cur + Encoded(line) == cur;
    } else {
      var next := if line[0] == '\r' then cur else cur + ByteString(line[0]);
      assert (line + rest)[1..] == line[1..] + rest;
      LinesFromLine(line[1..], rest, next);
      assert next + Encoded(line[1..]) == cur + Encoded(line);
    }
  }

  lemma LineAlone(line: string)
    requires '\n' !in line
    ensures Lines(line) == [Encoded(line)]
  {
    LinesFromLine(line, "", "");
    assert line + "" == line && "" + Encoded(line) == Encoded(line);
  }

  lemma LinesFromBreak(rest: string, cur: string)
    ensures LinesFrom(CRLF + rest, cur) == [cur] + Lines(rest)
  {
    assert (CRLF + rest)[1..] == "\n" + rest && ("\n" + rest)[1..] == rest;
  }

  lemma LineThenMore(line: string, rest: string)
    requires '\n' !in line
    ensures Lines(line + CRLF + rest) == [Encoded(line)] + Lines(rest)
  {
    LinesFromLine(line, CRLF + rest, "");
    LinesFromBreak(rest, Encoded(line));
    assert line + CRLF + rest == line + (CRLF + rest) && "" + Encoded(line) == Encoded(line);
  }

  /** Splitting a joined list gives every line back, once more encoded. */
  lemma {:induction false} LinesOfJoined(lines: seq<string>)
    requires lines != [] && NoLineFeeds(lines)
    ensures Lines(Joined(lines)) == EncodedAll(lines)
  {
    if |lines| == 1 {
      LineAlone(lines[0]);
    } else {
      LineThenMore(lines[0], Joined(lines[1..]));
      LinesOfJoined(lines[1..]);
      assert EncodedAll(lines) == [Encoded(lines[0])] + EncodedAll(lines[1..]);
    }
  }

  lemma {:induction false} LinesFromNoBreaks(s: string, cur: string)
    requires NoBreaks(cur)
    ensures forall i :: 0 <= i < |LinesFrom(s, cur)| ==> NoBreaks(LinesFrom(s, cur)[i])
    decreases |s|
  {
    if s != "" {
      LinesFromNoBreaks(s[1..],
                        if s[0] == '\r' then cur else if s[0] == '\n' then "" else cur + ByteString(s[0]));
    }
  }

  // ---- Round trips ----

  /** Splitting undoes joining exactly for the lists of 7-bit lines without CR or LF. */
  lemma SplitUndoesJoin(lines: seq<string>)
    requires lines != []
    ensures Lines(Joined(lines)) == lines <==> AllPlain(lines)
  {
    if AllPlain(lines) {
      LinesOfJoined(lines);
      forall i | 0 <= i < |lines| ensures Encoded(lines[i]) == lines[i] { EncodedPlain(lines[i]); }
    } else if Lines(Joined(lines)) == lines {
      LinesFromNoBreaks(Joined(lines), "");
      LinesOfJoined(lines);
      forall i | 0 <= i < |lines| ensures Plain(lines[i]) { EncodedGrows(lines[i]); }
      assert false;
    }
  }

  /** Every CR dropped, every LF turned into CRLF, every other byte kept. */
  function Normalised(s: string): string {
    if s == "" then ""
    else (if s[0] == '\r' then "" else if s[0] == '\n' then "\r\n" else [s[0]]) + Normalised(s[1..])
  }

  function Respelled(s: string): string {
    if s == "" then ""
    else (if s[0] == '\r' then "" else if s[0] == '\n' then "\r\n" else ByteString(s[0])) + Respelled(s[1..])
  }

  lemma {:induction false} JoinedLinesFrom(s: string, cur: string)
    ensures Joined(LinesFrom(s, cur)) == cur + Respelled(s)
    decreases |s|
  {
    if s != "" {
      if s[0] == '\r' {
        JoinedLinesFrom(s[1..], cur);
      } else if s[0] == '\n' {
        JoinedLinesFrom(s[1..], "");
        assert ([cur] + LinesFrom(s[1..], ""))[1..] == LinesFrom(s[1..], "");
        assert cur + CRLF + Respelled(s[1..]) == cur + (CRLF + Respelled(s[1..]));
      } else {
        JoinedLinesFrom(s[1..], cur + ByteString(s[0]));
      }
    }
  }

  lemma {:induction false} RespelledGrows(s: string)
    ensures |Respelled(s)| >= |Normalised(s)|
    ensures |Respelled(s)| == |Normalised(s)| <==> SevenBit(s)
    ensures SevenBit(s) ==> Respelled(s) == Normalised(s)
  {
    if s != "" {
      RespelledGrows(s[1..]);
      assert forall i :: 0 <= i < |s[1..]| ==> s[1..][i] == s[i + 1];
      assert SevenBit(s) <==> s[0] < '\U{80}' && SevenBit(s[1..]);
    }
  }

  /** Joining the split text normalises its line ends and touches nothing else, exactly
      when the text is 7-bit. */
  lemma JoinAfterSplit(s: string)
    ensures Joined(Lines(s)) == Normalised(s) <==> SevenBit(s)
  {
    JoinedLinesFrom(s, "");
    RespelledGrows(s);
  }

  lemma NormalisedBreak(t: string)
    ensures Normalised(CRLF + t) == CRLF + Normalised(t)
  {
    assert (CRLF + t)[1..] == "\n" + t && ("\n" + t)[1..] == t;
    assert Normalised("\n" + t) == CRLF + Normalised(t);
  }

  lemma NormalisedChar(c: char, t: string)
    requires c != '\r' && c != '\n'
    ensures Normalised([c] + t) == [c] + Normalised(t)
  {
    assert ([c] + t)[1..] == t;
  }

  /** Respelled text breaks its lines with CRLF already. */
  lemma {:induction false} RespelledIsNormal(s: string)
    ensures Normalised(Respelled(s)) == Respelled(s)
  {
    if s != "" {
      RespelledIsNormal(s[1..]);
      var t := Respelled(s[1..]);
      if s[0] == '\r' {
        assert Respelled(s) == t;
      } else if s[0] == '\n' {
        NormalisedBreak(t);
      } else {
        NormalisedBytes(ByteString(s[0]), t);
      }
    }
  }

  lemma {:induction false} RespelledSevenBit(s: string)
    ensures SevenBit(Respelled(s)) <==> SevenBit(s)
  {
    if s != "" {
      RespelledSevenBit(s[1..]);
      var first := if s[0] == '\r' then "" else if s[0] == '\n' then "\r\n" else ByteString(s[0]);
      assert SevenBit(first) <==> s[0] < '\U{80}';
      SevenBitConcat(first, Respelled(s[1..]));
      SevenBitConcat([s[0]], s[1..]);
      assert [s[0]] + s[1..] == s;
    }
  }

  lemma SevenBitConcat(a: string, b: string)
    ensures SevenBit(a + b) <==> SevenBit(a) && SevenBit(b)
  {
    forall i | 0 <= i < |b| ensures (a + b)[|a| + i] == b[i] {
    }
    forall i | 0 <= i < |a| ensures (a + b)[i] == a[i] {
    }
  }

  lemma NormalisedBytes(bytes: string, t: string)
    requires 1 <= |bytes| <= 2 && NoBreaks(bytes)
    ensures Normalised(bytes + t) == bytes + Normalised(t)
  {
    if |bytes| == 1 {
      NormalisedChar(bytes[0], t);
      assert bytes == [bytes[0]];
    } else {
      NormalisedChar(bytes[1], t);
      NormalisedChar(bytes[0], [bytes[1]] + t);
      assert bytes + t == [bytes[0]] + ([bytes[1]] + t);
      assert bytes + Normalised(t) == [bytes[0]] + ([bytes[1]] + Normalised(t));
    }
  }

  /** Split-then-join is idempotent exactly on 7-bit text. */
  lemma NormaliserIsIdempotent(s: string)
    ensures Joined(Lines(Joined(Lines(s)))) == Joined(Lines(s)) <==> SevenBit(s)
  {
    var r := Respelled(s);
    JoinedLinesFrom(s, "");
    JoinedLinesFrom(r, "");
    assert "" + r == r && "" + Respelled(r) == Respelled(r);
    RespelledIsNormal(s);
    RespelledSevenBit(s);
    RespelledGrows(r);
  }

  // ---- Rewriting ----

  predicate HasHeaderEnd(data: string) {
    HeaderEnd(Lines(data)) < |Lines(data)|
  }

  /** The lines that a rewrite keeps: all but the first From header line. */
  function KeptOf(lines: seq<string>): seq<string> {
    var end := HeaderEnd(lines);
    var k := FirstFrom(lines, end);
    if k < end then lines[..k] + lines[k + 1..] else lines
  }

  function KeptLines(data: string): seq<string> {
    KeptOf(Lines(data))
  }

  lemma StartsWithFrom(line: string, tail: string)
    requires line == "From:" + tail
    ensures IsFrom(line) && line != ""
  {
    assert line[..5] == "From:";
  }

  lemma EncodedAfterFrom(tail: string)
    ensures Encoded("From:" + tail) == "From:" + Encoded(tail)
  {
    EncodedConcat("From:", tail);
    EncodedPlain("From:");
  }

  lemma TailOfFrom(address: string)
    ensures "From: <" + address + ">" == "From:" + (" <" + address + ">")
  {
  }

  lemma FromLineIsFrom(sender: string)
    ensures IsFrom(FromLine(sender)) && FromLine(sender) != ""
    ensures IsFrom(Encoded(FromLine(sender))) && Encoded(FromLine(sender)) != ""
  {
    var line, tail := FromLine(sender), " <" + TrimSpace(sender) + ">";
    TailOfFrom(TrimSpace(sender));
    StartsWithFrom(line, tail);
    EncodedAfterFrom(tail);
    StartsWithFrom(Encoded(line), Encoded(tail));
  }

  lemma {:induction false} EncodedConcat(a: string, b: string)
    ensures Encoded(a + b) == Encoded(a) + Encoded(b)
  {
    if a == "" {
      assert a + b == b;
    } else {
      assert (a + b)[1..] == a[1..] + b;
      EncodedConcat(a[1..], b);
    }
  }

  lemma HeaderEndIs(lines: seq<string>, k: nat)
    requires k < |lines| && lines[k] == ""
    requires forall i :: 0 <= i < k ==> lines[i] != ""
    ensures HeaderEnd(lines) == k
  {
  }

  lemma FirstFromIs(lines: seq<string>, end: nat, k: nat)
    requires k < end <= |lines| && IsFrom(lines[k])
    requires forall i :: 0 <= i < k ==> !IsFrom(lines[i])
    ensures FirstFrom(lines, end) == k
  {
  }

  /** Where the sender line of a rewritten message stands. */
  function SenderIndex(lines: seq<string>): nat {
    var end := HeaderEnd(lines);
    var k := FirstFrom(lines, end);
    if k < end then k else 0
  }

  /** The lines with the sender's line in place `k` keep their body, and that line is their
      first From line. */
  predicate SenderAt(lines: seq<string>, r: seq<string>, sender: string, k: nat) {
    && k < HeaderEnd(r) < |r|
    && |r| - HeaderEnd(r) == |lines| - HeaderEnd(lines)
    && r[HeaderEnd(r)..] == lines[HeaderEnd(lines)..]
    && r[k] == FromLine(sender)
    && FirstFrom(r, HeaderEnd(r)) == k
  }

  lemma {:induction false} FirstFromReplaced(lines: seq<string>, end: nat, k: nat, line: string)
    requires k < end <= |lines| && FirstFrom(lines, end) == k && IsFrom(line)
    ensures FirstFrom(lines[k := line], end) == k
  {
    if k > 0 {
      FirstFromReplaced(lines[1..], end - 1, k - 1, line);
      assert lines[k := line][1..] == lines[1..][k - 1 := line];
    }
  }

  lemma {:induction false} HeaderEndReplaced(lines: seq<string>, k: nat, line: string)
    requires k < HeaderEnd(lines) && line != ""
    ensures HeaderEnd(lines[k := line]) == HeaderEnd(lines)
  {
    if k > 0 {
      HeaderEndReplaced(lines[1..], k - 1, line);
      assert lines[k := line][1..] == lines[1..][k - 1 := line];
    } else {
      assert lines[k := line][1..] == lines[1..];
    }
  }

  lemma ReplacedShape(lines: seq<string>, sender: string, k: nat)
    requires k < HeaderEnd(lines) < |lines| && FirstFrom(lines, HeaderEnd(lines)) == k
    ensures SenderAt(lines, lines[k := FromLine(sender)], sender, k)
  {
    FromLineIsFrom(sender);
    HeaderEndReplaced(lines, k, FromLine(sender));
    FirstFromReplaced(lines, HeaderEnd(lines), k, FromLine(sender));
  }

  lemma LineInFront(lines: seq<string>, line: string)
    requires HeaderEnd(lines) < |lines| && line != "" && IsFrom(line)
    ensures var r := [line] + lines;
            && HeaderEnd(r) == 1 + HeaderEnd(lines) && FirstFrom(r, HeaderEnd(r)) == 0
            && r[HeaderEnd(r)..] == lines[HeaderEnd(lines)..]
  {
    assert ([line] + lines)[1..] == lines;
  }

  lemma InsertedShape(lines: seq<string>, sender: string)
    requires HeaderEnd(lines) < |lines|
    ensures SenderAt(lines, [FromLine(sender)] + lines, sender, 0)
  {
    FromLineIsFrom(sender);
    LineInFront(lines, FromLine(sender));
  }

  lemma WithSenderShape(lines: seq<string>, sender: string)
    requires HeaderEnd(lines) < |lines|
    ensures SenderAt(lines, WithSender(lines, sender), sender, SenderIndex(lines))
  {
    var k := FirstFrom(lines, HeaderEnd(lines));
    if k < HeaderEnd(lines) {
      ReplacedShape(lines, sender, k);
    } else {
      InsertedShape(lines, sender);
    }
  }

  lemma WithSenderOthers(lines: seq<string>, sender: string)
    requires HeaderEnd(lines) < |lines| && forall i :: 0 <= i < |lines| ==> NoBreaks(lines[i])
    ensures var r := WithSender(lines, sender); forall i :: 0 <= i < |r| && i != SenderIndex(lines) ==> NoBreaks(r[i])
  {
  }

  lemma FromLineOneLine(sender: string)
    requires '\n' !in TrimSpace(sender)
    ensures '\n' !in FromLine(sender)
  {
  }

  lemma EncodedAgain(lines: seq<string>, f: string, g: string)
    requires HeaderEnd(lines) < |lines| && '\n' !in TrimSpace(f)
    requires forall i :: 0 <= i < |lines| ==> NoBreaks(lines[i])
    ensures var second := Lines(Joined(WithSender(lines, f)));
            && second == EncodedAll(WithSender(lines, f))
            && HeaderEnd(second) < |second|
            && WithSender(second, g) == second[SenderIndex(lines) := FromLine(g)]
  {
    var first := WithSender(lines, f);
    var k := SenderIndex(lines);
    WithSenderShape(lines, f);
    WithSenderOthers(lines, f);
    FromLineOneLine(f);
    assert NoLineFeeds(first);
    LinesOfJoined(first);
    EncodedHeader(first, f, k);
  }

  /** A second rewrite starts from the encoded lines of the first, and replaces exactly
      the line the first one wrote. */
  lemma RewriteTwice(data: string, f: string, g: string)
    requires HasHeaderEnd(data) && f != "" && g != "" && '\n' !in TrimSpace(f)
    ensures var lines := Lines(data);
            Rewritten(Rewritten(data, f), g)
            == Joined(EncodedAll(WithSender(lines, f))[SenderIndex(lines) := FromLine(g)])
  {
    LinesFromNoBreaks(data, "");
    EncodedAgain(Lines(data), f, g);
  }

  /** Seven-bit text at the start of an encoded line was there before encoding. */
  lemma {:induction false} PrefixSurvives(line: string, n: nat)
    requires NoBreaks(line) && n <= |Encoded(line)| && SevenBit(Encoded(line)[..n])
    ensures n <= |line| && line[..n] == Encoded(line)[..n]
  {
    if n > 0 {
      assert Encoded(line)[0] < '\U{80}';
      assert Encoded(line) == [line[0]] + Encoded(line[1..]);
      assert Encoded(line)[..n][1..] == Encoded(line[1..])[..n - 1];
      PrefixSurvives(line[1..], n - 1);
      assert line[..n] == [line[0]] + line[1..][..n - 1];
    }
  }

  /** Encoding can make no line a From line that was not one before. */
  lemma EncodedFrom(line: string)
    requires NoBreaks(line) && IsFrom(Encoded(line))
    ensures IsFrom(line)
  {
    var e := Encoded(line);
    assert |e| >= 5;
    assert e[..5] == e[..5][..5];
    forall i | 0 <= i < 5 ensures e[..5][i] < '\U{80}' {
      assert ToLower(e[..5])[i] == "from:"[i];
    }
    PrefixSurvives(line, 5);
  }

  lemma EncodedHeader(lines: seq<string>, sender: string, k: nat)
    requires HeaderEnd(lines) < |lines|
    requires k < HeaderEnd(lines) && lines[k] == FromLine(sender) && FirstFrom(lines, HeaderEnd(lines)) == k
    requires forall i :: 0 <= i < |lines| && i != k ==> NoBreaks(lines[i])
    ensures var r := EncodedAll(lines); HeaderEnd(r) == HeaderEnd(lines) && FirstFrom(r, HeaderEnd(r)) == k
  {
    var r := EncodedAll(lines);
    var end := HeaderEnd(lines);
    FromLineIsFrom(sender);
    forall i | 0 <= i < end ensures r[i] != "" {
      if i != k { EncodedGrows(lines[i]); }
    }
    HeaderEndIs(r, end);
    forall i | 0 <= i < k ensures !IsFrom(r[i]) {
      if IsFrom(r[i]) { EncodedFrom(lines[i]); }
    }
    FirstFromIs(r, end, k);
  }

  lemma {:induction false} JoinedGrows(a: seq<string>, b: seq<string>)
    requires |a| == |b| && forall i :: 0 <= i < |a| ==> |a[i]| <= |b[i]|
    ensures |Joined(a)| <= |Joined(b)|
    ensures |Joined(a)| == |Joined(b)| <==> forall i :: 0 <= i < |a| ==> |a[i]| == |b[i]|
  {
    if |a| > 1 {
      JoinedGrows(a[1..], b[1..]);
      assert (forall i :: 0 <= i < |a| ==> |a[i]| == |b[i]|)
        <==> |a[0]| == |b[0]| && (forall i :: 0 <= i < |a[1..]| ==> |a[1..][i]| == |b[1..][i]|) by {
        assert forall i :: 1 <= i < |a| ==> a[i] == a[1..][i - 1] && b[i] == b[1..][i - 1];
      }
    }
  }

  /** Every line but the one at `k` is plain. */
  predicate AllPlainBut(lines: seq<string>, k: nat) {
    forall i :: 0 <= i < |lines| && i != k ==> Plain(lines[i])
  }

  lemma PlainWithout(lines: seq<string>, k: nat)
    requires k < |lines|
    ensures AllPlain(lines[..k] + lines[k + 1..]) <==> AllPlainBut(lines, k)
  {
    var kept := lines[..k] + lines[k + 1..];
    forall i | 0 <= i < |lines| && i != k ensures lines[i] == kept[if i < k then i else i - 1] {
    }
    forall i | 0 <= i < |kept| ensures kept[i] == lines[if i < k then i else i + 1] {
    }
  }

  lemma PutThenDrop<T>(s: seq<T>, k: nat, x: T)
    requires k < |s|
    ensures s[k := x][..k] + s[k := x][k + 1..] == s[..k] + s[k + 1..]
  {
  }

  lemma InsertThenDrop<T>(s: seq<T>, x: T)
    ensures ([x] + s)[..0] + ([x] + s)[1..] == s
  {
  }

  lemma KeptIsRest(data: string, line: string)
    requires HasHeaderEnd(data)
    ensures var r := WithLine(Lines(data), line); var k := SenderIndex(Lines(data));
            k < |r| && KeptLines(data) == r[..k] + r[k + 1..]
  {
    var lines := Lines(data);
    var k := FirstFrom(lines, HeaderEnd(lines));
    if k < HeaderEnd(lines) {
      PutThenDrop(lines, k, line);
    } else {
      InsertThenDrop(lines, line);
    }
  }

  lemma KeptPlain(data: string, g: string)
    requires HasHeaderEnd(data)
    ensures var r := WithSender(Lines(data), g); var k := SenderIndex(Lines(data));
            && k < |r|
            && (AllPlain(KeptLines(data)) <==> AllPlainBut(r, k))
  {
    KeptIsRest(data, FromLine(g));
    PlainWithout(WithSender(Lines(data), g), SenderIndex(Lines(data)));
  }

  /** `twice` is `r` with every line but the k-th encoded once more: the joined texts are
      the same exactly when those lines are plain. */
  lemma EncodedOnceMore(r: seq<string>, twice: seq<string>, k: nat)
    requires |twice| == |r| && k < |r| && twice[k] == r[k]
    requires forall i :: 0 <= i < |r| && i != k ==> NoBreaks(r[i]) && twice[i] == Encoded(r[i])
    ensures Joined(twice) == Joined(r) <==> AllPlainBut(r, k)
  {
    forall i | 0 <= i < |r|
      ensures |r[i]| <= |twice[i]| && (|r[i]| == |twice[i]| <==> i == k || Plain(r[i]))
      ensures i == k || Plain(r[i]) ==> r[i] == twice[i]
    {
      if i != k {
        EncodedGrows(r[i]);
        if Plain(r[i]) { EncodedPlain(r[i]); }
      }
    }
    JoinedGrows(r, twice);
    if AllPlainBut(r, k) {
      assert r == twice;
    }
  }

  lemma SameRest<T>(a: seq<T>, b: seq<T>, k: nat)
    requires k < |a| == |b| && a[..k] == b[..k] && a[k + 1..] == b[k + 1..]
    ensures forall i :: 0 <= i < |a| && i != k ==> a[i] == b[i]
  {
    forall i | k < i < |a| ensures a[i] == b[i] {
      assert a[k + 1..][i - k - 1] == b[k + 1..][i - k - 1];
    }
    forall i | 0 <= i < k ensures a[i] == b[i] {
      assert a[..k][i] == b[..k][i];
    }
  }

  lemma OtherSenderSameRest(lines: seq<string>, f: string, g: string)
    ensures |WithSender(lines, f)| == |WithSender(lines, g)|
    ensures forall i :: 0 <= i < |WithSender(lines, f)| && i != SenderIndex(lines) ==>
              WithSender(lines, f)[i] == WithSender(lines, g)[i]
  {
    SameRest(WithSender(lines, f), WithSender(lines, g), SenderIndex(lines));
  }

  /** Rewriting to f and then to g is rewriting to g alone exactly when every line the
      rewrite keeps is 7-bit. */
  lemma LastSenderWins(data: string, f: string, g: string)
    requires f != "" && g != "" && '\n' !in TrimSpace(f)
    ensures Rewritten(Rewritten(data, f), g) == Rewritten(data, g)
            <==> !HasHeaderEnd(data) || AllPlain(KeptLines(data))
  {
    if HasHeaderEnd(data) {
      var lines := Lines(data);
      var k := SenderIndex(lines);
      var r := WithSender(lines, g);
      LinesFromNoBreaks(data, "");
      WithSenderShape(lines, g);
      WithSenderOthers(lines, g);
      OtherSenderSameRest(lines, f, g);
      RewriteTwice(data, f, g);
      KeptPlain(data, g);
      EncodedOnceMore(r, EncodedAll(WithSender(lines, f))[k := FromLine(g)], k);
    }
  }

  lemma {:induction false} LinesFromSevenBit(s: string, cur: string)
    requires SevenBit(s) && SevenBit(cur)
    ensures forall i :: 0 <= i < |LinesFrom(s, cur)| ==> SevenBit(LinesFrom(s, cur)[i])
    decreases |s|
  {
    if s != "" {
      LinesFromSevenBit(s[1..],
                        if s[0] == '\r' then cur else if s[0] == '\n' then "" else cur + ByteString(s[0]));
    }
  }

  lemma SevenBitKeepsPlain(data: string)
    requires SevenBit(data)
    ensures AllPlain(Lines(data)) && AllPlain(KeptLines(data))
  {
    LinesFromSevenBit(data, "");
    LinesFromNoBreaks(data, "");
  }

  /** On 7-bit data rewriting is idempotent and the last sender wins. */
  lemma RewritingSevenBitData(data: string, f: string, g: string)
    requires SevenBit(data) && f != "" && g != "" && '\n' !in TrimSpace(f) && '\n' !in TrimSpace(g)
    ensures Rewritten(Rewritten(data, f), g) == Rewritten(data, g)
    ensures Rewritten(Rewritten(data, g), g) == Rewritten(data, g)
  {
    SevenBitKeepsPlain(data);
    LastSenderWins(data, f, g);
    LastSenderWins(data, g, g);
  }

  // ---- Reading a message back as bytes ----

  /** Like LinesFrom, every byte kept as it is. */
  function RawFrom(s: string, cur: string): (lines: seq<string>)
    ensures lines != []
    decreases |s|
  {
    if s == "" then [cur]
    else if s[0] == '\r' then RawFrom(s[1..], cur)
    else if s[0] == '\n' then [cur] + RawFrom(s[1..], "")
    else RawFrom(s[1..], cur + [s[0]])
  }

  /** The lines of a message as bytes. */
  function RawLines(s: string): (lines: seq<string>)
    ensures lines != []
  {
    RawFrom(s, "")
  }

  predicate AllNoBreaks(lines: seq<string>) {
    forall i :: 0 <= i < |lines| ==> NoBreaks(lines[i])
  }

  lemma {:induction false} RawFromNoBreaks(s: string, cur: string)
    requires NoBreaks(cur)
    ensures AllNoBreaks(RawFrom(s, cur))
    decreases |s|
  {
    if s != "" {
      RawFromNoBreaks(s[1..], if s[0] == '\r' then cur else if s[0] == '\n' then "" else cur + [s[0]]);
    }
  }

  lemma EncodedFirst(line: string, rest: seq<string>)
    ensures EncodedAll([line] + rest) == [Encoded(line)] + EncodedAll(rest)
  {
  }

  /** The code's lines are the raw lines respelled. */
  lemma {:induction false} LinesAreRawEncoded(s: string, cur: string)
    requires NoBreaks(cur)
    ensures LinesFrom(s, Encoded(cur)) == EncodedAll(RawFrom(s, cur))
    decreases |s|
  {
    if s != "" {
      if s[0] == '\r' {
        LinesAreRawEncoded(s[1..], cur);
      } else if s[0] == '\n' {
        LinesAreRawEncoded(s[1..], "");
        EncodedFirst(cur, RawFrom(s[1..], ""));
      } else {
        EncodedConcat(cur, [s[0]]);
        assert Encoded([s[0]]) == ByteString(s[0]);
        LinesAreRawEncoded(s[1..], cur + [s[0]]);
      }
    }
  }

  lemma {:induction false} RawFromLine(line: string, rest: string, cur: string)
    requires NoBreaks(line)
    ensures RawFrom(line + rest, cur) == RawFrom(rest, cur + line)
    decreases |line|
  {
    if line == "" {
      assert line + rest == rest && cur + line == cur;
    } else {
      assert (line + rest)[1..] == line[1..] + rest;
      RawFromLine(line[1..], rest, cur + [line[0]]);
      assert cur + [line[0]] + line[1..] == cur + line;
    }
  }

  lemma RawLineThenMore(line: string, rest: string)
    requires NoBreaks(line)
    ensures RawLines(line + CRLF + rest) == [line] + RawLines(rest)
  {
    RawFromLine(line, CRLF + rest, "");
    assert line + CRLF + rest == line + (CRLF + rest) && "" + line == line;
    assert (CRLF + rest)[1..] == "\n" + rest && ("\n" + rest)[1..] == rest;
  }

  /** Read back as bytes, joined lines are the lines. */
  lemma {:induction false} RawOfJoined(lines: seq<string>)
    requires lines != [] && AllNoBreaks(lines)
    ensures RawLines(Joined(lines)) == lines
  {
    if |lines| == 1 {
      RawFromLine(lines[0], "", "");
      assert lines[0] + "" == lines[0] && "" + lines[0] == lines[0];
    } else {
      RawLineThenMore(lines[0], Joined(lines[1..]));
      RawOfJoined(lines[1..]);
      assert lines == [lines[0]] + lines[1..];
    }
  }

  lemma FromIsSevenBit(line: string)
    requires IsFrom(line)
    ensures |line| >= 5 && SevenBit(line[..5])
  {
    forall i | 0 <= i < 5 ensures line[..5][i] < '\U{80}' {
      assert ToLower(line[..5])[i] == "from:"[i];
    }
  }

  lemma PlainStartStays(start: string, rest: string)
    requires Plain(start)
    ensures Encoded(start + rest) == start + Encoded(rest)
  {
    EncodedPlain(start);
    EncodedConcat(start, rest);
  }

  lemma IsFromByStart(start: string, a: string, b: string)
    requires |start| == 5
    ensures IsFrom(start + a) == IsFrom(start + b)
  {
    assert (start + a)[..5] == start == (start + b)[..5];
  }

  lemma IsFromEncoded(line: string)
    requires NoBreaks(line)
    ensures IsFrom(Encoded(line)) <==> IsFrom(line)
  {
    if IsFrom(Encoded(line)) {
      EncodedFrom(line);
    }
    if IsFrom(line) {
      FromIsSevenBit(line);
      PlainStartStays(line[..5], line[5..]);
      IsFromByStart(line[..5], line[5..], Encoded(line[5..]));
      assert line[..5] + line[5..] == line;
    }
  }

  /** Respelling moves neither the end of the header nor its first From line. */
  lemma EncodedShape(lines: seq<string>)
    requires AllNoBreaks(lines)
    ensures var r := EncodedAll(lines);
            && HeaderEnd(r) == HeaderEnd(lines)
            && FirstFrom(r, HeaderEnd(r)) == FirstFrom(lines, HeaderEnd(lines))
  {
    var r := EncodedAll(lines);
    forall i | 0 <= i < |lines| ensures (r[i] == "" <==> lines[i] == "") && (IsFrom(r[i]) <==> IsFrom(lines[i])) {
      EncodedGrows(lines[i]);
      IsFromEncoded(lines[i]);
    }
    SameHeaderEnd(lines, r);
    SameFirstFrom(lines, r, HeaderEnd(lines));
  }

  lemma SameHeaderEnd(a: seq<string>, b: seq<string>)
    requires |a| == |b| && forall i :: 0 <= i < |a| ==> (a[i] == "" <==> b[i] == "")
    ensures HeaderEnd(a) == HeaderEnd(b)
  {
    var k := HeaderEnd(a);
    if k < |a| { HeaderEndIs(b, k); }
    var m := HeaderEnd(b);
    if m < |b| { HeaderEndIs(a, m); }
  }

  lemma SameFirstFrom(a: seq<string>, b: seq<string>, end: nat)
    requires end <= |a| == |b| && forall i :: 0 <= i < |a| ==> (IsFrom(a[i]) <==> IsFrom(b[i]))
    ensures FirstFrom(a, end) == FirstFrom(b, end)
  {
    var k := FirstFrom(a, end);
    if k < end { FirstFromIs(b, end, k); }
    var m := FirstFrom(b, end);
    if m < end { FirstFromIs(a, end, m); }
  }

  lemma FromLineBreaks(sender: string)
    ensures NoBreaks(FromLine(sender)) <==> NoBreaks(TrimSpace(sender))
  {
    var head, address := "From: <", TrimSpace(sender);
    forall i | 0 <= i < |address| ensures FromLine(sender)[|head| + i] == address[i] {
    }
  }

  /** What an account is handed, read back as bytes, is the code's lines with the sender's
      line among them. */
  lemma RewrittenBytes(data: string, sender: string)
    requires HasHeaderEnd(data) && sender != "" && NoBreaks(TrimSpace(sender))
    ensures RawLines(Rewritten(data, sender)) == WithLine(Lines(data), "From: <" + TrimSpace(sender) + ">")
  {
    LinesFromNoBreaks(data, "");
    FromLineBreaks(sender);
    WithSenderOthers(Lines(data), sender);
    WithSenderShape(Lines(data), sender);
    RawOfJoined(WithSender(Lines(data), sender));
  }

  lemma NoLineBreaks(s: string, sender: string)
    requires !NoBreaks(TrimSpace(sender))
    ensures forall i :: 0 <= i < |RawLines(s)| ==> !NamesSender(RawLines(s)[i], sender)
  {
    RawFromNoBreaks(s, "");
    FromLineBreaks(sender);
    forall i | 0 <= i < |RawLines(s)| ensures !NamesSender(RawLines(s)[i], sender) {
      NamesSenderExactly(RawLines(s)[i], sender);
    }
  }

  /** The line names the sender and nobody else: the field name, an angle bracket, the
      trimmed address, and the closing bracket. */
  predicate NamesSender(line: string, sender: string) {
    && |line| == 7 + |TrimSpace(sender)| + 1
    && line[..7] == ['F', 'r', 'o', 'm', ':', ' ', '<']
    && line[7..|line| - 1] == TrimSpace(sender)
    && line[|line| - 1] == '>'
  }

  lemma Bracketed(line: string, address: string)
    ensures line == "From: <" + address + ">"
            <==> |line| == 7 + |address| + 1 && line[..7] == ['F', 'r', 'o', 'm', ':', ' ', '<']
                 && line[7..|line| - 1] == address && line[|line| - 1] == '>'
  {
    var full := "From: <" + address + ">";
    assert full[..7] == ['F', 'r', 'o', 'm', ':', ' ', '<'] && full[7..|full| - 1] == address;
    if |line| == |full| && line[..7] == full[..7] && line[7..|line| - 1] == address && line[|line| - 1] == '>' {
      assert line == line[..7] + line[7..|line| - 1] + [line[|line| - 1]];
    }
  }

  lemma NamesSenderExactly(line: string, sender: string)
    ensures NamesSender(line, sender) <==> line == FromLine(sender)
  {
    Bracketed(line, TrimSpace(sender));
  }

  /** What reading the rewritten message back gives. */
  predicate LocallyRewritten(before: seq<string>, after: seq<string>, sender: string) {
    var k := FirstFrom(after, HeaderEnd(after));
    && k < HeaderEnd(after) < |after|
    && NamesSender(after[k], sender)
    && after[HeaderEnd(after)..] == before[HeaderEnd(before)..]
    && (if exists i :: 0 <= i < HeaderEnd(before) && IsFrom(before[i])
        then k < HeaderEnd(before) && IsFrom(before[k]) && after == before[k := after[k]]
        else k == 0 && after == [after[0]] + before)
  }

  lemma RawShape(data: string)
    ensures var raw, lines := RawLines(data), Lines(data);
            && AllNoBreaks(raw) && lines == EncodedAll(raw)
            && HeaderEnd(lines) == HeaderEnd(raw)
            && FirstFrom(lines, HeaderEnd(lines)) == FirstFrom(raw, HeaderEnd(raw))
  {
    RawFromNoBreaks(data, "");
    LinesAreRawEncoded(data, "");
    EncodedShape(RawLines(data));
  }

  /** A line respelled is 7-bit just when the line is, and is then the line. */
  lemma PlainEncoded(line: string)
    requires NoBreaks(line)
    ensures Plain(Encoded(line)) <==> Encoded(line) == line
  {
    EncodedGrows(line);
    if Plain(line) {
      EncodedPlain(line);
    } else if Plain(Encoded(line)) {
      assert Encoded(line)[..|Encoded(line)|] == Encoded(line);
      PrefixSurvives(line, |Encoded(line)|);
      assert false;
    }
  }

  lemma ReplacedAlike<T>(a: seq<T>, b: seq<T>, k: nat, x: T)
    requires k < |a| == |b|
    ensures a[k := x] == b[k := x] <==> AlikeBut(a, b, k)
  {
    if a[k := x] == b[k := x] {
      forall i | 0 <= i < |a| && i != k ensures a[i] == b[i] {
        assert a[k := x][i] == b[k := x][i];
      }
    }
  }

  lemma InsertedAlike<T>(a: seq<T>, b: seq<T>, x: T)
    ensures [x] + a == [x] + b <==> a == b
  {
    if [x] + a == [x] + b {
      assert ([x] + a)[1..] == a && ([x] + b)[1..] == b;
    }
  }

  lemma PlainWhereAlike(raw: seq<string>)
    requires AllNoBreaks(raw)
    ensures forall i :: 0 <= i < |raw| ==> (Plain(EncodedAll(raw)[i]) <==> EncodedAll(raw)[i] == raw[i])
  {
    forall i | 0 <= i < |raw| ensures Plain(EncodedAll(raw)[i]) <==> EncodedAll(raw)[i] == raw[i] {
      PlainEncoded(raw[i]);
    }
  }

  lemma PlainKept(lines: seq<string>)
    requires HeaderEnd(lines) < |lines|
    ensures AllPlain(KeptOf(lines)) <==> AllPlainBut(lines, FirstFrom(lines, HeaderEnd(lines)))
  {
    var k := FirstFrom(lines, HeaderEnd(lines));
    if k < HeaderEnd(lines) {
      assert KeptOf(lines) == lines[..k] + lines[k + 1..];
      PlainWithout(lines, k);
    } else {
      assert KeptOf(lines) == lines && Plain(lines[k]);
    }
  }

  /** The lines agree but for the one at `k`. */
  predicate AlikeBut<T(==)>(a: seq<T>, b: seq<T>, k: nat)
    requires |a| == |b|
  {
    forall i :: 0 <= i < |a| && i != k ==> a[i] == b[i]
  }

  /** Whether the kept lines are 7-bit is whether the code's lines are the raw ones. */
  lemma KeptAsTheyAre(raw: seq<string>)
    requires AllNoBreaks(raw) && HeaderEnd(EncodedAll(raw)) < |raw|
    ensures var lines := EncodedAll(raw);
            AllPlain(KeptOf(lines)) <==> AlikeBut(lines, raw, FirstFrom(lines, HeaderEnd(lines)))
  {
    PlainWhereAlike(raw);
    PlainKept(EncodedAll(raw));
  }

  lemma LocalExactly(raw: seq<string>, lines: seq<string>, sender: string)
    requires |raw| == |lines| && HeaderEnd(raw) == HeaderEnd(lines) < |lines|
    requires FirstFrom(lines, HeaderEnd(lines)) == FirstFrom(raw, HeaderEnd(raw))
    ensures LocallyRewritten(raw, WithSender(lines, sender), sender)
            <==> AlikeBut(lines, raw, FirstFrom(lines, HeaderEnd(lines)))
  {
    var k, line := FirstFrom(lines, HeaderEnd(lines)), FromLine(sender);
    var r := WithSender(lines, sender);
    WithSenderShape(lines, sender);
    NamesSenderExactly(line, sender);
    if k < HeaderEnd(lines) {
      ReplacedAlike(lines, raw, k, line);
      assert IsFrom(raw[k]);
      assert r == lines[k := line];
    } else {
      InsertedAlike(lines, raw, line);
      assert r == [line] + lines;
    }
  }

  /** Rewriting is local exactly when the sender has no line break and every line kept is
      7-bit: read back as bytes, one header line was replaced or one put in front, the first
      From line is the sender's, and everything from the empty line on is unchanged. */
  lemma RewritingIsLocal(data: string, sender: string)
    requires sender != ""
    ensures LocallyRewritten(RawLines(data), RawLines(Rewritten(data, sender)), sender)
            <==> HasHeaderEnd(data) && NoBreaks(TrimSpace(sender)) && AllPlain(KeptLines(data))
  {
    RawShape(data);
    if !NoBreaks(TrimSpace(sender)) {
      NoLineBreaks(Rewritten(data, sender), sender);
    } else if HasHeaderEnd(data) {
      RewrittenBytes(data, sender);
      KeptAsTheyAre(RawLines(data));
      LocalExactly(RawLines(data), Lines(data), sender);
    }
  }

  /** The first From line of the header is the sender's. */
  predicate SenderFirst(lines: seq<string>, sender: string) {
    var k := FirstFrom(lines, HeaderEnd(lines));
    k < HeaderEnd(lines) && NamesSender(lines[k], sender)
  }

  /** Whatever the data and the sender, 8-bit or not: read back as bytes, the first From line
      of the rewritten header is the sender's exactly when the sender has no line break and
      the input had an empty line, or that line was there already. */
  lemma SenderForcedExactly(data: string, sender: string)
    ensures SenderFirst(RawLines(Rewritten(data, sender)), sender)
            <==> NoBreaks(TrimSpace(sender))
                 && ((sender != "" && HasHeaderEnd(data)) || SenderFirst(RawLines(data), sender))
  {
    if !NoBreaks(TrimSpace(sender)) {
      NoLineBreaks(Rewritten(data, sender), sender);
    } else if sender != "" && HasHeaderEnd(data) {
      RewrittenBytes(data, sender);
      WithSenderShape(Lines(data), sender);
      NamesSenderExactly(FromLine(sender), sender);
    }
  }

  // ---- The helpers written out ----

  /** A line is a From line when it starts with the five characters of the field name, in
      capitals or not. */
  lemma IsFromExactly(line: string)
    ensures IsFrom(line)
            <==> |line| >= 5
                 && (line[0] == 'f' || line[0] == 'F') && (line[1] == 'r' || line[1] == 'R')
                 && (line[2] == 'o' || line[2] == 'O') && (line[3] == 'm' || line[3] == 'M') && line[4] == ':'
  {
    if |line| >= 5 {
      var start := line[..5];
      assert start == [line[0], line[1], line[2], line[3], line[4]];
      assert ToLower(start)
          == [LowerChar(line[0]), LowerChar(line[1]), LowerChar(line[2]), LowerChar(line[3]), LowerChar(line[4])];
    } else {
      assert |LowerPrefix(line, 5)| == |line|;
    }
  }

  /** A byte below 0x80 stays; any other becomes the two bytes of its code point in UTF-8. */
  lemma ByteStringIsUtf8(c: char)
    requires c < '\U{100}'
    ensures c < '\U{80}' ==> ByteString(c) == [c]
    ensures c >= '\U{80}' ==>
              var b := ByteString(c);
              && |b| == 2 && '\U{C2}' <= b[0] <= '\U{C3}' && '\U{80}' <= b[1] <= '\U{BF}'
              && (b[0] as int - 192) * 64 + (b[1] as int - 128) == c as int
  {
  }
}
