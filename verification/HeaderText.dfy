/** The message rewriter: splitting a message into lines, joining lines with CRLF and
    putting the upstream account's sender into the header.

    Each method carries the loop of the Go code and is proved equal to a function; the
    properties are proved about those functions in HeaderProperties. */
module HeaderText {
  import opened Addresses

  const CRLF := "\r\n"

  /** Go's `string(b)` for one byte: a byte of 0x80 or more becomes two UTF-8 bytes. */
  function ByteString(c: char): (r: string)
    ensures |r| == if c < '\U{80}' then 1 else 2
  {
    if c < '\U{80}' then [c]
    else [(192 + (c as int / 64) % 64) as char, (128 + c as int % 64) as char]
  }

  /** The lines of `s` when `cur` has already been read of the current line. */
  function LinesFrom(s: string, cur: string): (lines: seq<string>)
    ensures lines != []
    decreases |s|
  {
    if s == "" then [cur]
    else if s[0] == '\r' then LinesFrom(s[1..], cur)
    else if s[0] == '\n' then [cur] + LinesFrom(s[1..], "")
    else LinesFrom(s[1..], cur + ByteString(s[0]))
  }

  function Lines(s: string): (lines: seq<string>)
    ensures lines != []
  {
    LinesFrom(s, "")
  }

  function Joined(lines: seq<string>): string {
    if lines == [] then ""
    else if |lines| == 1 then lines[0]
    else lines[0] + CRLF + Joined(lines[1..])
  }

  function LowerPrefix(s: string, n: nat): string {
    ToLower(if |s| < n then s else s[..n])
  }

  predicate IsFrom(line: string) {
    LowerPrefix(line, 5) == "from:"
  }

  /** Index of the line that ends the header, |lines| when there is none. */
  function HeaderEnd(lines: seq<string>): (k: nat)
    ensures k <= |lines|
    ensures k < |lines| ==> lines[k] == ""
    ensures forall i :: 0 <= i < k ==> lines[i] != ""
  {
    if lines == [] || lines[0] == "" then 0 else 1 + HeaderEnd(lines[1..])
  }

  /** Index of the first "from:" line among the first `end` lines, `end` if none. */
  function FirstFrom(lines: seq<string>, end: nat): (k: nat)
    requires end <= |lines|
    ensures k <= end
    ensures k < end ==> IsFrom(lines[k])
    ensures forall i :: 0 <= i < k ==> !IsFrom(lines[i])
  {
    if end == 0 || IsFrom(lines[0]) then 0 else 1 + FirstFrom(lines[1..], end - 1)
  }

  function FromLine(sender: string): string {
    "From: <" + TrimSpace(sender) + ">"
  }

  /** `lines` with its first From line replaced by `line`, or `line` put in front. */
  function WithLine(lines: seq<string>, line: string): seq<string> {
    var end := HeaderEnd(lines);
    var k := FirstFrom(lines, end);
    if k < end then lines[k := line] else [line] + lines
  }

  function WithSender(lines: seq<string>, sender: string): seq<string> {
    WithLine(lines, FromLine(sender))
  }

  function Rewritten(data: string, sender: string): string {
    if sender == "" || HeaderEnd(Lines(data)) == |Lines(data)| then data
    else Joined(WithSender(Lines(data), sender))
  }

  method SplitLines(s: string) returns (out: seq<string>)
    ensures out == Lines(s)
  {
    out := [];
    var cur := "";
    for i := 0 to |s|
      invariant out + LinesFrom(s[i..], cur) == Lines(s)
    {
      assert s[i..][1..] == s[i + 1..];
      if s[i] == '\r' {
        continue;
      }
      if s[i] == '\n' {
        out := out + [cur];
        cur := "";
        continue;
      }
      cur := cur + ByteString(s[i]);
    }
    out := out + [cur];
  }

  method JoinCRLF(lines: seq<string>) returns (out: string)
    ensures out == Joined(lines)
  {
    if |lines| == 0 {
      return "";
    }
    out := "";
    for i := 0 to |lines|
      invariant out + Joined(lines[i..]) == Joined(lines)
    {
      assert lines[i..][1..] == lines[i + 1..];
      out := out + lines[i];
      if i < |lines| - 1 {
        out := out + CRLF;
      }
    }
  }

  method ToLowerPrefix(s: string, n: nat) returns (r: string)
    ensures r == LowerPrefix(s, n)
  {
    var m := if |s| < n then |s| else n;
    var out := new char[m](_ => '\0');
    for i := 0 to m
      invariant forall j :: 0 <= j < i ==> out[j] == LowerChar(s[j])
    {
      var c := s[i];
      if 'A' <= c <= 'Z' {
        c := c + ('a' - 'A');
      }
      out[i] := c;
    }
    r := out[..];
  }

  method RewriteFromHeader(data: string, fromEmail: string) returns (out: string)
    ensures out == Rewritten(data, fromEmail)
    ensures fromEmail == "" || "" !in Lines(data) ==> out == data
  {
    if fromEmail == "" {
      return data;
    }
    var lines := SplitLines(data);

    var headerEnd := -1;
    for i := 0 to |lines|
      invariant headerEnd == -1 && i <= HeaderEnd(lines)
    {
      if lines[i] == "" {
        headerEnd := i;
        break;
      }
    }
    if headerEnd < 0 {
      return data;
    }
    assert headerEnd == HeaderEnd(lines);

    ghost var before := lines;
    var replaced := false;
    for i := 0 to headerEnd
      invariant lines == before && !replaced && i <= FirstFrom(lines, headerEnd)
    {
      var lower := ToLowerPrefix(lines[i], 5);
      if lower == "from:" {
        assert FirstFrom(before, headerEnd) == i;
        lines := lines[i := "From: <" + TrimSpace(fromEmail) + ">"];
        replaced := true;
        break;
      }
    }
    if !replaced {
      lines := ["From: <" + TrimSpace(fromEmail) + ">"] + lines;
    }
    assert lines == WithSender(before, fromEmail);
    out := JoinCRLF(lines);
  }
}
