/**
 What the child reads of the head sent to it: the same request, its own host,
 a closing connection, and every other header in order (field syntax as in
 section 5 of RFC 9112).
 */
module HeadRelay {
  import opened Wrappers
  import opened Text
  import opened RequestHead

  // ----------------------------------------------------------------------- lines of a stream

  predicate NoNewline(s: string) { forall c :: c in s ==> c != '\n' }

  function LineEnd(text: string, from: nat): (i: nat)
    requires from <= |text|
    ensures from <= i <= |text|
    ensures from < |text| ==> from < i
    decreases |text| - from
  {
    if from == |text| then from else if text[from] == '\n' then from + 1 else LineEnd(text, from + 1)
  }

  /** `trim_end_matches(['\r', '\n'])`. */
  function StripEnd(s: string): string {
    if s != "" && (s[|s| - 1] == '\r' || s[|s| - 1] == '\n') then StripEnd(s[..|s| - 1]) else s
  }

  /** The lines up to the first blank one (src/proxy/head/read.rs), without its bounds. */
  function LinesOf(text: string): Option<seq<string>> {
    if text == "" then None
    else
      var end := LineEnd(text, 0);
      var line := StripEnd(text[..end]);
      if line == "" then Some([])
      else
        var more :- LinesOf(text[end..]);
        Some([line] + more)
  }

  lemma {:induction false} LineEndsAt(line: string, rest: string, from: nat)
    requires NoNewline(line) && from <= |line|
    ensures LineEnd(line + "\r\n" + rest, from) == |line| + 2
    decreases |line| - from
  {
    var text := line + "\r\n" + rest;
    if from < |line| {
      assert text[from] == line[from] && line[from] in line;
      LineEndsAt(line, rest, from + 1);
    } else {
      assert text[from] == '\r' && text[from + 1] == '\n';
    }
  }

  /** Writing a line and reading it back. */
  lemma {:induction false} OneLine(line: string, rest: string)
    requires NoNewline(line) && line != "" && line[|line| - 1] != '\r'
    ensures LinesOf(line + "\r\n" + rest) == match LinesOf(rest)
                                             case Some(more) => Some([line] + more)
                                             case None => None
  {
    var text := line + "\r\n" + rest;
    LineEndsAt(line, rest, 0);
    var end := |line| + 2;
    assert text[..end] == line + "\r\n" && text[end..] == rest;
    StripsTheEnd(line);
  }

  lemma {:induction false} StripsTheEnd(line: string)
    requires NoNewline(line) && line != "" && line[|line| - 1] != '\r'
    ensures StripEnd(line + "\r\n") == line
  {
    var once := line + "\r";
    assert (line + "\r\n")[..|line| + 1] == once;
    assert StripEnd(line + "\r\n") == StripEnd(once);
    assert once[..|line|] == line;
    assert StripEnd(once) == StripEnd(line);
    assert line[|line| - 1] in line;
  }

  lemma {:induction false} BlankLine(rest: string)
    ensures LinesOf("\r\n" + rest) == Some([])
  {
    LineEndsAt("", rest, 0);
    assert "" + "\r\n" + rest == "\r\n" + rest;
    assert ("\r\n" + rest)[..2] == "\r\n";
    assert "\r\n"[..1] == "\r" && "\r"[..0] == "";
  }

  // -------------------------------------------------------------------------- one header line

  /** What the router's own parse makes of any header. */
  predicate WellFormed(h: Header) {
    && NoNewline(h.0) && NoNewline(h.1) && Trim(h.0) == h.0 && Trim(h.1) == h.1
    && forall c :: c in h.0 ==> c != ':'
  }

  lemma {:induction false} TrimOfTrimmed(s: string)
    requires s == "" || (!IsWhitespace(s[0]) && !IsWhitespace(s[|s| - 1]))
    ensures Trim(s) == s && Trim(" " + s) == s
  {
    assert (" " + s)[1..] == s;
  }

  lemma {:induction false} TrimIsTrimmed(s: string)
    ensures Trim(Trim(s)) == Trim(s)
    ensures forall c :: c in Trim(s) ==> c in s
  {
    TrimOfTrimmed(Trim(s));
  }

  lemma {:induction false} HeadersAreWellFormed(line: string)
    requires NoNewline(line) && HeaderOf(line).Some?
    ensures WellFormed(HeaderOf(line).value)
  {
    var i := FirstColon(line, 0).value;
    var name, value := line[..i], line[i + 1..];
    assert forall c :: c in name ==> c in line && c != ':';
    assert NoNewline(value) by {
      forall c | c in value ensures c != '\n' { assert c in line; }
    }
    TrimIsTrimmed(name);
    TrimIsTrimmed(value);
    assert HeaderOf(line).value == (Trim(name), Trim(value));
  }

  /** Printing a header and parsing the line gives it back. */
  lemma {:induction false} AHeaderIsReadBack(h: Header)
    requires WellFormed(h)
    ensures HeaderOf(Line(h)) == Some(h)
  {
    hide Trim, NoNewline;
    var line := Line(h);
    var i := FirstColon(line, 0);
    assert line[|h.0|] == ':';
    assert forall j :: 0 <= j < |h.0| ==> line[j] == h.0[j] && h.0[j] in h.0;
    assert i == Some(|h.0|);
    assert line[..|h.0|] == h.0 && line[|h.0| + 1..] == " " + h.1;
    TrimOfTrimmed(h.1);
  }

  lemma {:induction false} AHeaderIsALine(h: Header)
    requires WellFormed(h)
    ensures NoNewline(Line(h)) && Line(h) != "" && Line(h)[|Line(h)| - 1] != '\r'
  {
    hide Trim;
    var line := Line(h);
    assert line == h.0 + ": " + h.1;
    assert h.1 == "" ==> line[|line| - 1] == ' ';
    assert h.1 != "" ==> line[|line| - 1] == h.1[|h.1| - 1];
    forall c | c in line ensures c != '\n' { assert c in h.0 || c in ": " || c in h.1; }
  }

  function LinesFor(headers: seq<Header>): seq<string> {
    seq(|headers|, i requires 0 <= i < |headers| => Line(headers[i]))
  }

  lemma {:induction false} HeadersAreReadBack(headers: seq<Header>)
    requires forall h :: h in headers ==> WellFormed(h)
    ensures HeadersOf(LinesFor(headers)) == headers
  {
    hide WellFormed, HeaderOf, Line;
    if headers != [] {
      var n := |headers| - 1;
      HeadersAreReadBack(headers[..n]);
      AHeaderIsReadBack(headers[n]);
      assert LinesFor(headers)[..n] == LinesFor(headers[..n]);
      assert headers == headers[..n] + [headers[n]];
    }
  }

  lemma {:induction false} LinesAreReadBack(headers: seq<Header>)
    requires forall h :: h in headers ==> WellFormed(h)
    ensures LinesOf(TextOf(headers) + "\r\n") == Some(LinesFor(headers))
  {
    hide WellFormed, LinesOf, Line, HeaderOf;
    if headers == [] {
      BlankLine("");
      assert "\r\n" + "" == "\r\n" == TextOf([]) + "\r\n";
    } else {
      var line, rest := Line(headers[0]), TextOf(headers[1..]) + "\r\n";
      AHeaderIsALine(headers[0]);
      LinesAreReadBack(headers[1..]);
      assert TextOf(headers) + "\r\n" == line + "\r\n" + rest;
      OneLine(line, rest);
      assert LinesFor(headers) == [line] + LinesFor(headers[1..]);
    }
  }

  // -------------------------------------------------------------------------------- the words

  predicate Word(s: string) { s != "" && forall i :: 0 <= i < |s| ==> !IsWhitespace(s[i]) }

  lemma {:induction false} WordEndsAt(word: string, rest: string, from: nat)
    requires Word(word) && from <= |word| && (rest == "" || IsWhitespace(rest[0]))
    ensures WordEnd(word + rest, from) == |word|
    decreases |word| - from
  {
    if from < |word| {
      assert (word + rest)[from] == word[from];
      WordEndsAt(word, rest, from + 1);
    } else if rest != "" {
      assert (word + rest)[from] == rest[0];
    }
  }

  lemma {:induction false} NextWordIs(word: string, rest: string)
    requires Word(word) && (rest == "" || IsWhitespace(rest[0]))
    ensures NextWord(word + rest) == Some((word, rest)) && NextWord(" " + (word + rest)) == Some((word, rest))
  {
    var s := word + rest;
    assert s[0] == word[0];
    assert TrimStart(s) == s;
    assert (" " + s)[1..] == s;
    WordEndsAt(word, rest, 0);
    assert s[..|word|] == word && s[|word|..] == rest;
  }

  lemma {:induction false} WordsAreWords(line: string)
    requires NextWord(line).Some?
    ensures Word(NextWord(line).value.0)
  {
    NoSpaceBefore(TrimStart(line), 0);
  }

  lemma {:induction false} NoSpaceBefore(s: string, from: nat)
    requires from <= |s|
    ensures forall i :: from <= i < WordEnd(s, from) ==> !IsWhitespace(s[i])
    decreases |s| - from
  {
    if from < |s| && !IsWhitespace(s[from]) { NoSpaceBefore(s, from + 1); }
  }

  /** The start line carries the method and the path asked for. */
  lemma {:induction false} StartLineIsReadBack(method_: string, suffix: string)
    requires Word(method_) && Word(suffix)
    ensures NextWord(StartLine(method_, suffix)) == Some((method_, " " + suffix + " HTTP/1.1"))
    ensures NextWord(" " + suffix + " HTTP/1.1") == Some((suffix, " HTTP/1.1"))
  {
    hide NextWord, Word;
    NextWordIs(suffix, " HTTP/1.1");
    assert " " + suffix + " HTTP/1.1" == " " + (suffix + " HTTP/1.1");
    NextWordIs(method_, " " + suffix + " HTTP/1.1");
    assert StartLine(method_, suffix) == method_ + (" " + suffix + " HTTP/1.1");
  }

  lemma {:induction false} StartLineIsALine(method_: string, suffix: string)
    requires Word(method_) && Word(suffix)
    ensures var line := StartLine(method_, suffix); NoNewline(line) && line != "" && line[|line| - 1] != '\r'
  {
    var line, end := StartLine(method_, suffix), " HTTP/1.1";
    assert line == method_ + " " + suffix + end;
    assert line[|line| - 1] == end[|end| - 1] == '1';
    forall c | c in line ensures c != '\n' {
      assert c in method_ || c in " " || c in suffix || c in end;
    }
  }

  // --------------------------------------------------------------------------- what is kept

  /** Leaving the answered headers out changes neither the length nor the framing. */
  lemma {:induction false} KeptSaysTheSame(first: seq<Header>, headers: seq<Header>)
    requires forall h :: h in first ==> Is(h.0, "host") || Is(h.0, "connection")
    ensures LengthOf(first + Kept(headers)) == LengthOf(headers)
    ensures Chunked(first + Kept(headers)) == Chunked(headers)
    ensures !Expects(first + Kept(headers))
  {
    hide LengthOf, Chunked, Expects, ParseUsize, Contains;
    if headers == [] {
      assert first + Kept(headers) == first;
      AnsweredSayNothing(first);
      AnsweredSayNothing([]);
    } else {
      var n := |headers| - 1;
      var before, last := first + Kept(headers[..n]), headers[n];
      KeptSaysTheSame(first, headers[..n]);
      assert headers == headers[..n] + [last];
      OneMoreHeader(headers[..n], last);
      OneMoreHeader(before, last);
      if Answered(last) {
        assert first + Kept(headers) == before;
      } else {
        assert first + Kept(headers) == before + [last];
      }
    }
  }

  lemma {:induction false} AnsweredSayNothing(headers: seq<Header>)
    requires forall h :: h in headers ==> Is(h.0, "host") || Is(h.0, "connection")
    ensures LengthOf(headers) == Absent && !Chunked(headers) && !Expects(headers)
  {
    if headers != [] {
      var n := |headers| - 1;
      AnsweredSayNothing(headers[..n]);
      assert headers == headers[..n] + [headers[n]];
      OneMoreHeader(headers[..n], headers[n]);
    }
  }

  /** What is kept is every header that was not answered, in order, and no other. */
  lemma {:induction false} KeptIsTheRest(headers: seq<Header>)
    ensures forall h :: h in Kept(headers) <==>
              h in headers && Lower(h.0) != "host" && Lower(h.0) != "connection" && Lower(h.0) != "expect"
    ensures forall first :: (forall h :: h in first ==> Answered(h)) ==> Kept(first + Kept(headers)) == Kept(headers)
  {
    AnsweredAre();
    hide Answered;
    if headers == [] {
      forall first | forall h :: h in first ==> Answered(h) ensures Kept(first + Kept(headers)) == Kept(headers) {
        assert first + Kept(headers) == first;
        AllAnswered(first);
      }
    } else {
      var n := |headers| - 1;
      KeptIsTheRest(headers[..n]);
      assert headers == headers[..n] + [headers[n]];
      forall first | forall h :: h in first ==> Answered(h) ensures Kept(first + Kept(headers)) == Kept(headers) {
        var before := first + Kept(headers[..n]);
        if Answered(headers[n]) {
          assert first + Kept(headers) == before;
        } else {
          assert first + Kept(headers) == before + [headers[n]];
          assert (before + [headers[n]])[..|before|] == before;
        }
      }
    }
  }

  lemma {:induction false} AnsweredAre()
    ensures forall h: Header ::
              Answered(h) <==> Lower(h.0) == "host" || Lower(h.0) == "connection" || Lower(h.0) == "expect"
  {}

  lemma {:induction false} AllAnswered(headers: seq<Header>)
    requires forall h :: h in headers ==> Answered(h)
    ensures Kept(headers) == []
  {
    if headers != [] { AllAnswered(headers[..|headers| - 1]); }
  }

  // ------------------------------------------------------------------------------- the relay

  lemma {:induction false} ParsedIsWellFormed(lines: seq<string>)
    requires Parsed(lines).Ok? && forall line :: line in lines ==> NoNewline(line)
    ensures var head := Parsed(lines).value;
            && Word(head.method_) && (forall h :: h in head.headers ==> WellFormed(h))
            && head.length == LengthOf(head.headers)
            && head.chunked == Chunked(head.headers)
  {
    WordsAreWords(lines[0]);
    AllWellFormed(lines[1..]);
  }

  lemma {:induction false} AllWellFormed(lines: seq<string>)
    requires forall line :: line in lines ==> NoNewline(line)
    ensures forall h :: h in HeadersOf(lines) ==> WellFormed(h)
  {
    hide HeaderOf, WellFormed;
    if lines != [] {
      var n := |lines| - 1;
      AllWellFormed(lines[..n]);
      if HeaderOf(lines[n]).Some? { HeadersAreWellFormed(lines[n]); }
    }
  }

  /**
   A head read from lines, rewritten and read again, is the same method for the
   suffix, with the child's host, a closing connection and the headers that
   were not answered, in order; its length and its framing are what they were,
   and it expects nothing.  Rewriting it once more changes nothing.
   */
  lemma {:induction false} RelayedHeadIsReadBack(lines: seq<string>, suffix: string, upstream: string)
    requires Parsed(lines).Ok? && forall line :: line in lines ==> NoNewline(line)
    requires Word(suffix) && NoNewline(upstream) && Trim(upstream) == upstream
    ensures var head := Parsed(lines).value;
            var text := Rewritten(head, suffix, upstream);
            var headers := [("Host", upstream), ("Connection", "close")] + Kept(head.headers);
            var again := Head(head.method_, suffix, headers, head.length, head.chunked, false);
            && LinesOf(text).Some?
            && Parsed(LinesOf(text).value) == Ok(again)
            && Rewritten(again, suffix, upstream) == text
  {
    hide Parsed;
    ParsedIsWellFormed(lines);
    var head := Parsed(lines).value;
    var first := [("Host", upstream), ("Connection", "close")];
    var headers := first + Kept(head.headers);
    FirstAreWellFormed(upstream);
    KeptIsTheRest(head.headers);
    KeptSaysTheSame(first, head.headers);
    StartLineIsReadBack(head.method_, suffix);
    StartLineIsALine(head.method_, suffix);
    LinesAreReadBack(headers);
    HeadersAreReadBack(headers);
    OneLine(StartLine(head.method_, suffix), TextOf(headers) + "\r\n");
    assert Rewritten(head, suffix, upstream)
        == StartLine(head.method_, suffix) + "\r\n" + (TextOf(headers) + "\r\n");
    ParsedFromParts(StartLine(head.method_, suffix), LinesFor(headers), headers, head.method_, suffix);
  }

  lemma {:induction false} ParsedFromParts(start: string, lines: seq<string>, headers: seq<Header>,
                                           method_: string, path: string)
    requires HeadersOf(lines) == headers && NextWord(start).Some? && NextWord(start).value.0 == method_
    requires NextWord(NextWord(start).value.1).Some? && NextWord(NextWord(start).value.1).value.0 == path
    ensures Parsed([start] + lines)
         == Ok(Head(method_, path, headers, LengthOf(headers), Chunked(headers), Expects(headers)))
  {
    assert ([start] + lines)[1..] == lines;
  }

  lemma {:induction false} FirstAreWellFormed(upstream: string)
    requires NoNewline(upstream) && Trim(upstream) == upstream
    ensures forall h :: h in [("Host", upstream), ("Connection", "close")] ==>
                          WellFormed(h) && Answered(h) && (Is(h.0, "host") || Is(h.0, "connection"))
  {
    hide Trim;
    TrimOfTrimmed("Host");
    TrimOfTrimmed("Connection");
    TrimOfTrimmed("close");
    NamesInLowerCase();
  }

  lemma {:induction false} NamesInLowerCase()
    ensures Is("Host", "host") && Is("Connection", "connection")
  {
    assert Lower("Host") == "host";
    assert Lower("Connection") == "connection";
  }
}
