/** What a parsed head says, told from its lines: the words of the first, and the headers that count. */
module RequestLaws {
  import opened Wrappers
  import opened Decimals
  import opened Text
  import opened RequestHead
  import opened HeadRelay

  // ------------------------------------------------------------------------------- the length

  /** The decimal digits of a number that fits, zeros and a plus before them allowed. */
  ghost predicate Spells(s: string, n: nat) {
    exists digits :: SpellsBy(s, n, digits)
  }

  ghost predicate SpellsBy(s: string, n: nat, digits: string) {
    n < U64_RANGE && digits != "" && digits == Padded(n, |digits|) && (s == digits || s == "+" + digits)
  }

  lemma {:induction false} ParseUsizeReads(s: string, n: nat)
    ensures ParseUsize(s) == Some(n) <==> Spells(s, n)
  {
    hide Value, Padded;
    if ParseUsize(s) == Some(n) {
      var digits := if s != "" && s[0] == '+' then s[1..] else s;
      PaddedUndoesValue(digits);
      assert s[..1] == "+" ==> s == "+" + digits;
      assert SpellsBy(s, n, digits);
    }
    if Spells(s, n) {
      var digits :| SpellsBy(s, n, digits);
      PaddedIs(n, |digits|);
      assert IsDigit(digits[0]);
      assert ("+" + digits)[1..] == digits;
    }
  }

  /**
   The last header of that name counts, whatever its case: the number its value
   spells, or the value as it stands when it spells none.
   */
  lemma {:induction false} TheLastLengthCounts(headers: seq<Header>, k: nat)
    requires k < |headers| && Lower(headers[k].0) == "content-length"
    requires forall j :: k < j < |headers| ==> Lower(headers[j].0) != "content-length"
    ensures forall n: nat :: LengthOf(headers) == Given(n) <==> Spells(headers[k].1, n)
    ensures (forall n: nat :: !Spells(headers[k].1, n)) <==> LengthOf(headers) == Malformed(headers[k].1)
    decreases |headers|
  {
    hide ParseUsize, Spells;
    if k < |headers| - 1 {
      TheLastLengthCounts(headers[..|headers| - 1], k);
    } else {
      forall n: nat ensures ParseUsize(headers[k].1) == Some(n) <==> Spells(headers[k].1, n) {
        ParseUsizeReads(headers[k].1, n);
      }
    }
  }

  lemma {:induction false} NoLength(headers: seq<Header>)
    requires forall h :: h in headers ==> Lower(h.0) != "content-length"
    ensures LengthOf(headers) == Absent
  {
    if headers != [] { NoLength(headers[..|headers| - 1]); }
  }

  /** A transfer is chunked, or an interim answer expected, when some header says so, in whatever case. */
  lemma {:induction false} FramingIsSaidOnce(headers: seq<Header>)
    ensures Chunked(headers) <==>
            exists h :: h in headers && Lower(h.0) == "transfer-encoding" && Contains(Lower(h.1), "chunked")
    ensures Expects(headers) <==>
            exists h :: h in headers && Lower(h.0) == "expect" && Lower(h.1) == "100-continue"
  {
    hide Contains, Lower;
    assert forall h :: SaysChunked(h) <==> Lower(h.0) == "transfer-encoding" && Contains(Lower(h.1), "chunked");
    assert forall h :: SaysContinue(h) <==> Lower(h.0) == "expect" && Lower(h.1) == "100-continue";
  }

  // ------------------------------------------------------------------------- the request line

  predicate Spaces(s: string) { forall i :: 0 <= i < |s| ==> IsWhitespace(s[i]) }

  lemma {:induction false} TrimsToNothing(s: string)
    ensures TrimStart(s) == "" <==> Spaces(s)
  {
    if s != "" && IsWhitespace(s[0]) {
      TrimsToNothing(s[1..]);
      assert Spaces(s) <==> Spaces(s[1..]) by { assert forall i :: 0 < i < |s| ==> s[i] == s[1..][i - 1]; }
    }
  }

  lemma {:induction false} TrimsSpaces(spaces: string, s: string)
    requires Spaces(spaces) && s != "" && !IsWhitespace(s[0])
    ensures TrimStart(spaces + s) == s
  {
    if spaces == "" {
      assert spaces + s == s;
    } else {
      TrimsSpaces(spaces[1..], s);
      assert (spaces + s)[1..] == spaces[1..] + s;
    }
  }

  lemma {:induction false} TheNextWord(spaces: string, word: string, rest: string)
    requires Spaces(spaces) && Word(word) && (rest == "" || IsWhitespace(rest[0]))
    ensures NextWord(spaces + word + rest) == Some((word, rest))
  {
    assert spaces + word + rest == spaces + (word + rest);
    TrimsSpaces(spaces, word + rest);
    WordEndsAt(word, rest, 0);
    assert (word + rest)[..|word|] == word && (word + rest)[|word|..] == rest;
  }

  /** The first two words of the first line are the method and the path, wherever they stand in it. */
  lemma {:induction false} TheFirstTwoWords(
    lines: seq<string>, before: string, method_: string, between: string, path: string, rest: string)
    requires lines != [] && lines[0] == before + method_ + (between + path + rest)
    requires Spaces(before) && Word(method_) && Spaces(between) && between != "" && Word(path)
    requires rest == "" || IsWhitespace(rest[0])
    ensures Parsed(lines).Ok? && Parsed(lines).value.method_ == method_ && Parsed(lines).value.path == path
    ensures Parsed(lines).value.headers == HeadersOf(lines[1..])
  {
    hide NextWord;
    TheNextWord(before, method_, between + path + rest);
    TheNextWord(between, path, rest);
  }

  /** What is missing: a line, a word in it, or a second one. */
  lemma {:induction false} WhatIsMissing(lines: seq<string>)
    ensures Parsed(lines) == Err(NoRequestLine) <==> lines == []
    ensures Parsed(lines) == Err(NoMethod) <==> lines != [] && Spaces(lines[0])
    ensures Parsed(lines) == Err(NoPath) <==>
            lines != [] && exists before, word, after ::
                             Spaces(before) && Word(word) && Spaces(after) && lines[0] == before + word + after
  {
    hide Spaces, Word, HeadersOf;
    if lines != [] {
      var line := lines[0];
      TrimsToNothing(line);
      if NextWord(line).Some? {
        var (word, rest) := NextWord(line).value;
        var before := AWordInside(line);
        TrimsToNothing(rest);
      }
      forall before, word, after
        | Spaces(before) && Word(word) && Spaces(after) && line == before + word + after
        ensures Parsed(lines) == Err(NoPath)
      {
        OneWordOnly(before, word, after);
      }
    }
  }

  lemma {:induction false} OneWordOnly(before: string, word: string, after: string)
    requires Spaces(before) && Word(word) && Spaces(after)
    ensures NextWord(before + word + after) == Some((word, after)) && NextWord(after).None?
  {
    TheNextWord(before, word, after);
    TrimsToNothing(after);
  }

  /** A line with a word in it begins with spaces, the word, and the rest. */
  lemma {:induction false} AWordInside(line: string) returns (before: string)
    requires NextWord(line).Some?
    ensures Spaces(before) && Word(NextWord(line).value.0)
    ensures line == before + NextWord(line).value.0 + NextWord(line).value.1
  {
    before := TrimmedOff(line);
    WordsAreWords(line);
    var s := TrimStart(line);
    assert s == s[..WordEnd(s, 0)] + s[WordEnd(s, 0)..];
  }

  lemma {:induction false} TrimmedOff(s: string) returns (spaces: string)
    ensures Spaces(spaces) && s == spaces + TrimStart(s)
  {
    spaces := "";
    if s != "" && IsWhitespace(s[0]) {
      var more := TrimmedOff(s[1..]);
      spaces := [s[0]] + more;
    }
  }
}
