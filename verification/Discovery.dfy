/**
 Naming what is found beside the catalog (src/catalog/discover.rs and
 src/catalog/discover/name.rs): no two entries ever share an identifier.
 */
module Discovery {
  import opened Wrappers
  import opened Shards
  import opened Text
  import opened Decimals

  /** Taken before any file is named, so that no file gets one of these. */
  const RESERVED: set<string> := {"load", "unload", "sse", "props", "models"}

  // ------------------------------------------------------------------------------- sanitised

  predicate IsLetter(c: char) { 'a' <= c <= 'z' || 'A' <= c <= 'Z' || '0' <= c <= '9' }

  predicate EndsInHyphen(s: string) { s != "" && s[|s| - 1] == '-' }

  /** The loop of `sanitised`, as a function. */
  function Collapsed(text: string): string {
    if text == "" then ""
    else
      var out, c := Collapsed(text[..|text| - 1]), text[|text| - 1];
      if IsLetter(c) then out + [LowerChar(c)]
      else if EndsInHyphen(out) then out
      else out + "-"
  }

  /** `trim_matches('-')`. */
  function TrimHyphens(s: string): string
    decreases |s|
  {
    if s != "" && s[0] == '-' then TrimHyphens(s[1..])
    else if EndsInHyphen(s) then TrimHyphens(s[..|s| - 1])
    else s
  }

  function Sanitised(text: string): string { TrimHyphens(Collapsed(text)) }

  method Sanitise(text: string) returns (out: string)
    ensures out == Sanitised(text)
  {
    out := "";
    for k := 0 to |text|
      invariant out == Collapsed(text[..k])
    {
      assert text[..k + 1][..k] == text[..k];
      if IsLetter(text[k]) {
        out := out + [LowerChar(text[k])];
      } else if !EndsInHyphen(out) {
        out := out + "-";
      }
    }
    assert text[..|text|] == text;
    out := TrimHyphens(out);
  }

  // ------------------------------------------------------------------ what an identifier is

  /** The runs of letters and digits in a text, in lower case. */
  function Runs(text: string): (runs: seq<string>)
    ensures forall i :: 0 <= i < |runs| ==> runs[i] != ""
    ensures text != "" && IsLetter(text[|text| - 1]) ==> runs != []
  {
    if text == "" then []
    else
      var before, c := text[..|text| - 1], text[|text| - 1];
      var runs := Runs(before);
      if !IsLetter(c) then runs
      else if before != "" && IsLetter(before[|before| - 1])
      then runs[..|runs| - 1] + [runs[|runs| - 1] + [LowerChar(c)]]
      else runs + [[LowerChar(c)]]
  }

  function Joined(runs: seq<string>): string {
    if runs == [] then ""
    else if |runs| == 1 then runs[0]
    else Joined(runs[..|runs| - 1]) + "-" + runs[|runs| - 1]
  }

  lemma {:induction false} JoinOneMore(runs: seq<string>, run: string)
    ensures Joined(runs + [run]) == if runs == [] then run else Joined(runs) + "-" + run
  {
    if runs != [] { assert (runs + [run])[..|runs|] == runs; }
  }

  /** A letter more in the last run is a letter more at the end. */
  lemma {:induction false} JoinOneLonger(runs: seq<string>, c: char)
    requires runs != []
    ensures Joined(runs[..|runs| - 1] + [runs[|runs| - 1] + [c]]) == Joined(runs) + [c]
  {
    var before, last := runs[..|runs| - 1], runs[|runs| - 1];
    JoinOneMore(before, last);
    JoinOneMore(before, last + [c]);
    assert before + [last] == runs;
    if before != [] { assert Joined(before) + "-" + (last + [c]) == Joined(before) + "-" + last + [c]; }
  }

  predicate IsRun(run: string) {
    run != "" && forall i :: 0 <= i < |run| ==> 'a' <= run[i] <= 'z' || '0' <= run[i] <= '9'
  }

  lemma {:induction false} RunsAreRuns(text: string)
    ensures forall i :: 0 <= i < |Runs(text)| ==> IsRun(Runs(text)[i])
  {
    if text != "" { RunsAreRuns(text[..|text| - 1]); }
  }

  function Hyphen(c: char): string { if IsLetter(c) then "" else "-" }

  /** A text's runs joined, with a hyphen at either end where it has no letter there. */
  function Framed(text: string): string {
    if text == "" then ""
    else if Runs(text) == [] then "-"
    else Hyphen(text[0]) + Joined(Runs(text)) + Hyphen(text[|text| - 1])
  }

  lemma {:induction false} FramedStepInARun(before: string, c: char)
    requires IsLetter(c) && before != "" && IsLetter(before[|before| - 1])
    ensures Framed(before + [c]) == Framed(before) + [LowerChar(c)]
  {
    hide Joined;
    assert (before + [c])[..|before|] == before;
    JoinOneLonger(Runs(before), LowerChar(c));
  }

  lemma {:induction false} FramedStepToARun(before: string, c: char)
    requires IsLetter(c) && (before == "" || !IsLetter(before[|before| - 1]))
    ensures Framed(before + [c]) == Framed(before) + [LowerChar(c)]
  {
    hide Joined;
    var run := [LowerChar(c)];
    assert (before + [c])[..|before|] == before;
    JoinOneMore(Runs(before), run);
    NoRunsNoLetters(before);
    if Runs(before) == [] {
      assert Joined([run]) == run by { JoinOneMore([], run); assert [] + [run] == [run]; }
    } else {
      assert Framed(before + [c]) == Hyphen(before[0]) + (Joined(Runs(before)) + "-" + run) + "";
    }
  }

  lemma {:induction false} FramedStepPastARun(before: string, c: char)
    requires !IsLetter(c)
    ensures Framed(before + [c]) == if EndsInHyphen(Framed(before)) then Framed(before) else Framed(before) + "-"
  {
    hide Joined, IsRun, Runs;
    SameRuns(before, c);
    RunsAreRuns(before);
    if Runs(before) != [] {
      EndsInItsLastRun(Runs(before));
      var left, joined := Hyphen(before[0]), Joined(Runs(before));
      assert left + joined + "" == left + joined;
      assert Framed(before + [c]) == left + joined + "-";
    }
  }

  lemma {:induction false} SameRuns(before: string, c: char)
    requires !IsLetter(c)
    ensures Runs(before + [c]) == Runs(before)
    ensures before == "" ==> Runs(before) == []
    ensures before != "" && IsLetter(before[|before| - 1]) ==> Runs(before) != []
  {
    assert (before + [c])[..|before|] == before;
  }

  lemma {:induction false} EndsInItsLastRun(runs: seq<string>)
    requires runs != [] && IsRun(runs[|runs| - 1])
    ensures Joined(runs) != "" && Joined(runs)[|Joined(runs)| - 1] != '-'
  {}

  /** That is what the loop builds. */
  lemma {:induction false} CollapsedIs(text: string)
    ensures Collapsed(text) == Framed(text)
  {
    hide Framed, Runs;
    if text == "" {
      assert Framed("") == "" by { NothingFramed(); }
    } else {
      var before, c := text[..|text| - 1], text[|text| - 1];
      assert text == before + [c];
      CollapsedIs(before);
      if !IsLetter(c) {
        FramedStepPastARun(before, c);
      } else if before != "" && IsLetter(before[|before| - 1]) {
        FramedStepInARun(before, c);
      } else {
        FramedStepToARun(before, c);
      }
    }
  }

  lemma {:induction false} NothingFramed()
    ensures Framed("") == ""
  {}

  /** Lower-case letters and digits, and single hyphens between them. */
  predicate IsIdentifier(s: string) {
    && s != "" && s[0] != '-' && s[|s| - 1] != '-'
    && (forall i :: 0 <= i < |s| ==> s[i] == '-' || 'a' <= s[i] <= 'z' || '0' <= s[i] <= '9')
    && (forall i :: 0 < i < |s| ==> s[i - 1] != '-' || s[i] != '-')
  }

  lemma {:induction false} RunsMakeAnIdentifier(runs: seq<string>)
    requires runs != [] && forall i :: 0 <= i < |runs| ==> IsRun(runs[i])
    ensures IsIdentifier(Joined(runs))
  {
    if |runs| > 1 {
      var before, last := runs[..|runs| - 1], runs[|runs| - 1];
      RunsMakeAnIdentifier(before);
      TwoMakeOne(Joined(before), last);
    }
  }

  /** Two identifiers and a hyphen are an identifier. */
  lemma {:induction false} TwoMakeOne(a: string, b: string)
    requires IsIdentifier(a) && IsIdentifier(b)
    ensures IsIdentifier(a + "-" + b)
  {
    var s := a + "-" + b;
    forall i | 0 < i < |s| ensures s[i - 1] != '-' || s[i] != '-' {
      if i < |a| {
        assert s[i - 1] == a[i - 1] && s[i] == a[i];
      } else if i > |a| + 1 {
        assert s[i - 1] == b[i - 1 - |a| - 1] && s[i] == b[i - |a| - 1];
      }
    }
  }

  /** Sanitising joins a text's runs with single hyphens, and comes to nothing when there are none. */
  lemma {:induction false} SanitisedJoinsTheRuns(text: string)
    ensures Sanitised(text) == Joined(Runs(text))
    ensures Sanitised(text) == "" <==>
            !exists i :: 0 <= i < |text|
                         && ('a' <= text[i] <= 'z' || 'A' <= text[i] <= 'Z' || '0' <= text[i] <= '9')
    ensures Sanitised(text) != "" ==> IsIdentifier(Sanitised(text))
  {
    CollapsedIs(text);
    RunsAreRuns(text);
    NoRunsNoLetters(text);
    if Runs(text) != [] {
      var joined := Joined(Runs(text));
      RunsMakeAnIdentifier(Runs(text));
      TrimsTo(Hyphen(text[0]), joined, Hyphen(text[|text| - 1]));
    } else if text != "" {
      assert "-"[1..] == "";
    }
  }

  lemma {:induction false} NoRunsNoLetters(text: string)
    ensures Runs(text) == [] <==> forall i :: 0 <= i < |text| ==> !IsLetter(text[i])
  {
    if text != "" {
      var before := text[..|text| - 1];
      NoRunsNoLetters(before);
      assert forall i :: 0 <= i < |before| ==> before[i] == text[i];
    }
  }

  lemma {:induction false} TrimsTo(left: string, s: string, right: string)
    requires IsIdentifier(s) && left in ["", "-"] && right in ["", "-"]
    ensures TrimHyphens(left + s + right) == s
  {
    var tail := s + right;
    assert left + s + right == left + tail;
    if left == "-" {
      assert (left + tail)[0] == '-' && (left + tail)[1..] == tail;
    } else {
      assert left + tail == tail;
    }
    assert TrimHyphens(left + tail) == TrimHyphens(tail);
    assert TrimHyphens(s) == s;
    if right == "-" {
      assert tail[0] == s[0] && EndsInHyphen(tail) && tail[..|tail| - 1] == s;
    } else {
      assert tail == s;
    }
  }

  /** An identifier sanitises to itself. */
  lemma {:induction false} IdentifiersAreFixed(s: string)
    requires IsIdentifier(s)
    ensures Sanitised(s) == s
  {
    NothingToCollapse(s, |s|);
    assert s[..|s|] == s;
  }

  lemma {:induction false} NothingToCollapse(s: string, n: nat)
    requires IsIdentifier(s) && n <= |s|
    ensures Collapsed(s[..n]) == s[..n]
  {
    if n > 0 {
      NothingToCollapse(s, n - 1);
      assert s[..n][..n - 1] == s[..n - 1];
      assert s[..n] == s[..n - 1] + [s[n - 1]];
    }
  }

  // ------------------------------------------------------------------------------ identifier

  /** A file found under the root: its name, its directory's, and what is known of it already. */
  datatype File = File(name: string, parent: Option<string>, referenced: bool, textual: bool, sized: bool)

  /** The name a file asks for: a shard's stem, or what is before the last dot. */
  function Stem(name: string): string {
    match ShardOf(name)
    case Some(shard) => shard.stem
    case None => match SplitLast(name, ".")
                 case Some((stem, _)) => stem
                 case None => name
  }

  /** All shards of a model ask for its stem, any other file for its name without what follows its last dot. */
  lemma {:induction false} WhatAFileAsksFor(stem: string, index: string, total: string, extension: string)
    requires forall c :: c in extension ==> c != '.'
    ensures AllDigits(index) && AllDigits(total) && total != "" && |index| == |total| && Value(index) < U64_RANGE ==>
              Stem(stem + "-" + index + "-of-" + total + "." + extension) == stem
    ensures ShardOf(stem + "." + extension).None? ==> Stem(stem + "." + extension) == stem
    ensures Stem(extension) == extension
  {
    hide ShardOf;
    if AllDigits(index) && AllDigits(total) && total != "" { NamedIsRead(stem, index, total, extension); }
    forall i | 0 < i <= |"." + extension| ensures !Occurs("." + extension, ".", i) {
      if i + 1 <= |"." + extension| {
        assert ("." + extension)[i..i + 1][0] == extension[i - 1] && extension[i - 1] in extension;
      }
    }
    SplitsHere(stem, ".", extension);
    WithoutADot(extension);
  }

  lemma {:induction false} WithoutADot(name: string)
    requires forall c :: c in name ==> c != '.'
    ensures SplitLast(name, ".").None? && ShardOf(name).None?
  {
    var split := SplitLast(name, ".");
    if split.Some? { ADotIsThere(split.value.0, split.value.1); }
  }

  lemma {:induction false} ADotIsThere(before: string, after: string)
    ensures '.' in before + "." + after
  {
    assert (before + "." + after)[|before|] == '.';
  }

  function Wanted(file: File): string { Sanitised(Stem(file.name)) }

  function Parent(file: File): string { if file.parent.Some? then Sanitised(file.parent.value) else "" }

  /** The identifier a file gets beside the names already taken. */
  function Named(file: File, taken: set<string>): Option<string> {
    if Wanted(file) == "" then None
    else if Wanted(file) !in taken then Some(Wanted(file))
    else if Parent(file) == "" || Parent(file) + "-" + Wanted(file) in taken then None
    else Some(Parent(file) + "-" + Wanted(file))
  }

  /** `identifier`: a file's name, told apart from any already taken, and taken from now on. */
  method Identifier(file: File, taken: set<string>) returns (id: Option<string>, now: set<string>)
    ensures id == Named(file, taken)
    ensures now == if id.Some? then taken + {id.value} else taken
  {
    var shard := ShardOf(file.name);
    var stem;
    if shard.Some? {
      stem := shard.value.stem;
    } else {
      var split := SplitLast(file.name, ".");
      stem := if split.Some? then split.value.0 else file.name;
    }
    var wanted := Sanitise(stem);
    var parent := "";
    if file.parent.Some? {
      parent := Sanitise(file.parent.value);
    }
    if wanted == "" {
      return None, taken;
    } else if wanted !in taken {
      id := Some(wanted);
    } else {
      var instead := parent + "-" + wanted;
      if parent == "" || instead in taken {
        return None, taken;
      }
      id := Some(instead);
    }
    now := taken + {id.value};
  }

  // ----------------------------------------------------------------------------------- under

  predicate Considered(file: File) { !file.referenced && file.textual }

  function TakenAfter(declared: seq<string>, files: seq<File>): set<string> {
    if files == [] then (set id | id in declared) + RESERVED
    else
      var taken, file := TakenAfter(declared, files[..|files| - 1]), files[|files| - 1];
      if Considered(file) && Named(file, taken).Some? then taken + {Named(file, taken).value} else taken
  }

  function Found(declared: seq<string>, files: seq<File>): seq<string> {
    if files == [] then []
    else
      var before, file := files[..|files| - 1], files[|files| - 1];
      var id := Named(file, TakenAfter(declared, before));
      Found(declared, before) + if Considered(file) && id.Some? && file.sized then [id.value] else []
  }

  /** `under`, as far as identifiers go: every file the catalog does not name, in the order of the walk. */
  method Under(declared: seq<string>, files: seq<File>) returns (found: seq<string>)
    ensures found == Found(declared, files)
  {
    hide Named, Considered;
    var taken := (set id | id in declared) + RESERVED;
    found := [];
    for k := 0 to |files|
      invariant taken == TakenAfter(declared, files[..k]) && found == Found(declared, files[..k])
    {
      var file := files[k];
      assert files[..k + 1][..k] == files[..k];
      ConsideredIs(file);
      if file.referenced {
        continue;
      }
      if !file.textual {
        continue;
      }
      var id, now := Identifier(file, taken);
      taken := now;
      if id.None? {
        continue;
      }
      if file.sized {
        found := found + [id.value];
      }
    }
    assert files[..|files|] == files;
  }

  lemma {:induction false} ConsideredIs(file: File)
    ensures Considered(file) == (!file.referenced && file.textual)
  {}

  lemma {:induction false} NamedIsNew(file: File, taken: set<string>)
    requires Named(file, taken).Some?
    ensures Named(file, taken).value !in taken
    ensures IsIdentifier(Named(file, taken).value)
  {
    SanitisedJoinsTheRuns(Stem(file.name));
    if file.parent.Some? {
      SanitisedJoinsTheRuns(file.parent.value);
      if Parent(file) != "" { TwoMakeOne(Parent(file), Wanted(file)); }
    }
  }

  /**
   Discovery never collides: each identifier is a well-formed one that
   sanitises to itself, and no other entry's, found or declared, nor the
   proxy's own.
   */
  lemma {:induction false} DiscoveryNeverCollides(declared: seq<string>, files: seq<File>)
    ensures var found := Found(declared, files);
            && (forall id :: id in found ==>
                  id !in declared && id !in ["load", "unload", "sse", "props", "models"])
            && (forall id :: id in found ==> IsIdentifier(id) && Sanitised(id) == id)
            && (forall i, j :: 0 <= i < j < |found| ==> found[i] != found[j])
    ensures forall id :: id in Found(declared, files) || id in declared || id in RESERVED ==>
                         id in TakenAfter(declared, files)
  {
    hide Named, Considered, IsIdentifier, Sanitised;
    if files != [] {
      var before, file := files[..|files| - 1], files[|files| - 1];
      DiscoveryNeverCollides(declared, before);
      var taken := TakenAfter(declared, before);
      if Named(file, taken).Some? {
        NamedIsNew(file, taken);
        IdentifiersAreFixed(Named(file, taken).value);
      }
    }
  }

  /** A file takes its name whether or not it could be sized, and so gets an entry. */
  lemma {:induction false} SizesTakeNoNames(declared: seq<string>, files: seq<File>, k: nat, sized: bool)
    requires k < |files|
    ensures TakenAfter(declared, files[k := files[k].(sized := sized)]) == TakenAfter(declared, files)
    decreases |files|
  {
    hide Sanitised, Stem;
    var other, before := files[k := files[k].(sized := sized)], files[..|files| - 1];
    if k < |before| {
      SizesTakeNoNames(declared, before, k, sized);
      assert other[..|files| - 1] == before[k := before[k].(sized := sized)];
    } else {
      assert other[..|files| - 1] == before;
    }
  }

  /** A file the catalog refers to, one whose path is no text, one of no size or no name, adds no entry. */
  lemma {:induction false} NoOtherFileIsNamed(declared: seq<string>, files: seq<File>, file: File)
    requires file.referenced || !file.textual || !file.sized || Sanitised(Stem(file.name)) == ""
    ensures Found(declared, files + [file]) == Found(declared, files)
    ensures file.referenced || !file.textual || Sanitised(Stem(file.name)) == "" ==>
              TakenAfter(declared, files + [file]) == TakenAfter(declared, files)
  {
    hide Sanitised, Stem;
    assert (files + [file])[..|files|] == files;
  }

  /** A considered file goes without an entry only for want of a name, or of a size. */
  lemma {:induction false} EveryFileIsNamedIfItCanBe(declared: seq<string>, files: seq<File>, k: nat)
    requires k < |files| && !files[k].referenced && files[k].textual && files[k].sized
    requires Sanitised(Stem(files[k].name)) != ""
    ensures var taken, wanted := TakenAfter(declared, files[..k]), Sanitised(Stem(files[k].name));
            var parent := if files[k].parent.Some? then Sanitised(files[k].parent.value) else "";
            || (wanted !in taken && wanted in Found(declared, files))
            || (wanted in taken && parent != "" && parent + "-" + wanted !in taken
                && parent + "-" + wanted in Found(declared, files))
            || (wanted in taken && (parent == "" || parent + "-" + wanted in taken))
    decreases |files|
  {
    hide Sanitised, Stem;
    var before := files[..|files| - 1];
    if k < |before| {
      assert before[..k] == files[..k];
      EveryFileIsNamedIfItCanBe(declared, before, k);
    } else {
      assert files[..k] == before;
    }
  }
}
