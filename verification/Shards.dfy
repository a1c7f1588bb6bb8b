/** The files of a split model (src/catalog/estimate.rs): their names, and what they weigh together. */
module Shards {
  import opened Wrappers
  import opened Totals
  import opened Decimals
  import opened Text

  // ------------------------------------------------------------------------------- splitting

  /** `rsplit_once`: what is before and after the last occurrence. */
  function SplitLast(s: string, sep: string): (r: Option<(string, string)>)
    ensures r.Some? ==> s == r.value.0 + sep + r.value.1
    ensures r.Some? ==> forall i :: |r.value.0| < i <= |s| ==> !Occurs(s, sep, i)
    ensures r.None? ==> forall i :: 0 <= i <= |s| ==> !Occurs(s, sep, i)
  {
    SplitFrom(s, sep, |s|)
  }

  function SplitFrom(s: string, sep: string, i: nat): (r: Option<(string, string)>)
    requires i <= |s| && forall j :: i < j <= |s| ==> !Occurs(s, sep, j)
    ensures r.Some? ==> s == r.value.0 + sep + r.value.1
    ensures r.Some? ==> forall i :: |r.value.0| < i <= |s| ==> !Occurs(s, sep, i)
    ensures r.None? ==> forall i :: 0 <= i <= |s| ==> !Occurs(s, sep, i)
  {
    if Occurs(s, sep, i) then
      assert s == s[..i] + s[i..i + |sep|] + s[i + |sep|..];
      Some((s[..i], s[i + |sep|..]))
    else if i == 0 then None
    else SplitFrom(s, sep, i - 1)
  }

  /** The last occurrence is the one after which there is none. */
  lemma {:induction false} SplitsHere(before: string, sep: string, after: string)
    requires sep != "" && forall i :: 0 < i <= |sep + after| ==> !Occurs(sep + after, sep, i)
    ensures SplitLast(before + sep + after, sep) == Some((before, after))
  {
    var s := before + sep + after;
    assert Occurs(s, sep, |before|);
    var r := SplitLast(s, sep);
    var at := |r.value.0|;
    if at > |before| {
      assert s[|before|..] == sep + after;
      assert (sep + after)[at - |before|..at - |before| + |sep|] == s[at..at + |sep|];
      assert Occurs(sep + after, sep, at - |before|);
    }
    assert at == |before|;
    assert r.value.0 == s[..at] == before;
    assert r.value.1 == s[at + |sep|..] == after;
  }

  // ----------------------------------------------------------------------------------- names

  /** A shard's place: the index is a number, the total kept as it is spelled. */
  datatype Shard = Shard(stem: string, index: nat, total: string, extension: string) {

    /** `sibling`: the name of another shard of the same model. */
    function Sibling(i: nat): string {
      Named(stem, Padded(i, |total|), total, extension)
    }
  }

  function Named(stem: string, index: string, total: string, extension: string): string {
    stem + "-" + index + "-of-" + total + "." + extension
  }

  /** `shard_of`: stem, index, total and extension of a name, when its digits agree in number and fit 64 bits. */
  function ShardOf(name: string): Option<Shard> {
    var (rest, extension) :- SplitLast(name, ".");
    var (head, total) :- SplitLast(rest, "-of-");
    var (stem, index) :- SplitLast(head, "-");
    if total == "" || !AllDigits(total) then None
    else if |index| != |total| || !AllDigits(index) then None
    else
      var number :- ParseU64(index);
      Some(Shard(stem, number, total, extension))
  }

  /** A shard is read as what it was named, when its digits are as many as the total's and fit 64 bits. */
  lemma {:induction false} NamedIsRead(stem: string, index: string, total: string, extension: string)
    requires AllDigits(index) && AllDigits(total) && total != ""
    requires forall c :: c in extension ==> c != '.'
    ensures ShardOf(Named(stem, index, total, extension))
         == if |index| == |total| && Value(index) < U64_RANGE then Some(Shard(stem, Value(index), total, extension))
            else None
  {
    hide SplitLast, Value;
    var head := stem + "-" + index;
    var rest := head + "-of-" + total;
    assert Named(stem, index, total, extension) == rest + "." + extension;
    forall i | 0 < i <= |"." + extension| ensures !Occurs("." + extension, ".", i) {
      if i + 1 <= |"." + extension| {
        assert ("." + extension)[i..i + 1][0] == extension[i - 1];
        assert extension[i - 1] in extension;
      }
    }
    SplitsHere(rest, ".", extension);
    NoDashInDigits(total);
    SplitsHere(head, "-of-", total);
    forall i | 0 < i <= |"-" + index| ensures !Occurs("-" + index, "-", i) {
      if i + 1 <= |"-" + index| { assert ("-" + index)[i..i + 1][0] == index[i - 1]; }
    }
    SplitsHere(stem, "-", index);
  }

  lemma {:induction false} NoDashInDigits(total: string)
    requires AllDigits(total)
    ensures forall i :: 0 < i <= |"-of-" + total| ==> !Occurs("-of-" + total, "-of-", i)
  {
    var s := "-of-" + total;
    forall i | 0 < i <= |s| ensures !Occurs(s, "-of-", i) {
      if i + 4 <= |s| {
        assert s[i..i + 4][0] == s[i] && s[i..i + 4][1] == s[i + 1];
        assert "-of-"[0] == '-' && "-of-"[1] == 'o';
      }
    }
  }

  lemma {:induction false} WhatAShardIs(name: string)
    requires ShardOf(name).Some?
    ensures var s := ShardOf(name).value;
            && AllDigits(s.total) && s.total != "" && s.index < U64_RANGE
            && (forall c :: c in s.extension ==> c != '.')
            && s.Sibling(s.index) == name
  {
    var (rest, extension) := SplitLast(name, ".").value;
    var (head, total) := SplitLast(rest, "-of-").value;
    var (stem, index) := SplitLast(head, "-").value;
    PaddedUndoesValue(index);
    forall c | c in extension ensures c != '.' {
      var k :| 0 <= k < |extension| && extension[k] == c;
      assert name[|rest| + 1 + k] == c;
      assert name[|rest| + 1 + k..|rest| + 2 + k] == [c];
      assert Occurs(name, ".", |rest| + 1 + k) <==> c == '.';
    }
  }

  /** A shard's own index prints as its own name. */
  lemma {:induction false} AShardIsItsOwnSibling(name: string)
    requires ShardOf(name).Some?
    ensures ShardOf(name).value.Sibling(ShardOf(name).value.index) == name
  {
    WhatAShardIs(name);
  }

  /** Stem, index and total as the repository's own files have them. */
  lemma {:induction false} AShardOfFour()
    ensures ShardOf("Big-00002-of-00004.gguf") == Some(Shard("Big", 2, "00004", "gguf"))
    ensures Shard("Big", 2, "00004", "gguf").Sibling(3) == "Big-00003-of-00004.gguf"
  {
    hide ShardOf, Padded, Value;
    TwoAndThree();
    NamedIsRead("Big", "00002", "00004", "gguf");
    assert Named("Big", "00002", "00004", "gguf") == "Big-00002-of-00004.gguf";
  }

  lemma {:induction false} TwoAndThree()
    ensures AllDigits("00002") && AllDigits("00004") && Value("00002") == 2
    ensures Padded(2, 5) == "00002" && Padded(3, 5) == "00003"
  {
    assert Padded(2, 5) == "00002";
    PaddedIs(2, 5);
  }

  /** A sibling is read back as the shard it was named for, exactly when its index fits the total's width. */
  lemma {:induction false} SiblingsAreRead(name: string, i: nat)
    requires ShardOf(name).Some? && i < U64_RANGE
    ensures var s := ShardOf(name).value;
            ShardOf(s.Sibling(i)) == if i < Pow10(|s.total|) then Some(s.(index := i)) else None
  {
    hide ShardOf;
    WhatAShardIs(name);
    var s := ShardOf(name).value;
    var index := Padded(i, |s.total|);
    PaddedIs(i, |s.total|);
    DecimalLength(i, |s.total|);
    NamedIsRead(s.stem, index, s.total, s.extension);
  }

  /** No two indices name the same file. */
  lemma {:induction false} SiblingsDiffer(s: Shard, i: nat, j: nat)
    requires s.Sibling(i) == s.Sibling(j)
    ensures i == j
  {
    var a, b := Padded(i, |s.total|), Padded(j, |s.total|);
    var rest := "-of-" + s.total + "." + s.extension;
    var start := |s.stem| + 1;
    assert s.Sibling(i)[start..|s.Sibling(i)| - |rest|] == a;
    assert s.Sibling(j)[start..|s.Sibling(j)| - |rest|] == b;
    PaddedIs(i, |s.total|);
    PaddedIs(j, |s.total|);
  }

  // --------------------------------------------------------------------------------- weights

  /** The sizes of the files in the model's directory, by name. */
  type Directory = map<string, nat>

  function SizeOf(files: Directory, name: string): nat { if name in files then files[name] else 0 }

  function SumOf(files: Directory, names: seq<string>): nat {
    if names == [] then 0 else SumOf(files, names[..|names| - 1]) + SizeOf(files, names[|names| - 1])
  }

  /** What each of these files weighs, one that is not there nothing. */
  function Sizes(files: Directory, names: seq<string>): seq<nat> {
    seq(|names|, i requires 0 <= i < |names| => if names[i] in files then files[names[i]] else 0)
  }

  lemma {:induction false} SumOfIsTotal(files: Directory, names: seq<string>)
    ensures SumOf(files, names) == Total(Sizes(files, names))
  {
    if names != [] {
      var before := names[..|names| - 1];
      SumOfIsTotal(files, before);
      var last := Sizes(files, names)[|names| - 1];
      assert Sizes(files, names) == Sizes(files, before) + [last];
      TotalOneMore(Sizes(files, before), last);
    }
  }

  /** The files weighed: the model's own, and each other shard up to the count. */
  function Weighed(name: string, shards: nat): seq<string> {
    match ShardOf(name)
    case None => [name]
    case Some(s) => [name] + Others(s, shards)
  }

  /** The names of the shards up to `n`, but for the one at hand. */
  function Others(s: Shard, n: nat): seq<string> {
    if n == 0 then []
    else Others(s, n - 1) + if n != s.index then [s.Sibling(n)] else []
  }

  /** `weights_of`: nothing without the model's own file; a shard that is not there weighs nothing. */
  method WeightsOf(files: Directory, name: string, splitCount: Option<nat>) returns (r: Option<nat>)
    ensures var shards := if splitCount.Some? then splitCount.value else 1;
            r == if name in files then Some(Total(Sizes(files, Weighed(name, shards)))) else None
  {
    hide ShardOf;
    if name !in files {
      return None;
    }
    var total := files[name];
    var shards := if splitCount.Some? then splitCount.value else 1;
    var shard := ShardOf(name);
    assert [name][..0] == [];
    assert total == SumOf(files, [name]);
    if shard.Some? {
      assert [name] + [] == [name];
      for index := 1 to shards + 1
        invariant total == SumOf(files, [name] + Others(shard.value, index - 1))
      {
        if index != shard.value.index {
          var sibling := shard.value.Sibling(index);
          total := total + SizeOf(files, sibling);
          var before := [name] + Others(shard.value, index - 1);
          assert [name] + Others(shard.value, index) == before + [sibling];
          assert (before + [sibling])[..|before|] == before;
        } else {
          assert Others(shard.value, index) == Others(shard.value, index - 1);
        }
      }
    }
    SumOfIsTotal(files, Weighed(name, shards));
    r := Some(total);
  }

  lemma {:induction false} OthersAre(s: Shard, n: nat, file: string)
    ensures file in Others(s, n) <==> exists i :: 1 <= i <= n && i != s.index && file == s.Sibling(i)
  {
    if n > 0 {
      OthersAre(s, n - 1, file);
      assert n != s.index ==> (file == s.Sibling(n) <==> file in [s.Sibling(n)]);
    }
  }

  lemma {:induction false} OthersDiffer(s: Shard, n: nat, a: nat, b: nat)
    requires a < b < |Others(s, n)|
    ensures Others(s, n)[a] != Others(s, n)[b]
  {
    var before := Others(s, n - 1);
    if b < |before| {
      OthersDiffer(s, n - 1, a, b);
    } else {
      assert before[a] in before;
      OthersAre(s, n - 1, before[a]);
      var i :| 1 <= i <= n - 1 && before[a] == s.Sibling(i);
      if s.Sibling(i) == s.Sibling(n) { SiblingsDiffer(s, i, n); }
    }
  }

  /**
   Every file is weighed once.  They are the model's own file and, for a shard,
   all of its siblings from 1 to the count -- just those, and as many as the
   count, exactly when its own index is among them.
   */
  lemma {:induction false} EachShardIsWeighedOnce(name: string, shards: nat)
    ensures var weighed := Weighed(name, shards);
            && (forall a, b :: 0 <= a < b < |weighed| ==> weighed[a] != weighed[b])
            && name in weighed
    ensures ShardOf(name).Some? ==>
              forall file :: file in Weighed(name, shards) <==>
                file == name || exists i :: 1 <= i <= shards && file == ShardOf(name).value.Sibling(i)
    ensures ShardOf(name).Some? ==>
              |Weighed(name, shards)| == if 1 <= ShardOf(name).value.index <= shards then shards else shards + 1
  {
    hide ShardOf;
    if ShardOf(name).Some? {
      WhatAShardIs(name);
      var s := ShardOf(name).value;
      var others := Others(s, shards);
      forall file ensures file in others <==> exists i :: 1 <= i <= shards && i != s.index && file == s.Sibling(i) {
        OthersAre(s, shards, file);
      }
      forall a, b | 0 <= a < b < |others| ensures others[a] != others[b] { OthersDiffer(s, shards, a, b); }
      if name in others {
        var i :| 1 <= i <= shards && i != s.index && name == s.Sibling(i);
        SiblingsDiffer(s, i, s.index);
      }
      HowManyOthers(s, shards);
    }
  }

  lemma {:induction false} HowManyOthers(s: Shard, n: nat)
    ensures |Others(s, n)| == if 1 <= s.index <= n then n - 1 else n
  {
    if n > 0 { HowManyOthers(s, n - 1); }
  }
}
