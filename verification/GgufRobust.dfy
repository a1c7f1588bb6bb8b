/**
 Reading any bytes at all.  The reader's place only ever moves forward, a file
 it accepts holds all of the metadata it was read from, nothing after the
 metadata matters, cutting it anywhere inside the metadata is noticed, and what
 is kept is bounded whatever the file claims.
 */
module GgufRobust {
  import opened Wrappers
  import opened GgufBytes
  import opened Gguf
  import Utf8

  // ------------------------------------------------------------- the file, and a cut of it

  /**
   How a read of a file's first `n` bytes compares to the successful read of the
   whole of it from `pos`: it moves forward, comes out the same when it ends
   within the cut, and otherwise fails or ends past it.
   */
  ghost predicate CutTo<T>(n: nat, pos: nat, whole: Read<T>, cut: Read<T>) {
    whole.Ok? ==>
      && pos <= whole.value.1
      && (cut == whole || (cut.Err? && n < whole.value.1))
  }

  lemma {:induction false} CutBytes(data: seq<Byte>, n: nat, pos: nat, count: nat)
    requires n <= |data|
    ensures CutTo(n, pos, BytesAt(data, pos, count), BytesAt(data[..n], pos, count))
  {
    if 0 < count && pos + count <= n {
      assert data[..n][pos..pos + count] == data[pos..pos + count];
    }
  }

  lemma {:induction false} CutText(data: seq<Byte>, n: nat, pos: nat, keep: nat)
    requires n <= |data|
    ensures CutTo(n, pos, TextAt(data, pos, keep), TextAt(data[..n], pos, keep))
  {
    hide Utf8.Lossy;
    CutBytes(data, n, pos, 8);
    var length := U64At(data, pos);
    if length.Ok? && length.value.0 <= keep {
      CutBytes(data, n, pos + 8, length.value.0);
    }
  }

  lemma {:induction false} CutScalar(data: seq<Byte>, n: nat, pos: nat, kind: nat)
    requires n <= |data|
    ensures CutTo(n, pos, ScalarAt(data, pos, kind), ScalarAt(data[..n], pos, kind))
  {
    var width := Width(kind);
    if width.Ok? { CutBytes(data, n, pos, width.value); }
  }

  lemma {:induction false} CutLayers(data: seq<Byte>, n: nat, pos: nat, kind: nat, count: nat, so: Elements)
    requires n <= |data|
    ensures CutTo(n, pos, LayersAt(data, pos, kind, count, so), LayersAt(data[..n], pos, kind, count, so))
    decreases count
  {
    if count > 0 {
      CutScalar(data, n, pos, kind);
      var first := ScalarAt(data, pos, kind);
      if first.Ok? {
        var (element, next) := first.value;
        var more := Elements(Larger(so.largest, element), so.kept + if element.Some? then [element.value] else []);
        CutLayers(data, n, next, kind, count - 1, more);
      }
    }
  }

  /** A place, as a read of nothing that ends there. */
  ghost function Place(r: Result<nat, Fault>): Read<()> {
    if r.Ok? then Ok(((), r.value)) else Err(r.error)
  }

  lemma {:induction false} CutTexts(data: seq<Byte>, n: nat, pos: nat, count: nat)
    requires n <= |data|
    ensures CutTo(n, pos, Place(TextsAt(data, pos, count)), Place(TextsAt(data[..n], pos, count)))
    decreases count
  {
    hide Utf8.Lossy;
    if count > 0 {
      CutText(data, n, pos, 0);
      var first := TextAt(data, pos, 0);
      if first.Ok? { CutTexts(data, n, first.value.1, count - 1); }
    }
  }

  lemma {:induction false} CutElements(m: Facts, data: seq<Byte>, n: nat, pos: nat, key: Text, kind: nat, count: nat)
    requires n <= |data|
    ensures CutTo(n, pos, ElementsAt(m, data, pos, key, kind, count), ElementsAt(m, data[..n], pos, key, kind, count))
  {
    if PerLayer(key) && kind != STRING && kind != ARRAY {
      CutLayers(data, n, pos, kind, count, Elements(None, []));
    } else if kind == STRING {
      CutTexts(data, n, pos, count);
    }
  }

  lemma {:induction false} CutArray(m: Facts, data: seq<Byte>, n: nat, pos: nat, key: Text)
    requires n <= |data|
    ensures CutTo(n, pos, ArrayAt(m, data, pos, key), ArrayAt(m, data[..n], pos, key))
  {
    CutBytes(data, n, pos, 4);
    var kind := U32At(data, pos);
    if kind.Ok? {
      CutBytes(data, n, pos + 4, 8);
      var count := U64At(data, pos + 4);
      if count.Ok? { CutElements(m, data, n, pos + 12, key, kind.value.0, count.value.0); }
    }
  }

  lemma {:induction false} CutPair(m: Facts, data: seq<Byte>, n: nat, pos: nat)
    requires n <= |data|
    ensures CutTo(n, pos, PairAt(m, data, pos), PairAt(m, data[..n], pos))
  {
    hide Utf8.Lossy;
    CutText(data, n, pos, MAX_KEY_BYTES);
    var key := TextAt(data, pos, MAX_KEY_BYTES);
    if key.Ok? {
      var at := key.value.1;
      CutBytes(data, n, at, 4);
      if key.value.0.Some? && U32At(data, at).Ok? {
        CutValue(m, data, n, at + 4, key.value.0.value, U32At(data, at).value.0);
      }
    }
  }

  lemma {:induction false} CutValue(m: Facts, data: seq<Byte>, n: nat, pos: nat, key: Text, kind: nat)
    requires n <= |data|
    ensures CutTo(n, pos, ValueAt(m, data, pos, key, kind), ValueAt(m, data[..n], pos, key, kind))
  {
    if kind == STRING {
      CutText(data, n, pos, MAX_KEPT_TEXT_BYTES);
    } else if kind == ARRAY {
      CutArray(m, data, n, pos, key);
    } else {
      CutScalar(data, n, pos, kind);
    }
  }

  lemma {:induction false} CutPairs(m: Facts, data: seq<Byte>, n: nat, pos: nat, count: nat)
    requires n <= |data|
    ensures CutTo(n, pos, PairsAt(m, data, pos, count), PairsAt(m, data[..n], pos, count))
    decreases count
  {
    if count > 0 {
      CutPair(m, data, n, pos);
      var first := PairAt(m, data, pos);
      if first.Ok? { CutPairs(first.value.0, data, n, first.value.1, count - 1); }
    }
  }

  lemma {:induction false} CutHeader(data: seq<Byte>, n: nat)
    requires n <= |data|
    ensures CutTo(n, 0, HeaderAt(data), HeaderAt(data[..n]))
    ensures HeaderAt(data).Ok? ==> HeaderAt(data).value.1 == 24
  {
    CutBytes(data, n, 0, 4);
    CutBytes(data, n, 4, 4);
    CutBytes(data, n, 8, 8);
    CutBytes(data, n, 16, 8);
  }

  /** Where a file's metadata ends, by the reader's count. */
  ghost function EndOf(data: seq<Byte>): (end: nat)
    requires FactsOf(data).Ok?
    ensures end <= |data|
  {
    var (pairs, start) := HeaderAt(data).value;
    PairsAt(NOTHING, data, start, pairs).value.1
  }

  /**
   An accepted file is its metadata and anything at all after it: cut at or past
   the metadata's end it reads the same, cut anywhere before that it is refused.
   */
  lemma {:induction false} OnlyTheMetadataMatters(data: seq<Byte>, n: nat)
    requires FactsOf(data).Ok? && n <= |data|
    ensures 24 <= EndOf(data) <= |data|
    ensures if EndOf(data) <= n then FactsOf(data[..n]) == FactsOf(data) else FactsOf(data[..n]).Err?
  {
    CutHeader(data, n);
    var (pairs, start) := HeaderAt(data).value;
    CutPairs(NOTHING, data, n, start, pairs);
  }

  /** Reading some of the pairs, and how far that gets. */
  ghost function After(data: seq<Byte>, k: nat): Read<Facts>
    requires HeaderAt(data).Ok?
  {
    PairsAt(NOTHING, data, HeaderAt(data).value.1, k)
  }

  lemma {:induction false} LaterIsFurther(data: seq<Byte>, k: nat, j: nat)
    requires HeaderAt(data).Ok? && k <= j && After(data, j).Ok?
    ensures After(data, k).Ok? && After(data, k).value.1 <= After(data, j).value.1
  {
    hide PairAt;
    var start := HeaderAt(data).value.1;
    PairsInTwo(NOTHING, data, start, k, j - k);
    var half := After(data, k).value;
    CutPairs(half.0, data, |data|, half.1, j - k);
  }

  /** Every pair of an accepted file ends inside it, and no pair ends before an earlier one. */
  lemma {:induction false} EveryPairEndsInside(data: seq<Byte>, k: nat, j: nat)
    requires FactsOf(data).Ok? && k <= j <= HeaderAt(data).value.0
    ensures After(data, k).Ok? && After(data, j).Ok?
    ensures After(data, k).value.1 <= After(data, j).value.1 <= EndOf(data) <= |data|
  {
    LaterIsFurther(data, j, HeaderAt(data).value.0);
    LaterIsFurther(data, k, j);
  }

  lemma {:induction false} PairsInTwo(m: Facts, data: seq<Byte>, pos: nat, a: nat, b: nat)
    ensures PairsAt(m, data, pos, a + b)
         == match PairsAt(m, data, pos, a)
            case Ok(half) => PairsAt(half.0, data, half.1, b)
            case Err(fault) => Err(fault)
    decreases a
  {
    hide PairAt;
    if a > 0 {
      var first := PairAt(m, data, pos);
      OnePairFurther(m, data, pos, a);
      OnePairFurther(m, data, pos, a + b);
      if first.Ok? { PairsInTwo(first.value.0, data, first.value.1, a - 1, b); }
    }
  }

  // --------------------------------------------------------------------- what may be kept

  /** A name of at most this many bytes in the file: three times that once decoded, if it shows a replacement. */
  ghost predicate ModestText(text: Text, limit: nat) {
    |text| <= 3 * limit && (Utf8.Marked(text) || |text| <= limit)
  }

  lemma {:induction false} TextsAreModest(data: seq<Byte>, pos: nat, keep: nat)
    requires TextAt(data, pos, keep).Ok? && TextAt(data, pos, keep).value.0.Some?
    ensures ModestText(TextAt(data, pos, keep).value.0.value, keep)
  {
    var raw := BytesAt(data, pos + 8, U64At(data, pos).value.0).value.0;
    Utf8.LossIsBoundedAndMarked(raw);
  }

  ghost predicate ModestName(name: Option<Text>) {
    name.Some? ==> ModestText(name.value, 256)
  }

  ghost predicate ModestNumbers(numbers: map<Text, nat>, pairs: nat) {
    |numbers| <= pairs && forall key :: key in numbers ==> ModestText(key, 1024) && numbers[key] < U64_RANGE
  }

  ghost predicate ModestList(list: seq<nat>) {
    0 < |list| <= 0x10_0000 && forall n :: n in list ==> n < U64_RANGE
  }

  ghost predicate ModestLayers(layers: map<Text, seq<nat>>, pairs: nat) {
    |layers| <= pairs && forall key :: key in layers ==> ModestText(key, 1024) && ModestList(layers[key])
  }

  /** Facts no file can make larger, after this many pairs. */
  ghost predicate Modest(m: Facts, pairs: nat) {
    ModestName(m.architecture) && ModestNumbers(m.numbers, pairs) && ModestLayers(m.layers, pairs)
  }

  lemma {:induction false} ScalarsFit(data: seq<Byte>, pos: nat, kind: nat)
    requires ScalarAt(data, pos, kind).Ok? && ScalarAt(data, pos, kind).value.0.Some?
    ensures ScalarAt(data, pos, kind).value.0.value < U64_RANGE
  {
    Widths();
    var raw := BytesAt(data, pos, Width(kind).value).value.0;
    var bytes := raw + Zeros(8 - |raw|);
    FromLEBound(bytes);
    FromLEBound(bytes[..1]);
    FromLEBound(bytes[..2]);
    FromLEBound(bytes[..4]);
  }

  ghost predicate Layers(so: Elements, count: nat) {
    && |so.kept| <= count
    && (so.largest.Some? ==> so.largest.value < U64_RANGE)
    && forall n :: n in so.kept ==> n < U64_RANGE
  }

  lemma {:induction false} LayersAreModest(data: seq<Byte>, pos: nat, kind: nat, count: nat, so: Elements, seen: nat)
    requires Layers(so, seen) && LayersAt(data, pos, kind, count, so).Ok?
    ensures Layers(LayersAt(data, pos, kind, count, so).value.0, seen + count)
    decreases count
  {
    if count > 0 {
      var (element, next) := ScalarAt(data, pos, kind).value;
      if element.Some? { ScalarsFit(data, pos, kind); }
      var more := Elements(Larger(so.largest, element), so.kept + if element.Some? then [element.value] else []);
      LayersAreModest(data, next, kind, count - 1, more, seen + 1);
    }
  }

  lemma {:induction false} ScalarsKeepModest(m: Facts, key: Text, number: Option<nat>, pairs: nat)
    requires Modest(m, pairs) && ModestText(key, MAX_KEY_BYTES) && (number.Some? ==> number.value < U64_RANGE)
    ensures Modest(m.WithScalar(key, number), pairs + 1)
  {}

  lemma {:induction false} LayersKeepModest(m: Facts, key: Text, so: Elements, pairs: nat)
    requires Modest(m, pairs) && ModestText(key, MAX_KEY_BYTES) && Layers(so, MAX_LAYER_ARRAY)
    ensures Modest(m.WithLayers(key, so.largest, so.kept), pairs + 1)
  {}

  lemma {:induction false} ElementsKeepModest(
    m: Facts, data: seq<Byte>, pos: nat, key: Text, kind: nat, count: nat, pairs: nat)
    requires Modest(m, pairs) && ModestText(key, MAX_KEY_BYTES) && ElementsAt(m, data, pos, key, kind, count).Ok?
    ensures Modest(ElementsAt(m, data, pos, key, kind, count).value.0, pairs + 1)
  {
    if PerLayer(key) && kind != STRING && kind != ARRAY {
      LayersAreModest(data, pos, kind, count, Elements(None, []), 0);
      LayersKeepModest(m, key, LayersAt(data, pos, kind, count, Elements(None, [])).value.0, pairs);
    }
  }

  lemma {:induction false} ValuesKeepModest(m: Facts, data: seq<Byte>, pos: nat, key: Text, kind: nat, pairs: nat)
    requires Modest(m, pairs) && ModestText(key, MAX_KEY_BYTES) && ValueAt(m, data, pos, key, kind).Ok?
    ensures Modest(ValueAt(m, data, pos, key, kind).value.0, pairs + 1)
  {
    hide ModestText;
    if kind == STRING {
      if TextAt(data, pos, MAX_KEPT_TEXT_BYTES).value.0.Some? { TextsAreModest(data, pos, MAX_KEPT_TEXT_BYTES); }
    } else if kind == ARRAY {
      var (of, after) := U32At(data, pos).value;
      var (count, start) := U64At(data, after).value;
      ElementsKeepModest(m, data, start, key, of, count, pairs);
    } else {
      var number := ScalarAt(data, pos, kind).value.0;
      if number.Some? { ScalarsFit(data, pos, kind); }
      ScalarsKeepModest(m, key, number, pairs);
    }
  }

  lemma {:induction false} APairKeepsModest(m: Facts, data: seq<Byte>, pos: nat, pairs: nat)
    requires Modest(m, pairs) && PairAt(m, data, pos).Ok?
    ensures Modest(PairAt(m, data, pos).value.0, pairs + 1)
  {
    hide ModestText;
    var (key, afterKey) := TextAt(data, pos, MAX_KEY_BYTES).value;
    var (kind, afterKind) := U32At(data, afterKey).value;
    TextsAreModest(data, pos, MAX_KEY_BYTES);
    ValuesKeepModest(m, data, afterKind, key.value, kind, pairs);
  }

  lemma {:induction false} PairsKeepModest(m: Facts, data: seq<Byte>, pos: nat, count: nat, pairs: nat)
    requires Modest(m, pairs) && PairsAt(m, data, pos, count).Ok?
    ensures Modest(PairsAt(m, data, pos, count).value.0, pairs + count)
    decreases count
  {
    hide PairAt, Modest;
    if count > 0 {
      OnePairFurther(m, data, pos, count);
      APairKeepsModest(m, data, pos, pairs);
      var step := PairAt(m, data, pos).value;
      PairsKeepModest(step.0, data, step.1, count - 1, pairs + 1);
    }
  }

  lemma {:induction false} FewerIsModest(m: Facts, few: nat, many: nat)
    requires Modest(m, few) && few <= many
    ensures Modest(m, many)
  {}

  /** Whatever a file claims, what is kept of it is bounded. */
  lemma {:induction false} WhatIsKeptIsBounded(data: seq<Byte>)
    requires FactsOf(data).Ok?
    ensures Modest(FactsOf(data).value, 65_536)
  {
    hide PairAt;
    var (pairs, start) := HeaderAt(data).value;
    PairsKeepModest(NOTHING, data, start, pairs, 0);
    FewerIsModest(FactsOf(data).value, pairs, MAX_PAIRS);
  }
}
