/**
 Arrays with an element for each layer (src/gguf.rs, `array`): what becomes of
 their elements, whatever kind of integer they are, and when each is still
 where its layer is.
 */
module GgufLayers {
  import opened Wrappers
  import opened GgufBytes
  import opened Gguf
  import opened GgufRoundTrip
  import GgufWriter
  import Cache

  /** What each of `count` scalars reads as. */
  function ScalarsAt(data: seq<Byte>, pos: nat, kind: nat, count: nat): (r: Read<seq<Option<nat>>>)
    ensures r.Ok? ==> |r.value.0| == count
    decreases count
  {
    if count == 0 then Ok(([], pos))
    else
      var (element, next) :- ScalarAt(data, pos, kind);
      var (others, end) :- ScalarsAt(data, next, kind, count - 1);
      Ok(([element] + others, end))
  }

  function Somes(elements: seq<Option<nat>>): seq<nat> {
    if elements == [] then []
    else (if elements[0].Some? then [elements[0].value] else []) + Somes(elements[1..])
  }

  function LargestOf(elements: seq<Option<nat>>): (largest: Option<nat>)
    ensures largest.Some? ==> largest in elements
    ensures forall e :: e in elements && e.Some? ==> largest.Some? && e.value <= largest.value
  {
    if elements == [] then None
    else
      assert elements == [elements[0]] + elements[1..];
      Larger(elements[0], LargestOf(elements[1..]))
  }

  // ------------------------------------------------------------------ what becomes of a list

  lemma {:induction false} LayersAreScalars(data: seq<Byte>, pos: nat, kind: nat, count: nat, so: Elements)
    ensures LayersAt(data, pos, kind, count, so)
         == match ScalarsAt(data, pos, kind, count)
            case Ok(read) => Ok((Elements(Larger(so.largest, LargestOf(read.0)), so.kept + Somes(read.0)), read.1))
            case Err(fault) => Err(fault)
    decreases count
  {
    hide ScalarAt;
    if count == 0 {
      assert so.kept + Somes([]) == so.kept;
    } else if ScalarAt(data, pos, kind).Ok? {
      var (element, next) := ScalarAt(data, pos, kind).value;
      var more := Elements(Larger(so.largest, element), so.kept + if element.Some? then [element.value] else []);
      LayersAreScalars(data, next, kind, count - 1, more);
      var others := ScalarsAt(data, next, kind, count - 1);
      if others.Ok? {
        assert ([element] + others.value.0)[1..] == others.value.0;
        assert more.kept + Somes(others.value.0) == so.kept + Somes([element] + others.value.0);
      }
    }
  }

  /** An element that is an integer is kept, in order, as far up as there are integers before it. */
  lemma {:induction false} WhereAnElementIsKept(elements: seq<Option<nat>>, i: nat)
    requires i < |elements|
    ensures |Somes(elements[..i])| <= i
    ensures |Somes(elements[..i])| == i <==> forall j :: 0 <= j < i ==> elements[j].Some?
    ensures elements[i].Some? ==>
              && |Somes(elements[..i])| < |Somes(elements)|
              && Somes(elements)[|Somes(elements[..i])|] == elements[i].value
  {
    var others := elements[1..];
    if i > 0 {
      WhereAnElementIsKept(others, i - 1);
      assert elements[..i][1..] == others[..i - 1];
      assert forall j :: 0 < j < i ==> elements[j] == others[j - 1];
    }
  }

  lemma {:induction false} NothingIsDropped(elements: seq<Option<nat>>)
    ensures |Somes(elements)| <= |elements|
    ensures |Somes(elements)| == |elements| <==> forall j :: 0 <= j < |elements| ==> elements[j].Some?
  {
    WhereAnElementIsKept(elements + [None], |elements|);
    assert (elements + [None])[..|elements|] == elements;
    assert forall j :: 0 <= j < |elements| ==> (elements + [None])[j] == elements[j];
  }

  /**
   A per-layer array leaves its non-negative integers, in file order and closed
   up, and the largest of them.  It leaves as many as it has elements exactly
   when every element is one, and then each is in its own layer's place.
   */
  lemma {:induction false} AListKeepsItsIntegers(
    m: Facts, data: seq<Byte>, pos: nat, key: Text, kind: nat, count: nat)
    requires PerLayer(key) && kind != STRING && kind != ARRAY
    requires ElementsAt(m, data, pos, key, kind, count).Ok?
    ensures ScalarsAt(data, pos, kind, count).Ok?
    ensures var (elements, end) := ScalarsAt(data, pos, kind, count).value;
            var kept := Somes(elements);
            && ElementsAt(m, data, pos, key, kind, count) == Ok((m.WithLayers(key, LargestOf(elements), kept), end))
            && |kept| <= count
            && (|kept| == count <==> forall i :: 0 <= i < count ==> elements[i].Some?)
            && (|kept| == count ==> forall i :: 0 <= i < count ==> kept[i] == elements[i].value)
  {
    hide PerLayer, LayersAt, ScalarsAt, Somes, LargestOf;
    LayersAreScalars(data, pos, kind, count, Elements(None, []));
    var elements := ScalarsAt(data, pos, kind, count).value.0;
    assert [] + Somes(elements) == Somes(elements);
    NothingIsDropped(elements);
    if |Somes(elements)| == count {
      forall i | 0 <= i < count ensures Somes(elements)[i] == elements[i].value {
        WhereAnElementIsKept(elements, i);
      }
    }
  }

  // ------------------------------------------------------------------- lists that were written

  /** The scalars read as integers: unsigned, two's complement, and flags. */
  predicate Integral(kind: nat) { kind <= 5 || kind == 7 || kind == 10 || kind == 11 }

  function WidthOf(kind: nat): nat
    requires Integral(kind)
  {
    Width(kind).value
  }

  /** What a scalar of the kind can hold. */
  predicate Holds(kind: nat, v: int)
    requires Integral(kind)
  {
    if kind == 7 then 0 <= v <= 1
    else if kind == 0 || kind == 2 || kind == 4 || kind == 10 then 0 <= v < Pow256(WidthOf(kind))
    else -(Pow256(WidthOf(kind)) as int) <= 2 * v < Pow256(WidthOf(kind))
  }

  function IntegerBytes(kind: nat, v: int): seq<Byte>
    requires Integral(kind) && Holds(kind, v)
  {
    ToLE(if v < 0 then v + Pow256(WidthOf(kind)) else v, WidthOf(kind))
  }

  function IntegersBytes(kind: nat, values: seq<int>): seq<Byte>
    requires Integral(kind) && forall v :: v in values ==> Holds(kind, v)
  {
    if values == [] then [] else IntegerBytes(kind, values[0]) + IntegersBytes(kind, values[1..])
  }

  function Read(v: int): Option<nat> { if v < 0 then None else Some(v) }

  function ReadAll(values: seq<int>): seq<Option<nat>> {
    seq(|values|, i requires 0 <= i < |values| => Read(values[i]))
  }

  lemma {:induction false} ReadsInteger(data: seq<Byte>, pos: nat, kind: nat, v: int)
    requires Integral(kind) && Holds(kind, v) && At(data, pos, IntegerBytes(kind, v))
    ensures ScalarAt(data, pos, kind) == Ok((Read(v), pos + |IntegerBytes(kind, v)|))
  {
    if kind == 7 {
      assert IntegerBytes(kind, v) == [v];
    } else if kind == 0 || kind == 2 || kind == 4 || kind == 10 {
      ReadsUnsigned(data, pos, v, kind, WidthOf(kind));
    } else {
      ReadsSigned(data, pos, v, kind, WidthOf(kind));
    }
  }

  lemma {:induction false} ReadsIntegers(data: seq<Byte>, pos: nat, kind: nat, values: seq<int>)
    requires Integral(kind) && (forall v :: v in values ==> Holds(kind, v))
    requires At(data, pos, IntegersBytes(kind, values))
    ensures ScalarsAt(data, pos, kind, |values|) == Ok((ReadAll(values), pos + |IntegersBytes(kind, values)|))
    decreases |values|
  {
    hide ScalarAt, IntegerBytes, Holds, Integral;
    if values == [] {
      assert ReadAll(values) == [];
    } else {
      var first := IntegerBytes(kind, values[0]);
      AtBoth(data, pos, first, IntegersBytes(kind, values[1..]));
      ReadsInteger(data, pos, kind, values[0]);
      ReadsIntegers(data, pos + |first|, kind, values[1..]);
      assert ReadAll(values) == [Read(values[0])] + ReadAll(values[1..]);
    }
  }

  /**
   A written list of layers, of integers of any width and sign or of flags:
   refused if it is too long, and otherwise kept but for its negative numbers.
   */
  lemma {:induction false} AWrittenListIsReadBack(
    m: Facts, data: seq<Byte>, pos: nat, key: Text, kind: nat, values: seq<int>)
    requires PerLayer(key) && Integral(kind) && |values| < U64_RANGE && forall v :: v in values ==> Holds(kind, v)
    requires At(data, pos, ToLE(kind, 4) + (ToLE(|values|, 8) + IntegersBytes(kind, values)))
    ensures ArrayAt(m, data, pos, key)
         == if |values| > 0x10_0000 then Err(TooManyLayers(|values|))
            else Ok((m.WithLayers(key, LargestOf(ReadAll(values)), Somes(ReadAll(values))),
                     pos + 12 + |IntegersBytes(kind, values)|))
    ensures Somes(ReadAll(values)) == values <==> forall v :: v in values ==> v >= 0
  {
    hide PerLayer, LayersAt, ScalarsAt, Somes, LargestOf, IntegersBytes, Holds;
    var elements := ReadAll(values);
    ReadsArrayHead(data, pos, kind, |values|, IntegersBytes(kind, values));
    ReadsIntegers(data, pos + 12, kind, values);
    LayersAreScalars(data, pos + 12, kind, |values|, Elements(None, []));
    assert [] + Somes(elements) == Somes(elements);
    NegativesAreDropped(values);
  }

  lemma {:induction false} NegativesAreDropped(values: seq<int>)
    ensures Somes(ReadAll(values)) == values <==> forall v :: v in values ==> v >= 0
  {
    hide Somes;
    var elements := ReadAll(values);
    NothingIsDropped(elements);
    assert forall i :: 0 <= i < |values| ==> (elements[i].Some? <==> values[i] >= 0);
    if |Somes(elements)| == |elements| {
      forall i | 0 <= i < |values| ensures Somes(elements)[i] == values[i] && values[i] >= 0 {
        WhereAnElementIsKept(elements, i);
      }
      assert Somes(elements) == values;
    } else {
      var i :| 0 <= i < |values| && elements[i].None?;
      assert values[i] in values;
    }
  }

  /** The four-byte signed list -1, 3 is kept as 3 alone, and the first layer costed with the second's heads. */
  lemma {:induction false} ANegativeMovesTheOthersUp(shape: Cache.Shape, sliding: Cache.Sliding)
    requires sliding.byLayer == [3]
    ensures LayersAt(ToLE(0xFFFF_FFFF, 4) + ToLE(3, 4), 0, 5, 2, Elements(None, []))
         == Ok((Elements(Some(3), sliding.byLayer), 8))
    ensures Cache.HeadsOf(shape, sliding, 0) == 3 && Cache.HeadsOf(shape, sliding, 1) == shape.heads
  {
    hide LayersAt, ScalarsAt, ToLE, Pow256;
    var values, data := [-1, 3], ToLE(0xFFFF_FFFF, 4) + ToLE(3, 4);
    Widths();
    assert IntegersBytes(5, values) == data by {
      assert IntegersBytes(5, values[1..]) == ToLE(3, 4) + IntegersBytes(5, []);
    }
    ReadsIntegers(data, 0, 5, values);
    LayersAreScalars(data, 0, 5, 2, Elements(None, []));
    var elements := ReadAll(values);
    assert elements == [None] + [Some(3)] && elements[1..] == [Some(3)];
    assert Somes(elements[1..]) == [3] + Somes([]) && LargestOf(elements[1..]) == Some(3);
    assert [] + Somes(elements) == [3];
  }

  // -------------------------------------------------------------------------- what is not kept

  /** The bytes of a scalar, by the format's own table: 8, 16, 32 and 64 bits, float32, bool and float64. */
  ghost function BytesOf(kind: nat): Option<nat> {
    match kind
    case 0 => Some(1) case 1 => Some(1) case 7 => Some(1)
    case 2 => Some(2) case 3 => Some(2)
    case 4 => Some(4) case 5 => Some(4) case 6 => Some(4)
    case 10 => Some(8) case 11 => Some(8) case 12 => Some(8)
    case _ => None
  }

  /**
   An array that is not kept: of strings, stepped over one by one; of scalars,
   by the table's width times the count, unless that is more than a seek can be;
   of arrays, or of a kind the format does not have, refused.
   */
  lemma {:induction false} AnArrayNotKept(m: Facts, data: seq<Byte>, pos: nat, key: Text, kind: nat, count: nat)
    requires !PerLayer(key) || kind == STRING || kind == ARRAY
    ensures ElementsAt(m, data, pos, key, kind, count)
         == if kind == 8 then match TextsAt(data, pos, count)
                              case Ok(end) => Ok((m, end))
                              case Err(fault) => Err(fault)
            else if kind == 9 then Err(NestsArrays)
            else match BytesOf(kind)
                 case None => Err(NoSuchType(kind))
                 case Some(width) =>
                   if count * width < 0x8000_0000_0000_0000 then Ok((m, pos + count * width)) else Err(ImpossibleLength)
  {
    hide PerLayer;
  }

  /** A float is read over, and is no number; a kind the format does not have is refused. */
  lemma {:induction false} OtherScalars(data: seq<Byte>, pos: nat, kind: nat)
    ensures kind in {6, 12} && pos + BytesOf(kind).value <= |data| ==>
              ScalarAt(data, pos, kind) == Ok((None, pos + BytesOf(kind).value))
    ensures BytesOf(kind).None? ==> ScalarAt(data, pos, kind) == Err(NoSuchType(kind))
    ensures BytesOf(kind).Some? && pos + BytesOf(kind).value > |data| ==> ScalarAt(data, pos, kind) == Err(EndsInside)
  {}

  // ------------------------------------------------------------------------ which lists are kept

  /** The settings that may come as a list, spelled with the dot in front of them. */
  ghost predicate ByLayer(suffix: Text) {
    || DOT + suffix == Ascii(".attention.head_count_kv")
    || DOT + suffix == Ascii(".attention.head_count")
    || DOT + suffix == Ascii(".attention.sliding_window_pattern")
  }

  lemma {:induction false} TheirKeysArePerLayer(architecture: Text, suffix: Text)
    requires ByLayer(suffix)
    ensures PerLayer(architecture + DOT + suffix)
  {
    hide Ascii, EndsWith;
    EndsWithDot(architecture, suffix, DOT + suffix);
  }

  lemma {:induction false} EndsWithDot(architecture: Text, suffix: Text, dotted: Text)
    requires dotted == DOT + suffix
    ensures EndsWith(architecture + DOT + suffix, dotted)
  {
    var key := architecture + DOT + suffix;
    assert key == architecture + dotted;
    assert key[|key| - |dotted|..] == dotted;
  }

  /**
   What a model's file says layer by layer: of each setting that may be a list,
   the list that was the last word on it is kept whole, and its largest element
   as the setting's number.
   */
  lemma {:induction false} AModelSaysItsLayers(
    version: GgufWriter.Word, pairs: seq<GgufWriter.Pair>, rest: seq<Byte>,
    architecture: Text, i: nat, suffix: Text, words: seq<GgufWriter.Word>)
    requires 2 <= version <= 3 && |pairs| <= 65_536 && forall p :: p in pairs ==> Storable(p) && Readable(p)
    requires 0 < i < |pairs| && pairs[0] == GgufWriter.Pair(ARCHITECTURE, GgufWriter.String(architecture))
    requires |architecture| <= 256 && forall p :: p in pairs[1..] ==> p.key != ARCHITECTURE
    requires ByLayer(suffix) && words != []
    requires pairs[i] == GgufWriter.Pair(architecture + DOT + suffix, GgufWriter.U32s(words))
    requires forall p :: p in pairs[i + 1..] ==> p.key != pairs[i].key
    ensures var read := FactsOf(GgufWriter.FileBytes(version, pairs) + rest);
            && read.Ok? && read.value.architecture == Some(architecture)
            && read.value.PerLayerOf(suffix) == Some(words)
            && read.value.OfModel(suffix) == Some(Largest(words))
  {
    hide PerLayer, Meaning, FactsOf, Storable, Readable, ByLayer, Ascii, GgufWriter.FileBytes;
    TheirKeysArePerLayer(architecture, suffix);
    ReadingUndoesWriting(version, pairs, rest);
    LastWordWins(NOTHING, pairs, 0);
    LastWordWins(NOTHING, pairs, i);
    assert NameOf(pairs[0]) == Some(Some(architecture));
    assert forall p :: p in pairs[1..] ==> NameOf(p).None?;
  }

  /** A key that may be kept layer by layer. */
  ghost predicate IsByLayer(key: Text) {
    || EndsIn(key, Ascii(".attention.head_count_kv"))
    || EndsIn(key, Ascii(".attention.head_count"))
    || EndsIn(key, Ascii(".attention.sliding_window_pattern"))
  }

  ghost predicate EndsIn(key: Text, suffix: Text) { exists prefix: Text :: key == prefix + suffix }

  ghost predicate ListsByLayer(m: Facts) { forall key :: key in m.layers ==> IsByLayer(key) }

  lemma {:induction false} PerLayerKeysAreByLayer(key: Text)
    requires PerLayer(key)
    ensures IsByLayer(key)
  {
    hide Ascii;
    forall suffix | EndsWith(key, suffix) ensures EndsIn(key, suffix) {
      assert key == key[..|key| - |suffix|] + suffix;
    }
  }

  lemma {:induction false} APairKeepsLists(m: Facts, data: seq<Byte>, pos: nat)
    requires ListsByLayer(m) && PairAt(m, data, pos).Ok?
    ensures ListsByLayer(PairAt(m, data, pos).value.0)
  {
    hide PerLayer, IsByLayer, TextAt, ScalarAt, LayersAt, TextsAt;
    forall key | PerLayer(key) ensures IsByLayer(key) { PerLayerKeysAreByLayer(key); }
  }

  lemma {:induction false} PairsKeepLists(m: Facts, data: seq<Byte>, pos: nat, count: nat)
    requires ListsByLayer(m) && PairsAt(m, data, pos, count).Ok?
    ensures ListsByLayer(PairsAt(m, data, pos, count).value.0)
    decreases count
  {
    hide PairAt, ListsByLayer;
    if count > 0 {
      OnePairFurther(m, data, pos, count);
      APairKeepsLists(m, data, pos);
      var (next, after) := PairAt(m, data, pos).value;
      PairsKeepLists(next, data, after, count - 1);
    }
  }

  /** Whatever a file says, of no other key is a list kept. */
  lemma {:induction false} OnlyTheseListsAreKept(data: seq<Byte>)
    requires FactsOf(data).Ok?
    ensures ListsByLayer(FactsOf(data).value)
  {
    hide PairAt;
    var (pairs, start) := HeaderAt(data).value;
    PairsKeepLists(NOTHING, data, start, pairs);
  }
}
