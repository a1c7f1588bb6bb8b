/**
 Reading back what the writer wrote: the reader accepts a written file exactly
 when it keeps to the reader's limits, and then finds in it the meaning of the
 pairs, whatever follows them.
 */
module GgufRoundTrip {
  import opened Wrappers
  import opened GgufBytes
  import opened Gguf
  import opened GgufWriter
  import Utf8

  // -------------------------------------------------------------------- what pairs mean

  function Largest(words: seq<Word>): (r: Word)
    requires words != []
    ensures r in words
    ensures forall w :: w in words ==> w <= r
  {
    if |words| == 1 then words[0]
    else
      var rest := Largest(words[1..]);
      assert words == [words[0]] + words[1..];
      if words[0] < rest then rest else words[0]
  }

  /** What a pair says about its key as a number. */
  function NumberOf(pair: Pair): Option<nat> {
    match pair.value
    case U16(half) => if TOKENIZER <= pair.key then None else Some(half)
    case U32(word) => if TOKENIZER <= pair.key then None else Some(word)
    case U64(long) => if TOKENIZER <= pair.key then None else Some(long)
    case Flag(on) => if TOKENIZER <= pair.key then None else Some(if on then 1 else 0)
    case U32s(words) => if PerLayer(pair.key) && words != [] then Some(Largest(words)) else None
    case _ => None
  }

  /** What a pair says about its key layer by layer. */
  function LayersOf(pair: Pair): Option<seq<nat>> {
    if pair.value.U32s? && PerLayer(pair.key) && pair.value.words != [] then Some(pair.value.words) else None
  }

  /** What a pair says of the architecture; a name too long to keep takes back an earlier one. */
  function NameOf(pair: Pair): Option<Option<Text>> {
    if pair.value.String? && pair.key == ARCHITECTURE
    then Some(if |pair.value.text| <= 256 then Some(pair.value.text) else None)
    else None
  }

  function Says(m: Facts, pair: Pair): Facts {
    Facts(
      if NameOf(pair).Some? then NameOf(pair).value else m.architecture,
      if NumberOf(pair).Some? then m.numbers[pair.key := NumberOf(pair).value] else m.numbers,
      if LayersOf(pair).Some? then m.layers[pair.key := LayersOf(pair).value] else m.layers)
  }

  function Meaning(m: Facts, pairs: seq<Pair>): Facts
    decreases |pairs|
  {
    if pairs == [] then m else Meaning(Says(m, pairs[0]), pairs[1..])
  }

  /** Keys of which nothing is said keep what they had. */
  lemma {:induction false} SilenceKeeps(m: Facts, pairs: seq<Pair>, key: Text)
    ensures (forall p :: p in pairs && p.key == key ==> NumberOf(p).None?) ==>
              Of(Meaning(m, pairs).numbers, key) == Of(m.numbers, key)
    ensures (forall p :: p in pairs && p.key == key ==> LayersOf(p).None?) ==>
              Of(Meaning(m, pairs).layers, key) == Of(m.layers, key)
    ensures (forall p :: p in pairs ==> NameOf(p).None?) ==> Meaning(m, pairs).architecture == m.architecture
    decreases |pairs|
  {
    if pairs != [] { SilenceKeeps(Says(m, pairs[0]), pairs[1..], key); }
  }

  function Of<T>(m: map<Text, T>, key: Text): Option<T> { if key in m then Some(m[key]) else None }

  /** The last pair to give a key a number, a list of layers, or the architecture, is the one believed. */
  lemma {:induction false} LastWordWins(m: Facts, pairs: seq<Pair>, i: nat)
    requires i < |pairs|
    ensures NumberOf(pairs[i]).Some? && (forall p :: p in pairs[i + 1..] && p.key == pairs[i].key ==> NumberOf(p).None?)
            ==> Of(Meaning(m, pairs).numbers, pairs[i].key) == NumberOf(pairs[i])
    ensures LayersOf(pairs[i]).Some? && (forall p :: p in pairs[i + 1..] && p.key == pairs[i].key ==> LayersOf(p).None?)
            ==> Of(Meaning(m, pairs).layers, pairs[i].key) == LayersOf(pairs[i])
    ensures NameOf(pairs[i]).Some? && (forall p :: p in pairs[i + 1..] ==> NameOf(p).None?)
            ==> Meaning(m, pairs).architecture == NameOf(pairs[i]).value
    decreases i
  {
    if i == 0 {
      SilenceKeeps(Says(m, pairs[0]), pairs[1..], pairs[0].key);
    } else {
      LastWordWins(Says(m, pairs[0]), pairs[1..], i - 1);
      assert pairs[1..][i..] == pairs[i + 1..];
    }
  }

  // ------------------------------------------------------------------------- a model's file

  /** The names the format and its files go by, letter by letter. */
  lemma {:induction false} Spelled()
    ensures MAGIC == [0x47, 0x47, 0x55, 0x46] && ARCHITECTURE == Ascii("general.architecture")
    ensures TOKENIZER == Ascii("tokenizer.") && DOT == Ascii(".")
  {}

  /** The pairs of a model: its architecture, and settings under the architecture's name. */
  function ModelPairs(architecture: Text, settings: seq<(Text, Word)>): seq<Pair> {
    [Pair(ARCHITECTURE, String(architecture))]
    + seq(|settings|, i requires 0 <= i < |settings| =>
        Pair(architecture + DOT + settings[i].0, U32(settings[i].1)))
  }

  /** Settings told apart by their names, none of which reads as the tokenizer's. */
  ghost predicate Distinct(architecture: Text, settings: seq<(Text, Word)>) {
    && (forall i, j :: 0 <= i < j < |settings| ==> settings[i].0 != settings[j].0)
    && forall i :: 0 <= i < |settings| ==> !(TOKENIZER <= architecture + DOT + settings[i].0)
  }

  lemma {:induction false} PrefixedApart(prefix: Text, a: Text, b: Text)
    ensures prefix + a == prefix + b ==> a == b
  {
    if prefix + a == prefix + b {
      assert (prefix + a)[|prefix|..] == a && (prefix + b)[|prefix|..] == b;
    }
  }

  /** What the pairs of a model's file say, and of which keys. */
  lemma {:induction false} ModelPairsSay(architecture: Text, settings: seq<(Text, Word)>, suffix: Text)
    requires |architecture| <= 256 && Distinct(architecture, settings)
    ensures var pairs := ModelPairs(architecture, settings);
            && |pairs| == |settings| + 1 && NameOf(pairs[0]) == Some(Some(architecture)) && NumberOf(pairs[0]).None?
            && (forall p :: p in pairs[1..] ==> NameOf(p).None?)
            && (forall p :: p in pairs ==> LayersOf(p).None?)
            && (forall j :: 1 <= j < |pairs| ==>
                  && NumberOf(pairs[j]) == Some(settings[j - 1].1)
                  && (pairs[j].key == architecture + DOT + suffix <==> settings[j - 1].0 == suffix))
  {
    hide PerLayer;
    forall i | 0 <= i < |settings|
      ensures architecture + DOT + settings[i].0 == architecture + DOT + suffix <==> settings[i].0 == suffix
    {
      PrefixedApart(architecture + DOT, settings[i].0, suffix);
    }
  }

  /** What the reader makes of a model's file: its architecture, its settings, and nothing else. */
  lemma {:induction false} AModelSaysItsSettings(architecture: Text, settings: seq<(Text, Word)>, suffix: Text)
    requires |architecture| <= 256 && Distinct(architecture, settings)
    ensures var m := Meaning(NOTHING, ModelPairs(architecture, settings));
            && m.architecture == Some(architecture) && m.PerLayerOf(suffix).None?
            && (forall i :: 0 <= i < |settings| && settings[i].0 == suffix ==> m.OfModel(suffix) == Some(settings[i].1))
            && ((forall i :: 0 <= i < |settings| ==> settings[i].0 != suffix) ==> m.OfModel(suffix).None?)
  {
    hide Meaning, ModelPairs, NameOf, NumberOf, LayersOf;
    var pairs := ModelPairs(architecture, settings);
    var m, key := Meaning(NOTHING, pairs), architecture + DOT + suffix;
    ModelPairsSay(architecture, settings, suffix);
    LastWordWins(NOTHING, pairs, 0);
    assert m.architecture == Some(architecture);
    SilenceKeeps(NOTHING, pairs, key);
    forall i | 0 <= i < |settings| && settings[i].0 == suffix ensures Of(m.numbers, key) == Some(settings[i].1) {
      LastWordWins(NOTHING, pairs, i + 1);
      assert pairs[i + 1].key == key;
      forall p | p in pairs[i + 2..] ensures p.key != key {
        var j :| i + 2 <= j < |pairs| && pairs[j] == p;
        assert settings[i].0 != settings[j - 1].0;
      }
    }
    if forall i :: 0 <= i < |settings| ==> settings[i].0 != suffix {
      forall p | p in pairs && p.key == key ensures NumberOf(p).None? {
        var j :| 0 <= j < |pairs| && pairs[j] == p;
      }
    }
  }

  // --------------------------------------------------------------- reading one thing written

  /** These bytes lie at this place in the file. */
  ghost predicate At(data: seq<Byte>, pos: nat, bytes: seq<Byte>) {
    pos + |bytes| <= |data| && data[pos..pos + |bytes|] == bytes
  }

  lemma {:induction false} AtBoth(data: seq<Byte>, pos: nat, a: seq<Byte>, b: seq<Byte>)
    requires At(data, pos, a + b)
    ensures At(data, pos, a) && At(data, pos + |a|, b)
  {
    var both := data[pos..pos + |a + b|];
    assert data[pos..pos + |a|] == both[..|a|] == a;
    assert data[pos + |a|..pos + |a| + |b|] == both[|a|..] == b;
  }

  lemma {:induction false} ReadsU32(data: seq<Byte>, pos: nat, n: Word)
    requires At(data, pos, ToLE(n, 4))
    ensures U32At(data, pos) == Ok((n, pos + 4))
  {
    Widths();
    LERoundTrip(n, 4);
  }

  lemma {:induction false} ReadsU64(data: seq<Byte>, pos: nat, n: Long)
    requires At(data, pos, ToLE(n, 8))
    ensures U64At(data, pos) == Ok((n, pos + 8))
  {
    Widths();
    LERoundTrip(n, 8);
  }

  lemma {:induction false} ReadsText(data: seq<Byte>, pos: nat, text: Text, keep: nat)
    requires At(data, pos, TextBytes(text)) && |text| < I64_RANGE && Utf8.Valid(text)
    ensures TextAt(data, pos, keep) == Ok((if |text| <= keep then Some(text) else None, pos + |TextBytes(text)|))
  {
    hide Utf8.Valid, Utf8.Lossy;
    Utf8.TextIsKept(text);
    AtBoth(data, pos, ToLE(|text|, 8), text);
    ReadsU64(data, pos, |text|);
  }

  /** An unsigned integer of any width comes back as itself. */
  lemma {:induction false} ReadsUnsigned(data: seq<Byte>, pos: nat, n: nat, kind: nat, width: nat)
    requires (kind == 0 && width == 1) || (kind == 2 && width == 2)
          || (kind == 4 && width == 4) || (kind == 10 && width == 8)
    requires n < Pow256(width) && At(data, pos, ToLE(n, width))
    ensures ScalarAt(data, pos, kind) == Ok((Some(n), pos + width))
  {
    LERoundTrip(n, width);
    PaddingAddsNothing(ToLE(n, width), 8 - width);
  }

  /** A two's complement integer comes back as itself when it is not negative, and as nothing when it is. */
  lemma {:induction false} ReadsSigned(data: seq<Byte>, pos: nat, v: int, kind: nat, width: nat)
    requires (kind == 1 && width == 1) || (kind == 3 && width == 2)
          || (kind == 5 && width == 4) || (kind == 11 && width == 8)
    requires -(Pow256(width) as int) <= 2 * v < Pow256(width)
    requires At(data, pos, ToLE(if v < 0 then v + Pow256(width) else v, width))
    ensures ScalarAt(data, pos, kind) == Ok((if v < 0 then None else Some(v), pos + width))
  {
    var n: nat := if v < 0 then v + Pow256(width) else v;
    var raw := ToLE(n, width);
    LERoundTrip(n, width);
    var bytes := raw + Zeros(8 - width);
    assert bytes[..width] == raw;
    assert width == 8 ==> bytes == raw;
    assert BytesAt(data, pos, width) == Ok((raw, pos + width));
    assert Unsigned(kind, bytes) == NonNegative(raw);
    assert FromLE(raw) == n;
  }

  /** The largest of the words from the front, and all of them in order. */
  lemma {:induction false} ReadsWords(data: seq<Byte>, pos: nat, words: seq<Word>, so: Elements)
    requires At(data, pos, WordsBytes(words))
    ensures LayersAt(data, pos, 4, |words|, so)
         == Ok((Elements(if words == [] then so.largest else Larger(so.largest, Some(Largest(words))), so.kept + words),
                pos + |WordsBytes(words)|))
    decreases |words|
  {
    if words == [] {
      assert so.kept + words == so.kept;
    } else {
      AtBoth(data, pos, ToLE(words[0], 4), WordsBytes(words[1..]));
      Widths();
      ReadsUnsigned(data, pos, words[0], 4, 4);
      var next := Elements(Larger(so.largest, Some(words[0])), so.kept + [words[0]]);
      ReadsWords(data, pos + 4, words[1..], next);
      assert so.kept + [words[0]] + words[1..] == so.kept + words;
    }
  }

  lemma {:induction false} WordsTakeFourBytesEach(words: seq<Word>)
    ensures |WordsBytes(words)| == 4 * |words|
  {
    if words != [] { WordsTakeFourBytesEach(words[1..]); }
  }

  lemma {:induction false} ReadsTexts(data: seq<Byte>, pos: nat, texts: seq<Text>)
    requires At(data, pos, TextsBytes(texts)) && forall t :: t in texts ==> |t| < I64_RANGE && Utf8.Valid(t)
    ensures TextsAt(data, pos, |texts|) == Ok(pos + |TextsBytes(texts)|)
    decreases |texts|
  {
    hide Utf8.Valid, Utf8.Lossy, TextAt, TextBytes;
    if texts != [] {
      AtBoth(data, pos, TextBytes(texts[0]), TextsBytes(texts[1..]));
      ReadsText(data, pos, texts[0], 0);
      ReadsTexts(data, pos + |TextBytes(texts[0])|, texts[1..]);
    }
  }

  // -------------------------------------------------------------------------- reading a pair

  /** What the writer's own types hold: strings are text, and no vector is longer than half the address space. */
  predicate Storable(pair: Pair) {
    && |pair.key| < I64_RANGE && Utf8.Valid(pair.key)
    && match pair.value
       case String(text) => |text| < I64_RANGE && Utf8.Valid(text)
       case U32s(words) => 4 * |words| < I64_RANGE
       case Strings(texts) => |texts| < I64_RANGE && forall t :: t in texts ==> |t| < I64_RANGE && Utf8.Valid(t)
       case _ => true
  }

  /** What the reader takes: no longer key, no longer list of layers. */
  predicate Readable(pair: Pair) {
    && |pair.key| <= 1024
    && (pair.value.U32s? && PerLayer(pair.key) ==> |pair.value.words| <= 0x10_0000)
  }

  lemma {:induction false} SaysLayers(m: Facts, pair: Pair)
    requires pair.value.U32s?
    ensures var words := pair.value.words;
            Says(m, pair) == if PerLayer(pair.key) && words != []
                             then m.WithLayers(pair.key, Some(Largest(words)), words) else m
  {
    hide PerLayer;
  }

  lemma {:induction false} ReadsWordElements(m: Facts, data: seq<Byte>, pos: nat, pair: Pair)
    requires pair.value.U32s? && Storable(pair) && At(data, pos, WordsBytes(pair.value.words))
    ensures var r := ElementsAt(m, data, pos, pair.key, 4, |pair.value.words|);
            if PerLayer(pair.key) && |pair.value.words| > MAX_LAYER_ARRAY
            then r == Err(TooManyLayers(|pair.value.words|))
            else r == Ok((Says(m, pair), pos + |WordsBytes(pair.value.words)|))
  {
    hide Says, PerLayer, LayersAt, WordsBytes, Largest, TextsAt;
    var words := pair.value.words;
    SaysLayers(m, pair);
    ReadsWords(data, pos, words, Elements(None, []));
    WordsTakeFourBytesEach(words);
    assert [] + words == words;
  }

  lemma {:induction false} ReadsU32s(m: Facts, data: seq<Byte>, pos: nat, pair: Pair)
    requires pair.value.U32s? && Storable(pair) && At(data, pos, Body(pair.value))
    ensures var r := ArrayAt(m, data, pos, pair.key);
            if PerLayer(pair.key) && |pair.value.words| > MAX_LAYER_ARRAY
            then r == Err(TooManyLayers(|pair.value.words|))
            else r == Ok((Says(m, pair), pos + |Body(pair.value)|))
  {
    hide Says, PerLayer, ElementsAt, ToLE, FromLE;
    var words := pair.value.words;
    ReadsArrayHead(data, pos, 4, |words|, WordsBytes(words));
    ReadsWordElements(m, data, pos + 12, pair);
  }

  lemma {:induction false} ReadsStrings(m: Facts, data: seq<Byte>, pos: nat, pair: Pair)
    requires pair.value.Strings? && Storable(pair) && At(data, pos, Body(pair.value))
    ensures ArrayAt(m, data, pos, pair.key) == Ok((Says(m, pair), pos + |Body(pair.value)|))
  {
    hide Utf8.Valid, Utf8.Lossy, TextsAt, TextsBytes, ToLE, FromLE, PerLayer, ElementsAt, Says;
    var texts := pair.value.texts;
    ReadsArrayHead(data, pos, STRING, |texts|, TextsBytes(texts));
    ReadsTexts(data, pos + 12, texts);
    StringsAreSteppedOver(m, data, pos + 12, pair.key, |texts|);
    SaysNothing(m, pair);
  }

  lemma {:induction false} StringsAreSteppedOver(m: Facts, data: seq<Byte>, pos: nat, key: Text, count: nat)
    requires TextsAt(data, pos, count).Ok?
    ensures ElementsAt(m, data, pos, key, STRING, count) == Ok((m, TextsAt(data, pos, count).value))
  {
    hide PerLayer, TextsAt, LayersAt;
  }

  lemma {:induction false} SaysNothing(m: Facts, pair: Pair)
    requires pair.value.Strings?
    ensures Says(m, pair) == m
  {
    hide PerLayer;
  }

  lemma {:induction false} ReadsArrayHead(data: seq<Byte>, pos: nat, kind: Word, count: Long, elements: seq<Byte>)
    requires At(data, pos, ToLE(kind, 4) + (ToLE(count, 8) + elements))
    ensures U32At(data, pos) == Ok((kind, pos + 4)) && U64At(data, pos + 4) == Ok((count, pos + 12))
    ensures At(data, pos + 12, elements)
  {
    AtBoth(data, pos, ToLE(kind, 4), ToLE(count, 8) + elements);
    AtBoth(data, pos + 4, ToLE(count, 8), elements);
    ReadsU32(data, pos, kind);
    ReadsU64(data, pos + 4, count);
  }

  lemma {:induction false} ReadsScalar(data: seq<Byte>, pos: nat, value: Value)
    requires Kind(value) != ARRAY && Kind(value) != STRING && At(data, pos, Body(value))
    ensures ScalarAt(data, pos, Kind(value)) == Ok((match value
                                                    case U16(n) => Some(n)
                                                    case U32(n) => Some(n)
                                                    case U64(n) => Some(n)
                                                    case Flag(on) => Some(if on then 1 else 0)
                                                    case _ => None, pos + |Body(value)|))
  {
    Widths();
    match value {
      case U16(half) => ReadsUnsigned(data, pos, half, 2, 2);
      case U32(word) => ReadsUnsigned(data, pos, word, 4, 4);
      case U64(long) => ReadsUnsigned(data, pos, long, 10, 8);
      case F32(_) =>
      case Flag(_) =>
    }
  }

  lemma {:induction false} ReadsName(m: Facts, data: seq<Byte>, pos: nat, pair: Pair)
    requires pair.value.String? && Storable(pair) && At(data, pos, Body(pair.value))
    ensures ValueAt(m, data, pos, pair.key, STRING) == Ok((Says(m, pair), pos + |Body(pair.value)|))
  {
    hide ArrayAt, ToLE, FromLE, PerLayer, TextAt, Utf8.Valid, Utf8.Lossy;
    ReadsText(data, pos, pair.value.text, MAX_KEPT_TEXT_BYTES);
  }

  lemma {:induction false} ReadsValue(m: Facts, data: seq<Byte>, pos: nat, pair: Pair)
    requires Storable(pair) && |pair.key| <= MAX_KEY_BYTES && At(data, pos, Body(pair.value))
    ensures var r := ValueAt(m, data, pos, pair.key, Kind(pair.value));
            if Readable(pair) then r == Ok((Says(m, pair), pos + |Body(pair.value)|)) else r.Err?
  {
    hide ArrayAt, ToLE, FromLE, PerLayer;
    if pair.value.U32s? {
      ReadsU32s(m, data, pos, pair);
    } else if pair.value.Strings? {
      ReadsStrings(m, data, pos, pair);
    } else if pair.value.String? {
      ReadsName(m, data, pos, pair);
    } else {
      ReadsScalar(data, pos, pair.value);
    }
  }

  lemma {:induction false} ReadsKey(data: seq<Byte>, pos: nat, key: Text, kind: Word, body: seq<Byte>)
    requires |key| < I64_RANGE && Utf8.Valid(key) && At(data, pos, TextBytes(key) + (ToLE(kind, 4) + body))
    ensures var after := pos + 8 + |key|;
            && TextAt(data, pos, MAX_KEY_BYTES) == Ok((if |key| <= MAX_KEY_BYTES then Some(key) else None, after))
            && U32At(data, after) == Ok((kind, after + 4))
            && At(data, after + 4, body)
  {
    hide Utf8.Valid, Utf8.Lossy, ToLE, FromLE;
    AtBoth(data, pos, TextBytes(key), ToLE(kind, 4) + body);
    AtBoth(data, pos + 8 + |key|, ToLE(kind, 4), body);
    ReadsText(data, pos, key, MAX_KEY_BYTES);
    ReadsU32(data, pos + 8 + |key|, kind);
  }

  lemma {:induction false} KeyFits(pair: Pair)
    ensures Readable(pair) ==> |pair.key| <= MAX_KEY_BYTES
  {
    hide PerLayer;
  }

  lemma {:induction false} ReadsPair(m: Facts, data: seq<Byte>, pos: nat, pair: Pair)
    requires Storable(pair) && At(data, pos, PairBytes(pair))
    ensures if Readable(pair) then PairAt(m, data, pos) == Ok((Says(m, pair), pos + |PairBytes(pair)|))
            else PairAt(m, data, pos).Err?
  {
    hide ValueAt, Says, Kind, Body, Readable, ToLE, FromLE, PerLayer, Utf8.Valid, Utf8.Lossy;
    assert Readable(pair) ==> |pair.key| <= MAX_KEY_BYTES by { KeyFits(pair); }
    ReadsKey(data, pos, pair.key, Kind(pair.value), Body(pair.value));
    if |pair.key| <= MAX_KEY_BYTES {
      ReadsValue(m, data, pos + 12 + |pair.key|, pair);
    }
  }

  lemma {:induction false} ReadsPairs(m: Facts, data: seq<Byte>, pos: nat, pairs: seq<Pair>)
    requires At(data, pos, PairsBytes(pairs)) && forall p :: p in pairs ==> Storable(p)
    ensures if forall p :: p in pairs ==> Readable(p)
            then PairsAt(m, data, pos, |pairs|) == Ok((Meaning(m, pairs), pos + |PairsBytes(pairs)|))
            else PairsAt(m, data, pos, |pairs|).Err?
    decreases |pairs|
  {
    hide PairAt, Says, Storable, Readable, PairBytes;
    if pairs != [] {
      var first, others, after := pairs[0], pairs[1..], pos + |PairBytes(pairs[0])|;
      var next := Says(m, first);
      AtBoth(data, pos, PairBytes(first), PairsBytes(others));
      ReadsPair(m, data, pos, first);
      OnePairFurther(m, data, pos, |pairs|);
      assert forall p :: p in pairs <==> p == first || p in others;
      if Readable(first) {
        ReadsPairs(next, data, after, others);
        assert Meaning(m, pairs) == Meaning(next, others);
        assert after + |PairsBytes(others)| == pos + |PairsBytes(pairs)|;
      }
    }
  }

  // ------------------------------------------------------------------------ reading the file

  lemma {:induction false} ReadsHead(data: seq<Byte>, version: Word, tensors: Long, count: Long)
    requires At(data, 0, HeadBytes(version, tensors, count))
    ensures HeaderAt(data) == if !(2 <= version <= 3) then Err(BadVersion(version))
                              else if count > MAX_PAIRS then Err(TooManyPairs(count))
                              else Ok((count, 24))
  {
    AtBoth(data, 0, MAGIC, ToLE(version, 4) + (ToLE(tensors, 8) + ToLE(count, 8)));
    AtBoth(data, 4, ToLE(version, 4), ToLE(tensors, 8) + ToLE(count, 8));
    AtBoth(data, 8, ToLE(tensors, 8), ToLE(count, 8));
    ReadsU32(data, 4, version);
    ReadsU64(data, 8, tensors);
    ReadsU64(data, 16, count);
  }

  /**
   Reading a file of these pairs, whatever its tensors are and whatever comes
   after its metadata, yields the meaning of the pairs; and it is refused exactly
   when it is not within the limits.
   */
  lemma {:induction false} ReadingFindsTheMeaning(version: Word, tensors: Long, pairs: seq<Pair>, rest: seq<Byte>)
    requires |pairs| < I64_RANGE && forall p :: p in pairs ==> Storable(p)
    ensures var within := 2 <= version <= 3 && |pairs| <= 65_536 && forall p :: p in pairs ==> Readable(p);
            var read := FactsOf(HeadBytes(version, tensors, |pairs|) + PairsBytes(pairs) + rest);
            if within then read == Ok(Meaning(NOTHING, pairs)) else read.Err?
  {
    var file := HeadBytes(version, tensors, |pairs|) + PairsBytes(pairs);
    var data := file + rest;
    assert At(data, 0, file) by { assert data[..|file|] == file; }
    AtBoth(data, 0, HeadBytes(version, tensors, |pairs|), PairsBytes(pairs));
    ReadsHead(data, version, tensors, |pairs|);
    ReadsPairs(NOTHING, data, 24, pairs);
  }

  /** So it is with what the writer writes. */
  lemma {:induction false} ReadingUndoesWriting(version: Word, pairs: seq<Pair>, rest: seq<Byte>)
    requires |pairs| < I64_RANGE && forall p :: p in pairs ==> Storable(p)
    ensures var within := 2 <= version <= 3 && |pairs| <= 65_536 && forall p :: p in pairs ==> Readable(p);
            var read := FactsOf(FileBytes(version, pairs) + rest);
            if within then read == Ok(Meaning(NOTHING, pairs)) else read.Err?
  {
    ReadingFindsTheMeaning(version, 0, pairs, rest);
  }

  /** The writer's method and the reader's, end to end. */
  method WriteThenRead(version: Word, pairs: seq<Pair>) returns (facts: Option<Facts>)
    requires |pairs| < I64_RANGE && forall p :: p in pairs ==> Storable(p)
    ensures facts == if 2 <= version <= 3 && |pairs| <= 65_536 && forall p :: p in pairs ==> Readable(p)
                     then Some(Meaning(NOTHING, pairs)) else None
  {
    var out := new Output();
    out.Write(version, pairs);
    ReadingUndoesWriting(version, pairs, []);
    assert FileBytes(version, pairs) + [] == FileBytes(version, pairs);
    var reader := new Reader(out.bytes);
    var metadata := new Metadata();
    var r := metadata.Fill(reader);
    facts := if r.Ok? then Some(Facts(metadata.architecture, metadata.numbers, metadata.layers)) else None;
  }
}
