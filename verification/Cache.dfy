/**
 The cache's share of an estimate (src/catalog/estimate/cache.rs): the loop over
 the layers against the documented product, and when sliding layers save memory.
 */
module Cache {
  import opened Wrappers
  import opened GgufBytes
  import opened Gguf
  import GgufWriter
  import GgufRoundTrip
  import Utf8

  /** Bytes per cached element, in sixteenths. */
  const F16: nat := 32
  const F32: nat := 64
  const Q8_0: nat := 17
  const Q4_0: nat := 9

  const U128_RANGE: nat := 0x1_0000_0000_0000_0000_0000_0000_0000_0000

  const BLOCK_COUNT := Ascii("block_count")
  const EMBEDDING_LENGTH := Ascii("embedding_length")
  const FULL_ATTENTION_INTERVAL := Ascii("full_attention_interval")
  const HEAD_COUNT := Ascii("attention.head_count")
  const HEAD_COUNT_KV := Ascii("attention.head_count_kv")
  const KEY_LENGTH := Ascii("attention.key_length")
  const KEY_LENGTH_SWA := Ascii("attention.key_length_swa")
  const SLIDING_WINDOW := Ascii("attention.sliding_window")
  const SLIDING_WINDOW_PATTERN := Ascii("attention.sliding_window_pattern")
  const VALUE_LENGTH := Ascii("attention.value_length")
  const VALUE_LENGTH_SWA := Ascii("attention.value_length_swa")

  /** A cache type's element; a spelling this does not know is costed as f16. */
  function ElementSize(spelling: string): nat {
    if spelling == "f32" then F32 else if spelling == "q8_0" then Q8_0 else if spelling == "q4_0" then Q4_0 else F16
  }

  /** The documented bytes of an element: 4 for f32, 1.0625 for q8_0, 0.5625 for q4_0, and 2 for any other spelling. */
  ghost predicate Spells(spelling: string, sixteenths: nat) {
    var bytes := sixteenths as real / 16.0;
    && (spelling == "f32" ==> bytes == 4.0)
    && (spelling == "q8_0" ==> bytes == 1.0625)
    && (spelling == "q4_0" ==> bytes == 0.5625)
    && (spelling != "f32" && spelling != "q8_0" && spelling != "q4_0" ==> bytes == 2.0)
  }

  /** The element size the flags ask for, under the short spelling before the long one; f16 under neither. */
  function Sixteenths(flags: map<string, string>, short: string, long: string): (s: nat)
    ensures short in flags ==> Spells(flags[short], s)
    ensures short !in flags && long in flags ==> Spells(flags[long], s)
    ensures short !in flags && long !in flags ==> s as real / 16.0 == 2.0
  {
    ElementSize(if short in flags then flags[short] else if long in flags then flags[long] else "f16")
  }

  // ------------------------------------------------------------------ what the metadata says

  /** The context, and the sizes of a key's and of a value's element in sixteenths. */
  datatype Rate = Rate(context: nat, keys: nat, values: nat)

  /** A model whose layers are all alike. */
  datatype Shape = Shape(layers: nat, heads: nat, key: nat, value: nat)

  /** What the layers that slide do differently, and the heads of each layer where the file lists them. */
  datatype Sliding = Sliding(pattern: seq<nat>, window: nat, key: nat, value: nat, byLayer: seq<nat>)

  const GEMMA3 := Ascii("gemma3")
  const INTERVAL: nat := 6

  /** `assumed_pattern`: every layer slides but the last of each run of six. */
  function AssumedPattern(m: Facts): Option<seq<nat>> {
    if m.architecture != Some(GEMMA3) then None
    else
      var layers :- m.OfModel(BLOCK_COUNT);
      Some(Assumed(layers))
  }

  function Assumed(layers: nat): (pattern: seq<nat>)
    ensures |pattern| == layers
  {
    seq(layers, layer requires 0 <= layer => if layer % INTERVAL != INTERVAL - 1 then 1 else 0)
  }

  /** `caching_layers`: all of them, or one in each full-attention interval. */
  function CachingLayers(m: Facts): Option<nat> {
    var layers :- m.OfModel(BLOCK_COUNT);
    match m.OfModel(FULL_ATTENTION_INTERVAL)
    case Some(interval) => if interval > 1 then Some(layers / interval) else Some(layers)
    case None => Some(layers)
  }

  function Or<T>(a: Option<T>, b: Option<T>): Option<T> { if a.Some? then a else b }

  function OrElse<T>(a: Option<T>, b: T): T { if a.Some? then a.value else b }

  function ShapeOf(m: Facts): Option<Shape> {
    var layers :- CachingLayers(m);
    var count := m.OfModel(HEAD_COUNT);
    var heads :- Or(m.OfModel(HEAD_COUNT_KV), count);
    var key :- Or(m.OfModel(KEY_LENGTH), WidthPerHead(m, count));
    Some(Shape(layers, heads, key, OrElse(m.OfModel(VALUE_LENGTH), key)))
  }

  /** The embedding's width over the head count; a division by zero is no width. */
  function WidthPerHead(m: Facts, count: Option<nat>): Option<nat> {
    var width :- m.OfModel(EMBEDDING_LENGTH);
    var heads :- count;
    if heads == 0 then None else Some(width / heads)
  }

  function SlidingOf(m: Facts, shape: Shape): Option<Sliding> {
    var pattern :- Or(m.PerLayerOf(SLIDING_WINDOW_PATTERN), AssumedPattern(m));
    var window :- m.OfModel(SLIDING_WINDOW);
    var key := OrElse(m.OfModel(KEY_LENGTH_SWA), shape.key);
    var value := OrElse(m.OfModel(VALUE_LENGTH_SWA), key);
    Some(Sliding(pattern, window, key, value, OrElse(m.PerLayerOf(HEAD_COUNT_KV), [])))
  }

  // ----------------------------------------------------------------------- what a cache costs

  /** One layer that keeps `span` tokens, in sixteenths of a byte. */
  function Layer(span: nat, heads: nat, key: nat, value: nat, rate: Rate): nat {
    span * heads * (key * rate.keys + value * rate.values)
  }

  function HeadsOf(shape: Shape, sliding: Sliding, layer: nat): nat {
    if layer < |sliding.byLayer| then sliding.byLayer[layer] else shape.heads
  }

  function LayerOf(shape: Shape, sliding: Sliding, rate: Rate, layer: nat): nat
    requires layer < |sliding.pattern|
  {
    var heads := HeadsOf(shape, sliding, layer);
    if sliding.pattern[layer] == 0 then Layer(rate.context, heads, shape.key, shape.value, rate)
    else Layer(Min(rate.context, sliding.window), heads, sliding.key, sliding.value, rate)
  }

  /** The first `n` layers of a model that slides. */
  function Layers(shape: Shape, sliding: Sliding, rate: Rate, n: nat): nat
    requires n <= |sliding.pattern|
  {
    if n == 0 then 0 else Layers(shape, sliding, rate, n - 1) + LayerOf(shape, sliding, rate, n - 1)
  }

  /** Every layer at the whole context. */
  function Dense(shape: Shape, rate: Rate): nat {
    shape.layers * Layer(rate.context, shape.heads, shape.key, shape.value, rate)
  }

  function Sixteenfold(m: Facts, rate: Rate): Option<nat> {
    var shape :- ShapeOf(m);
    match SlidingOf(m, shape)
    case Some(sliding) => Some(Layers(shape, sliding, rate, |sliding.pattern|))
    case None => Some(Dense(shape, rate))
  }

  function Cost(m: Facts, rate: Rate): Option<nat> {
    var total :- Sixteenfold(m, rate);
    Some(total / 16)
  }

  /** `cache_bytes`. */
  method CacheBytes(m: Facts, rate: Rate) returns (r: Option<nat>)
    ensures r == Cost(m, rate)
  {
    hide ShapeOf, SlidingOf, Layers;
    var shape := ShapeOf(m);
    if shape.None? {
      return None;
    }
    var sliding := SlidingOf(m, shape.value);
    if sliding.Some? {
      var total := SumOfLayers(shape.value, sliding.value, rate);
      return Some(total / 16);
    }
    var Shape(layers, heads, key, value) := shape.value;
    var perToken := heads * (key * rate.keys + value * rate.values);
    Grouped(layers, rate.context, heads, key * rate.keys + value * rate.values);
    r := Some(layers * rate.context * perToken / 16);
  }

  /** The layer loop of `cache_bytes`. */
  method SumOfLayers(shape: Shape, sliding: Sliding, rate: Rate) returns (total: nat)
    ensures total == Layers(shape, sliding, rate, |sliding.pattern|)
  {
    hide Layer;
    var windowed := Min(rate.context, sliding.window);
    total := 0;
    for layer := 0 to |sliding.pattern|
      invariant total == Layers(shape, sliding, rate, layer)
    {
      var heads := if layer < |sliding.byLayer| then sliding.byLayer[layer] else shape.heads;
      var (span, key, value) :=
        if sliding.pattern[layer] == 0 then (rate.context, shape.key, shape.value)
        else (windowed, sliding.key, sliding.value);
      LayerIs(span, heads, key, value, rate);
      total := total + span * heads * (key * rate.keys + value * rate.values);
    }
  }

  lemma {:induction false} LayerIs(span: nat, heads: nat, key: nat, value: nat, rate: Rate)
    ensures span * heads * (key * rate.keys + value * rate.values) == Layer(span, heads, key, value, rate)
  {}

  lemma {:induction false} Grouped(a: nat, b: nat, c: nat, d: nat)
    ensures a * b * (c * d) == a * (b * c * d)
  {}

  lemma {:induction false} Distribute(a: nat, b: nat, c: nat)
    ensures (a + b) * c == a * c + b * c
  {}

  lemma {:induction false} Product(a: nat, b: nat, c: nat, d: nat)
    requires a <= c && b <= d
    ensures a * b <= c * d
  {
    assert a * b <= c * b && c * b <= c * d;
  }

  lemma {:induction false} LayerGrows(span: nat, heads: nat, key: nat, value: nat, rate: Rate,
                                      span': nat, heads': nat, key': nat, value': nat, rate': Rate)
    requires span <= span' && heads <= heads' && key <= key' && value <= value'
    requires rate.keys <= rate'.keys && rate.values <= rate'.values
    ensures Layer(span, heads, key, value, rate) <= Layer(span', heads', key', value', rate')
  {
    Product(span, heads, span', heads');
    Product(key, rate.keys, key', rate'.keys);
    Product(value, rate.values, value', rate'.values);
    Product(span * heads, key * rate.keys + value * rate.values,
            span' * heads', key' * rate'.keys + value' * rate'.values);
  }

  // -------------------------------------------------------------------- the documented formula

  /** Layers x context x heads x width x element size, for the keys and for the values, where no layer slides. */
  lemma {:induction false} DenseIsTheDocumentedFormula(m: Facts, rate: Rate)
    requires ShapeOf(m).Some? && SlidingOf(m, ShapeOf(m).value).None?
    ensures var Shape(layers, heads, key, value) := ShapeOf(m).value;
            Cost(m, rate) == Some((layers * rate.context * heads * key * rate.keys
                                   + layers * rate.context * heads * value * rate.values) / 16)
  {
    hide ShapeOf, SlidingOf;
    var Shape(layers, heads, key, value) := ShapeOf(m).value;
    Spread(layers, rate.context, heads, key, rate.keys, value, rate.values);
  }

  lemma {:induction false} Spread(a: nat, b: nat, c: nat, k: nat, x: nat, v: nat, y: nat)
    ensures a * (b * c * (k * x + v * y)) == a * b * c * k * x + a * b * c * v * y
  {
    var n := b * c;
    assert a * (n * (k * x + v * y)) == (a * n) * (k * x) + (a * n) * (v * y);
    assert a * n == a * b * c;
    assert (a * b * c) * (k * x) == a * b * c * k * x;
    assert (a * b * c) * (v * y) == a * b * c * v * y;
  }

  /** A model that says no more than it must, at two bytes an element. */
  lemma {:induction false} APlainModel(m: Facts, context: nat, layers: nat, heads: nat, width: nat)
    requires m.OfModel(BLOCK_COUNT) == Some(layers) && m.OfModel(FULL_ATTENTION_INTERVAL).None?
    requires m.OfModel(HEAD_COUNT) == Some(heads) && m.OfModel(HEAD_COUNT_KV).None?
    requires m.OfModel(EMBEDDING_LENGTH) == Some(width) && m.OfModel(KEY_LENGTH).None?
    requires m.OfModel(VALUE_LENGTH).None? && m.OfModel(SLIDING_WINDOW).None?
    ensures Cost(m, Rate(context, F16, F16))
         == if heads == 0 then None else Some(4 * (layers * context * heads * (width / heads)))
  {
    if heads != 0 {
      var n := layers * context * heads * (width / heads);
      DenseIsTheDocumentedFormula(m, Rate(context, F16, F16));
      assert ShapeOf(m) == Some(Shape(layers, heads, width / heads, width / heads));
      assert (n * 32 + n * 32) / 16 == 4 * n;
    }
  }

  // -------------------------------------------------------------------------- the closed form

  /** How many of the first `n` layers attend to the whole context. */
  function Full(pattern: seq<nat>, n: nat): (full: nat)
    requires n <= |pattern|
    ensures full <= n
  {
    if n == 0 then 0 else Full(pattern, n - 1) + if pattern[n - 1] == 0 then 1 else 0
  }

  /** One layer in six of the assumed pattern is full, rounded down. */
  lemma {:induction false} OneInSix(layers: nat, n: nat)
    requires n <= layers
    ensures Full(Assumed(layers), n) == n / INTERVAL
  {
    if n > 0 { OneInSix(layers, n - 1); }
  }

  /** With the same heads in every layer, only the number of full layers matters, not where they are. */
  lemma {:induction false} OnlyTheNumberOfFullLayersMatters(shape: Shape, sliding: Sliding, rate: Rate, n: nat)
    requires n <= |sliding.pattern| && sliding.byLayer == []
    ensures Layers(shape, sliding, rate, n)
         == Full(sliding.pattern, n) * Layer(rate.context, shape.heads, shape.key, shape.value, rate)
          + (n - Full(sliding.pattern, n))
            * Layer(Min(rate.context, sliding.window), shape.heads, sliding.key, sliding.value, rate)
  {
    hide Layer;
    if n > 0 {
      OnlyTheNumberOfFullLayersMatters(shape, sliding, rate, n - 1);
      var full, before := Full(sliding.pattern, n), Full(sliding.pattern, n - 1);
      var long := Layer(rate.context, shape.heads, shape.key, shape.value, rate);
      var short := Layer(Min(rate.context, sliding.window), shape.heads, sliding.key, sliding.value, rate);
      if sliding.pattern[n - 1] == 0 {
        Distribute(before, 1, long);
        assert n - full == n - 1 - before;
      } else {
        Distribute(n - 1 - before, 1, short);
      }
    }
  }

  /** A Gemma 3 that lists neither its pattern nor its heads: a sixth of its layers full, the rest windowed. */
  lemma {:induction false} AssumedPatternInClosedForm(m: Facts, rate: Rate, layers: nat)
    requires m.architecture == Some(GEMMA3) && m.OfModel(BLOCK_COUNT) == Some(layers)
    requires ShapeOf(m).Some? && m.OfModel(SLIDING_WINDOW).Some?
    requires m.PerLayerOf(SLIDING_WINDOW_PATTERN).None?
    requires m.PerLayerOf(HEAD_COUNT_KV).None?
    ensures var shape := ShapeOf(m).value;
            SlidingOf(m, shape).Some? &&
            var sliding := SlidingOf(m, shape).value;
            var long := Layer(rate.context, shape.heads, shape.key, shape.value, rate);
            var short := Layer(Min(rate.context, sliding.window), shape.heads, sliding.key, sliding.value, rate);
            Cost(m, rate) == Some((layers / 6 * long + (layers - layers / 6) * short) / 16)
  {
    hide ShapeOf;
    var shape := ShapeOf(m).value;
    var sliding := SlidingOf(m, shape).value;
    assert sliding.pattern == Assumed(layers) && sliding.byLayer == [];
    OneInSix(layers, layers);
    OnlyTheNumberOfFullLayersMatters(shape, sliding, rate, layers);
  }

  // ------------------------------------------------------------- windowed is never dearer

  lemma {:induction false} LayersAtMostDense(shape: Shape, sliding: Sliding, rate: Rate, n: nat)
    requires n <= |sliding.pattern| && sliding.key <= shape.key && sliding.value <= shape.value
    requires forall heads :: heads in sliding.byLayer ==> heads <= shape.heads
    ensures Layers(shape, sliding, rate, n) <= n * Layer(rate.context, shape.heads, shape.key, shape.value, rate)
  {
    hide Layer;
    if n > 0 {
      LayersAtMostDense(shape, sliding, rate, n - 1);
      var heads := HeadsOf(shape, sliding, n - 1);
      var dense := Layer(rate.context, shape.heads, shape.key, shape.value, rate);
      assert n - 1 < |sliding.byLayer| ==> heads in sliding.byLayer;
      LayerGrows(rate.context, heads, shape.key, shape.value, rate,
                 rate.context, shape.heads, shape.key, shape.value, rate);
      LayerGrows(Min(rate.context, sliding.window), heads, sliding.key, sliding.value, rate,
                 rate.context, shape.heads, shape.key, shape.value, rate);
      assert n * dense == (n - 1) * dense + dense;
    }
  }

  /** Windowing saves, given a pattern no longer than the model and no layer wider than the widest. */
  lemma {:induction false} WindowedAtMostDense(m: Facts, rate: Rate)
    requires ShapeOf(m).Some? && SlidingOf(m, ShapeOf(m).value).Some?
    requires var shape := ShapeOf(m).value; var sliding := SlidingOf(m, shape).value;
             && |sliding.pattern| <= shape.layers
             && sliding.key <= shape.key && sliding.value <= shape.value
             && forall heads :: heads in sliding.byLayer ==> heads <= shape.heads
    ensures Cost(m, rate).Some? && Cost(m, rate).value <= Dense(ShapeOf(m).value, rate) / 16
  {
    hide ShapeOf, SlidingOf;
    var shape := ShapeOf(m).value;
    var sliding := SlidingOf(m, shape).value;
    var dense := Layer(rate.context, shape.heads, shape.key, shape.value, rate);
    LayersAtMostDense(shape, sliding, rate, |sliding.pattern|);
    Product(|sliding.pattern|, dense, shape.layers, dense);
  }

  /**
   That no layer has more heads than the model is no assumption where the list
   was the last a file had to say about the key: the reader's number is then its
   largest element.
   */
  lemma {:induction false} TheWidestLayerIsTheNumber(m: Facts, pairs: seq<GgufWriter.Pair>, i: nat)
    requires i < |pairs| && GgufRoundTrip.LayersOf(pairs[i]).Some?
    requires forall p :: p in pairs[i + 1..] ==> p.key != pairs[i].key
    ensures var facts := GgufRoundTrip.Meaning(m, pairs); var key := pairs[i].key;
            && key in facts.layers && key in facts.numbers
            && facts.numbers[key] in facts.layers[key]
            && forall heads :: heads in facts.layers[key] ==> heads <= facts.numbers[key]
  {
    GgufRoundTrip.LastWordWins(m, pairs, i);
  }

  /** At a context of one token every layer costs the same, windowed or not. */
  lemma {:induction false} OneToken(shape: Shape, sliding: Sliding, rate: Rate, n: nat)
    requires n <= |sliding.pattern| && rate.context == 1 && sliding.window >= 1
    requires sliding.key == shape.key && sliding.value == shape.value && sliding.byLayer == []
    ensures Layers(shape, sliding, rate, n) == n * Layer(1, shape.heads, shape.key, shape.value, rate)
  {
    hide Layer;
    if n > 0 {
      OneToken(shape, sliding, rate, n - 1);
      Distribute(n - 1, 1, Layer(1, shape.heads, shape.key, shape.value, rate));
    }
  }

  /**
   Where layers differ in nothing but their window, windowing never costs more,
   at any context, exactly when the pattern is no longer than the model: a
   length nothing checks.
   */
  lemma {:induction false} WindowingSavesExactlyOnShortPatterns(shape: Shape, sliding: Sliding, keys: nat, values: nat)
    requires sliding.key == shape.key && sliding.value == shape.value && sliding.byLayer == []
    requires sliding.window >= 1 && Layer(1, shape.heads, shape.key, shape.value, Rate(1, keys, values)) > 0
    ensures (forall context: nat ::
               Layers(shape, sliding, Rate(context, keys, values), |sliding.pattern|)
               <= Dense(shape, Rate(context, keys, values)))
            <==> |sliding.pattern| <= shape.layers
  {
    hide Layer;
    if |sliding.pattern| <= shape.layers {
      forall context: nat
        ensures Layers(shape, sliding, Rate(context, keys, values), |sliding.pattern|)
             <= Dense(shape, Rate(context, keys, values))
      {
        var rate := Rate(context, keys, values);
        var dense := Layer(context, shape.heads, shape.key, shape.value, rate);
        LayersAtMostDense(shape, sliding, rate, |sliding.pattern|);
        Product(|sliding.pattern|, dense, shape.layers, dense);
      }
    } else {
      var rate := Rate(1, keys, values);
      var one := Layer(1, shape.heads, shape.key, shape.value, rate);
      OneToken(shape, sliding, rate, |sliding.pattern|);
      Distribute(shape.layers, |sliding.pattern| - shape.layers, one);
      Product(1, one, |sliding.pattern| - shape.layers, one);
    }
  }

  /** A Gemma 3 of twelve layers that says it keeps a full cache on every second one. */
  const EVERY_SECOND: seq<(Text, GgufWriter.Word)> :=
    [(BLOCK_COUNT, 12), (FULL_ATTENTION_INTERVAL, 2), (HEAD_COUNT, 1), (EMBEDDING_LENGTH, 8), (SLIDING_WINDOW, 512)]

  lemma {:induction false} NamesDiffer()
    ensures |BLOCK_COUNT| == 11 && |EMBEDDING_LENGTH| == 16 && |HEAD_COUNT| == |KEY_LENGTH| == 20
    ensures |VALUE_LENGTH| == 22 && |FULL_ATTENTION_INTERVAL| == |HEAD_COUNT_KV| == 23
    ensures |SLIDING_WINDOW| == |KEY_LENGTH_SWA| == 24 && |VALUE_LENGTH_SWA| == 26
    ensures HEAD_COUNT != KEY_LENGTH && FULL_ATTENTION_INTERVAL != HEAD_COUNT_KV && SLIDING_WINDOW != KEY_LENGTH_SWA
  {
    assert HEAD_COUNT[10] == 'h' as nat && KEY_LENGTH[10] == 'k' as nat;
    assert FULL_ATTENTION_INTERVAL[0] == 'f' as nat && HEAD_COUNT_KV[0] == 'a' as nat;
    assert SLIDING_WINDOW[10] == 's' as nat && KEY_LENGTH_SWA[10] == 'k' as nat;
  }

  lemma {:induction false} EverySecondSays(suffix: Text)
    ensures var m := GgufRoundTrip.Meaning(NOTHING, GgufRoundTrip.ModelPairs(GEMMA3, EVERY_SECOND));
            && m.architecture == Some(GEMMA3) && m.PerLayerOf(suffix).None?
            && (forall i :: 0 <= i < 5 && EVERY_SECOND[i].0 == suffix ==> m.OfModel(suffix) == Some(EVERY_SECOND[i].1))
            && ((forall i :: 0 <= i < 5 ==> EVERY_SECOND[i].0 != suffix) ==> m.OfModel(suffix).None?)
  {
    NamesDiffer();
    assert GEMMA3[0] == 'g' as nat && TOKENIZER[0] == 't' as nat;
    assert forall i :: 0 <= i < 5 ==> (GEMMA3 + DOT + EVERY_SECOND[i].0)[0] == GEMMA3[0];
    GgufRoundTrip.AModelSaysItsSettings(GEMMA3, EVERY_SECOND, suffix);
  }

  lemma {:induction false} EverySecondLooksLike()
    ensures var m := GgufRoundTrip.Meaning(NOTHING, GgufRoundTrip.ModelPairs(GEMMA3, EVERY_SECOND));
            && m.architecture == Some(GEMMA3)
            && m.OfModel(BLOCK_COUNT) == Some(12) && m.OfModel(FULL_ATTENTION_INTERVAL) == Some(2)
            && m.OfModel(HEAD_COUNT) == Some(1) && m.OfModel(EMBEDDING_LENGTH) == Some(8)
            && m.OfModel(SLIDING_WINDOW) == Some(512) && m.OfModel(HEAD_COUNT_KV).None?
            && m.OfModel(KEY_LENGTH).None? && m.OfModel(VALUE_LENGTH).None?
            && m.OfModel(KEY_LENGTH_SWA).None? && m.OfModel(VALUE_LENGTH_SWA).None?
            && m.PerLayerOf(SLIDING_WINDOW_PATTERN).None? && m.PerLayerOf(HEAD_COUNT_KV).None?
  {
    hide GgufRoundTrip.Meaning, GgufRoundTrip.ModelPairs, Facts.OfModel, Facts.PerLayerOf;
    NamesDiffer();
    EverySecondSays(BLOCK_COUNT); EverySecondSays(FULL_ATTENTION_INTERVAL); EverySecondSays(HEAD_COUNT);
    EverySecondSays(EMBEDDING_LENGTH); EverySecondSays(SLIDING_WINDOW);
    EverySecondSays(HEAD_COUNT_KV); EverySecondSays(KEY_LENGTH); EverySecondSays(VALUE_LENGTH);
    EverySecondSays(KEY_LENGTH_SWA); EverySecondSays(VALUE_LENGTH_SWA); EverySecondSays(SLIDING_WINDOW_PATTERN);
    assert EVERY_SECOND[0].0 == BLOCK_COUNT && EVERY_SECOND[1].0 == FULL_ATTENTION_INTERVAL;
    assert EVERY_SECOND[2].0 == HEAD_COUNT && EVERY_SECOND[3].0 == EMBEDDING_LENGTH;
    assert EVERY_SECOND[4].0 == SLIDING_WINDOW;
  }

  lemma {:induction false} PlainModelsAreWithinLimits(
    architecture: Text, settings: seq<(Text, GgufWriter.Word)>)
    requires |architecture| < 100 && forall i :: 0 <= i < |architecture| ==> architecture[i] < 0x80
    requires forall setting :: setting in settings ==>
               |setting.0| < 100 && forall i :: 0 <= i < |setting.0| ==> setting.0[i] < 0x80
    ensures var pairs := GgufRoundTrip.ModelPairs(architecture, settings);
            && |pairs| == |settings| + 1
            && forall p :: p in pairs ==> GgufRoundTrip.Storable(p) && GgufRoundTrip.Readable(p)
  {
    hide Utf8.Valid, PerLayer;
    var pairs := GgufRoundTrip.ModelPairs(architecture, settings);
    Utf8.AsciiIsText(architecture);
    Utf8.AsciiIsText(ARCHITECTURE);
    assert |ARCHITECTURE| == 20;
    forall j | 0 <= j < |pairs| ensures GgufRoundTrip.Storable(pairs[j]) && GgufRoundTrip.Readable(pairs[j]) {
      if j > 0 {
        assert settings[j - 1] in settings;
        Utf8.AsciiIsText(pairs[j].key);
      }
    }
  }

  lemma {:induction false} EverySecondIsRead()
    ensures var pairs := GgufRoundTrip.ModelPairs(GEMMA3, EVERY_SECOND);
            FactsOf(GgufWriter.FileBytes(3, pairs)) == Ok(GgufRoundTrip.Meaning(NOTHING, pairs))
  {
    hide FactsOf, GgufWriter.FileBytes, GgufRoundTrip.Meaning, GgufRoundTrip.ModelPairs, Ascii;
    var pairs := GgufRoundTrip.ModelPairs(GEMMA3, EVERY_SECOND);
    NamesDiffer();
    PlainModelsAreWithinLimits(GEMMA3, EVERY_SECOND);
    GgufRoundTrip.ReadingUndoesWriting(3, pairs, []);
    assert GgufWriter.FileBytes(3, pairs) + [] == GgufWriter.FileBytes(3, pairs);
  }

  /**
   The assumed pattern has a place for every layer, the caching layers are fewer
   where an interval is given, and the cost is then above the dense one: here of
   a file as the reader reads it, at one token, twice as much.
   */
  lemma {:induction false} ALongPatternCostsMore()
    ensures FactsOf(GgufWriter.FileBytes(3, GgufRoundTrip.ModelPairs(GEMMA3, EVERY_SECOND))).Ok?
    ensures var m := FactsOf(GgufWriter.FileBytes(3, GgufRoundTrip.ModelPairs(GEMMA3, EVERY_SECOND))).value;
            && ShapeOf(m) == Some(Shape(6, 1, 8, 8))
            && Cost(m, Rate(1, F16, F16)) == Some(384)
            && Dense(ShapeOf(m).value, Rate(1, F16, F16)) / 16 == 192
  {
    hide FactsOf, GgufWriter.FileBytes;
    hide GgufRoundTrip.Meaning, GgufRoundTrip.ModelPairs, Facts.OfModel, Facts.PerLayerOf;
    EverySecondIsRead();
    EverySecondLooksLike();
    var m := GgufRoundTrip.Meaning(NOTHING, GgufRoundTrip.ModelPairs(GEMMA3, EVERY_SECOND));
    var shape, sliding := Shape(6, 1, 8, 8), Sliding(Assumed(12), 512, 8, 8, []);
    assert ShapeOf(m) == Some(shape);
    assert SlidingOf(m, shape) == Some(sliding);
    OneToken(shape, sliding, Rate(1, F16, F16), 12);
  }

  // ---------------------------------------------------------------------------- monotonicity

  lemma {:induction false} LayersGrow(shape: Shape, sliding: Sliding, rate: Rate, more: Rate, n: nat)
    requires n <= |sliding.pattern|
    requires rate.context <= more.context && rate.keys <= more.keys && rate.values <= more.values
    ensures Layers(shape, sliding, rate, n) <= Layers(shape, sliding, more, n)
  {
    if n > 0 {
      LayersGrow(shape, sliding, rate, more, n - 1);
      var heads := HeadsOf(shape, sliding, n - 1);
      LayerGrows(rate.context, heads, shape.key, shape.value, rate,
                 more.context, heads, shape.key, shape.value, more);
      LayerGrows(Min(rate.context, sliding.window), heads, sliding.key, sliding.value, rate,
                 Min(more.context, sliding.window), heads, sliding.key, sliding.value, more);
    }
  }

  /** More context or wider elements never make a cache cheaper, nor decide whether it can be costed. */
  lemma {:induction false} MoreNeverCostsLess(m: Facts, rate: Rate, more: Rate)
    requires rate.context <= more.context && rate.keys <= more.keys && rate.values <= more.values
    ensures Cost(m, rate).Some? == Cost(m, more).Some? == ShapeOf(m).Some?
    ensures Cost(m, rate).Some? ==> Cost(m, rate).value <= Cost(m, more).value
  {
    hide ShapeOf, SlidingOf;
    var shape := ShapeOf(m);
    if shape.Some? {
      var sliding := SlidingOf(m, shape.value);
      var s := shape.value;
      if sliding.Some? { LayersGrow(s, sliding.value, rate, more, |sliding.value.pattern|); }
      LayerGrows(rate.context, s.heads, s.key, s.value, rate, more.context, s.heads, s.key, s.value, more);
      Product(s.layers, Layer(rate.context, s.heads, s.key, s.value, rate),
              s.layers, Layer(more.context, s.heads, s.key, s.value, more));
    }
  }

  // ------------------------------------------------------------------- what fits in 128 bits

  const FIELD: nat := 0x1_0000_0000
  const LAYER: nat := 0x80_0000_0000_0000_0000_0000_0000

  /** Fields below 2^32 and fewer than 2^20 layers. */
  ghost predicate Plausible(shape: Shape, sliding: Sliding, rate: Rate) {
    && shape.layers <= MAX_LAYER_ARRAY && |sliding.pattern| <= MAX_LAYER_ARRAY
    && shape.heads < FIELD && shape.key < FIELD && shape.value < FIELD
    && sliding.key < FIELD && sliding.value < FIELD
    && (forall heads :: heads in sliding.byLayer ==> heads < FIELD)
    && rate.context < FIELD && rate.keys <= F32 && rate.values <= F32
  }

  lemma {:induction false} ALayerFits(span: nat, heads: nat, key: nat, value: nat, rate: Rate)
    requires span < FIELD && heads < FIELD && key < FIELD && value < FIELD
    requires rate.keys <= F32 && rate.values <= F32
    ensures Layer(span, heads, key, value, rate) <= LAYER
  {
    LayerGrows(span, heads, key, value, rate, FIELD, FIELD, FIELD, FIELD, Rate(FIELD, F32, F32));
  }

  /** No partial sum of the layer loop, nor the dense product, leaves 128 bits. */
  lemma {:induction false} PlausibleCostsFit(shape: Shape, sliding: Sliding, rate: Rate, n: nat)
    requires Plausible(shape, sliding, rate) && n <= |sliding.pattern|
    ensures Layers(shape, sliding, rate, n) <= n * LAYER < U128_RANGE
    ensures Dense(shape, rate) < U128_RANGE
  {
    hide Layer;
    Product(shape.layers, Layer(rate.context, shape.heads, shape.key, shape.value, rate), MAX_LAYER_ARRAY, LAYER) by {
      ALayerFits(rate.context, shape.heads, shape.key, shape.value, rate);
    }
    Product(n, LAYER, MAX_LAYER_ARRAY, LAYER);
    if n > 0 {
      PlausibleCostsFit(shape, sliding, rate, n - 1);
      var heads := HeadsOf(shape, sliding, n - 1);
      assert n - 1 < |sliding.byLayer| ==> heads in sliding.byLayer;
      ALayerFits(rate.context, heads, shape.key, shape.value, rate);
      ALayerFits(Min(rate.context, sliding.window), heads, sliding.key, sliding.value, rate);
    }
  }

  /** Fields only bounded by their own 64 bits can leave them. */
  lemma {:induction false} ImplausibleCostsNeedNotFit()
    ensures var shape, rate := Shape(1, I64_RANGE, I64_RANGE, 0), Rate(1, F16, F16);
            shape.heads < U64_RANGE && shape.key < U64_RANGE && Dense(shape, rate) >= U128_RANGE
  {
    var half := I64_RANGE;
    assert half * (half * 32) >= U128_RANGE;
  }
}
