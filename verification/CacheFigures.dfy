/**
 What a cache costs, from the metadata's own numbers: which setting each factor
 comes from, and what stands in for one that is not there.
 */
module CacheFigures {
  import opened Wrappers
  import opened Totals
  import opened Gguf
  import opened Cache

  ghost function Number(m: Facts, name: string): Option<nat>
    requires forall i :: 0 <= i < |name| ==> name[i] < '\U{0080}'
  {
    m.OfModel(Ascii(name))
  }

  ghost function List(m: Facts, name: string): Option<seq<nat>>
    requires forall i :: 0 <= i < |name| ==> name[i] < '\U{0080}'
  {
    m.PerLayerOf(Ascii(name))
  }

  /** All the layers keep a cache, or one in each interval of a model that says how long those are. */
  ghost predicate SaysLayers(m: Facts, layers: nat) {
    exists count: nat ::
      && Number(m, "block_count") == Some(count)
      && (if exists n :: n > 1 && Number(m, "full_attention_interval") == Some(n)
          then layers == count / Number(m, "full_attention_interval").value else layers == count)
  }

  /** The key-value heads, or the heads where nothing is said of the former. */
  ghost predicate SaysHeads(m: Facts, heads: nat) {
    || Number(m, "attention.head_count_kv") == Some(heads)
    || (Number(m, "attention.head_count_kv") == None && Number(m, "attention.head_count") == Some(heads))
  }

  /** A key's width, or the embedding's over the heads. */
  ghost predicate SaysKey(m: Facts, key: nat) {
    || Number(m, "attention.key_length") == Some(key)
    || (Number(m, "attention.key_length") == None
        && exists count: nat, width: nat ::
             && Number(m, "attention.head_count") == Some(count) && count > 0
             && Number(m, "embedding_length") == Some(width) && key == width / count)
  }

  /** A value's width, or the key's. */
  ghost predicate SaysValue(m: Facts, key: nat, value: nat) {
    || Number(m, "attention.value_length") == Some(value)
    || (Number(m, "attention.value_length") == None && value == key)
  }

  ghost predicate Says(m: Facts, layers: nat, heads: nat, key: nat, value: nat) {
    SaysLayers(m, layers) && SaysHeads(m, heads) && SaysKey(m, key) && SaysValue(m, key, value)
  }

  lemma {:induction false} SaysTheShape(m: Facts, layers: nat, heads: nat, key: nat, value: nat)
    ensures Says(m, layers, heads, key, value) <==> ShapeOf(m) == Some(Shape(layers, heads, key, value))
  {
    hide Ascii, Facts.OfModel;
  }

  ghost predicate NothingSlides(m: Facts) {
    || Number(m, "attention.sliding_window") == None
    || (List(m, "attention.sliding_window_pattern") == None && m.architecture != Some(Ascii("gemma3")))
  }

  /** Where nothing slides: every layer, at the whole context. */
  lemma {:induction false} ADenseModel(m: Facts, rate: Rate, layers: nat, heads: nat, key: nat, value: nat)
    requires Says(m, layers, heads, key, value) && NothingSlides(m)
    ensures Cost(m, rate) == Some(layers * rate.context * heads * (key * rate.keys + value * rate.values) / 16)
  {
    hide ShapeOf, Says, Ascii, Facts.OfModel, Facts.PerLayerOf;
    SaysTheShape(m, layers, heads, key, value);
    assert SlidingOf(m, Shape(layers, heads, key, value)).None?;
    Regrouped(layers, rate.context, heads, key * rate.keys + value * rate.values);
  }

  lemma {:induction false} Regrouped(a: nat, b: nat, c: nat, d: nat)
    ensures a * (b * c * d) == a * b * c * d
  {}

  /** There is no figure exactly where the layers, the heads or a key's width cannot be told. */
  lemma {:induction false} NoFigure(m: Facts, rate: Rate)
    ensures Cost(m, rate).None? <==>
            || Number(m, "block_count") == None
            || (Number(m, "attention.head_count_kv") == None && Number(m, "attention.head_count") == None)
            || (Number(m, "attention.key_length") == None
                && (|| Number(m, "embedding_length") == None
                    || Number(m, "attention.head_count") in {None, Some(0)}))
  {
    hide Ascii, Facts.OfModel, SlidingOf;
  }

  // ------------------------------------------------------------------------------ sliding models

  /** The pattern the file lists, or that of a Gemma 3: every sixth layer is full. */
  ghost predicate SaysPattern(m: Facts, pattern: seq<nat>) {
    || List(m, "attention.sliding_window_pattern") == Some(pattern)
    || (List(m, "attention.sliding_window_pattern") == None
        && m.architecture == Some(Ascii("gemma3")) && Number(m, "block_count") == Some(|pattern|)
        && forall i :: 0 <= i < |pattern| ==> pattern[i] == if i % 6 == 5 then 0 else 1)
  }

  /** The widths of the layers that slide, or those of the others. */
  ghost predicate SaysSlidingWidths(m: Facts, key: nat, slidingKey: nat, slidingValue: nat) {
    && (|| Number(m, "attention.key_length_swa") == Some(slidingKey)
        || (Number(m, "attention.key_length_swa") == None && slidingKey == key))
    && (|| Number(m, "attention.value_length_swa") == Some(slidingValue)
        || (Number(m, "attention.value_length_swa") == None && slidingValue == slidingKey))
  }

  /** The heads of a layer: its own, where the file lists that many, or the model's. */
  ghost function HeadsAt(m: Facts, heads: nat, layer: nat): nat {
    match List(m, "attention.head_count_kv")
    case Some(byLayer) => if layer < |byLayer| then byLayer[layer] else heads
    case None => heads
  }

  ghost function Figure(rate: Rate, span: nat, heads: nat, key: nat, value: nat): nat {
    span * heads * (key * rate.keys + value * rate.values)
  }

  /** What each layer keeps, in sixteenths of a byte: the whole context where its entry is zero, else the window. */
  ghost function Figures(
    m: Facts, rate: Rate, heads: nat, pattern: seq<nat>, window: nat,
    key: nat, value: nat, slidingKey: nat, slidingValue: nat): (figures: seq<nat>)
    ensures |figures| == |pattern|
  {
    seq(|pattern|, i requires 0 <= i < |pattern| =>
      if pattern[i] == 0 then Figure(rate, rate.context, HeadsAt(m, heads, i), key, value)
      else Figure(rate, Min(rate.context, window), HeadsAt(m, heads, i), slidingKey, slidingValue))
  }

  /** Where layers slide: the sum over the pattern, each layer by its own heads, span and widths. */
  lemma {:induction false} ASlidingModel(
    m: Facts, rate: Rate, layers: nat, heads: nat, key: nat, value: nat,
    pattern: seq<nat>, window: nat, slidingKey: nat, slidingValue: nat)
    requires Says(m, layers, heads, key, value) && Number(m, "attention.sliding_window") == Some(window)
    requires SaysPattern(m, pattern) && SaysSlidingWidths(m, key, slidingKey, slidingValue)
    ensures Cost(m, rate)
         == Some(Total(Figures(m, rate, heads, pattern, window, key, value, slidingKey, slidingValue)) / 16)
  {
    hide ShapeOf, Says, Ascii, Facts.OfModel, Facts.PerLayerOf;
    SaysTheShape(m, layers, heads, key, value);
    var shape := Shape(layers, heads, key, value);
    var sliding := SlidingOf(m, shape);
    assert sliding.Some? && sliding.value.pattern == pattern by {
      if List(m, "attention.sliding_window_pattern") == None { assert Assumed(|pattern|) == pattern; }
    }
    LayersAreFigures(m, rate, shape, sliding.value, |pattern|);
    var figures := Figures(m, rate, heads, pattern, window, key, value, slidingKey, slidingValue);
    assert figures[..|pattern|] == figures;
  }

  lemma {:induction false} LayersAreFigures(m: Facts, rate: Rate, shape: Shape, sliding: Sliding, n: nat)
    requires n <= |sliding.pattern| && sliding.byLayer == OrElse(List(m, "attention.head_count_kv"), [])
    ensures Layers(shape, sliding, rate, n)
         == Total(Figures(m, rate, shape.heads, sliding.pattern, sliding.window,
                          shape.key, shape.value, sliding.key, sliding.value)[..n])
  {
    hide Ascii, Facts.PerLayerOf;
    if n > 0 {
      LayersAreFigures(m, rate, shape, sliding, n - 1);
      var figures := Figures(m, rate, shape.heads, sliding.pattern, sliding.window,
                             shape.key, shape.value, sliding.key, sliding.value);
      assert figures[..n] == figures[..n - 1] + [figures[n - 1]];
      TotalOneMore(figures[..n - 1], figures[n - 1]);
    }
  }
}
