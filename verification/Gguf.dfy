/**
 The metadata reader (src/gguf.rs), twice: as a function of a file's bytes, and
 as the object that reads them and comes to the same.
 */
module Gguf {
  import opened Wrappers
  import opened GgufBytes

  const MAX_PAIRS: nat := 0x1_0000
  const MAX_KEY_BYTES: nat := 1024
  const MAX_KEPT_TEXT_BYTES: nat := 256
  const MAX_LAYER_ARRAY: nat := 0x10_0000

  const STRING: nat := 8
  const ARRAY: nat := 9

  /** The bytes of an ASCII literal. */
  function Ascii(s: string): (t: Text)
    requires forall i :: 0 <= i < |s| ==> s[i] < '\U{0080}'
    ensures |t| == |s| && forall i :: 0 <= i < |t| ==> t[i] < 0x80
  {
    seq(|s|, i requires 0 <= i < |s| => s[i] as nat)
  }

  const MAGIC := Ascii("GGUF")
  const ARCHITECTURE := Ascii("general.architecture")
  const TOKENIZER := Ascii("tokenizer.")
  const DOT := Ascii(".")

  predicate EndsWith(t: Text, suffix: Text) { |suffix| <= |t| && t[|t| - |suffix|..] == suffix }

  /** The keys whose arrays are kept layer by layer. */
  predicate PerLayer(key: Text) {
    || EndsWith(key, Ascii(".attention.head_count_kv"))
    || EndsWith(key, Ascii(".attention.head_count"))
    || EndsWith(key, Ascii(".attention.sliding_window_pattern"))
  }

  /** The reader's result: what `FactsOf` a file's bytes comes to, pair after pair. */
  datatype Facts = Facts(architecture: Option<Text>, numbers: map<Text, nat>, layers: map<Text, seq<nat>>) {

    /** A scalar is kept when it is an integer and not the tokenizer's. */
    function WithScalar(key: Text, number: Option<nat>): Facts {
      if number.Some? && !(TOKENIZER <= key) then this.(numbers := numbers[key := number.value]) else this
    }

    /** Of a per-layer array the non-negative integers are kept, closed up, and the largest of them. */
    function WithLayers(key: Text, largest: Option<nat>, elements: seq<nat>): Facts {
      var m := if largest.Some? then this.(numbers := numbers[key := largest.value]) else this;
      if elements != [] then m.(layers := m.layers[key := elements]) else m
    }

    function OfModel(suffix: Text): Option<nat> {
      if architecture.Some? && architecture.value + DOT + suffix in numbers
      then Some(numbers[architecture.value + DOT + suffix]) else None
    }

    function PerLayerOf(suffix: Text): Option<seq<nat>> {
      if architecture.Some? && architecture.value + DOT + suffix in layers
      then Some(layers[architecture.value + DOT + suffix]) else None
    }
  }

  const NOTHING := Facts(None, map[], map[])

  /** `Option::max`, in which nothing is below everything. */
  function Larger(a: Option<nat>, b: Option<nat>): Option<nat> {
    if a.None? then b else if b.None? then a else Some(Max(a.value, b.value))
  }

  // -------------------------------------------------------------------- what the bytes mean

  /** The largest integer of `count` scalars from `pos` on, all integers among them, and where they end. */
  datatype Elements = Elements(largest: Option<nat>, kept: seq<nat>)

  function LayersAt(data: seq<Byte>, pos: nat, kind: nat, count: nat, so: Elements): Read<Elements>
    decreases count
  {
    if count == 0 then Ok((so, pos))
    else
      var (element, next) :- ScalarAt(data, pos, kind);
      LayersAt(data, next, kind, count - 1,
        Elements(Larger(so.largest, element), so.kept + if element.Some? then [element.value] else []))
  }

  /** `count` strings stepped over. */
  function TextsAt(data: seq<Byte>, pos: nat, count: nat): Result<nat, Fault>
    decreases count
  {
    if count == 0 then Ok(pos)
    else
      var (_, next) :- TextAt(data, pos, 0);
      TextsAt(data, next, count - 1)
  }

  /** The strings looked at in stepping over `count` of them. */
  ghost function TextReads(data: seq<Byte>, pos: nat, count: nat): nat
    decreases count
  {
    if count == 0 then 0
    else if TextAt(data, pos, 0).Err? then 1
    else 1 + TextReads(data, TextAt(data, pos, 0).value.1, count - 1)
  }

  /** An array of strings costs no more reads than the file has room for lengths, whatever count it claims. */
  lemma {:induction false} AClaimedCountCostsNothing(data: seq<Byte>, pos: nat, count: nat)
    ensures TextReads(data, pos, count) <= 1 + (if pos <= |data| then (|data| - pos) / 8 else 0)
    decreases count
  {
    if count > 0 && TextAt(data, pos, 0).Ok? {
      var next := TextAt(data, pos, 0).value.1;
      assert pos + 8 <= |data| && pos + 8 <= next;
      AClaimedCountCostsNothing(data, next, count - 1);
    }
  }

  /** An array's elements, after its kind and count. */
  function ElementsAt(m: Facts, data: seq<Byte>, pos: nat, key: Text, kind: nat, count: nat): Read<Facts> {
    if PerLayer(key) && kind != STRING && kind != ARRAY then
      if count > MAX_LAYER_ARRAY then Err(TooManyLayers(count))
      else
        var (elements, next) :- LayersAt(data, pos, kind, count, Elements(None, []));
        Ok((m.WithLayers(key, elements.largest, elements.kept), next))
    else if kind == STRING then
      var next :- TextsAt(data, pos, count);
      Ok((m, next))
    else if kind == ARRAY then Err(NestsArrays)
    else
      var width :- Width(kind);
      if count * width >= U64_RANGE then Err(ImpossibleLength)
      else
        var next :- Skip(pos, count * width);
        Ok((m, next))
  }

  function ArrayAt(m: Facts, data: seq<Byte>, pos: nat, key: Text): Read<Facts> {
    var (kind, afterKind) :- U32At(data, pos);
    var (count, start) :- U64At(data, afterKind);
    ElementsAt(m, data, start, key, kind, count)
  }

  function ValueAt(m: Facts, data: seq<Byte>, pos: nat, key: Text, kind: nat): Read<Facts> {
    if kind == STRING then
      var (kept, next) :- TextAt(data, pos, MAX_KEPT_TEXT_BYTES);
      Ok((if key == ARCHITECTURE then m.(architecture := kept) else m, next))
    else if kind == ARRAY then ArrayAt(m, data, pos, key)
    else
      var (number, next) :- ScalarAt(data, pos, kind);
      Ok((m.WithScalar(key, number), next))
  }

  function PairAt(m: Facts, data: seq<Byte>, pos: nat): Read<Facts> {
    var (key, afterKey) :- TextAt(data, pos, MAX_KEY_BYTES);
    if key.None? then Err(KeyTooLong)
    else
      var (kind, afterKind) :- U32At(data, afterKey);
      ValueAt(m, data, afterKind, key.value, kind)
  }

  function PairsAt(m: Facts, data: seq<Byte>, pos: nat, count: nat): Read<Facts>
    decreases count
  {
    if count == 0 then Ok((m, pos))
    else
      var (next, after) :- PairAt(m, data, pos);
      PairsAt(next, data, after, count - 1)
  }

  lemma {:induction false} OnePairFurther(m: Facts, data: seq<Byte>, pos: nat, count: nat)
    requires count > 0
    ensures PairsAt(m, data, pos, count)
         == match PairAt(m, data, pos)
            case Ok(step) => PairsAt(step.0, data, step.1, count - 1)
            case Err(fault) => Err(fault)
  {}

  /** The number of pairs the header announces, and where they start. */
  function HeaderAt(data: seq<Byte>): Read<nat> {
    var (magic, afterMagic) :- BytesAt(data, 0, 4);
    if magic != MAGIC then Err(NotGguf)
    else
      var (version, afterVersion) :- U32At(data, afterMagic);
      if !(2 <= version <= 3) then Err(BadVersion(version))
      else
        var (_, afterTensors) :- U64At(data, afterVersion);
        var (pairs, start) :- U64At(data, afterTensors);
        if pairs > MAX_PAIRS then Err(TooManyPairs(pairs)) else Ok((pairs, start))
  }

  /** What reading a whole file comes to. */
  function FactsOf(data: seq<Byte>): Result<Facts, Fault> {
    var (pairs, start) :- HeaderAt(data);
    var (facts, end) :- PairsAt(NOTHING, data, start, pairs);
    if end > |data| then Err(EndsBefore) else Ok(facts)
  }

  // ------------------------------------------------------------------------------ the reader

  class Metadata {
    var architecture: Option<Text>
    var numbers: map<Text, nat>
    var layers: map<Text, seq<nat>>

    constructor ()
      ensures View() == NOTHING
    {
      architecture, numbers, layers := None, map[], map[];
    }

    ghost function View(): Facts
      reads this
    {
      Facts(architecture, numbers, layers)
    }

    /**
     The loop of `array` over strings, with a count of its turns: however many
     strings are claimed, no more than the rest of the file has room for, and one.
     */
    method StepOverTexts(reader: Reader, count: nat) returns (r: Result<(), Fault>, ghost turns: nat)
      modifies reader
      ensures var to := TextsAt(reader.data, old(reader.position), count);
              if to.Ok? then r == Ok(()) && reader.position == to.value else r == Err(to.error)
      ensures turns == TextReads(reader.data, old(reader.position), count)
      ensures 8 * turns <= 8 + if old(reader.position) <= |reader.data| then |reader.data| - old(reader.position) else 0
    {
      hide TextAt;
      ghost var start := reader.position;
      AClaimedCountCostsNothing(reader.data, start, count);
      turns := 0;
      for k := 0 to count
        modifies reader
        invariant TextsAt(reader.data, start, count) == TextsAt(reader.data, reader.position, count - k)
        invariant TextReads(reader.data, start, count) == turns + TextReads(reader.data, reader.position, count - k)
      {
        turns := turns + 1;
        var _ :- reader.ReadText(0);
      }
      r := Ok(());
    }

    /** `array`: what is per layer is kept, every other array stepped over. */
    method Array(reader: Reader, key: Text) returns (r: Result<(), Fault>)
      modifies this, reader
      ensures Becomes(ArrayAt(old(View()), reader.data, old(reader.position), key), r, View(), reader.position)
    {
      hide TextAt, ScalarAt, PerLayer;
      var kind :- reader.ReadU32();
      var count :- reader.ReadU64();
      var perLayer := PerLayer(key);
      if perLayer && kind != STRING && kind != ARRAY {
        if count > MAX_LAYER_ARRAY {
          return Err(TooManyLayers(count));
        }
        var largest: Option<nat> := None;
        var elements: seq<nat> := [];
        ghost var start := reader.position;
        for k := 0 to count
          modifies reader
          invariant LayersAt(reader.data, start, kind, count, Elements(None, []))
                 == LayersAt(reader.data, reader.position, kind, count - k, Elements(largest, elements))
        {
          var element :- reader.ReadScalar(kind);
          largest := Larger(largest, element);
          if element.Some? {
            elements := elements + [element.value];
          } else {
            assert elements + [] == elements;
          }
        }
        if largest.Some? {
          numbers := numbers[key := largest.value];
        }
        if elements != [] {
          layers := layers[key := elements];
        }
        return Ok(());
      }
      if kind == STRING {
        ghost var turns;
        r, turns := StepOverTexts(reader, count);
        return;
      } else if kind == ARRAY {
        return Err(NestsArrays);
      } else {
        var width :- Width(kind);
        if count * width >= U64_RANGE {
          return Err(ImpossibleLength);
        }
        var _ :- reader.StepOver(count * width);
      }
      r := Ok(());
    }

    /** `value`: only the architecture's string is kept, and every integer but the tokenizer's. */
    method Value(reader: Reader, key: Text, kind: nat) returns (r: Result<(), Fault>)
      modifies this, reader
      ensures Becomes(ValueAt(old(View()), reader.data, old(reader.position), key, kind), r, View(), reader.position)
    {
      if kind == STRING {
        var kept :- reader.ReadText(MAX_KEPT_TEXT_BYTES);
        if key == ARCHITECTURE {
          architecture := kept;
        }
      } else if kind == ARRAY {
        r := Array(reader, key);
        return;
      } else {
        var number :- reader.ReadScalar(kind);
        if number.Some? && !(TOKENIZER <= key) {
          numbers := numbers[key := number.value];
        }
      }
      r := Ok(());
    }

    /** One turn of the loop in `fill`. */
    method Pair(reader: Reader) returns (r: Result<(), Fault>)
      modifies this, reader
      ensures Becomes(PairAt(old(View()), reader.data, old(reader.position)), r, View(), reader.position)
    {
      hide ValueAt;
      var key :- reader.ReadText(MAX_KEY_BYTES);
      if key.None? {
        return Err(KeyTooLong);
      }
      var kind :- reader.ReadU32();
      r := Value(reader, key.value, kind);
    }

    /** `fill`: the whole of a file's metadata, or why it cannot be read. */
    method Fill(reader: Reader) returns (r: Result<(), Fault>)
      requires reader.position == 0 && View() == NOTHING
      modifies this, reader
      ensures match FactsOf(reader.data)
              case Ok(facts) => r == Ok(()) && View() == facts && reader.position <= |reader.data|
              case Err(fault) => r == Err(fault)
    {
      hide PairAt;
      var magic :- reader.ReadExact(4);
      if magic != MAGIC {
        return Err(NotGguf);
      }
      var version :- reader.ReadU32();
      if !(2 <= version <= 3) {
        return Err(BadVersion(version));
      }
      var _ :- reader.ReadU64();
      var pairs :- reader.ReadU64();
      if pairs > MAX_PAIRS {
        return Err(TooManyPairs(pairs));
      }
      ghost var start := reader.position;
      for k := 0 to pairs
        modifies this, reader
        invariant PairsAt(NOTHING, reader.data, start, pairs)
               == PairsAt(View(), reader.data, reader.position, pairs - k)
      {
        OnePairFurther(View(), reader.data, reader.position, pairs - k);
        var _ :- Pair(reader);
      }
      if reader.position > |reader.data| {
        return Err(EndsBefore);
      }
      r := Ok(());
    }
  }

  /** A step that came out as the specification says: the facts kept, and the reader's place. */
  ghost predicate Becomes(spec: Read<Facts>, r: Result<(), Fault>, facts: Facts, position: nat) {
    if spec.Ok? then r == Ok(()) && facts == spec.value.0 && position == spec.value.1 else r == Err(spec.error)
  }
}
