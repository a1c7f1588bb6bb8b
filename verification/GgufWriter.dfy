/**
 The writer of model files (tests/fixtures/mod.rs): the bytes the metadata
 reader must undo.

 The functions say what each piece is written as; the methods of `Output` are
 the source's, and append exactly that.
 */
module GgufWriter {
  import opened Wrappers
  import opened GgufBytes
  import opened Gguf

  type Half = n: nat | n < 0x1_0000
  type Word = n: nat | n < 0x1_0000_0000
  type Long = n: nat | n < U64_RANGE

  datatype Value =
    | U16(half: Half)
    | U32(word: Word)
    | U64(long: Long)
    | F32(bits: Word)
    | Flag(on: bool)
    | String(text: Text)
    | U32s(words: seq<Word>)
    | Strings(texts: seq<Text>)

  datatype Pair = Pair(key: Text, value: Value)

  // ---------------------------------------------------------------------- what is written

  function TextBytes(t: Text): seq<Byte> { ToLE(|t|, 8) + t }

  function WordsBytes(words: seq<Word>): seq<Byte> {
    if words == [] then [] else ToLE(words[0], 4) + WordsBytes(words[1..])
  }

  function TextsBytes(texts: seq<Text>): seq<Byte> {
    if texts == [] then [] else TextBytes(texts[0]) + TextsBytes(texts[1..])
  }

  /** The tag of a value's kind. */
  function Kind(value: Value): (kind: nat)
    ensures kind <= 10
  {
    match value
    case U16(_) => 2
    case U32(_) => 4
    case F32(_) => 6
    case Flag(_) => 7
    case String(_) => STRING
    case U32s(_) => ARRAY
    case Strings(_) => ARRAY
    case U64(_) => 10
  }

  /** What follows the tag. */
  function Body(value: Value): seq<Byte> {
    match value
    case U16(half) => ToLE(half, 2)
    case U32(word) => ToLE(word, 4)
    case F32(bits) => ToLE(bits, 4)
    case Flag(on) => [if on then 1 else 0]
    case String(text) => TextBytes(text)
    case U32s(words) => ToLE(4, 4) + (ToLE(|words|, 8) + WordsBytes(words))
    case Strings(texts) => ToLE(STRING, 4) + (ToLE(|texts|, 8) + TextsBytes(texts))
    case U64(long) => ToLE(long, 8)
  }

  function PairBytes(pair: Pair): seq<Byte> {
    TextBytes(pair.key) + (ToLE(Kind(pair.value), 4) + Body(pair.value))
  }

  function PairsBytes(pairs: seq<Pair>): seq<Byte> {
    if pairs == [] then [] else PairBytes(pairs[0]) + PairsBytes(pairs[1..])
  }

  /** Everything before the pairs: magic, version, the number of tensors and that of pairs. */
  function HeadBytes(version: Word, tensors: Long, count: nat): seq<Byte> {
    MAGIC + (ToLE(version, 4) + (ToLE(tensors, 8) + ToLE(count, 8)))
  }

  /** A file without tensors. */
  function FileBytes(version: Word, pairs: seq<Pair>): seq<Byte> {
    HeadBytes(version, 0, |pairs|) + PairsBytes(pairs)
  }

  lemma {:induction false} Associative(a: seq<Byte>, b: seq<Byte>, c: seq<Byte>)
    ensures (a + b) + c == a + (b + c)
  {}

  // --------------------------------------------------------------------------- the writer

  class Output {
    var bytes: seq<Byte>

    constructor ()
      ensures bytes == []
    {
      bytes := [];
    }

    method Extend(more: seq<Byte>)
      modifies this
      ensures bytes == old(bytes) + more
    {
      bytes := bytes + more;
    }

    /** `push_text`: what `GgufBytes.TextAt` takes to be one string. */
    method PushText(text: Text)
      modifies this
      ensures bytes == old(bytes) + TextBytes(text)
    {
      Associative(bytes, ToLE(|text|, 8), text);
      Extend(ToLE(|text|, 8));
      Extend(text);
    }

    /** A tag, and a scalar's bytes. */
    method PushScalar(kind: nat, body: seq<Byte>)
      modifies this
      ensures bytes == old(bytes) + (ToLE(kind, 4) + body)
    {
      Associative(bytes, ToLE(kind, 4), body);
      Extend(ToLE(kind, 4));
      Extend(body);
    }

    /** `push_value`: the type tag, then the value. */
    method PushValue(value: Value)
      modifies this
      ensures bytes == old(bytes) + (ToLE(Kind(value), 4) + Body(value))
    {
      match value {
        case U16(half) =>
          PushScalar(2, ToLE(half, 2));
        case U32(word) =>
          PushScalar(4, ToLE(word, 4));
        case F32(bits) =>
          PushScalar(6, ToLE(bits, 4));
        case Flag(on) =>
          PushScalar(7, [if on then 1 else 0]);
        case String(text) =>
          Associative(bytes, ToLE(STRING, 4), TextBytes(text));
          Extend(ToLE(STRING, 4));
          PushText(text);
        case U32s(words) =>
          PushArrayHead(4, |words|, WordsBytes(words));
          PushWords(words);
        case Strings(texts) =>
          PushArrayHead(STRING, |texts|, TextsBytes(texts));
          PushTexts(texts);
        case U64(long) =>
          PushScalar(10, ToLE(long, 8));
      }
    }

    /** The array tag, the elements' tag and their number; `elements` is what the caller appends next. */
    method PushArrayHead(kind: nat, count: nat, ghost elements: seq<Byte>)
      modifies this
      ensures bytes + elements == old(bytes) + (ToLE(ARRAY, 4) + (ToLE(kind, 4) + (ToLE(count, 8) + elements)))
    {
      ghost var a, b, c := ToLE(ARRAY, 4), ToLE(kind, 4), ToLE(count, 8);
      Associative(bytes + a + b, c, elements);
      Associative(bytes + a, b, c + elements);
      Associative(bytes, a, b + (c + elements));
      Extend(ToLE(ARRAY, 4));
      Extend(ToLE(kind, 4));
      Extend(ToLE(count, 8));
    }

    method PushWords(words: seq<Word>)
      modifies this
      ensures bytes == old(bytes) + WordsBytes(words)
    {
      for k := 0 to |words|
        invariant bytes + WordsBytes(words[k..]) == old(bytes) + WordsBytes(words)
      {
        assert words[k..][1..] == words[k + 1..];
        Associative(bytes, ToLE(words[k], 4), WordsBytes(words[k + 1..]));
        Extend(ToLE(words[k], 4));
      }
      assert WordsBytes(words[|words|..]) == [];
    }

    method PushTexts(texts: seq<Text>)
      modifies this
      ensures bytes == old(bytes) + TextsBytes(texts)
    {
      for k := 0 to |texts|
        invariant bytes + TextsBytes(texts[k..]) == old(bytes) + TextsBytes(texts)
      {
        assert texts[k..][1..] == texts[k + 1..];
        Associative(bytes, TextBytes(texts[k]), TextsBytes(texts[k + 1..]));
        PushText(texts[k]);
      }
      assert TextsBytes(texts[|texts|..]) == [];
    }

    /** `bytes`: the whole file. */
    method Write(version: Word, pairs: seq<Pair>)
      modifies this
      ensures bytes == FileBytes(version, pairs)
    {
      bytes := [];
      Extend(MAGIC);
      Extend(ToLE(version, 4));
      Extend(ToLE(0, 8));
      Extend(ToLE(|pairs|, 8));
      Associative(MAGIC + ToLE(version, 4), ToLE(0, 8), ToLE(|pairs|, 8));
      Associative(MAGIC, ToLE(version, 4), ToLE(0, 8) + ToLE(|pairs|, 8));
      assert bytes == HeadBytes(version, 0, |pairs|);
      for k := 0 to |pairs|
        invariant bytes + PairsBytes(pairs[k..]) == FileBytes(version, pairs)
      {
        PushPair(pairs[k], PairsBytes(pairs[k + 1..]));
        assert pairs[k..][1..] == pairs[k + 1..];
      }
      assert PairsBytes(pairs[|pairs|..]) == [];
    }

    /** One turn of the loop in `bytes`; `rest` is what later turns append. */
    method PushPair(pair: Pair, ghost rest: seq<Byte>)
      modifies this
      ensures bytes + rest == old(bytes) + (PairBytes(pair) + rest)
    {
      ghost var key, value := TextBytes(pair.key), ToLE(Kind(pair.value), 4) + Body(pair.value);
      Associative(bytes, key, value);
      Associative(bytes, PairBytes(pair), rest);
      PushText(pair.key);
      PushValue(pair.value);
    }
  }
}
