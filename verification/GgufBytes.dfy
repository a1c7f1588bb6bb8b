/**
 The format's primitives (src/gguf/bytes.rs): little-endian integers, strings,
 and stepping over what is not kept.

 A file is its bytes and a reader a position in them.  The functions say what
 each read yields and where it leaves the reader; the methods of `Reader` are
 the source's, and do that.
 */
module GgufBytes {
  import opened Wrappers
  import Utf8

  type Byte = Utf8.Byte

  /** A string, as the bytes of its encoding. */
  type Text = Utf8.Text

  datatype Fault =
    | NotGguf | BadVersion(version: nat) | TooManyPairs(pairs: nat) | KeyTooLong
    | EndsInside | EndsBefore | NoSuchType(kind: nat) | TooManyLayers(count: nat)
    | NestsArrays | ImpossibleLength

  type Read<T> = Result<(T, nat), Fault>

  const I64_RANGE: nat := 0x8000_0000_0000_0000

  // ---------------------------------------------------------------- little-endian integers

  /** `to_le_bytes` of a `w`-byte integer. */
  function ToLE(n: nat, w: nat): (s: seq<Byte>)
    ensures |s| == w
  {
    if w == 0 then [] else [n % 256] + ToLE(n / 256, w - 1)
  }

  /** `from_le_bytes`. */
  function FromLE(s: seq<Byte>): nat {
    if s == [] then 0 else s[0] + 256 * FromLE(s[1..])
  }

  function Pow256(w: nat): (p: nat)
    ensures p > 0
  {
    if w == 0 then 1 else 256 * Pow256(w - 1)
  }

  lemma {:induction false} Widths()
    ensures Pow256(1) == 0x100 && Pow256(2) == 0x1_0000
    ensures Pow256(4) == 0x1_0000_0000 && Pow256(8) == U64_RANGE
  {}

  lemma {:induction false} LERoundTrip(n: nat, w: nat)
    requires n < Pow256(w)
    ensures FromLE(ToLE(n, w)) == n
  {
    if w > 0 {
      LERoundTrip(n / 256, w - 1);
      assert ToLE(n, w)[1..] == ToLE(n / 256, w - 1);
    }
  }

  lemma {:induction false} FromLEBound(s: seq<Byte>)
    ensures FromLE(s) < Pow256(|s|)
  {
    if s != [] { FromLEBound(s[1..]); }
  }

  function Zeros(n: nat): seq<Byte> { seq(n, _ => 0) }

  lemma {:induction false} PaddingAddsNothing(s: seq<Byte>, n: nat)
    ensures FromLE(s + Zeros(n)) == FromLE(s)
  {
    if s == [] {
      assert s + Zeros(n) == Zeros(n);
      if n > 0 {
        assert Zeros(n)[1..] == [] + Zeros(n - 1);
        PaddingAddsNothing([], n - 1);
      }
    } else {
      assert (s + Zeros(n))[1..] == s[1..] + Zeros(n);
      PaddingAddsNothing(s[1..], n);
    }
  }

  // ------------------------------------------------------------------------ what reads yield

  /** `read_exact`: nothing is always there to be read, even past the end. */
  function BytesAt(data: seq<Byte>, pos: nat, n: nat): Read<seq<Byte>> {
    if n == 0 then Ok(([], pos))
    else if pos + n <= |data| then Ok((data[pos..pos + n], pos + n))
    else Err(EndsInside)
  }

  function U32At(data: seq<Byte>, pos: nat): Read<nat> {
    var (raw, next) :- BytesAt(data, pos, 4);
    Ok((FromLE(raw), next))
  }

  function U64At(data: seq<Byte>, pos: nat): Read<nat> {
    var (raw, next) :- BytesAt(data, pos, 8);
    Ok((FromLE(raw), next))
  }

  /** `width`: 1, 2, 4 or 8 for the kinds of scalars; strings and arrays, 8 and 9, have none. */
  function Width(kind: nat): (w: Result<nat, Fault>)
    ensures w.Ok? ==> 1 <= w.value <= 8
  {
    if kind == 0 || kind == 1 || kind == 7 then Ok(1)
    else if kind == 2 || kind == 3 then Ok(2)
    else if 4 <= kind <= 6 then Ok(4)
    else if 10 <= kind <= 12 then Ok(8)
    else Err(NoSuchType(kind))
  }

  /** A two's complement integer of these bytes, when it is not negative. */
  function NonNegative(raw: seq<Byte>): Option<nat>
    requires raw != []
  {
    if 2 * FromLE(raw) < Pow256(|raw|) then Some(FromLE(raw)) else None
  }

  /** `unsigned`: the integer the eight bytes spell, when they spell a non-negative one. */
  function Unsigned(kind: nat, bytes: seq<Byte>): Option<nat>
    requires |bytes| == 8
  {
    if kind == 0 || kind == 2 || kind == 4 || kind == 10 then Some(FromLE(bytes))
    else if kind == 7 then Some(if bytes[0] != 0 then 1 else 0)
    else if kind == 1 then NonNegative(bytes[..1])
    else if kind == 3 then NonNegative(bytes[..2])
    else if kind == 5 then NonNegative(bytes[..4])
    else if kind == 11 then NonNegative(bytes)
    else None
  }

  function ScalarAt(data: seq<Byte>, pos: nat, kind: nat): Read<Option<nat>> {
    var width :- Width(kind);
    var (raw, next) :- BytesAt(data, pos, width);
    if |raw| <= 8 then Ok((Unsigned(kind, raw + Zeros(8 - |raw|)), next)) else Err(EndsInside)
  }

  /** `skip`: a seek, which may go past the end. */
  function Skip(pos: nat, bytes: nat): Result<nat, Fault> {
    if bytes < I64_RANGE then Ok(pos + bytes) else Err(ImpossibleLength)
  }

  /** A string is kept, whatever in it is no text replaced, when no longer than `keep`, and stepped over otherwise. */
  function TextAt(data: seq<Byte>, pos: nat, keep: nat): Read<Option<Text>> {
    var (length, start) :- U64At(data, pos);
    if length > keep then
      var next :- Skip(start, length);
      Ok((None, next))
    else
      var (raw, next) :- BytesAt(data, start, length);
      Ok((Some(Utf8.Lossy(raw)), next))
  }

  // --------------------------------------------------------------------------- the reader

  class Reader {
    const data: seq<Byte>
    var position: nat

    constructor (data: seq<Byte>)
      ensures this.data == data && position == 0
    {
      this.data := data;
      position := 0;
    }

    method ReadExact(n: nat) returns (r: Result<seq<Byte>, Fault>)
      modifies this
      ensures Yields(BytesAt(data, old(position), n), r, position)
    {
      if n == 0 {
        return Ok([]);
      }
      if position + n > |data| {
        return Err(EndsInside);
      }
      r := Ok(data[position..position + n]);
      position := position + n;
    }

    method ReadU32() returns (r: Result<nat, Fault>)
      modifies this
      ensures Yields(U32At(data, old(position)), r, position)
    {
      var raw :- ReadExact(4);
      r := Ok(FromLE(raw));
    }

    method ReadU64() returns (r: Result<nat, Fault>)
      modifies this
      ensures Yields(U64At(data, old(position)), r, position)
    {
      var raw :- ReadExact(8);
      r := Ok(FromLE(raw));
    }

    method ReadScalar(kind: nat) returns (r: Result<Option<nat>, Fault>)
      modifies this
      ensures Yields(ScalarAt(data, old(position), kind), r, position)
    {
      var width :- Width(kind);
      var raw :- ReadExact(width);
      r := Ok(Unsigned(kind, raw + Zeros(8 - |raw|)));
    }

    method StepOver(bytes: nat) returns (r: Result<(), Fault>)
      modifies this
      ensures var to := Skip(old(position), bytes);
              if to.Ok? then r == Ok(()) && position == to.value else r == Err(to.error)
    {
      if bytes >= I64_RANGE {
        return Err(ImpossibleLength);
      }
      position := position + bytes;
      r := Ok(());
    }

    method ReadText(keep: nat) returns (r: Result<Option<Text>, Fault>)
      modifies this
      ensures Yields(TextAt(data, old(position), keep), r, position)
    {
      var length :- ReadU64();
      if length > keep {
        var _ :- StepOver(length);
        return Ok(None);
      }
      var raw :- ReadExact(length);
      r := Ok(Some(Utf8.Lossy(raw)));
    }
  }

  /** A read that came out as the specification says, and left the reader there. */
  ghost predicate Yields<T>(spec: Read<T>, r: Result<T, Fault>, position: nat) {
    if spec.Ok? then r == Ok(spec.value.0) && position == spec.value.1 else r == Err(spec.error)
  }
}
