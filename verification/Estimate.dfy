/**
 The figure an entry is charged before it has been measured (src/catalog/estimate.rs):
 the documented terms, rounded up, never below what they are made of.
 */
module Estimate {
  import opened Wrappers
  import opened Totals
  import opened Gguf
  import opened Cache

  const MIB: nat := 1024 * 1024
  const OVERHEAD_BYTES: nat := 1024 * MIB
  const U32_MAX: nat := 0xFFFF_FFFF

  datatype Basis = Metadata | Size

  /** A draft model: its size if the file is there, and its metadata if that can be read. */
  datatype Draft = Draft(size: Option<nat>, facts: Option<Facts>)

  /**
   What the figure is worked out from.  The three booleans are what the flags
   say: a draft that predicts from the model's cache, a model that keeps none,
   and one held on the processor.
   */
  datatype Entry = Entry(
    context: nat, flags: map<string, string>, model: Option<Facts>, draft: Option<Draft>, projector: Option<nat>,
    predictsTokens: bool, keepsNoCache: bool, onProcessor: bool)

  function ModelRate(e: Entry): Rate {
    Rate(e.context, Sixteenths(e.flags, "ctk", "cache-type-k"), Sixteenths(e.flags, "ctv", "cache-type-v"))
  }

  function DraftRate(e: Entry): Rate {
    Rate(e.context, Sixteenths(e.flags, "ctkd", "cache-type-k-draft"),
         Sixteenths(e.flags, "ctvd", "cache-type-v-draft"))
  }

  function CostOf(facts: Option<Facts>, rate: Rate): Option<nat> {
    if facts.Some? then Cost(facts.value, rate) else None
  }

  /** The model, and a draft and a projector that are there. */
  function Weights(e: Entry, modelWeights: nat): nat {
    modelWeights
    + (if e.draft.Some? then OrElse(e.draft.value.size, 0) else 0)
    + OrElse(e.projector, 0)
  }

  /** A draft's own cache, unless it predicts from the model's. */
  function DraftCache(e: Entry): nat {
    if e.draft.Some? && !e.predictsTokens then OrElse(CostOf(e.draft.value.facts, DraftRate(e)), 0) else 0
  }

  /** The documented terms: five percent on top of the weights, or a quarter where nothing is known. */
  function Terms(e: Entry, modelWeights: nat): nat {
    var weights := if e.onProcessor then 0 else Weights(e, modelWeights);
    match CostOf(e.model, ModelRate(e))
    case Some(cache) =>
      OVERHEAD_BYTES + weights * 105 / 100
      + if e.onProcessor then 0 else DraftCache(e) + if e.keepsNoCache then 0 else cache
    case None => OVERHEAD_BYTES + weights * 5 / 4
  }

  /** The least whole number of mebibytes that holds the bytes, or the largest the type has. */
  ghost predicate RoundsUp(mib: nat, bytes: nat) {
    && mib <= U32_MAX
    && (mib < U32_MAX ==> bytes <= mib * MIB)
    && (mib > 0 ==> (mib - 1) * MIB < bytes)
  }

  /** Whole mebibytes, rounded up, as far as 32 bits go. */
  function Mebibytes(bytes: nat): (mib: nat)
    ensures RoundsUp(mib, bytes)
  {
    var up := (bytes + MIB - 1) / MIB;
    assert bytes <= up * MIB < bytes + MIB;
    if up <= U32_MAX then up else
      assert (U32_MAX - 1) * MIB < up * MIB - MIB;
      U32_MAX
  }

  /**
   `derive`, its totals added up as they are found, given what `weights_of` came
   to.  The figure is the documented terms, rounded up; an entry held on the
   processor is charged the overhead alone.
   */
  method Derive(e: Entry, modelWeights: Option<nat>) returns (r: Option<(nat, Basis)>)
    ensures r.Some? <==> modelWeights.Some?
    ensures r.Some? ==>
              && (r.value.1 == Metadata <==> CostOf(e.model, ModelRate(e)).Some?)
              && RoundsUp(r.value.0, Terms(e, modelWeights.value))
              && (e.onProcessor ==> r.value.0 == 1024)
  {
    hide CostOf, ModelRate, DraftRate, Mebibytes, RoundsUp, Terms;
    TheOverheadAlone();
    if modelWeights.None? {
      return None;
    }
    var weights, cache := modelWeights.value, 0;
    if e.draft.Some? {
      weights := weights + OrElse(e.draft.value.size, 0);
      if !e.predictsTokens {
        cache := cache + OrElse(CostOf(e.draft.value.facts, DraftRate(e)), 0);
      }
    }
    if e.projector.Some? {
      weights := weights + e.projector.value;
    }
    cache := if e.onProcessor then 0 else cache;
    weights := if e.onProcessor then 0 else weights;
    TotalsAreTerms(e, modelWeights.value);
    var modelCache := CostOf(e.model, ModelRate(e));
    if modelCache.Some? {
      var kept := if e.keepsNoCache || e.onProcessor then 0 else modelCache.value;
      r := Some((Mebibytes(weights + kept + cache + weights * 5 / 100 + OVERHEAD_BYTES), Metadata));
    } else {
      r := Some((Mebibytes(weights + weights / 4 + OVERHEAD_BYTES), Size));
    }
  }

  /** What the totals add, the documented terms multiply. */
  lemma {:induction false} TotalsAreTerms(e: Entry, modelWeights: nat)
    ensures var weights := if e.onProcessor then 0 else Weights(e, modelWeights);
            var cache := if e.onProcessor then 0 else DraftCache(e);
            Terms(e, modelWeights) == match CostOf(e.model, ModelRate(e))
                                      case Some(c) =>
                                        weights + (if e.keepsNoCache || e.onProcessor then 0 else c) + cache
                                        + weights * 5 / 100 + OVERHEAD_BYTES
                                      case None => weights + weights / 4 + OVERHEAD_BYTES
  {
    hide CostOf, ModelRate, DraftCache, Weights;
  }

  lemma {:induction false} TheOverheadAlone()
    ensures Mebibytes(OVERHEAD_BYTES) == 1024
  {}

  // -------------------------------------------------------------------- what each thing adds

  /** The sizes of the files an entry names, its model's weights first. */
  ghost function Files(e: Entry, modelWeights: nat): seq<nat> {
    [modelWeights]
    + (match e.draft
       case Some(draft) => if draft.size.Some? then [draft.size.value] else []
       case None => [])
    + match e.projector
      case Some(size) => [size]
      case None => []
  }

  /** These flags ask for elements of this size, under one spelling or the other. */
  ghost predicate AskFor(flags: map<string, string>, short: string, long: string, sixteenths: nat) {
    if short in flags then Spells(flags[short], sixteenths)
    else if long in flags then Spells(flags[long], sixteenths)
    else sixteenths == 32
  }

  /**
   The terms, each from where the documentation has it: 1024 MiB, every file's
   size and five percent of it all, the model's cache at the sizes its flags ask
   for, and the draft's at the sizes the draft's own do; a quarter of the files
   where the model's metadata gives no cache.
   */
  lemma {:induction false} TheTermsAre(
    e: Entry, modelWeights: nat, keys: nat, values: nat, draftKeys: nat, draftValues: nat)
    requires !e.onProcessor
    requires AskFor(e.flags, "ctk", "cache-type-k", keys) && AskFor(e.flags, "ctv", "cache-type-v", values)
    requires AskFor(e.flags, "ctkd", "cache-type-k-draft", draftKeys)
    requires AskFor(e.flags, "ctvd", "cache-type-v-draft", draftValues)
    ensures var files := Total(Files(e, modelWeights));
            var model := if e.model.Some? then Cost(e.model.value, Rate(e.context, keys, values)) else None;
            var draft := if e.draft.Some? && e.draft.value.facts.Some? && !e.predictsTokens
                         then Cost(e.draft.value.facts.value, Rate(e.context, draftKeys, draftValues)) else None;
            Terms(e, modelWeights) ==
              1024 * 1024 * 1024 +
              match model
              case None => files * 5 / 4
              case Some(cache) =>
                files * 105 / 100 + (if e.keepsNoCache then 0 else cache) + OrElse(draft, 0)
  {
    hide Cost;
    SizesAreOne(e.flags, "ctk", "cache-type-k", keys);
    SizesAreOne(e.flags, "ctv", "cache-type-v", values);
    SizesAreOne(e.flags, "ctkd", "cache-type-k-draft", draftKeys);
    SizesAreOne(e.flags, "ctvd", "cache-type-v-draft", draftValues);
    WeightsAreFiles(e, modelWeights);
  }

  lemma {:induction false} SizesAreOne(flags: map<string, string>, short: string, long: string, sixteenths: nat)
    requires AskFor(flags, short, long, sixteenths)
    ensures Sixteenths(flags, short, long) == sixteenths
  {}

  lemma {:induction false} WeightsAreFiles(e: Entry, modelWeights: nat)
    ensures Weights(e, modelWeights) == Total(Files(e, modelWeights))
  {
    var draft := if e.draft.Some? && e.draft.value.size.Some? then [modelWeights] + [e.draft.value.size.value]
                 else [modelWeights];
    assert [modelWeights] == [] + [modelWeights];
    TotalOneMore([], modelWeights);
    if e.draft.Some? && e.draft.value.size.Some? { TotalOneMore([modelWeights], e.draft.value.size.value); }
    if e.projector.Some? {
      TotalOneMore(draft, e.projector.value);
      assert Files(e, modelWeights) == draft + [e.projector.value];
    } else {
      assert Files(e, modelWeights) == draft;
    }
  }

  /** On the processor the terms are the overhead alone. */
  lemma {:induction false} OnTheProcessor(e: Entry, modelWeights: nat)
    requires e.onProcessor
    ensures Terms(e, modelWeights) == 1024 * 1024 * 1024
  {
    hide CostOf;
  }

  /** There is only one figure that rounds the bytes up, and more bytes have no smaller one. */
  lemma {:induction false} RoundingKeepsOrder(less: nat, a: nat, more: nat, b: nat)
    requires RoundsUp(less, a) && RoundsUp(more, b) && a <= b
    ensures less <= more && (a == b ==> less == more)
  {
    if less > more { Spaced(more, less - 1); }
    if more > less && a == b { Spaced(less, more - 1); }
  }

  lemma {:induction false} Spaced(x: nat, y: nat)
    requires x <= y
    ensures x * MIB <= y * MIB
  {}

  /** No estimate that fits its type is below the overhead and, off the processor, the weights and caches it counts. */
  lemma {:induction false} NothingIsUndercounted(e: Entry, modelWeights: nat, mib: nat)
    requires RoundsUp(mib, Terms(e, modelWeights)) && mib < U32_MAX && !e.onProcessor
    ensures OVERHEAD_BYTES + Weights(e, modelWeights) <= mib * MIB
    ensures !e.keepsNoCache && CostOf(e.model, ModelRate(e)).Some? ==>
              OVERHEAD_BYTES + Weights(e, modelWeights) + DraftCache(e) + CostOf(e.model, ModelRate(e)).value
              <= mib * MIB
  {
    hide CostOf, Weights, DraftCache;
  }

  /** A larger context never lowers the estimate, nor changes what it rests on. */
  lemma {:induction false} MoreContextNeverCostsLess(e: Entry, modelWeights: nat, context: nat, less: nat, more: nat)
    requires e.context <= context
    requires RoundsUp(less, Terms(e, modelWeights)) && RoundsUp(more, Terms(e.(context := context), modelWeights))
    ensures less <= more
    ensures CostOf(e.model, ModelRate(e)).Some? <==> CostOf(e.model, ModelRate(e.(context := context))).Some?
  {
    hide Cost;
    var e' := e.(context := context);
    if e.model.Some? { MoreNeverCostsLess(e.model.value, ModelRate(e), ModelRate(e')); }
    if e.draft.Some? && e.draft.value.facts.Some? {
      MoreNeverCostsLess(e.draft.value.facts.value, DraftRate(e), DraftRate(e'));
    }
    assert DraftCache(e) <= DraftCache(e');
    RoundingKeepsOrder(less, Terms(e, modelWeights), more, Terms(e', modelWeights));
  }
}
