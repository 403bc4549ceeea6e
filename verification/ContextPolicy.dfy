/** How much text the smallest configured model window leaves for a request. */
module ContextPolicy {
  import opened Wrappers

  const FRAMING_RESERVE := 1024
  const DEFAULT_MAX_BYTES := 512 * 1024

  /** Limits that passed their schema: the output reserve is smaller than the window. */
  datatype LimitFields = Limit(window: nat, outputReserve: nat, imageTokens: nat)
  type Limit = l: LimitFields | l.window >= 4096 && 1 <= l.outputReserve < l.window && l.imageTokens >= 1
    witness Limit(4096, 1, 1)

  type Limits = map<string, Limit>

  function TextAllowance(limit: Limit, imageCount: nat): nat
  {
    var left := limit.window - limit.outputReserve - imageCount * limit.imageTokens - FRAMING_RESERVE;
    if left < 0 then 0 else left
  }

  /** The request text, its images, the framing and the output reserve fit the model's window. */
  predicate FitsWindow(limit: Limit, imageCount: nat, textBytes: nat)
  {
    textBytes + imageCount * limit.imageTokens + FRAMING_RESERVE + limit.outputReserve <= limit.window
  }

  /** The smallest allowance of the configured models among the candidates, if there is one. */
  function WindowBudget(modelIds: seq<string>, limits: Limits, imageCount: nat): (r: Option<nat>)
    ensures r.None? <==> forall id :: id in modelIds ==> id !in limits
    ensures r.Some? ==> forall id :: id in modelIds && id in limits ==> r.value <= TextAllowance(limits[id], imageCount)
    ensures r.Some? ==> exists id :: id in modelIds && id in limits && r.value == TextAllowance(limits[id], imageCount)
  {
    if modelIds == [] then None
    else
      var last := modelIds[|modelIds| - 1];
      assert forall id :: id in modelIds <==> id in modelIds[..|modelIds| - 1] || id == last;
      var rest := WindowBudget(modelIds[..|modelIds| - 1], limits, imageCount);
      if last !in limits then rest
      else
        var allowance := TextAllowance(limits[last], imageCount);
        if rest.Some? && rest.value <= allowance then rest else Some(allowance)
  }

  function MaxBytes(configured: nat, modelIds: seq<string>, limits: Limits, imageCount: nat): nat
  {
    var window := WindowBudget(modelIds, limits, imageCount);
    if window.Some? && window.value < configured then window.value else configured
  }

  /** A non-empty text is within the bound exactly when it respects the configured bytes and
      every configured window. */
  lemma WithinMaxBytesExactlyWhen(configured: nat, modelIds: seq<string>, limits: Limits, imageCount: nat, bytes: nat)
    requires bytes > 0
    ensures bytes <= MaxBytes(configured, modelIds, limits, imageCount)
       <==> bytes <= configured
            && forall id :: id in modelIds && id in limits ==> FitsWindow(limits[id], imageCount, bytes)
  {
  }
}
