/** The metadata record that describes one systematic parameter, and the
    validation that decides whether a populated record is self-consistent. */
module SystParam {
  import opened Types

  /** One systematic parameter. Floating-point fields are modelled as reals:
      the only thing validation does with them is compare the central value
      against the "unset" sentinel. */
  datatype SystParamHeader = SystParamHeader(
    prettyName: string,
    systParamId: ParamId,
    isWeightSystematicVariation: bool,
    unitsAreNatural: bool,
    differsEventByEvent: bool,
    centralParamValue: real,
    isCorrection: bool,
    oneSigmaShifts: (real, real),
    paramValidityRange: (real, real),
    isSplineable: bool,
    isRandomlyThrown: bool,
    paramVariations: seq<real>,
    isResponselessParam: bool,
    responseParamId: ParamId,
    responses: seq<real>,
    opts: seq<string>)

  /** The magic value `0xdeadb33f` that marks a real-valued field as unset
      (and a validity-range end as unbounded). */
  const kUnsetValue: real := 0xdeadb33f as real

  /** The "unset" state a header is constructed in. */
  function DefaultHeader(): (h: SystParamHeader)
    ensures h.systParamId == kParamUnhandled && h.responseParamId == kParamUnhandled
    ensures h.centralParamValue == kUnsetValue
    ensures h.oneSigmaShifts == (kUnsetValue, kUnsetValue)
    ensures h.paramValidityRange == (kUnsetValue, kUnsetValue)
    ensures h.differsEventByEvent && h.isWeightSystematicVariation
    ensures !h.unitsAreNatural && !h.isCorrection && !h.isSplineable
    ensures !h.isRandomlyThrown && !h.isResponselessParam
    ensures h.prettyName == [] && h.paramVariations == [] && h.responses == [] && h.opts == []
    ensures FirstViolation(h) == Some(DefaultSystParamId)
  {
    SystParamHeader(
      prettyName := "",
      systParamId := kParamUnhandled,
      isWeightSystematicVariation := true,
      unitsAreNatural := false,
      differsEventByEvent := true,
      centralParamValue := kUnsetValue,
      isCorrection := false,
      oneSigmaShifts := (kUnsetValue, kUnsetValue),
      paramValidityRange := (kUnsetValue, kUnsetValue),
      isSplineable := false,
      isRandomlyThrown := false,
      paramVariations := [],
      isResponselessParam := false,
      responseParamId := kParamUnhandled,
      responses := [],
      opts := [])
  }

  /** The consistency rules validation enforces, one per way it can fail,
      named after the defect each one reports. */
  datatype Rule =
    | DefaultSystParamId
    | MissingPrettyName
    | CorrectionCentralValueDefaulted
    | CorrectionHasVariationsOrResponses
    | NonCorrectionWithoutVariations
    | SplineableRandomlyThrown
    | SplineableResponseless
    | ResponselessWithResponses
    | ResponselessWithoutResponseParam
    | EventByEventWithResponses
    | AggregateWithoutResponses
    | AggregateResponseCountMismatch

  /** Whether header `h` passes the check for defect `r`, taken on its own. */
  predicate Passes(r: Rule, h: SystParamHeader)
  {
    match r
    case DefaultSystParamId => h.systParamId != kParamUnhandled
    case MissingPrettyName => |h.prettyName| != 0
    case CorrectionCentralValueDefaulted =>
      h.isCorrection ==> h.centralParamValue != kUnsetValue
    case CorrectionHasVariationsOrResponses =>
      h.isCorrection ==> |h.paramVariations| == 0 && |h.responses| == 0
    case NonCorrectionWithoutVariations =>
      !h.isCorrection ==> |h.paramVariations| != 0
    case SplineableRandomlyThrown => h.isSplineable ==> !h.isRandomlyThrown
    case SplineableResponseless => h.isSplineable ==> !h.isResponselessParam
    case ResponselessWithResponses => h.isResponselessParam ==> |h.responses| == 0
    case ResponselessWithoutResponseParam =>
      h.isResponselessParam ==> h.responseParamId != kParamUnhandled
    case EventByEventWithResponses => h.differsEventByEvent ==> |h.responses| == 0
    case AggregateWithoutResponses => !h.differsEventByEvent ==> |h.responses| != 0
    case AggregateResponseCountMismatch =>
      !h.differsEventByEvent && !h.isCorrection ==> |h.responses| == |h.paramVariations|
  }

  /** The order in which validation examines the rules. */
  const RuleOrder: seq<Rule> := [
    DefaultSystParamId,
    MissingPrettyName,
    CorrectionCentralValueDefaulted,
    CorrectionHasVariationsOrResponses,
    NonCorrectionWithoutVariations,
    SplineableRandomlyThrown,
    SplineableResponseless,
    ResponselessWithResponses,
    ResponselessWithoutResponseParam,
    EventByEventWithResponses,
    AggregateWithoutResponses,
    AggregateResponseCountMismatch
  ]

  /** The position of rule `r` in the validation order. */
  function Rank(r: Rule): (n: nat)
    ensures n < |RuleOrder| && RuleOrder[n] == r
  {
    match r
    case DefaultSystParamId => 0
    case MissingPrettyName => 1
    case CorrectionCentralValueDefaulted => 2
    case CorrectionHasVariationsOrResponses => 3
    case NonCorrectionWithoutVariations => 4
    case SplineableRandomlyThrown => 5
    case SplineableResponseless => 6
    case ResponselessWithResponses => 7
    case ResponselessWithoutResponseParam => 8
    case EventByEventWithResponses => 9
    case AggregateWithoutResponses => 10
    case AggregateResponseCountMismatch => 11
  }

  /** The rule validation stops at, if any: the chain of early-returning
      tests of `Validate`, with the rule each `return false` reports. */
  function FirstViolation(h: SystParamHeader): (v: Option<Rule>)
    ensures v.Some? ==> !Passes(v.value, h)
    ensures v.None? <==> forall r :: Passes(r, h)
    ensures v.Some? ==> forall r :: Rank(r) < Rank(v.value) ==> Passes(r, h)
  {
    if h.systParamId == kParamUnhandled then Some(DefaultSystParamId)
    else if |h.prettyName| == 0 then Some(MissingPrettyName)
    else if h.isCorrection && h.centralParamValue == kUnsetValue then
      Some(CorrectionCentralValueDefaulted)
    else if h.isCorrection && (|h.paramVariations| != 0 || |h.responses| != 0) then
      Some(CorrectionHasVariationsOrResponses)
    else if !h.isCorrection && |h.paramVariations| == 0 then
      Some(NonCorrectionWithoutVariations)
    else if h.isSplineable && h.isRandomlyThrown then Some(SplineableRandomlyThrown)
    else if h.isSplineable && h.isResponselessParam then Some(SplineableResponseless)
    else if h.isResponselessParam && |h.responses| != 0 then Some(ResponselessWithResponses)
    else if h.isResponselessParam && h.responseParamId == kParamUnhandled then
      Some(ResponselessWithoutResponseParam)
    else if h.differsEventByEvent && |h.responses| != 0 then Some(EventByEventWithResponses)
    else if !h.differsEventByEvent && |h.responses| == 0 then Some(AggregateWithoutResponses)
    else if !h.differsEventByEvent && !h.isCorrection
            && |h.responses| != |h.paramVariations| then
      Some(AggregateResponseCountMismatch)
    else None
  }

  /** Checks the interface validity of a header: true exactly when it
      satisfies every rule. */
  function Validate(h: SystParamHeader): (ok: bool)
    ensures ok <==> forall r :: Passes(r, h)
  {
    FirstViolation(h).None?
  }

  /** Reference definition of short-circuit evaluation: the position of the
      first rule of `rules` that `h` breaks, or `|rules|` when it breaks none. */
  function FirstFailingIndex(h: SystParamHeader, rules: seq<Rule>): (k: nat)
    ensures k <= |rules|
    ensures forall j :: 0 <= j < k ==> Passes(rules[j], h)
    ensures k < |rules| ==> !Passes(rules[k], h)
  {
    if rules == [] then 0
    else if !Passes(rules[0], h) then 0
    else 1 + FirstFailingIndex(h, rules[1..])
  }

  /** The rule the validation chain reports is the first rule in
      `RuleOrder` that the header breaks. */
  lemma FirstViolationFollowsOrder(h: SystParamHeader)
    ensures var k := FirstFailingIndex(h, RuleOrder);
            FirstViolation(h) == if k < |RuleOrder| then Some(RuleOrder[k]) else None
  {
    // Dafny can often close this unaided; the steps below keep the proof
    // stable when the solver's search changes.
    var k := FirstFailingIndex(h, RuleOrder);
    var v := FirstViolation(h);
    if k < |RuleOrder| {
      RankInvertsOrder(k);
      assert !Passes(RuleOrder[k], h);
      var i := Rank(v.value);
      assert RuleOrder[i] == v.value;
      assert i == k;
    } else {
      forall r ensures Passes(r, h) {
        assert RuleOrder[Rank(r)] == r;
      }
    }
  }

  /** Every position of `RuleOrder` holds a different rule. */
  lemma RankInvertsOrder(i: nat)
    requires i < |RuleOrder|
    ensures Rank(RuleOrder[i]) == i
  {
  }

  // ---------------------------------------------------------------------
  // Properties of valid headers
  // ---------------------------------------------------------------------

  /** A default-constructed header never validates: its identifier is
      the "unhandled" sentinel. */
  lemma DefaultNeverValidates()
    ensures !Validate(DefaultHeader())
  {
  }

  /** A valid header has an identifier and a name. */
  lemma ValidHasIdentityAndName(h: SystParamHeader)
    requires Validate(h)
    ensures h.systParamId != kParamUnhandled
    ensures |h.prettyName| > 0
  {
  }

  /** A valid correction has a central value and neither variations nor
      header-level responses. */
  lemma ValidCorrectionShape(h: SystParamHeader)
    requires Validate(h) && h.isCorrection
    ensures h.centralParamValue != kUnsetValue
    ensures h.paramVariations == [] && h.responses == []
  {
  }

  /** A valid header that is not a correction has at least one variation. */
  lemma ValidNonCorrectionHasVariations(h: SystParamHeader)
    requires Validate(h) && !h.isCorrection
    ensures |h.paramVariations| > 0
  {
  }

  /** A splineable header that is also randomly thrown or responseless never
      validates, whatever its other fields hold. */
  lemma SplineableExclusive(h: SystParamHeader)
    requires h.isSplineable && (h.isRandomlyThrown || h.isResponselessParam)
    ensures !Validate(h)
  {
  }

  /** A valid responseless header has no header-level responses, names the
      parameter that carries its response, and is a correction or has
      variations. */
  lemma ValidResponselessShape(h: SystParamHeader)
    requires Validate(h) && h.isResponselessParam
    ensures h.responses == []
    ensures h.responseParamId != kParamUnhandled
    ensures h.isCorrection || |h.paramVariations| > 0
  {
  }

  /** Header-level responses of a valid header: none when it differs event
      by event; otherwise some, one per variation unless it is a correction. */
  lemma ValidResponsesShape(h: SystParamHeader)
    requires Validate(h)
    ensures h.differsEventByEvent ==> h.responses == []
    ensures !h.differsEventByEvent ==> |h.responses| > 0
    ensures !h.differsEventByEvent && !h.isCorrection ==>
              |h.responses| == |h.paramVariations|
  {
  }

  /** On a valid header, differing event by event is the same as having no
      header-level responses. */
  lemma ValidEventByEventIffNoResponses(h: SystParamHeader)
    requires Validate(h)
    ensures h.differsEventByEvent <==> h.responses == []
  {
  }

  /** The correction rule forbids header-level responses and the aggregate
      rule demands them, so a correction that does not differ event by
      event can never validate. */
  lemma AggregateCorrectionNeverValidates(h: SystParamHeader)
    requires h.isCorrection && !h.differsEventByEvent
    ensures !Validate(h)
  {
  }

  /** For such a correction the correction rules take precedence: with
      header-level responses it is reported as a correction, and it is
      reported for missing responses only when every earlier rule passes. */
  lemma AggregateCorrectionDiagnosis(h: SystParamHeader)
    requires h.isCorrection && !h.differsEventByEvent
    requires h.systParamId != kParamUnhandled && |h.prettyName| > 0
    ensures h.responses != [] ==>
              FirstViolation(h) in {Some(CorrectionCentralValueDefaulted),
                                    Some(CorrectionHasVariationsOrResponses)}
    ensures h.responses == [] ==>
              (FirstViolation(h) == Some(AggregateWithoutResponses) <==>
                 forall r :: Rank(r) < Rank(AggregateWithoutResponses) ==> Passes(r, h))
  {
  }

  /** Validation reads neither the one-sigma shifts, the validity range,
      the units flag, the weight flag nor the options. */
  lemma ValidateIgnoresUnreadFields(h: SystParamHeader, g: SystParamHeader)
    requires g == h.(oneSigmaShifts := g.oneSigmaShifts,
                     paramValidityRange := g.paramValidityRange,
                     unitsAreNatural := g.unitsAreNatural,
                     isWeightSystematicVariation := g.isWeightSystematicVariation,
                     opts := g.opts)
    ensures FirstViolation(g) == FirstViolation(h)
  {
  }

  /** Adding a variation to a correction makes it invalid. */
  lemma CorrectionRejectsVariation(h: SystParamHeader, x: real)
    requires h.isCorrection
    ensures !Validate(h.(paramVariations := h.paramVariations + [x]))
  {
  }

  /** Each kind of parameter has valid headers: a correction, an
      event-by-event multisim parameter, a splineable aggregate parameter
      and a responseless parameter. */
  lemma EveryKindCanValidate()
    ensures var d := DefaultHeader().(systParamId := kParamUnhandled - 1, prettyName := "p");
            && Validate(d.(isCorrection := true, centralParamValue := 1.0))
            && Validate(d.(paramVariations := [-1.0, 1.0], isRandomlyThrown := true))
            && Validate(d.(isSplineable := true, differsEventByEvent := false,
                           paramVariations := [-1.0, 0.0, 1.0], responses := [0.9, 1.0, 1.1]))
            && Validate(d.(paramVariations := [1.0], isResponselessParam := true,
                           responseParamId := kParamUnhandled - 2))
  {
  }
}
