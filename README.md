# SystParamHeader: the systematic-parameter metadata record and its validation

This project models `larsyst::SystParamHeader` in Dafny. The record describes one
systematic parameter: what it is, how it was varied, and how consumers should
read its responses. The model also covers `larsyst::Validate`, the function that
decides whether a populated record is self-consistent before it goes to any
consumer.

- `types.dfy` (module `Types`) holds the parameter identifier type `ParamId`, the
  reserved "no parameter" identifier `kParamUnhandled`, and an `Option` type.
- `syst_param_header.dfy` (module `SystParam`) holds the rest:
  - the record, as the datatype `SystParamHeader`, and its default ("unset")
    state, as `DefaultHeader`;
  - the twelve consistency rules, as the datatype `Rule` and the predicate
    `Passes`, one rule per `return false` in `Validate`;
  - the order in which validation examines them, as `RuleOrder` and `Rank`;
  - the validation itself, as `FirstViolation` (the early-return chain, naming
    the rule that stopped it) and `Validate` (true when nothing stopped it);
  - a reference definition of "stop at the first broken rule of a list", as
    `FirstFailingIndex`;
  - lemmas for the properties that valid headers have.

The record is a plain value that is built once and then only read, so it is a
datatype, and validation is a set of pure functions. Floating-point fields are
modelled as `real`. Validation only compares the central value with the
`0xdeadb33f` sentinel (`kUnsetValue`), so no floating-point behaviour matters.

The comment that lists the checks (larsyst/interface/SystParamHeader.hh:134-137)
asks of a header that does not differ event by event: "Does it have parameter
variations specified? (should unless marked as a correction)". The code (lines 255-256) checks
something else: the number of header-level responses must equal the number of
variations. The model follows the code (rule `AggregateResponseCountMismatch`).
The same comment also lists some checks in a different order from the code.
`RuleOrder` follows the order in which the code tests them.

The field comment at line 45 says `differsEventByEvent` is "equivalent to
`bool(Responses.size())`". The rules enforce the opposite: on a valid header,
`differsEventByEvent` holds exactly when there are no header-level responses.
`ValidEventByEventIffNoResponses` proves the relation that the code enforces.

## Model

| member | source | states |
|---|---|---|
| `SystParam.DefaultHeader` | larsyst/interface/SystParamHeader.hh:17-24 | The default header has both ids at the "unhandled" sentinel, the central value, shifts and range at the `0xdeadb33f` sentinel, `differsEventByEvent` and `isWeightSystematicVariation` set, every other flag clear, all sequences empty, and it fails validation at the very first rule. |
| `SystParam.Rank` | larsyst/interface/SystParamHeader.hh:140-268 | Every rule has one position in the fixed order in which validation examines the rules. |
| `SystParam.FirstViolation` | larsyst/interface/SystParamHeader.hh:140-266 | The early-return chain reports a rule that the header breaks. It reports none exactly when every rule holds. Every rule that comes before the reported one holds. |
| `SystParam.Validate` | larsyst/interface/SystParamHeader.hh:140-268 | Validation returns true exactly when the header satisfies all twelve rules, each read on its own as an implication. |
| `SystParam.FirstFailingIndex` | larsyst/interface/SystParamHeader.hh:140-266 | Walking an ordered list of rules stops at the first broken rule: every rule before that position holds and the rule at it does not. |
| `SystParam.FirstViolationFollowsOrder` | larsyst/interface/SystParamHeader.hh:140-268 | The rule that validation reports is the first broken rule of `RuleOrder`, and no rule is reported when none is broken. |
| `SystParam.DefaultNeverValidates` | larsyst/interface/SystParamHeader.hh:142-148 | A default-constructed header never validates. |
| `SystParam.ValidHasIdentityAndName` | larsyst/interface/SystParamHeader.hh:142-155 | A valid header has an id other than the sentinel and a non-empty name. |
| `SystParam.ValidCorrectionShape` | larsyst/interface/SystParamHeader.hh:156-176 | A valid correction has a central value other than the sentinel and has no variations and no header-level responses. |
| `SystParam.ValidNonCorrectionHasVariations` | larsyst/interface/SystParamHeader.hh:177-188 | A valid header that is not a correction has at least one variation. |
| `SystParam.SplineableExclusive` | larsyst/interface/SystParamHeader.hh:190-210 | A splineable header that is also randomly thrown or responseless never validates, whatever its other fields hold. |
| `SystParam.ValidResponselessShape` | larsyst/interface/SystParamHeader.hh:211-232 | A valid responseless header has no header-level responses, names a response parameter other than the sentinel, and is a correction or has variations. The comment at lines 93-95 asks for that last point. |
| `SystParam.ValidResponsesShape` | larsyst/interface/SystParamHeader.hh:233-266 | On a valid header: no header-level responses if it differs event by event; otherwise at least one, and exactly one per variation unless it is a correction. |
| `SystParam.ValidEventByEventIffNoResponses` | larsyst/interface/SystParamHeader.hh:42-46 | On a valid header, differing event by event holds exactly when there are no header-level responses. |
| `SystParam.AggregateCorrectionNeverValidates` | larsyst/interface/SystParamHeader.hh:156-254 | A correction that does not differ event by event never validates: the correction rule forbids responses and the aggregate rule requires them. |
| `SystParam.AggregateCorrectionDiagnosis` | larsyst/interface/SystParamHeader.hh:156-254 | For such a correction that has an id and a name, the correction rules come first. With responses present it is reported as a correction defect. With no responses it is reported for missing responses exactly when every earlier rule holds. |
| `SystParam.ValidateIgnoresUnreadFields` | larsyst/interface/SystParamHeader.hh:140-268 | Changing the one-sigma shifts, the validity range, `unitsAreNatural`, `isWeightSystematicVariation` or the options never changes the validation outcome or the reported rule. |
| `SystParam.CorrectionRejectsVariation` | larsyst/interface/SystParamHeader.hh:167-176 | Appending a variation to any correction makes it invalid. |
| `SystParam.EveryKindCanValidate` | larsyst/interface/SystParamHeader.hh:140-268 | The rules can all be satisfied at once: a correction, an event-by-event multisim parameter, a splineable parameter with header-level responses, and a responseless parameter each have valid headers. |

## Left out

- The `quiet` parameter of `Validate` and every diagnostic message written to `std::cout`. These are output only and do not affect the result. The `Rule` that `FirstViolation` reports identifies which message would be printed. The message text is not modelled, including the message at lines 258-262, which repeats the event-by-event message instead of describing the length mismatch.
- `NEW_LARSYST_EXCEPT(invalid_SystParamHeader)` (line 116). It only declares an exception type, through a macro from `larsyst/utility/exceptions.hh`, and that file is not part of this model. `Validate` never throws.
- `paramId_t` and `kParamUnhandled` come from `larsyst/interface/types.hh`, which is not part of this model. `ParamId` is an unbounded integer. `kParamUnhandled` is given the value 2147483647, and no lemma about headers depends on that choice.
- IEEE-754 semantics of `centralParamValue`, `oneSigmaShifts` and `paramValidityRange` (NaN, rounding). Only equality of the central value with `0xdeadb33f`, a value a double represents exactly, affects validation.
