/**
 * The decoded form of one log line (LogEventTO) and its bean-validation
 * constraints: `id`, `state` and `timestamp` are @NotNull, `type` and `host`
 * carry no constraint.
 */
module Event {
  import opened Wrappers

  /** One decoded log line. Every field may be null after JSON decoding. */
  datatype LogEventTO = LogEventTO(
    id: Option<string>,
    state: Option<string>,
    timestamp: Option<int>,
    eventType: Option<string>,
    host: Option<string>)

  /** One violated @NotNull constraint. */
  datatype Violation = IdIsNull | StateIsNull | TimestampIsNull

  /** The set of constraint violations the validator reports for `to`. */
  function Violations(to: LogEventTO): (vs: set<Violation>)
    ensures IdIsNull in vs <==> to.id.None?
    ensures StateIsNull in vs <==> to.state.None?
    ensures TimestampIsNull in vs <==> to.timestamp.None?
  {
    (if to.id.None? then {IdIsNull} else {})
    + (if to.state.None? then {StateIsNull} else {})
    + (if to.timestamp.None? then {TimestampIsNull} else {})
  }

  /** A record passes validation when no constraint is violated. */
  predicate IsValid(to: LogEventTO)
  {
    Violations(to) == {}
  }

  /** Validity is exactly "the three required fields are present". */
  lemma ValidIffRequiredPresent(to: LogEventTO)
    ensures IsValid(to) <==> to.id.Some? && to.state.Some? && to.timestamp.Some?
  {
  }

  /** `type` and `host` are unconstrained: changing them never changes validity. */
  lemma OptionalFieldsUnconstrained(to: LogEventTO, eventType: Option<string>, host: Option<string>)
    ensures IsValid(to.(eventType := eventType, host := host)) == IsValid(to)
    ensures to.id.Some? && to.state.Some? && to.timestamp.Some? ==> IsValid(to.(eventType := None, host := None))
  {
    ValidIffRequiredPresent(to);
    ValidIffRequiredPresent(to.(eventType := eventType, host := host));
    ValidIffRequiredPresent(to.(eventType := None, host := None));
  }

  /** Only the presence of `state` is checked, never its value. */
  lemma StateValueUnchecked(to: LogEventTO, state: string)
    ensures IsValid(to.(state := Some(state))) <==> to.id.Some? && to.timestamp.Some?
  {
    ValidIffRequiredPresent(to.(state := Some(state)));
  }
}
