/**
 * Properties of the correlation engine: what one record does to the pending
 * groups and the saved events, how a pair's event depends on arrival order,
 * and what a whole run preserves.
 */
module ServiceProperties {
  import opened Wrappers
  import opened Event
  import opened Domain
  import opened Service

  /** `m'` and `m` agree on every key other than `id`. */
  predicate OthersUnchanged(m: map<string, seq<LogEventTO>>, m': map<string, seq<LogEventTO>>, id: string)
  {
    (forall k | k in m && k != id :: k in m' && m'[k] == m[k])
    && (forall k | k in m' && k != id :: k in m)
  }

  // ---------------------------------------------------------------------
  // One record
  // ---------------------------------------------------------------------

  /** First sighting of an id: exactly that key is added, bound to the record alone; nothing is saved. */
  lemma ObserveFirstSighting(s: State, r: LogEventTO, durationMs: int)
    requires WellFormed(s.logEventMap)
    requires ValidateLogEvent(Some(r)) && r.id.value !in s.logEventMap
    ensures var s' := Observe(s, Some(r), durationMs);
            && s'.logEventMap.Keys == s.logEventMap.Keys + {r.id.value}
            && s'.logEventMap[r.id.value] == [r]
            && OthersUnchanged(s.logEventMap, s'.logEventMap, r.id.value)
            && s'.saved == s.saved
            && |s'.logEventMap| == |s.logEventMap| + 1
  {
    var s' := Observe(s, Some(r), durationMs);
    assert s'.logEventMap.Keys == s.logEventMap.Keys + {r.id.value};
  }

  /**
   * Second sighting of an id: the key is removed, the event built from the
   * pending record and this one is saved, and no other group changes.
   */
  lemma ObserveSecondSighting(s: State, r: LogEventTO, durationMs: int)
    requires WellFormed(s.logEventMap)
    requires ValidateLogEvent(Some(r)) && r.id.value in s.logEventMap
    requires |s.logEventMap[r.id.value]| == 1
    ensures var s' := Observe(s, Some(r), durationMs);
            && s'.logEventMap.Keys == s.logEventMap.Keys - {r.id.value}
            && OthersUnchanged(s.logEventMap, s'.logEventMap, r.id.value)
            && s'.saved == s.saved + [CreateLogEvent([s.logEventMap[r.id.value][0], r], durationMs)]
            && |s'.logEventMap| == |s.logEventMap| - 1
  {
    var s' := Observe(s, Some(r), durationMs);
    var group := s.logEventMap[r.id.value];
    assert group + [r] == [group[0], r];
    assert s'.logEventMap.Keys == s.logEventMap.Keys - {r.id.value};
  }

  /**
   * An event is saved only when a valid record meets a pending partner; the
   * saved event carries the key both records share, and the key is gone.
   */
  lemma ObserveSavesOnlyCompletedPairs(s: State, logEventTO: Option<LogEventTO>, durationMs: int)
    requires WellFormed(s.logEventMap)
    requires |Observe(s, logEventTO, durationMs).saved| > |s.saved|
    ensures ValidateLogEvent(logEventTO)
    ensures logEventTO.value.id.value in s.logEventMap
    ensures logEventTO.value.id.value !in Observe(s, logEventTO, durationMs).logEventMap
    ensures Observe(s, logEventTO, durationMs).saved[|s.saved|].eventId == logEventTO.value.id.value
  {
    var id := logEventTO.value.id.value;
    assert s.logEventMap[id][0].id == Some(id);
  }

  /**
   * Between calls (every group a singleton) a valid record either opens a
   * group or closes one and saves one event; a dropped record does neither.
   */
  lemma ObserveAccounting(s: State, logEventTO: Option<LogEventTO>, durationMs: int)
    requires WellFormed(s.logEventMap) && Singletons(s.logEventMap)
    ensures var s' := Observe(s, logEventTO, durationMs);
            |s'.logEventMap| + 2 * |s'.saved|
            == |s.logEventMap| + 2 * |s.saved| + (if ValidateLogEvent(logEventTO) then 1 else 0)
  {
    if ValidateLogEvent(logEventTO) {
      var r := logEventTO.value;
      if r.id.value in s.logEventMap {
        ObserveSecondSighting(s, r, durationMs);
      } else {
        ObserveFirstSighting(s, r, durationMs);
      }
    }
  }

  /**
   * A third record for an id whose pair has completed finds no group: it opens
   * a fresh one on its own and nothing more is saved.
   */
  lemma ThirdSightingStartsFresh(s: State, a: LogEventTO, b: LogEventTO, c: LogEventTO, durationMs: int)
    requires WellFormed(s.logEventMap)
    requires ValidateLogEvent(Some(a)) && ValidateLogEvent(Some(b)) && ValidateLogEvent(Some(c))
    requires a.id == b.id == c.id && a.id.value !in s.logEventMap
    ensures var paired := Observe(Observe(s, Some(a), durationMs), Some(b), durationMs);
            var s' := Observe(paired, Some(c), durationMs);
            && a.id.value !in paired.logEventMap
            && s'.logEventMap[a.id.value] == [c]
            && s'.saved == paired.saved == s.saved + [CreateLogEvent([a, b], durationMs)]
  {
    var open := Observe(s, Some(a), durationMs);
    ObserveFirstSighting(s, a, durationMs);
    ObserveSecondSighting(open, b, durationMs);
    var paired := Observe(open, Some(b), durationMs);
    ObserveFirstSighting(paired, c, durationMs);
  }

  // ---------------------------------------------------------------------
  // Arrival order
  // ---------------------------------------------------------------------

  /** Two records for a fresh id: the group opens and closes, and their event is saved. */
  lemma PairRestoresGroups(s: State, a: LogEventTO, b: LogEventTO, durationMs: int)
    requires WellFormed(s.logEventMap)
    requires ValidateLogEvent(Some(a)) && ValidateLogEvent(Some(b))
    requires a.id == b.id && a.id.value !in s.logEventMap
    ensures var ab := Observe(Observe(s, Some(a), durationMs), Some(b), durationMs);
            ab == State(s.logEventMap, s.saved + [CreateLogEvent([a, b], durationMs)])
  {
    var id := a.id.value;
    var sa := Observe(s, Some(a), durationMs);
    assert sa == State(s.logEventMap[id := [a]], s.saved);
    assert [a] + [b] == [a, b];
    assert s.logEventMap[id := [a]] - {id} == s.logEventMap;
  }

  /**
   * Two records for a fresh id, in either arrival order, leave the groups as
   * they were and save one event with the same id, duration and alert flag.
   */
  lemma PairOrderIndependent(s: State, a: LogEventTO, b: LogEventTO, durationMs: int)
    requires WellFormed(s.logEventMap)
    requires ValidateLogEvent(Some(a)) && ValidateLogEvent(Some(b))
    requires a.id == b.id && a.id.value !in s.logEventMap
    ensures var ab := Observe(Observe(s, Some(a), durationMs), Some(b), durationMs);
            var ba := Observe(Observe(s, Some(b), durationMs), Some(a), durationMs);
            && ab.logEventMap == s.logEventMap == ba.logEventMap
            && |ab.saved| == |s.saved| + 1 == |ba.saved|
            && ab.saved[|s.saved|].eventId == ba.saved[|s.saved|].eventId == a.id.value
            && ab.saved[|s.saved|].eventDuration == ba.saved[|s.saved|].eventDuration
            && ab.saved[|s.saved|].isAlert == ba.saved[|s.saved|].isAlert
  {
    PairRestoresGroups(s, a, b, durationMs);
    PairRestoresGroups(s, b, a, durationMs);
  }

  /**
   * `type` (and likewise `host`) prefers the first-arrived record, so
   * swapping the arrival order keeps it exactly when at most one record
   * carries a value or both carry the same one.
   */
  lemma TypeAndHostDependOnOrder(a: LogEventTO, b: LogEventTO, durationMs: int)
    requires ValidateLogEvent(Some(a)) && ValidateLogEvent(Some(b))
    ensures CreateLogEvent([a, b], durationMs).eventType == CreateLogEvent([b, a], durationMs).eventType
            <==> a.eventType.None? || b.eventType.None? || a.eventType == b.eventType
    ensures CreateLogEvent([a, b], durationMs).host == CreateLogEvent([b, a], durationMs).host
            <==> a.host.None? || b.host.None? || a.host == b.host
  {
  }

  // ---------------------------------------------------------------------
  // A whole run
  // ---------------------------------------------------------------------

  /** The number of lines whose record reaches the engine (non-null and valid). */
  function AcceptedCount(lines: seq<Line>): nat
  {
    if lines == [] then 0
    else
      AcceptedCount(lines[..|lines| - 1])
      + (if lines[|lines| - 1].Decoded? && ValidateLogEvent(lines[|lines| - 1].logEventTO) then 1 else 0)
  }

  /** Every pending group stays a singleton across a run. */
  lemma {:induction false} ProcessLinesKeepsSingletons(s: State, lines: seq<Line>, durationMs: int)
    requires WellFormed(s.logEventMap) && Singletons(s.logEventMap)
    ensures Singletons(ProcessLines(s, lines, durationMs).state.logEventMap)
    decreases |lines|
  {
    if lines != [] {
      ProcessLinesKeepsSingletons(s, lines[..|lines| - 1], durationMs);
    }
  }

  /**
   * In a run that no line aborts, every accepted record is either still
   * pending or one of a saved pair: exactly one event per completed pair.
   */
  lemma {:induction false} ProcessLinesAccounting(s: State, lines: seq<Line>, durationMs: int)
    requires WellFormed(s.logEventMap) && Singletons(s.logEventMap)
    requires forall i | 0 <= i < |lines| :: lines[i].Decoded?
    ensures var o := ProcessLines(s, lines, durationMs);
            |o.state.logEventMap| + 2 * |o.state.saved|
            == |s.logEventMap| + 2 * |s.saved| + AcceptedCount(lines)
    decreases |lines|
  {
    if lines != [] {
      var before := lines[..|lines| - 1];
      ProcessLinesAccounting(s, before, durationMs);
      ProcessLinesKeepsSingletons(s, before, durationMs);
      var o := ProcessLines(s, before, durationMs);
      ObserveAccounting(o.state, lines[|lines| - 1].logEventTO, durationMs);
    }
  }

  /**
   * A run from a fresh service that leaves no group pending has saved one
   * event for every two accepted records.
   */
  lemma CompletedRunSavesHalf(lines: seq<Line>, durationMs: int)
    requires forall i | 0 <= i < |lines| :: lines[i].Decoded?
    requires ProcessLines(State(map[], []), lines, durationMs).state.logEventMap == map[]
    ensures 2 * |ProcessLines(State(map[], []), lines, durationMs).state.saved| == AcceptedCount(lines)
  {
    ProcessLinesAccounting(State(map[], []), lines, durationMs);
  }

  /** Every saved event's alert flag means its duration is above the threshold. */
  ghost predicate AlertsConsistent(saved: seq<LogEvent>, durationMs: int)
  {
    forall i | 0 <= i < |saved| :: saved[i].eventDuration >= 0 && (saved[i].isAlert <==> saved[i].eventDuration > durationMs)
  }

  lemma {:induction false} ProcessLinesAlertsConsistent(s: State, lines: seq<Line>, durationMs: int)
    requires WellFormed(s.logEventMap) && AlertsConsistent(s.saved, durationMs)
    ensures AlertsConsistent(ProcessLines(s, lines, durationMs).state.saved, durationMs)
    decreases |lines|
  {
    if lines != [] {
      var before := lines[..|lines| - 1];
      ProcessLinesAlertsConsistent(s, before, durationMs);
      var o := ProcessLines(s, before, durationMs);
      if o.failure.None? && lines[|lines| - 1].Decoded? {
        var logEventTO := lines[|lines| - 1].logEventTO;
        if |Observe(o.state, logEventTO, durationMs).saved| > |o.state.saved| {
          ObserveSavesOnlyCompletedPairs(o.state, logEventTO, durationMs);
        }
      }
    }
  }

  /**
   * A line that does not decode ends the run: the state is what the lines
   * before it left, the exception names the line, and later lines are never
   * read.
   */
  lemma MalformedLineAborts(s: State, lines: seq<Line>, text: string, more: seq<Line>, durationMs: int)
    requires WellFormed(s.logEventMap)
    requires ProcessLines(s, lines, durationMs).failure.None?
    ensures ProcessLines(s, lines + [Malformed(text)] + more, durationMs)
            == Outcome(ProcessLines(s, lines, durationMs).state, Some(ParseFailure(text)))
  {
    var upTo := lines + [Malformed(text)];
    assert upTo[..|upTo| - 1] == lines;
    AbortIsFinal(s, upTo, more, durationMs);
  }

  /** A null or invalid record is skipped and the run goes on. */
  lemma InvalidLineIsSkipped(s: State, lines: seq<Line>, logEventTO: Option<LogEventTO>, durationMs: int)
    requires WellFormed(s.logEventMap)
    requires !ValidateLogEvent(logEventTO)
    ensures ProcessLines(s, lines + [Decoded(logEventTO)], durationMs) == ProcessLines(s, lines, durationMs)
  {
    var all := lines + [Decoded(logEventTO)];
    assert all[..|all| - 1] == lines;
  }

  // ---------------------------------------------------------------------
  // A worked example
  // ---------------------------------------------------------------------

  /**
   * The finished record arrives before the started one, 100 ms apart, with a
   * threshold of 100 ms and neither record carrying type or host: one event
   * with duration 100, no alert, and null type and host.
   */
  lemma ReversedPairAtThreshold()
    ensures var finished := LogEventTO(Some("c"), Some("FINISHED"), Some(500), None, None);
            var started := LogEventTO(Some("c"), Some("STARTED"), Some(400), None, None);
            ProcessLines(State(map[], []), [Decoded(Some(finished)), Decoded(Some(started))], 100)
            == Outcome(State(map[], [LogEvent("c", 100, None, None, false)]), None)
  {
    var finished := LogEventTO(Some("c"), Some("FINISHED"), Some(500), None, None);
    var started := LogEventTO(Some("c"), Some("STARTED"), Some(400), None, None);
    var lines := [Decoded(Some(finished)), Decoded(Some(started))];
    assert lines[..1] == [Decoded(Some(finished))];
    assert lines[..1][..0] == [];
    assert ProcessLines(State(map[], []), [], 100) == Outcome(State(map[], []), None);
    assert Observe(State(map[], []), Some(finished), 100) == State(map["c" := [finished]], []);
    var one := ProcessLines(State(map[], []), lines[..1], 100);
    assert one == Outcome(State(map["c" := [finished]], []), None);
    assert map["c" := [finished]] - {"c"} == map[];
  }
}
