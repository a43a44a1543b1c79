/**
 * The correlation engine of LogService: decoded log lines are validated,
 * grouped by `id` in a map, and every completed pair becomes one LogEvent
 * handed to the repository.
 *
 * The pure functions `Observe` and `ProcessLines` specify one record and a
 * whole run; the class `LogService` holds the same state in fields and its
 * methods are proved against those functions.
 */
module Service {
  import opened Wrappers
  import opened Event
  import opened Domain

  /** `Math.abs` on unbounded integers. */
  function Abs(x: int): (r: int)
    ensures r >= 0
    ensures r == x || r == -x
  {
    if x < 0 then -x else x
  }

  /** Whether a record is correlated at all: it is non-null and passes validation. */
  function ValidateLogEvent(logEventTO: Option<LogEventTO>): (ok: bool)
    ensures ok <==> logEventTO.Some? && logEventTO.value.id.Some?
                    && logEventTO.value.state.Some? && logEventTO.value.timestamp.Some?
  {
    ValidIffRequiredPresent(if logEventTO.Some? then logEventTO.value else LogEventTO(None, None, None, None, None));
    logEventTO.Some? && IsValid(logEventTO.value)
  }

  /**
   * The LogEvent built from a completed group: `logEvents[0]` arrived first,
   * `logEvents[1]` second.
   */
  function CreateLogEvent(logEvents: seq<LogEventTO>, durationMs: int): (e: LogEvent)
    requires |logEvents| >= 2
    requires logEvents[0].id.Some?
    requires logEvents[0].timestamp.Some? && logEvents[1].timestamp.Some?
    ensures e.eventId == logEvents[0].id.value
    ensures e.eventDuration >= 0
    ensures e.eventDuration == logEvents[0].timestamp.value - logEvents[1].timestamp.value
         || e.eventDuration == logEvents[1].timestamp.value - logEvents[0].timestamp.value
    ensures e.isAlert <==> e.eventDuration > durationMs
    ensures logEvents[0].eventType.Some? ==> e.eventType == logEvents[0].eventType
    ensures logEvents[0].eventType.None? ==> e.eventType == logEvents[1].eventType
    ensures logEvents[0].host.Some? ==> e.host == logEvents[0].host
    ensures logEvents[0].host.None? ==> e.host == logEvents[1].host
  {
    var logEvent1 := logEvents[0];
    var logEvent2 := logEvents[1];
    var duration := Abs(logEvent1.timestamp.value - logEvent2.timestamp.value);
    var isAlert := duration > durationMs;
    var eventType := if logEvent1.eventType.Some? then logEvent1.eventType else logEvent2.eventType;
    var host := if logEvent1.host.Some? then logEvent1.host else logEvent2.host;
    LogEvent(logEvent1.id.value, duration, eventType, host, isAlert)
  }

  /** The engine's state: the pending groups and everything saved so far. */
  datatype State = State(logEventMap: map<string, seq<LogEventTO>>, saved: seq<LogEvent>)

  /** Every pending group is non-empty and its first record is valid and filed under its own id. */
  predicate WellFormed(logEventMap: map<string, seq<LogEventTO>>)
  {
    forall id | id in logEventMap ::
      |logEventMap[id]| >= 1 && IsValid(logEventMap[id][0]) && logEventMap[id][0].id == Some(id)
  }

  /** Every pending group holds exactly one record. */
  predicate Singletons(logEventMap: map<string, seq<LogEventTO>>)
  {
    forall id | id in logEventMap :: |logEventMap[id]| == 1
  }

  /**
   * One decoded record handed to the engine (the part of processLogFileEntry
   * after decoding): a null or invalid record is dropped, the first record
   * of an id opens a group, the second completes it and is saved.
   */
  function Observe(s: State, logEventTO: Option<LogEventTO>, durationMs: int): (s': State)
    requires WellFormed(s.logEventMap)
    ensures WellFormed(s'.logEventMap)
    ensures Singletons(s.logEventMap) ==> Singletons(s'.logEventMap)
    ensures !ValidateLogEvent(logEventTO) ==> s' == s
    ensures s.saved <= s'.saved && |s'.saved| <= |s.saved| + 1
  {
    if !ValidateLogEvent(logEventTO) then s
    else
      var id := logEventTO.value.id.value;
      if id in s.logEventMap then
        var logEvents := s.logEventMap[id] + [logEventTO.value];
        if |logEvents| == 2 then
          State(s.logEventMap - {id}, s.saved + [CreateLogEvent(logEvents, durationMs)])
        else
          State(s.logEventMap[id := logEvents], s.saved)
      else
        State(s.logEventMap[id := [logEventTO.value]], s.saved)
  }

  /** The exception processLogFileEntry throws for a line Jackson cannot decode. */
  datatype LogServiceException = LogServiceException(message: string)

  const ParseFailurePrefix: string := "Unable to parse JSON for line: "

  /** The exception for an undecodable line: a fixed prefix, then the line itself. */
  function ParseFailure(line: string): (e: LogServiceException)
    ensures |e.message| == |ParseFailurePrefix| + |line|
    ensures e.message[..|ParseFailurePrefix|] == ParseFailurePrefix
    ensures e.message[|ParseFailurePrefix|..] == line
  {
    LogServiceException(ParseFailurePrefix + line)
  }

  /** The exception identifies its line: two different lines never give the same exception. */
  lemma ParseFailureInjective(a: string, b: string)
    ensures ParseFailure(a) == ParseFailure(b) ==> a == b
  {
  }

  /**
   * One line of the log file as the JSON decoder leaves it: text it could not
   * decode, or a record (None when the line is the JSON literal `null`).
   */
  datatype Line = Malformed(text: string) | Decoded(logEventTO: Option<LogEventTO>)

  /** The state after a run, and the exception that ended it early, if any. */
  datatype Outcome = Outcome(state: State, failure: Option<LogServiceException>)

  /**
   * The loop of processLogFile: each line in turn, until the first line that
   * does not decode, whose exception ends the run.
   */
  function ProcessLines(s: State, lines: seq<Line>, durationMs: int): (o: Outcome)
    requires WellFormed(s.logEventMap)
    ensures WellFormed(o.state.logEventMap)
    ensures s.saved <= o.state.saved
    ensures o.failure.Some? <==> exists i :: 0 <= i < |lines| && lines[i].Malformed?
    decreases |lines|
  {
    if lines == [] then Outcome(s, None)
    else
      var before := lines[..|lines| - 1];
      assert forall i | 0 <= i < |before| :: before[i] == lines[i];
      var o := ProcessLines(s, before, durationMs);
      if o.failure.Some? then o
      else
        match lines[|lines| - 1]
        case Malformed(text) => Outcome(o.state, Some(ParseFailure(text)))
        case Decoded(logEventTO) => Outcome(Observe(o.state, logEventTO, durationMs), None)
  }

  /** Appending one line to a run that has not aborted handles exactly that line. */
  lemma ProcessLinesStep(s: State, lines: seq<Line>, line: Line, durationMs: int)
    requires WellFormed(s.logEventMap)
    requires ProcessLines(s, lines, durationMs).failure.None?
    ensures line.Malformed? ==> ProcessLines(s, lines + [line], durationMs)
                                == Outcome(ProcessLines(s, lines, durationMs).state, Some(ParseFailure(line.text)))
    ensures line.Decoded? ==> ProcessLines(s, lines + [line], durationMs)
                              == Outcome(Observe(ProcessLines(s, lines, durationMs).state, line.logEventTO, durationMs), None)
  {
    var all := lines + [line];
    assert all[..|all| - 1] == lines;
  }

  /** Once a line has aborted the run, later lines are never read. */
  lemma {:induction false} AbortIsFinal(s: State, lines: seq<Line>, more: seq<Line>, durationMs: int)
    requires WellFormed(s.logEventMap)
    requires ProcessLines(s, lines, durationMs).failure.Some?
    ensures ProcessLines(s, lines + more, durationMs) == ProcessLines(s, lines, durationMs)
    decreases |more|
  {
    if more != [] {
      var all := lines + more;
      var shorter := more[..|more| - 1];
      assert all[..|all| - 1] == lines + shorter;
      AbortIsFinal(s, lines, shorter, durationMs);
    } else {
      assert lines + more == lines;
    }
  }

  /**
   * LogService with its map of pending groups. `saved` stands for the
   * repository: every `logEventRepository.save` appends to it.
   */
  class LogService {
    const durationMs: int
    var logEventMap: map<string, seq<LogEventTO>>
    ghost var saved: seq<LogEvent>

    /** Between calls every pending group holds one valid record filed under its id. */
    ghost predicate Valid()
      reads this
    {
      WellFormed(logEventMap) && Singletons(logEventMap)
    }

    ghost function Model(): State
      reads this
    {
      State(logEventMap, saved)
    }

    constructor (durationMs: int)
      ensures Valid()
      ensures this.durationMs == durationMs
      ensures logEventMap == map[] && saved == []
    {
      this.durationMs := durationMs;
      logEventMap := map[];
      saved := [];
    }

    /** Handles one line: decode failure aborts, otherwise the record is observed. */
    method ProcessLogFileEntry(line: Line) returns (failure: Option<LogServiceException>)
      requires Valid()
      modifies this
      ensures Valid()
      ensures failure.Some? <==> line.Malformed?
      ensures line.Malformed? ==> failure == Some(ParseFailure(line.text)) && Model() == old(Model())
      ensures line.Decoded? ==> Model() == Observe(old(Model()), line.logEventTO, durationMs)
    {
      if line.Malformed? {
        return Some(ParseFailure(line.text));
      }
      failure := None;
      var logEventTO := line.logEventTO;
      if !ValidateLogEvent(logEventTO) {
        return;
      }
      var id := logEventTO.value.id.value;
      if id in logEventMap {
        // List.add on the group the map holds
        var logEvents := logEventMap[id] + [logEventTO.value];
        logEventMap := logEventMap[id := logEvents];
        if |logEvents| == 2 {
          var logEventToPersist := CreateLogEvent(logEvents, durationMs);
          saved := saved + [logEventToPersist];
          logEventMap := logEventMap - {id};
        }
      } else {
        logEventMap := logEventMap[id := [logEventTO.value]];
      }
    }

    /** Reads every line in order; the first line that does not decode ends the run. */
    method ProcessLogFile(lines: seq<Line>) returns (failure: Option<LogServiceException>)
      requires Valid()
      modifies this
      ensures Valid()
      ensures Outcome(Model(), failure) == ProcessLines(old(Model()), lines, durationMs)
    {
      var i := 0;
      failure := None;
      while i < |lines|
        invariant 0 <= i <= |lines|
        invariant Valid()
        invariant failure == None
        invariant Outcome(Model(), None) == ProcessLines(old(Model()), lines[..i], durationMs)
      {
        failure := ProcessLogFileEntry(lines[i]);
        ProcessLinesStep(old(Model()), lines[..i], lines[i], durationMs);
        assert lines[..i] + [lines[i]] == lines[..i + 1];
        if failure.Some? {
          AbortIsFinal(old(Model()), lines[..i + 1], lines[i + 1..], durationMs);
          assert lines[..i + 1] + lines[i + 1..] == lines;
          return;
        }
        i := i + 1;
      }
      assert lines[..i] == lines;
    }
  }
}
