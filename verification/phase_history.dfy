/** The record of provisioning phases and errors kept in the cluster status. */
module PhaseHistory {
  import opened Nodes

  datatype ProvisioningPhase =
    | Unset
    | Infrastructure
    | Image
    | Compute
    | Bootstrap
    | CNI
    | Addons
    | Configuring
    | Complete
    | Unknown(name: string)

  // duration is in seconds; error is "" when there is none.
  datatype PhaseRecord = PhaseRecord(
    phase: ProvisioningPhase,
    startedAt: nat,
    endedAt: Option<nat>,
    duration: Option<int>,
    error: string)

  datatype ErrorRecord = ErrorRecord(at: nat, phase: ProvisioningPhase, component: string, message: string)

  datatype Log = Log(history: seq<PhaseRecord>, startedAt: Option<nat>, lastErrors: seq<ErrorRecord>)

  const MAX_LAST_ERRORS := 10
  const SECOND: nat := 1_000_000_000

  /** Nearest whole number of seconds, halves away from zero. */
  function RoundSeconds(d: int): int {
    if d < 0 then -((-d + SECOND / 2) / SECOND) else (d + SECOND / 2) / SECOND
  }

  lemma RoundingIsNearest(d: int)
    ensures -(SECOND / 2) <= RoundSeconds(d) * SECOND - d <= SECOND / 2
    ensures RoundSeconds(-d) == -RoundSeconds(d)
    ensures d >= 0 ==> d < RoundSeconds(d) * SECOND + SECOND / 2
  {
  }

  function Closed(r: PhaseRecord, now: nat): PhaseRecord {
    if r.endedAt == None then
      r.(endedAt := Some(now), duration := Some(RoundSeconds(now - r.startedAt)))
    else r
  }

  function Blamed(r: PhaseRecord, message: string): PhaseRecord {
    if r.endedAt == None then r.(error := message) else r
  }

  function Transitioned(log: Log, phase: ProvisioningPhase, now: nat): Log {
    Log(seq(|log.history|, i requires 0 <= i < |log.history| => Closed(log.history[i], now)) +
        [PhaseRecord(phase, now, None, None, "")],
        Some(now), log.lastErrors)
  }

  function LastTen(errors: seq<ErrorRecord>): seq<ErrorRecord> {
    if |errors| > MAX_LAST_ERRORS then errors[|errors| - MAX_LAST_ERRORS..] else errors
  }

  function Errored(log: Log, e: ErrorRecord): Log {
    Log(seq(|log.history|, i requires 0 <= i < |log.history| => Blamed(log.history[i], e.message)),
        log.startedAt, LastTen(log.lastErrors + [e]))
  }

  // ---- A timeline -------------------------------------------------------------------

  // The earlier record was closed, with its duration, at the moment the later one opened.
  ghost predicate Meets(earlier: PhaseRecord, later: PhaseRecord) {
    && earlier.endedAt == Some(later.startedAt)
    && earlier.duration == Some(RoundSeconds(later.startedAt - earlier.startedAt))
  }

  /** Only the last record is open, and each record ends when the next one starts. */
  ghost predicate Timeline(history: seq<PhaseRecord>) {
    && (history != [] ==> history[|history| - 1].endedAt == None)
    && forall i, j {:trigger Meets(history[i], history[j])} | 0 <= i < |history| && j == i + 1 < |history| ::
         Meets(history[i], history[j])
  }

  ghost predicate Sound(log: Log) {
    && Timeline(log.history)
    && (log.history != [] ==> log.startedAt == Some(log.history[|log.history| - 1].startedAt))
  }

  // The same record as far as its beginning and its error go.
  predicate SameStart(a: PhaseRecord, b: PhaseRecord) {
    a.phase == b.phase && a.startedAt == b.startedAt && a.error == b.error
  }

  /** A transition opens one record and rewrites nothing of the earlier ones but their end. */
  lemma TransitionKeepsTimeline(log: Log, phase: ProvisioningPhase, now: nat)
    requires Sound(log)
    ensures Sound(Transitioned(log, phase, now))
    ensures var h, g := log.history, Transitioned(log, phase, now).history;
            && |g| == |h| + 1 && g[|h|] == PhaseRecord(phase, now, None, None, "")
            && forall i | 0 <= i < |h| :: SameStart(h[i], g[i])
    ensures Phases(Transitioned(log, phase, now).history) == Phases(log.history) + [phase]
  {
    var h, g := log.history, Transitioned(log, phase, now).history;
    hide RoundSeconds;
    forall i, j | 0 <= i < |g| && j == i + 1 < |g| ensures Meets(g[i], g[j]) {
      if j < |h| { assert Meets(h[i], h[j]); }
    }
    assert Phases(g) == Phases(h) + [phase];
  }

  /** An error is written to the open record alone. */
  lemma ErrorTouchesOpenRecord(log: Log, e: ErrorRecord)
    requires Sound(log)
    ensures Sound(Errored(log, e))
    ensures var h, g := log.history, Errored(log, e).history;
            && |g| == |h| && Phases(g) == Phases(h)
            && forall i | 0 <= i < |h| :: g[i] == if i == |h| - 1 then h[i].(error := e.message) else h[i]
  {
    var h, g := log.history, Errored(log, e).history;
    hide RoundSeconds;
    forall i | 0 <= i < |h| ensures g[i] == if i == |h| - 1 then h[i].(error := e.message) else h[i] {
      if i < |h| - 1 { assert Meets(h[i], h[i + 1]); }
    }
    forall i, j | 0 <= i < |g| && j == i + 1 < |g| ensures Meets(g[i], g[j]) {
      assert Meets(h[i], h[j]);
    }
    assert Phases(g) == Phases(h);
  }

  function Phases(history: seq<PhaseRecord>): (r: seq<ProvisioningPhase>)
    ensures |r| == |history| && forall i | 0 <= i < |r| :: r[i] == history[i].phase
  {
    seq(|history|, i requires 0 <= i < |history| => history[i].phase)
  }

  // ---- Any sequence of recordings -------------------------------------------------------

  datatype Recording = Transition(phase: ProvisioningPhase, at: nat) | Failure(record: ErrorRecord)

  function Recorded(log: Log, r: Recording): Log {
    match r
    case Transition(phase, at) => Transitioned(log, phase, at)
    case Failure(e) => Errored(log, e)
  }

  function RecordedAll(log: Log, rs: seq<Recording>): Log {
    if rs == [] then log else Recorded(RecordedAll(log, rs[..|rs| - 1]), rs[|rs| - 1])
  }

  function ErrorsIn(rs: seq<Recording>): seq<ErrorRecord> {
    if rs == [] then []
    else
      var r := rs[|rs| - 1];
      ErrorsIn(rs[..|rs| - 1]) + if r.Failure? then [r.record] else []
  }

  // The error of what is being recorded: the last failure, until the next transition.
  function OpenError(rs: seq<Recording>): string {
    if rs != [] && rs[|rs| - 1].Failure? then rs[|rs| - 1].record.message else ""
  }

  const EMPTY_LOG := Log([], None, [])

  /** Whatever is recorded, the history stays a timeline, PhaseStartedAt is the start
      of its last record, and LastErrors are exactly the last ten errors in order. */
  lemma {:induction false} HistoryIsTimeline(rs: seq<Recording>)
    ensures var log := RecordedAll(EMPTY_LOG, rs);
            && Sound(log) && log.lastErrors == LastTen(ErrorsIn(rs))
            && |log.lastErrors| == (if |ErrorsIn(rs)| < 10 then |ErrorsIn(rs)| else 10)
            && (log.history != [] ==> log.history[|log.history| - 1].error == OpenError(rs))
  {
    if rs == [] {
    } else {
      var k := |rs| - 1;
      HistoryIsTimeline(rs[..k]);
      var log := RecordedAll(EMPTY_LOG, rs[..k]);
      hide Timeline, Sound, LastTen, Phases;
      match rs[k]
      case Transition(phase, at) =>
        TransitionKeepsTimeline(log, phase, at);
        assert ErrorsIn(rs) == ErrorsIn(rs[..k]);
      case Failure(e) =>
        ErrorTouchesOpenRecord(log, e);
        LastTenSlides(ErrorsIn(rs[..k]), rs[k]);
    }
  }

  lemma LastTenSlides(errors: seq<ErrorRecord>, r: Recording)
    requires r.Failure?
    ensures LastTen(LastTen(errors) + [r.record]) == LastTen(errors + [r.record])
  {
  }

  // ---- The status object ------------------------------------------------------------------

  class PhaseLog {
    var phase: ProvisioningPhase
    var history: seq<PhaseRecord>
    var startedAt: Option<nat>
    var lastErrors: seq<ErrorRecord>

    function View(): Log
      reads this
    {
      Log(history, startedAt, lastErrors)
    }

    constructor (phase: ProvisioningPhase, log: Log)
      ensures this.phase == phase && View() == log
    {
      this.phase, history, startedAt, lastErrors := phase, log.history, log.startedAt, log.lastErrors;
    }

    method RecordPhaseTransition(newPhase: ProvisioningPhase, now: nat)
      modifies this`history, this`startedAt
      ensures View() == Transitioned(old(View()), newPhase, now)
    {
      var i := 0;
      while i < |history|
        invariant i <= |history| == |old(history)|
        invariant forall j | 0 <= j < |history| ::
                    history[j] == if j < i then Closed(old(history)[j], now) else old(history)[j]
      {
        if history[i].endedAt == None {
          var d := now - history[i].startedAt;
          history := history[i := history[i].(endedAt := Some(now), duration := Some(RoundSeconds(d)))];
        }
        i := i + 1;
      }
      history := history + [PhaseRecord(newPhase, now, None, None, "")];
      startedAt := Some(now);
    }

    method RecordPhaseError(component: string, message: string, now: nat)
      modifies this`history, this`lastErrors
      ensures View() == Errored(old(View()), ErrorRecord(now, phase, component, message))
    {
      var i := 0;
      while i < |history|
        invariant i <= |history| == |old(history)|
        invariant forall j | 0 <= j < |history| ::
                    history[j] == if j < i then Blamed(old(history)[j], message) else old(history)[j]
        invariant lastErrors == old(lastErrors)
      {
        if history[i].endedAt == None {
          history := history[i := history[i].(error := message)];
        }
        i := i + 1;
      }
      assert history == Errored(old(View()), ErrorRecord(now, phase, component, message)).history;
      lastErrors := lastErrors + [ErrorRecord(now, phase, component, message)];
      if |lastErrors| > MAX_LAST_ERRORS {
        lastErrors := lastErrors[|lastErrors| - MAX_LAST_ERRORS..];
      }
    }
  }
}
