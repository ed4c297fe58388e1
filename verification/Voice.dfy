/** The voice session (`speech/session.py`, `ops/voice.py`) over the append-only
    session log (`memory/sessions.py`): its state is whatever the newest entry of
    kind "voice_state" says. */
module Voice {
  import opened Base

  datatype State = Idle | Armed | Listening | Transcribing | Submitting | Speaking | Recovering | Closed

  datatype FrameType =
    | SessionStarted | SessionIdle | SessionClosed | WakeDetected | SpeechStarted | SpeechStopped | SttPartial
    | SttFinal | CoreSubmitted | OutputText | AudioChunk | TtsDone | Interruption | ErrorFrame

  /** What a `state` key may hold: nothing, a state, or anything else. */
  datatype Stated = NoState | Says(state: State) | Junk

  /** A log entry's `kind` and `state` keys. */
  datatype Entry = Entry(kind: string, stated: Stated)

  /** A frame's type and what its payload has under `kind` and `state`. */
  datatype Frame = Frame(frameType: FrameType, kind: Option<string>, stated: Stated)

  const VOICE_STATE := "voice_state"
  const VOICE_INTERRUPTION := "voice_interruption"

  /** `_TRANSITIONS`. */
  function Transition(s: State, f: FrameType): Option<State> {
    match (s, f)
    case (Idle, SessionStarted) => Some(Idle)
    case (Armed, SessionStarted) => Some(Armed)
    case (Idle, SessionIdle) => Some(Idle)
    case (Armed, SessionIdle) => Some(Armed)
    case (Listening, SessionIdle) => Some(Idle)
    case (Recovering, SessionIdle) => Some(Idle)
    case (Idle, WakeDetected) => Some(Listening)
    case (Armed, WakeDetected) => Some(Listening)
    case (Idle, SpeechStarted) => Some(Listening)
    case (Armed, SpeechStarted) => Some(Listening)
    case (Listening, SttPartial) => Some(Listening)
    case (Listening, SpeechStopped) => Some(Transcribing)
    case (Transcribing, SttPartial) => Some(Transcribing)
    case (Transcribing, SttFinal) => Some(Submitting)
    case (Submitting, CoreSubmitted) => Some(Submitting)
    case (Submitting, OutputText) => Some(Speaking)
    case (Speaking, AudioChunk) => Some(Speaking)
    case (Speaking, TtsDone) => Some(Idle)
    case (Speaking, SpeechStarted) => Some(Listening)
    case (Speaking, Interruption) => Some(Listening)
    case (Listening, Interruption) => Some(Listening)
    case (Closed, _) => None
    case (_, ErrorFrame) => Some(Recovering)
    case _ => None
  }

  /** What `accept_frame` moves to, from a state that was read from the log. */
  function Next(s: Stated, f: FrameType): Option<State> {
    if s.NoState? || s == Says(Closed) then None
    else if f == SessionClosed then Some(Closed)
    else if s.Says? then Transition(s.state, f)
    else None
  }

  // ---------------------------------------------------------------------- the log

  /** A mirrored row of the `events` table. */
  datatype Event = Event(prior: Stated, state: State)

  datatype Status = Active | Expired | Summarised

  datatype Session = Session(log: seq<Entry>, events: seq<Event>, status: Status, expiresAt: Option<nat>)

  /** `current_voice_session`: nothing found, or what the newest state entry says. */
  function Current(log: seq<Entry>): Option<Stated> {
    if log == [] then None
    else if log[|log| - 1].kind == VOICE_STATE then Some(log[|log| - 1].stated)
    else Current(log[..|log| - 1])
  }

  predicate Passed(s: Session, now: nat) {
    s.expiresAt.Some? && now >= s.expiresAt.value
  }

  /** `append_entry` refuses a session that is marked expired or past its time. */
  predicate Expires(s: Session, now: nat) {
    s.status == Expired || Passed(s, now)
  }

  /** `show_session` marks an active session whose time has passed. */
  function Show(s: Session, now: nat): Session {
    if s.status == Active && Passed(s, now) then s.(status := Expired) else s
  }

  /** `append_entry`, which ends by showing the session at a later time; the flag is
      false when it raises. */
  function Append(s: Session, entry: Entry, now: nat, shown: nat): (Session, bool) {
    if Expires(s, now) then (s.(status := Expired), false) else (Show(s.(log := s.log + [entry]), shown), true)
  }

  /** The clock at each of the two appends a frame may make, and at the show after. */
  datatype Times = Times(append: nat, shown: nat, append2: nat, shown2: nat)

  datatype Death = Survives | AfterEntry | AfterEvent

  datatype Outcome = Accepted(state: State) | NoSession | MissingState | IsClosed | NotNow | SessionExpired | Died

  function InterruptionEntry(frame: Frame): Entry {
    Entry(if frame.kind.Some? then frame.kind.value else VOICE_INTERRUPTION, frame.stated)
  }

  /** `accept_frame`, with `_record_transition`. The payload of an interruption is
      spread over the entry it leaves, and may replace the entry's `kind`. */
  function AcceptFrame(s: Session, frame: Frame, times: Times, dies: Death): (Session, Outcome) {
    var current := Current(s.log);
    if current.None? then (s, NoSession)
    else if current.value.NoState? then (s, MissingState)
    else if current.value == Says(Closed) then (s, IsClosed)
    else
      var next := Next(current.value, frame.frameType);
      if next.None? then (s, NotNow)
      else
        var (recorded, ok) := Append(s, Entry(VOICE_STATE, Says(next.value)), times.append, times.shown);
        if !ok then (recorded, SessionExpired)
        else if dies == AfterEntry then (recorded, Died)
        else
          var mirrored := recorded.(events := s.events + [Event(current.value, next.value)]);
          if frame.frameType != Interruption then (mirrored, Accepted(next.value))
          else if dies == AfterEvent then (mirrored, Died)
          else
            var (noted, fits) := Append(mirrored, InterruptionEntry(frame), times.append2, times.shown2);
            (noted, if fits then Accepted(next.value) else SessionExpired)
  }

  /** `start_voice_session`. */
  function Started(wakeEnabled: bool, expiresAt: Option<nat>): Session {
    var state := if wakeEnabled then Armed else Idle;
    Session([Entry(VOICE_STATE, Says(state))], [Event(NoState, state)], Active, expiresAt)
  }

  // ------------------------------------------------------------------ submit text

  function Plain(f: FrameType): Frame {
    Frame(f, None, NoState)
  }

  datatype Progress = Progress(session: Session, ok: bool)

  /** `op_voice_session_event` inside a longer call, with the call's i-th possible
      append; a failure ends the call. */
  function Then(p: Progress, f: FrameType, clock: nat -> nat, i: nat): Progress {
    if !p.ok then p
    else
      var (s, outcome) := AcceptFrame(p.session, Plain(f), Times(clock(2 * i), clock(2 * i + 1), 0, 0), Survives);
      Progress(s, outcome.Accepted?)
  }

  function ThenEntry(p: Progress, kind: string, clock: nat -> nat, i: nat): Progress {
    if !p.ok then p
    else
      var (s, ok) := Append(p.session, Entry(kind, NoState), clock(2 * i), clock(2 * i + 1));
      Progress(s, ok)
  }

  /** The frames that take the session to "submitting". */
  function ThenUtterance(p: Progress, from: Stated, clock: nat -> nat): Progress {
    var heard :=
      if from == Says(Idle) || from == Says(Armed) then Then(Then(p, SpeechStarted, clock, 0), SpeechStopped, clock, 1)
      else if from == Says(Listening) then Then(p, SpeechStopped, clock, 1)
      else p;
    if from in {Says(Idle), Says(Armed), Says(Listening), Says(Transcribing)} then Then(heard, SttFinal, clock, 2)
    else heard
  }

  /** `op_voice_submit_text` from the "core.submitted" frame on. */
  function Finish(p: Progress, runReturns: bool, clock: nat -> nat): Progress {
    var uttered := ThenEntry(Then(p, CoreSubmitted, clock, 3), "voice_utterance", clock, 4);
    if !runReturns then Progress(uttered.session, false)
    else ThenEntry(Then(uttered, OutputText, clock, 5), "voice_response", clock, 6)
  }

  /** `op_voice_submit_text`; `clock(2 * i)` and `clock(2 * i + 1)` are the times of
      its i-th possible append and of the show that ends it. */
  function SubmitText(s: Session, usable: bool, runReturns: bool, clock: nat -> nat): Progress {
    var current := Current(s.log);
    if !usable || current.None? || current.value.NoState? then Progress(s, false)
    else Finish(ThenUtterance(Progress(s, true), current.value, clock), runReturns, clock)
  }

  // ------------------------------------------------------------------- histories

  datatype Op =
    | FrameArrives(frame: Frame, times: Times, dies: Death)
    | OtherEntry(entry: Entry, now: nat, shown: nat)
    | Shown(now: nat)
    | Summary

  function Apply(s: Session, op: Op): Session {
    match op
    case FrameArrives(frame, times, dies) => AcceptFrame(s, frame, times, dies).0
    case OtherEntry(entry, now, shown) => Append(s, entry, now, shown).0
    case Shown(now) => Show(s, now)
    case Summary => s.(status := Summarised)
  }

  function Run(s: Session, ops: seq<Op>): Session
    decreases |ops|
  {
    if ops == [] then s else Run(Apply(s, ops[0]), ops[1..])
  }
}
