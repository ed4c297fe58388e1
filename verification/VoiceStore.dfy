/** The voice session as it runs: a log that is scanned, appended to and mirrored. */
module VoiceStore {
  import opened Base
  import opened Voice
  import opened VoiceTheorems

  class VoiceSession {
    var log: seq<Entry>
    var events: seq<Event>
    var status: Status
    var expiresAt: Option<nat>

    function Value(): Session
      reads this
    {
      Session(log, events, status, expiresAt)
    }

    /** `start_voice_session`. */
    constructor (wakeEnabled: bool, expiresAt: Option<nat>)
      ensures Value() == Started(wakeEnabled, expiresAt)
    {
      var state := if wakeEnabled then Armed else Idle;
      log, events := [Entry(VOICE_STATE, Says(state))], [Event(NoState, state)];
      status, this.expiresAt := Active, expiresAt;
    }

    /** `current_voice_session`: newest entry first. */
    method CurrentState() returns (current: Option<Stated>)
      ensures current == Current(log)
    {
      var n := |log|;
      assert log[..n] == log;
      while n > 0
        invariant 0 <= n <= |log|
        invariant Current(log) == Current(log[..n])
      {
        assert log[..n][..n - 1] == log[..n - 1];
        n := n - 1;
        if log[n].kind == VOICE_STATE {
          return Some(log[n].stated);
        }
      }
      return None;
    }

    /** `append_entry`: a session that is marked expired or past its time is marked
        so, and refuses. */
    method AppendEntry(entry: Entry, now: nat, shown: nat) returns (ok: bool)
      modifies this`log, this`status
      ensures (Value(), ok) == Append(old(Value()), entry, now, shown)
      ensures ok <==> !Expires(old(Value()), now)
      ensures log == if ok then old(log) + [entry] else old(log)
      ensures !ok ==> status == Expired
    {
      if status == Expired || (expiresAt.Some? && now >= expiresAt.value) {
        status := Expired;
        return false;
      }
      log := log + [entry];
      ShowSession(shown);
      return true;
    }

    /** `show_session`, as far as it changes anything: the mark it may leave changes
        no later verdict. */
    method ShowSession(now: nat)
      modifies this`status
      ensures Value() == Show(old(Value()), now)
      ensures forall t | t >= now :: Expires(Value(), t) <==> Expires(old(Value()), t)
    {
      if status == Active && expiresAt.Some? && now >= expiresAt.value {
        status := Expired;
      }
    }

    /** `summarize_session`: the summary's status replaces whatever was there, and
        from then on the time alone decides. */
    method Summarise(now: nat)
      modifies this`status
      ensures Value() == Apply(old(Value()), Summary)
      ensures forall t :: Expires(Value(), t) <==> Passed(old(Value()), t)
    {
      ShowSession(now);
      status := Summarised;
    }

    /** `accept_frame`. */
    method Accept(frame: Frame, times: Times, dies: Death) returns (outcome: Outcome)
      modifies this`log, this`status, this`events
      ensures (Value(), outcome) == AcceptFrame(old(Value()), frame, times, dies)
      ensures outcome.Accepted? ==> Next(Current(old(log)).value, frame.frameType) == Some(outcome.state)
      ensures outcome.Accepted? && Clean(FrameArrives(frame, times, dies)) ==> Current(log) == Some(Says(outcome.state))
      ensures outcome == IsClosed <==> Current(old(log)) == Some(Says(Closed))
      ensures outcome in {NoSession, MissingState, IsClosed, NotNow} ==> Value() == old(Value())
    {
      if Current(log).Some? && Clean(FrameArrives(frame, times, dies)) { FrameEffect(Value(), frame, times, dies); }
      var current := CurrentState();
      if current.None? {
        return NoSession;
      }
      if current.value.NoState? {
        return MissingState;
      }
      if current.value == Says(Closed) {
        return IsClosed;
      }
      var next := Next(current.value, frame.frameType);
      if next.None? {
        return NotNow;
      }
      var ok := AppendEntry(Entry(VOICE_STATE, Says(next.value)), times.append, times.shown);
      if !ok {
        return SessionExpired;
      }
      if dies == AfterEntry {
        return Died;
      }
      events := events + [Event(current.value, next.value)];
      if frame.frameType == Interruption {
        if dies == AfterEvent {
          return Died;
        }
        ok := AppendEntry(InterruptionEntry(frame), times.append2, times.shown2);
        if !ok {
          return SessionExpired;
        }
      }
      return Accepted(next.value);
    }

    method Step(f: FrameType, clock: nat -> nat, i: nat) returns (ok: bool)
      modifies this`log, this`status, this`events
      ensures Progress(Value(), ok) == Then(Progress(old(Value()), true), f, clock, i)
    {
      var outcome := Accept(Plain(f), Times(clock(2 * i), clock(2 * i + 1), 0, 0), Survives);
      ok := outcome.Accepted?;
    }

    /** `op_voice_submit_text`, around the run. */
    method Submit(usable: bool, runReturns: bool, clock: nat -> nat) returns (ok: bool)
      modifies this`log, this`status, this`events
      ensures Progress(Value(), ok) == SubmitText(old(Value()), usable, runReturns, clock)
      ensures ok ==> Current(log) == Some(Says(Speaking))
      ensures
        var from := Current(old(log));
        ok <==> && usable && runReturns && from.Some? && from.value.Says? && CanSubmit(from.value.state)
                && LiveFrom(old(Value()), Skipped(from.value.state), 6, clock)
    {
      SubmitExactly(Value(), usable, runReturns, clock);
      hide AcceptFrame, LiveFrom, CanSubmit, Skipped, Append, Current;
      if !usable {
        return false;
      }
      var current := CurrentState();
      if current.None? || current.value.NoState? {
        return false;
      }
      var state := current.value;
      ok := true;
      if state == Says(Idle) || state == Says(Armed) {
        ok := Step(SpeechStarted, clock, 0);
        if ok {
          ok := Step(SpeechStopped, clock, 1);
        }
        state := Says(Transcribing);
      } else if state == Says(Listening) {
        ok := Step(SpeechStopped, clock, 1);
        state := Says(Transcribing);
      }
      if ok && state == Says(Transcribing) {
        ok := Step(SttFinal, clock, 2);
      }
      if ok {
        ok := Step(CoreSubmitted, clock, 3);
      }
      if ok {
        ok := AppendEntry(Entry("voice_utterance", NoState), clock(8), clock(9));
      }
      if !ok || !runReturns {
        return false;
      }
      ok := Step(OutputText, clock, 5);
      if ok {
        ok := AppendEntry(Entry("voice_response", NoState), clock(12), clock(13));
      }
    }
  }
}
