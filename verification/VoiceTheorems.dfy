/** The log is a faithful record of the automaton. */
module VoiceTheorems {
  import opened Base
  import opened Voice

  // -------------------------------------------------------------- the automaton

  /** Frames one after another, starting from a known state. */
  function Fold(s: State, frames: seq<FrameType>): Option<State>
    decreases |frames|
  {
    if frames == [] then Some(s)
    else
      var next := Next(Says(s), frames[0]);
      if next.None? then None else Fold(next.value, frames[1..])
  }

  /** The frames a step puts into the log: one, if its transition was recorded. */
  function AcceptedBy(s: Session, op: Op): seq<FrameType> {
    if !op.FrameArrives? then []
    else
      var current := Current(s.log);
      if current.Some? && Next(current.value, op.frame.frameType).Some? && !Expires(s, op.times.append)
          then [op.frame.frameType]
      else []
  }

  function History(s: Session, ops: seq<Op>): seq<FrameType>
    decreases |ops|
  {
    if ops == [] then [] else AcceptedBy(s, ops[0]) + History(Apply(s, ops[0]), ops[1..])
  }

  /** No entry but a recorded transition calls itself "voice_state". */
  predicate Clean(op: Op) {
    match op
    case FrameArrives(frame, _, _) => frame.frameType == Interruption ==> frame.kind != Some(VOICE_STATE)
    case OtherEntry(entry, _, _) => entry.kind != VOICE_STATE
    case _ => true
  }

  predicate AllClean(ops: seq<Op>) {
    forall i | 0 <= i < |ops| :: Clean(ops[i])
  }

  /** The states recorded in the log, oldest first. */
  function Recorded(log: seq<Entry>): seq<Stated> {
    if log == [] then []
    else
      Recorded(log[..|log| - 1]) + if log[|log| - 1].kind == VOICE_STATE then [log[|log| - 1].stated] else []
  }

  lemma AppendedEntry(log: seq<Entry>, entry: Entry)
    ensures Current(log + [entry]) == if entry.kind == VOICE_STATE then Some(entry.stated) else Current(log)
    ensures Recorded(log + [entry]) == Recorded(log) + if entry.kind == VOICE_STATE then [entry.stated] else []
  {
    assert (log + [entry])[..|log|] == log;
  }

  /** What a clean frame does to the log and the events. */
  lemma FrameEffect(s: Session, frame: Frame, times: Times, dies: Death)
    requires Clean(FrameArrives(frame, times, dies)) && Current(s.log).Some?
    ensures
      var current := Current(s.log).value;
      var next := Next(current, frame.frameType);
      var s' := AcceptFrame(s, frame, times, dies).0;
      if next.Some? && !Expires(s, times.append) then
        && Current(s'.log) == Some(Says(next.value)) && Recorded(s'.log) == Recorded(s.log) + [Says(next.value)]
        && s'.events == if dies == AfterEntry then s.events else s.events + [Event(current, next.value)]
      else s'.log == s.log && s'.events == s.events
  {
    hide Current, Recorded, Transition, Passed;
    var next := Next(Current(s.log).value, frame.frameType);
    if next.Some? {
      var entry := Entry(VOICE_STATE, Says(next.value));
      AppendedEntry(s.log, entry);
      AppendedEntry(s.log + [entry], InterruptionEntry(frame));
    }
  }

  /** What showing a session, or a refused append, marks: an active session past its
      time, and anything that is refused; a session nobody shows keeps its mark. */
  lemma MarksExactly(s: Session, entry: Entry, now: nat, shown: nat)
    ensures
      Show(s, now) == s.(status := if s.status == Active && s.expiresAt.Some? && s.expiresAt.value <= now then Expired
                                   else s.status)
    ensures
      var (s', ok) := Append(s, entry, now, shown);
      && (ok <==> s.status != Expired && (s.expiresAt.Some? ==> now < s.expiresAt.value))
      && s' == s.(log := s'.log, status := s'.status) && s'.log == (if ok then s.log + [entry] else s.log)
      && (s'.status == Expired
          <==> !ok || (s.status == Active && s.expiresAt.Some? && s.expiresAt.value <= shown))
      && (s'.status != Expired ==> s'.status == s.status)
  {
  }

  lemma FoldOne(s: State, f: FrameType)
    ensures Fold(s, [f]) == Next(Says(s), f) && Fold(s, []) == Some(s)
  {
  }

  lemma OthersChangeNothing(s: Session, op: Op)
    requires Clean(op) && !op.FrameArrives?
    ensures Current(Apply(s, op).log) == Current(s.log) && Recorded(Apply(s, op).log) == Recorded(s.log)
    ensures Apply(s, op).events == s.events
  {
    hide Current, Recorded, Passed, AcceptFrame;
    if op.OtherEntry? { AppendedEntry(s.log, op.entry); }
  }

  lemma StepRefines(s: Session, op: Op, state: State)
    requires Clean(op) && Current(s.log) == Some(Says(state))
    ensures Fold(state, AcceptedBy(s, op)).Some?
    ensures Current(Apply(s, op).log) == Some(Says(Fold(state, AcceptedBy(s, op)).value))
  {
    if op.FrameArrives? {
      FrameEffect(s, op.frame, op.times, op.dies);
      FoldOne(state, op.frame.frameType);
    } else {
      OthersChangeNothing(s, op);
    }
    hide Clean, Current, AcceptFrame, Recorded, Next, Fold, Expires, Append;
  }

  lemma {:induction false} FoldConcat(s: State, a: seq<FrameType>, b: seq<FrameType>)
    requires |a| <= 1 && Fold(s, a).Some?
    ensures Fold(s, a + b) == Fold(Fold(s, a).value, b)
  {
    if a == [] {
      assert a + b == b;
    } else {
      assert (a + b)[1..] == b && a[1..] == [];
    }
  }

  lemma {:induction false} RunRefines(s: Session, ops: seq<Op>, state: State)
    requires AllClean(ops) && Current(s.log) == Some(Says(state))
    ensures Fold(state, History(s, ops)).Some?
    ensures Current(Run(s, ops).log) == Some(Says(Fold(state, History(s, ops)).value))
    decreases |ops|
  {
    if ops != [] {
      assert Clean(ops[0]) && AllClean(ops[1..]) by {
        forall i | 0 <= i < |ops[1..]| ensures Clean(ops[1..][i]) { assert ops[1..][i] == ops[i + 1]; }
      }
      StepRefines(s, ops[0], state);
      hide Clean, Apply, Next, Current;
      var next := Fold(state, AcceptedBy(s, ops[0])).value;
      RunRefines(Apply(s, ops[0]), ops[1..], next);
      FoldConcat(state, AcceptedBy(s, ops[0]), History(Apply(s, ops[0]), ops[1..]));
    }
  }

  /** The log refines the automaton: over every history of frames, other entries,
      expiry and crashes, the state found by scanning the log backwards is the fold
      of the transition table over the frames that were accepted. */
  lemma LogRefinesAutomaton(wakeEnabled: bool, expiresAt: Option<nat>, ops: seq<Op>)
    requires AllClean(ops)
    ensures
      var s := Started(wakeEnabled, expiresAt);
      var frames := History(s, ops);
      var start := if wakeEnabled then Armed else Idle;
      Fold(start, frames).Some? && Current(Run(s, ops).log) == Some(Says(Fold(start, frames).value))
  {
    var s := Started(wakeEnabled, expiresAt);
    assert Current(s.log) == Some(Says(if wakeEnabled then Armed else Idle));
    RunRefines(s, ops, if wakeEnabled then Armed else Idle);
  }

  lemma InterruptionListens(s: Stated)
    ensures Next(s, Interruption).Some? ==> Next(s, Interruption).value == Listening
  {
  }

  /** The two entries an accepted interruption leaves: the payload may rename the
      second. */
  lemma InterruptionLeaves(s: Session, frame: Frame, times: Times)
    requires frame.frameType == Interruption && AcceptFrame(s, frame, times, Survives).1.Accepted?
    ensures
      AcceptFrame(s, frame, times, Survives).0.log
      == s.log + [Entry("voice_state", Says(Listening))]
         + [Entry(if frame.kind.Some? then frame.kind.value else "voice_interruption", frame.stated)]
  {
    hide Current, Next, Passed;
    if Current(s.log).Some? { InterruptionListens(Current(s.log).value); }
  }

  /** A single exception: an interruption's payload may rename its entry. The scan
      still finds what was just recorded exactly when the payload does not claim to
      be a state entry, or claims the state recorded anyway. */
  lemma InterruptionKeepsState(s: Session, frame: Frame, times: Times)
    requires frame.frameType == Interruption && AcceptFrame(s, frame, times, Survives).1.Accepted?
    ensures
      Current(AcceptFrame(s, frame, times, Survives).0.log) == Some(Says(Listening))
      <==> frame.kind != Some(VOICE_STATE) || frame.stated == Says(Listening)
  {
    InterruptionLeaves(s, frame, times);
    hide AcceptFrame;
    AppendedEntry(s.log, Entry(VOICE_STATE, Says(Listening)));
    AppendedEntry(s.log + [Entry(VOICE_STATE, Says(Listening))], InterruptionEntry(frame));
  }

  // --------------------------------------------------------------- closed, events

  /** Whatever else writes to the session's log does not claim to be its state. */
  predicate OthersClean(ops: seq<Op>) {
    forall i | 0 <= i < |ops| && ops[i].OtherEntry? :: ops[i].entry.kind != VOICE_STATE
  }

  /** Closed is absorbing: no frame is accepted and none is mirrored any more,
      whatever frames come, with whatever payloads. */
  lemma {:induction false} ClosedIsAbsorbing(s: Session, ops: seq<Op>)
    requires OthersClean(ops) && Current(s.log) == Some(Says(Closed))
    ensures History(s, ops) == [] && Current(Run(s, ops).log) == Some(Says(Closed)) && Run(s, ops).events == s.events
    decreases |ops|
  {
    if ops != [] {
      if ops[0].OtherEntry? { OthersChangeNothing(s, ops[0]); }
      assert OthersClean(ops[1..]) by {
        forall i | 0 <= i < |ops[1..]| && ops[1..][i].OtherEntry? ensures ops[1..][i].entry.kind != VOICE_STATE {
          assert ops[1..][i] == ops[i + 1];
        }
      }
      ClosedIsAbsorbing(Apply(s, ops[0]), ops[1..]);
    }
  }

  function PriorTo(recorded: seq<Stated>, k: nat): Stated
    requires k <= |recorded|
  {
    if k == 0 then NoState else recorded[k - 1]
  }

  /** The state rows as the events table mirrors them, each with its predecessor. */
  predicate Mirrors(events: seq<Event>, recorded: seq<Stated>) {
    && |events| == |recorded|
    && forall k | 0 <= k < |events| ::
         events[k] == Event(PriorTo(recorded, k), events[k].state) && Says(events[k].state) == recorded[k]
  }

  lemma {:induction false} CurrentIsLastRecorded(log: seq<Entry>)
    ensures Current(log) == if Recorded(log) == [] then None else Some(Recorded(log)[|Recorded(log)| - 1])
  {
    if log != [] { CurrentIsLastRecorded(log[..|log| - 1]); }
  }

  predicate LosesNoEvent(op: Op) {
    op.FrameArrives? ==> op.dies != AfterEntry
  }

  lemma MirrorsAppend(events: seq<Event>, recorded: seq<Stated>, next: State)
    requires Mirrors(events, recorded) && recorded != []
    ensures Mirrors(events + [Event(recorded[|recorded| - 1], next)], recorded + [Says(next)])
  {
  }

  lemma FrameMirrors(s: Session, frame: Frame, times: Times, dies: Death)
    requires Clean(FrameArrives(frame, times, dies)) && dies != AfterEntry
    requires Mirrors(s.events, Recorded(s.log)) && Recorded(s.log) != []
    ensures
      var s' := AcceptFrame(s, frame, times, dies).0;
      Mirrors(s'.events, Recorded(s'.log)) && Recorded(s'.log) != []
  {
    hide AcceptFrame, Recorded, Next, Mirrors, Expires, Current, Clean;
    CurrentIsLastRecorded(s.log);
    FrameEffect(s, frame, times, dies);
    var next := Next(Current(s.log).value, frame.frameType);
    if next.Some? { MirrorsAppend(s.events, Recorded(s.log), next.value); }
  }

  lemma StepMirrors(s: Session, op: Op)
    requires Clean(op) && LosesNoEvent(op) && Mirrors(s.events, Recorded(s.log)) && Recorded(s.log) != []
    ensures Mirrors(Apply(s, op).events, Recorded(Apply(s, op).log)) && Recorded(Apply(s, op).log) != []
  {
    hide AcceptFrame, Recorded, Mirrors, Current, Clean, Append;
    if op.FrameArrives? {
      FrameMirrors(s, op.frame, op.times, op.dies);
    } else {
      OthersChangeNothing(s, op);
    }
  }

  lemma {:induction false} RunMirrors(s: Session, ops: seq<Op>)
    requires AllClean(ops) && forall i | 0 <= i < |ops| :: LosesNoEvent(ops[i])
    requires Mirrors(s.events, Recorded(s.log)) && Recorded(s.log) != []
    ensures Mirrors(Run(s, ops).events, Recorded(Run(s, ops).log))
    decreases |ops|
  {
    if ops != [] {
      StepMirrors(s, ops[0]);
      forall i | 0 <= i < |ops[1..]| ensures Clean(ops[1..][i]) && LosesNoEvent(ops[1..][i]) {
        assert ops[1..][i] == ops[i + 1];
      }
      hide Clean, LosesNoEvent, Apply, Mirrors, Recorded;
      RunMirrors(Apply(s, ops[0]), ops[1..]);
    }
  }

  /** The events mirror the log entry by entry, prior states included, unless a
      process dies between the two commits. */
  lemma EventsMirrorLog(wakeEnabled: bool, expiresAt: Option<nat>, ops: seq<Op>)
    requires AllClean(ops) && forall i | 0 <= i < |ops| :: LosesNoEvent(ops[i])
    ensures var s := Run(Started(wakeEnabled, expiresAt), ops); Mirrors(s.events, Recorded(s.log))
  {
    StartMirrors(wakeEnabled, expiresAt);
    hide Run, Recorded, Clean, LosesNoEvent, Mirrors, Started;
    RunMirrors(Started(wakeEnabled, expiresAt), ops);
  }

  lemma StartMirrors(wakeEnabled: bool, expiresAt: Option<nat>)
    ensures var s := Started(wakeEnabled, expiresAt); Mirrors(s.events, Recorded(s.log)) && Recorded(s.log) != []
  {
  }

  // ------------------------------------------------------------------ submit text

  /** The number of appends a submit can skip from a state. */
  function Skipped(s: State): nat {
    match s
    case Listening => 1
    case Transcribing => 2
    case Submitting => 3
    case _ => 0
  }

  predicate CanSubmit(s: State) {
    s in {Idle, Armed, Listening, Transcribing, Submitting}
  }

  /** The session survives the i-th reading of the clock: an even one is an append,
      an odd one the show that ends it. */
  predicate Lives(s: Session, clock: nat -> nat, j: nat) {
    if j % 2 == 0 then !Expires(s, clock(j)) else Show(s, clock(j)) == s
  }

  /** It survives every reading from append `first` up to append `last`. */
  predicate LiveFrom(s: Session, first: nat, last: nat, clock: nat -> nat) {
    forall j | 2 * first <= j <= 2 * last :: Lives(s, clock, j)
  }

  /** How far a call has come: it failed, or it is in `state` with the session as
      in `like`, except for the mark of a show that came too late. */
  ghost predicate At(p: Progress, live: bool, unmarked: bool, state: State, like: Session) {
    if !live then !p.ok
    else
      && p.ok && Current(p.session.log) == Some(Says(state)) && p.session.expiresAt == like.expiresAt
      && p.session.status == if unmarked then like.status else Expired
  }

  lemma ThenMoves(
    p: Progress, f: FrameType, clock: nat -> nat, i: nat, live: bool, unmarked: bool, state: State, like: Session)
    requires At(p, live, unmarked, state, like) && f != Interruption
    ensures
      var next := Next(Says(state), f);
      At(Then(p, f, clock, i), live && unmarked && next.Some? && Lives(like, clock, 2 * i),
         Lives(like, clock, 2 * i + 1), if next.Some? then next.value else state, like)
  {
    var next := Next(Says(state), f);
    if next.Some? { AppendedEntry(p.session.log, Entry(VOICE_STATE, Says(next.value))); }
    hide Next, Current;
  }

  lemma ThenEntryKeeps(
    p: Progress, kind: string, clock: nat -> nat, i: nat, live: bool, unmarked: bool, state: State, like: Session)
    requires At(p, live, unmarked, state, like) && kind != VOICE_STATE
    ensures At(ThenEntry(p, kind, clock, i), live && unmarked && Lives(like, clock, 2 * i),
               Lives(like, clock, 2 * i + 1), state, like)
  {
    AppendedEntry(p.session.log, Entry(kind, NoState));
    hide Current;
  }

  /** From each of the five states the utterance leads to "submitting". */
  lemma UtteranceSubmits(p: Progress, state: State, like: Session, clock: nat -> nat)
    requires At(p, true, true, state, like) && CanSubmit(state)
    ensures
      var n := Skipped(state);
      At(ThenUtterance(p, Says(state), clock), n == 3 || LiveFrom(like, n, 2, clock), n == 3 || Lives(like, clock, 5),
         Submitting, like)
  {
    hide At, Then, Lives;
    var heard := p;
    var live, unmarked := true, true;
    if state == Idle || state == Armed {
      ThenMoves(p, SpeechStarted, clock, 0, true, true, state, like);
      ThenMoves(Then(p, SpeechStarted, clock, 0), SpeechStopped, clock, 1,
                Lives(like, clock, 0), Lives(like, clock, 1), Listening, like);
      heard := Then(Then(p, SpeechStarted, clock, 0), SpeechStopped, clock, 1);
      live, unmarked := Lives(like, clock, 0) && Lives(like, clock, 1) && Lives(like, clock, 2), Lives(like, clock, 3);
    } else if state == Listening {
      ThenMoves(p, SpeechStopped, clock, 1, true, true, Listening, like);
      heard := Then(p, SpeechStopped, clock, 1);
      live, unmarked := Lives(like, clock, 2), Lives(like, clock, 3);
    }
    if state != Submitting {
      ThenMoves(heard, SttFinal, clock, 2, live, unmarked, Transcribing, like);
      LiveUpTo(like, Skipped(state), clock);
    }
  }

  lemma LiveUpTo(like: Session, first: nat, clock: nat -> nat)
    requires first <= 2
    ensures LiveFrom(like, first, 2, clock) <==>
            && Lives(like, clock, 4) && (first <= 1 ==> Lives(like, clock, 2) && Lives(like, clock, 3))
            && (first == 0 ==> Lives(like, clock, 0) && Lives(like, clock, 1))
  {
    hide Lives;
  }

  /** The appends from the submission on: 3 to 6, or 3 and 4 if the run raises. */
  lemma FinishSubmits(p: Progress, live: bool, unmarked: bool, like: Session, runReturns: bool, clock: nat -> nat)
    requires At(p, live, unmarked, Submitting, like)
    ensures
      var r := Finish(p, runReturns, clock);
      && (r.ok <==> runReturns && live && unmarked && LiveFrom(like, 3, 6, clock))
      && (r.ok ==> Current(r.session.log) == Some(Says(Speaking)))
      && (!runReturns && live && unmarked && LiveFrom(like, 3, 4, clock)
          ==> Current(r.session.log) == Some(Says(Submitting)))
  {
    var submitted := Then(p, CoreSubmitted, clock, 3);
    ThenMoves(p, CoreSubmitted, clock, 3, live, unmarked, Submitting, like);
    var live3 := live && unmarked && Lives(like, clock, 6);
    var uttered := ThenEntry(submitted, "voice_utterance", clock, 4);
    ThenEntryKeeps(submitted, "voice_utterance", clock, 4, live3, Lives(like, clock, 7), Submitting, like);
    var live4 := live3 && Lives(like, clock, 7) && Lives(like, clock, 8);
    var answered := Then(uttered, OutputText, clock, 5);
    ThenMoves(uttered, OutputText, clock, 5, live4, Lives(like, clock, 9), Submitting, like);
    var live5 := live4 && Lives(like, clock, 9) && Lives(like, clock, 10);
    ThenEntryKeeps(answered, "voice_response", clock, 6, live5, Lives(like, clock, 11), Speaking, like);
    hide Then, ThenEntry, Lives;
    FinishReadings(like, clock);
  }

  lemma FinishReadings(like: Session, clock: nat -> nat)
    ensures LiveFrom(like, 3, 4, clock) <==> Lives(like, clock, 6) && Lives(like, clock, 7) && Lives(like, clock, 8)
    ensures LiveFrom(like, 3, 6, clock) <==>
            && Lives(like, clock, 6) && Lives(like, clock, 7) && Lives(like, clock, 8) && Lives(like, clock, 9)
            && Lives(like, clock, 10) && Lives(like, clock, 11) && Lives(like, clock, 12)
  {
    hide Lives;
  }

  lemma JoinReadings(like: Session, first: nat, clock: nat -> nat)
    requires first <= 3
    ensures forall last | 4 <= last <= 6 ::
              LiveFrom(like, first, last, clock)
              <==> && (first == 3 || (LiveFrom(like, first, 2, clock) && Lives(like, clock, 5)))
                   && LiveFrom(like, 3, last, clock)
  {
    hide Lives;
  }

  /** Exactly when a spoken request goes through: the text and the voice profile
      are usable, the session is idle, armed, listening, transcribing or already
      submitting, the run returns, and the session survives every reading of the
      clock up to the last append. It then speaks. If only the run fails, it stays
      submitting, from where the text can be submitted again. */
  lemma SubmitExactly(s: Session, usable: bool, runReturns: bool, clock: nat -> nat)
    ensures
      var r := SubmitText(s, usable, runReturns, clock);
      var current := Current(s.log);
      && (r.ok <==> usable && runReturns && current.Some? && current.value.Says? && CanSubmit(current.value.state)
                    && LiveFrom(s, Skipped(current.value.state), 6, clock))
      && (r.ok ==> Current(r.session.log) == Some(Says(Speaking)))
      && (usable && !runReturns && current.Some? && current.value.Says? && CanSubmit(current.value.state)
          && LiveFrom(s, Skipped(current.value.state), 4, clock)
          ==> Current(r.session.log) == Some(Says(Submitting)))
  {
    var current := Current(s.log);
    if usable && current.Some? && !current.value.NoState? {
      var p := Progress(s, true);
      if current.value.Says? && CanSubmit(current.value.state) {
        var state := current.value.state;
        var n := Skipped(state);
        UtteranceSubmits(p, state, s, clock);
        FinishSubmits(ThenUtterance(p, Says(state), clock), n == 3 || LiveFrom(s, n, 2, clock),
                      n == 3 || Lives(s, clock, 5), s, runReturns, clock);
        JoinReadings(s, n, clock);
      } else {
        Refused(p, current.value, runReturns, clock);
      }
    }
  }

  /** From any other state the submission is refused. */
  lemma Refused(p: Progress, from: Stated, runReturns: bool, clock: nat -> nat)
    requires p.ok && Current(p.session.log) == Some(from) && !from.NoState? && !(from.Says? && CanSubmit(from.state))
    ensures !Finish(ThenUtterance(p, from, clock), runReturns, clock).ok
  {
    assert ThenUtterance(p, from, clock) == p;
    assert !Then(p, CoreSubmitted, clock, 3).ok;
  }
}
