/** What a session must have heard to be where it is. */
module VoiceTurns {
  import opened Base
  import opened Voice
  import opened VoiceTheorems

  /** The transition table read backwards: from where, and by which frame, each state
      is entered, or kept. */
  predicate Enters(s: State, f: FrameType, t: State) {
    match t
    case Idle =>
      || (s == Idle && f in {SessionStarted, SessionIdle})
      || (s in {Listening, Recovering} && f == SessionIdle)
      || (s == Speaking && f == TtsDone)
    case Armed => s == Armed && f in {SessionStarted, SessionIdle}
    case Listening =>
      || (s in {Idle, Armed} && f in {WakeDetected, SpeechStarted})
      || (s == Listening && f in {SttPartial, Interruption})
      || (s == Speaking && f in {SpeechStarted, Interruption})
    case Transcribing => (s == Listening && f == SpeechStopped) || (s == Transcribing && f == SttPartial)
    case Submitting => (s == Transcribing && f == SttFinal) || (s == Submitting && f == CoreSubmitted)
    case Speaking => (s == Submitting && f == OutputText) || (s == Speaking && f == AudioChunk)
    case Recovering => s != Closed && f == ErrorFrame
    case Closed => s != Closed && f == SessionClosed
  }

  lemma EntersExactly(s: State, f: FrameType, t: State)
    ensures Next(Says(s), f) == Some(t) <==> Enters(s, f, t)
  {
  }

  lemma {:induction false} FoldByLast(s: State, frames: seq<FrameType>)
    requires frames != [] && Fold(s, frames).Some?
    ensures
      var n := |frames| - 1;
      Fold(s, frames[..n]).Some? && Next(Says(Fold(s, frames[..n]).value), frames[n]) == Fold(s, frames)
    decreases |frames|
  {
    hide Next;
    var n := |frames| - 1;
    if n > 0 {
      FoldByLast(Next(Says(s), frames[0]).value, frames[1..]);
      assert frames[1..][..n - 1] == frames[..n][1..] && frames[..n][0] == frames[0];
    }
  }

  /** From `i` on the frames are `first` and then any number of `more`. */
  predicate Then(frames: seq<FrameType>, i: nat, end: nat, first: FrameType, more: FrameType) {
    i < end <= |frames| && frames[i] == first && forall k | i < k < end :: frames[k] == more
  }

  /** Where the session began to be in a state that one frame leads to and one keeps. */
  lemma {:induction false} Since(start: State, frames: seq<FrameType>, t: State) returns (i: nat)
    requires start in {Idle, Armed} && Fold(start, frames) == Some(t) && t in {Transcribing, Submitting, Speaking}
    ensures
      var (from, first, more) := match t
        case Transcribing => (Listening, SpeechStopped, SttPartial)
        case Submitting => (Transcribing, SttFinal, CoreSubmitted)
        case _ => (Submitting, OutputText, AudioChunk);
      Then(frames, i, |frames|, first, more) && Fold(start, frames[..i]) == Some(from)
    decreases |frames|
  {
    hide Next;
    FoldByLast(start, frames);
    var n := |frames| - 1;
    var before := Fold(start, frames[..n]).value;
    EntersExactly(before, frames[n], t);
    if before == t {
      i := Since(start, frames[..n], t);
      assert frames[..n][..i] == frames[..i];
    } else {
      i := n;
    }
  }

  /** The frames end in one whole turn: speech stopped, partial transcripts, the final
      one, its submission, the answer's text, and its audio so far. */
  predicate EndsInTurn(frames: seq<FrameType>, stopped: nat, heard: nat, answered: nat) {
    && Then(frames, stopped, heard, SpeechStopped, SttPartial)
    && Then(frames, heard, answered, SttFinal, CoreSubmitted)
    && Then(frames, answered, |frames|, OutputText, AudioChunk)
  }

  lemma SpeakingTurn(start: State, frames: seq<FrameType>) returns (stopped: nat, heard: nat, answered: nat)
    requires start in {Idle, Armed} && Fold(start, frames) == Some(Speaking)
    ensures EndsInTurn(frames, stopped, heard, answered)
    ensures Fold(start, frames[..stopped]) == Some(Listening)
  {
    hide Fold;
    answered := Since(start, frames, Speaking);
    heard := Since(start, frames[..answered], Submitting);
    assert frames[..answered][..heard] == frames[..heard];
    stopped := Since(start, frames[..heard], Transcribing);
    assert frames[..heard][..stopped] == frames[..stopped];
  }

  /** It never speaks unasked: over every history of frames, other entries, expiry and
      crashes, a session whose log says it is speaking was listening, and has since
      accepted exactly one whole turn. */
  lemma SpeaksOnlyWhenAsked(wakeEnabled: bool, expiresAt: Option<nat>, ops: seq<Op>)
    returns (stopped: nat, heard: nat, answered: nat)
    requires AllClean(ops) && Current(Run(Started(wakeEnabled, expiresAt), ops).log) == Some(Says(Speaking))
    ensures
      var frames := History(Started(wakeEnabled, expiresAt), ops);
      && EndsInTurn(frames, stopped, heard, answered)
      && Fold(if wakeEnabled then Armed else Idle, frames[..stopped]) == Some(Listening)
  {
    hide AllClean, Current, Run, History, Fold;
    LogRefinesAutomaton(wakeEnabled, expiresAt, ops);
    stopped, heard, answered :=
      SpeakingTurn(if wakeEnabled then Armed else Idle, History(Started(wakeEnabled, expiresAt), ops));
  }
}
