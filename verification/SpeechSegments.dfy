/** Endpointing (`speech/vad_silero.py`): per-chunk marks turned into segments.
    Times are chunk numbers, a segment is the chunks from `start` up to `end`. */
module SpeechSegments {

  const CHUNK_SIZE := 512
  const FULL_SCALE := 32768

  datatype Segment = Segment(start: nat, end: nat)

  // ------------------------------------------------------------ what is promised

  /** Non-empty, in order, and with at least one uncovered chunk in between. */
  predicate Ordered(segments: seq<Segment>, chunks: nat) {
    && (forall k | 0 <= k < |segments| :: segments[k].start < segments[k].end <= chunks)
    && (forall j, k | 0 <= j < k < |segments| :: segments[j].end < segments[k].start)
  }

  predicate Covers(segments: seq<Segment>, c: nat) {
    exists k | 0 <= k < |segments| :: segments[k].start <= c < segments[k].end
  }

  /** The maximal runs of marked chunks, all of them and nothing else. */
  predicate Exact(segments: seq<Segment>, marks: seq<bool>) {
    Ordered(segments, |marks|) && forall c | 0 <= c < |marks| :: Covers(segments, c) <==> marks[c]
  }

  function Speech(probs: seq<real>, threshold: real): seq<bool> {
    seq(|probs|, c requires 0 <= c < |probs| => probs[c] >= threshold)
  }

  /** A single quiet chunk between two loud ones is counted as speech. */
  function Bridged(loud: seq<bool>): seq<bool> {
    seq(|loud|, c requires 0 <= c < |loud| => loud[c] || (0 < c < |loud| - 1 && loud[c - 1] && loud[c + 1]))
  }

  function Energy(samples: seq<int>): int {
    if samples == [] then 0 else samples[0] * samples[0] + Energy(samples[1..])
  }

  function Chunks(audio: seq<int>): nat {
    |audio| / CHUNK_SIZE
  }

  /** The chunk's root mean square is at least 0.01 of full scale. */
  predicate IsLoud(audio: seq<int>, c: nat)
    requires c < Chunks(audio)
  {
    Energy(audio[c * CHUNK_SIZE..(c + 1) * CHUNK_SIZE]) * 100 * 100 >= CHUNK_SIZE * FULL_SCALE * FULL_SCALE
  }

  function Loud(audio: seq<int>): seq<bool> {
    seq(Chunks(audio), c requires 0 <= c < Chunks(audio) => IsLoud(audio, c))
  }

  // ------------------------------------------------------------------ the loops

  /** The marked chunks below `upTo` are covered, and the last segment is over. */
  predicate Tracked(segments: seq<Segment>, marks: seq<bool>, upTo: nat)
    requires upTo <= |marks|
  {
    && Ordered(segments, upTo)
    && (forall c | 0 <= c < upTo :: Covers(segments, c) <==> marks[c])
    && (|segments| > 0 ==> segments[|segments| - 1].end < upTo)
  }

  lemma TrackedRun(segments: seq<Segment>, marks: seq<bool>, start: nat, end: nat)
    requires start < end <= |marks| && Tracked(segments, marks, start)
    requires forall c | start <= c < end :: marks[c]
    ensures var more := segments + [Segment(start, end)];
            Ordered(more, end) && forall c | 0 <= c < end :: Covers(more, c) <==> marks[c]
  {
    Appended(segments, start, end);
    assert forall c | start <= c < end :: !Covers(segments, c);
  }

  lemma TrackedQuiet(segments: seq<Segment>, marks: seq<bool>, i: nat)
    requires i < |marks| && !marks[i] && Ordered(segments, i)
    requires forall c | 0 <= c < i :: Covers(segments, c) <==> marks[c]
    ensures Tracked(segments, marks, i + 1)
  {
  }

  /** The first loop: a run opens at a rising edge and closes at a falling one. */
  method ProbabilitySegments(probs: seq<real>, threshold: real) returns (segments: seq<Segment>)
    ensures Exact(segments, Speech(probs, threshold))
  {
    segments := [];
    var inSpeech, start := false, 0;
    ghost var marks := Speech(probs, threshold);
    for i := 0 to |probs|
      invariant inSpeech ==> start < i && forall c | start <= c < i :: marks[c]
      invariant Tracked(segments, marks, if inSpeech then start else i)
    {
      assert marks[i] <==> probs[i] >= threshold;
      if probs[i] >= threshold && !inSpeech {
        inSpeech, start := true, i;
      } else if probs[i] < threshold && inSpeech {
        TrackedRun(segments, marks, start, i);
        inSpeech, segments := false, segments + [Segment(start, i)];
        TrackedQuiet(segments, marks, i);
      } else if !inSpeech {
        TrackedQuiet(segments, marks, i);
      }
    }
    if inSpeech {
      TrackedRun(segments, marks, start, |probs|);
      segments := segments + [Segment(start, |probs|)];
    }
  }

  /** What the fallback knows after `i` chunks: the last segment ends on a loud
      chunk, nothing after it is loud, and singles before it are bridged. */
  predicate Tracks(segments: seq<Segment>, loud: seq<bool>, i: nat)
    requires i <= |loud|
  {
    && Ordered(segments, i)
    && (forall c | 0 <= c < i :: Covers(segments, c) <==> Bridged(loud[..i])[c])
    && (|segments| > 0 ==> loud[segments[|segments| - 1].end - 1])
    && (forall c | 0 <= c < i && (|segments| > 0 ==> segments[|segments| - 1].end <= c) :: !loud[c])
  }

  /** One more chunk can only change whether its predecessor is bridged. */
  lemma BridgedGrows(loud: seq<bool>, i: nat)
    requires i < |loud|
    ensures forall c | 0 <= c < i - 1 :: Bridged(loud[..i + 1])[c] == Bridged(loud[..i])[c]
    ensures i > 0 ==> Bridged(loud[..i])[i - 1] == loud[i - 1]
    ensures i > 0 ==> Bridged(loud[..i + 1])[i - 1] == (loud[i - 1] || (i > 1 && loud[i - 2] && loud[i]))
    ensures Bridged(loud[..i + 1])[i] == loud[i]
  {
  }

  lemma TracksQuiet(segments: seq<Segment>, loud: seq<bool>, i: nat)
    requires i < |loud| && !loud[i] && Tracks(segments, loud, i)
    ensures Tracks(segments, loud, i + 1)
  {
  }

  lemma TracksExtended(segments: seq<Segment>, loud: seq<bool>, i: nat)
    requires i < |loud| && loud[i] && Tracks(segments, loud, i)
    requires |segments| > 0 && i <= segments[|segments| - 1].end + 1
    ensures var last := |segments| - 1;
            Tracks(segments[last := Segment(segments[last].start, i + 1)], loud, i + 1)
  {
    Extended(segments, i + 1);
    BridgedGrows(loud, i);
    var last := segments[|segments| - 1];
    assert Covers(segments, last.end - 1);
    hide Bridged, Covers;
    var more := segments[|segments| - 1 := Segment(last.start, i + 1)];
    assert last.end == i || last.end == i - 1;
    forall c | 0 <= c < i + 1 ensures Covers(more, c) <==> Bridged(loud[..i + 1])[c] {
      assert Covers(more, c) <==> Covers(segments, c) || last.end <= c < i + 1;
      if c == i {
      } else if c < i - 1 {
        assert Covers(more, c) <==> Covers(segments, c);
      } else if c == last.end {
        assert loud[i - 2];
      } else {
        assert Covers(more, c);
      }
    }
  }

  lemma TracksOpened(segments: seq<Segment>, loud: seq<bool>, i: nat)
    requires i < |loud| && loud[i] && Tracks(segments, loud, i)
    requires |segments| > 0 ==> segments[|segments| - 1].end + 1 < i
    ensures Tracks(segments + [Segment(i, i + 1)], loud, i + 1)
  {
    Appended(segments, i, i + 1);
    BridgedGrows(loud, i);
    hide Bridged, Covers;
  }

  /** The fallback loop: a loud chunk extends the last segment when at most one
      chunk lies between them, and opens a new one otherwise. */
  method EnergySegments(audio: seq<int>) returns (segments: seq<Segment>)
    ensures Exact(segments, Bridged(Loud(audio)))
  {
    hide IsLoud, Covers;
    segments := [];
    ghost var loud := Loud(audio);
    for i := 0 to Chunks(audio)
      invariant Tracks(segments, loud, i)
    {
      if IsLoud(audio, i) {
        var last := |segments| - 1;
        if last >= 0 && i <= segments[last].end + 1 {
          TracksExtended(segments, loud, i);
          segments := segments[last := Segment(segments[last].start, i + 1)];
        } else {
          TracksOpened(segments, loud, i);
          segments := segments + [Segment(i, i + 1)];
        }
      } else {
        TracksQuiet(segments, loud, i);
      }
    }
    assert loud[..|loud|] == loud;
  }

  /** `speech_segments`: the energy loop runs only if the first found nothing. */
  method DetectSegments(probs: seq<real>, audio: seq<int>, threshold: real) returns (segments: seq<Segment>)
    ensures Exact(segments, if true in Speech(probs, threshold) then Speech(probs, threshold) else Bridged(Loud(audio)))
  {
    segments := ProbabilitySegments(probs, threshold);
    SomeSegment(segments, Speech(probs, threshold));
    if segments == [] {
      segments := EnergySegments(audio);
    }
  }

  lemma SomeSegment(segments: seq<Segment>, marks: seq<bool>)
    requires Exact(segments, marks)
    ensures segments == [] <==> true !in marks
  {
    if segments != [] {
      assert Covers(segments, segments[0].start);
    }
  }

  lemma Appended(segments: seq<Segment>, start: nat, end: nat)
    ensures forall c: nat :: Covers(segments + [Segment(start, end)], c) <==> Covers(segments, c) || start <= c < end
  {
    var more := segments + [Segment(start, end)];
    forall c: nat ensures Covers(more, c) <==> Covers(segments, c) || start <= c < end {
      assert more[|segments|] == Segment(start, end);
      if Covers(segments, c) {
        var k :| 0 <= k < |segments| && segments[k].start <= c < segments[k].end;
        assert more[k] == segments[k];
      }
    }
  }

  lemma Extended(segments: seq<Segment>, end: nat)
    requires |segments| > 0 && segments[|segments| - 1].start < segments[|segments| - 1].end <= end
    ensures
      var last := |segments| - 1;
      forall c: nat :: Covers(segments[last := Segment(segments[last].start, end)], c)
        <==> Covers(segments, c) || segments[last].end <= c < end
  {
    var last := |segments| - 1;
    var more := segments[last := Segment(segments[last].start, end)];
    forall c: nat ensures Covers(more, c) <==> Covers(segments, c) || segments[last].end <= c < end {
      if Covers(segments, c) {
        var k :| 0 <= k < |segments| && segments[k].start <= c < segments[k].end;
        assert more[k].start == segments[k].start && segments[k].end <= more[k].end;
      }
      if segments[last].end <= c < end {
        assert more[last].start <= c < more[last].end;
      }
    }
  }

  // ------------------------------------------------------------------ loudness

  lemma {:induction false} EnergyBetween(samples: seq<int>, low: int, high: int)
    requires low >= 0 && high >= 0
    ensures (forall k | 0 <= k < |samples| :: samples[k] >= low || samples[k] <= -low)
            ==> Energy(samples) >= |samples| * low * low
    ensures (forall k | 0 <= k < |samples| :: -high <= samples[k] <= high)
            ==> Energy(samples) <= |samples| * high * high
  {
    if samples != [] {
      var first, rest := samples[0], samples[1..];
      EnergyBetween(rest, low, high);
      assert forall k | 0 <= k < |rest| :: rest[k] == samples[k + 1];
      SquareBetween(first, low, high);
      AddOne(|rest|, low);
      AddOne(|rest|, high);
    }
  }

  lemma SquareBetween(x: int, low: int, high: int)
    requires low >= 0 && high >= 0
    ensures x >= low || x <= -low ==> x * x >= low * low
    ensures -high <= x <= high ==> x * x <= high * high
  {
    var size := if x >= 0 then x else -x;
    SameSquare(x);
    if size >= low { SquaresGrow(low, size); }
    if size <= high { SquaresGrow(size, high); }
  }

  lemma SameSquare(x: int)
    ensures (-x) * (-x) == x * x
  {
  }

  lemma MulMonotone(a: int, b: int, c: int)
    requires a <= b && 0 <= c
    ensures a * c <= b * c
  {
  }

  lemma SquaresGrow(a: int, b: int)
    requires 0 <= a <= b
    ensures a * a <= b * b
  {
    MulMonotone(a, b, a);
    MulMonotone(a, b, b);
  }

  lemma AddOne(n: int, x: int)
    ensures (n + 1) * x * x == n * x * x + x * x
  {
  }

  /** What counts as loud: a chunk whose samples are all at least 328 in size does,
      one whose samples are all at most 327 does not. */
  lemma LoudBySamples(audio: seq<int>, c: nat)
    requires c < Chunks(audio)
    ensures (forall k | c * CHUNK_SIZE <= k < (c + 1) * CHUNK_SIZE :: audio[k] >= 328 || audio[k] <= -328)
            ==> IsLoud(audio, c)
    ensures (forall k | c * CHUNK_SIZE <= k < (c + 1) * CHUNK_SIZE :: -327 <= audio[k] <= 327) ==> !IsLoud(audio, c)
  {
    var samples := audio[c * CHUNK_SIZE..(c + 1) * CHUNK_SIZE];
    EnergyBetween(samples, 328, 327);
    assert |samples| == CHUNK_SIZE;
    assert forall k | 0 <= k < CHUNK_SIZE :: samples[k] == audio[c * CHUNK_SIZE + k];
  }

  // ---------------------------------------------------------- what this settles

  lemma FirstStartsNoLater(a: seq<Segment>, b: seq<Segment>, chunks: nat)
    requires Ordered(a, chunks) && Ordered(b, chunks) && a != []
    requires forall c | 0 <= c < chunks :: Covers(a, c) <==> Covers(b, c)
    ensures b != [] && b[0].start <= a[0].start
  {
    assert Covers(a, a[0].start);
    var k :| 0 <= k < |b| && b[k].start <= a[0].start < b[k].end;
    assert k == 0 || b[0].end < b[k].start;
  }

  /** Between two segments there is always a gap. */
  lemma NeighboursUncovered(segments: seq<Segment>, chunks: nat, k: nat)
    requires Ordered(segments, chunks) && k < |segments|
    ensures !Covers(segments, segments[k].end)
    ensures segments[k].start > 0 ==> !Covers(segments, segments[k].start - 1)
  {
  }

  lemma FirstEndsNoLater(a: seq<Segment>, b: seq<Segment>, chunks: nat)
    requires Ordered(a, chunks) && Ordered(b, chunks) && a != [] && b != [] && a[0].start == b[0].start
    requires forall c | 0 <= c < chunks :: Covers(a, c) <==> Covers(b, c)
    ensures b[0].end <= a[0].end
  {
    NeighboursUncovered(a, chunks, 0);
    assert b[0].start <= a[0].end;
    assert b[0].end <= a[0].end || Covers(b, a[0].end);
  }

  lemma TailCovers(a: seq<Segment>, chunks: nat, c: nat)
    requires Ordered(a, chunks) && a != []
    ensures Covers(a[1..], c) <==> Covers(a, c) && c > a[0].end
  {
  }

  lemma {:induction false} SameCoverSameSegments(a: seq<Segment>, b: seq<Segment>, chunks: nat)
    requires Ordered(a, chunks) && Ordered(b, chunks)
    requires forall c | 0 <= c < chunks :: Covers(a, c) <==> Covers(b, c)
    ensures a == b
  {
    if a != [] && b != [] {
      FirstStartsNoLater(a, b, chunks);
      FirstStartsNoLater(b, a, chunks);
      FirstEndsNoLater(a, b, chunks);
      FirstEndsNoLater(b, a, chunks);
      forall c | 0 <= c < chunks ensures Covers(a[1..], c) <==> Covers(b[1..], c) {
        TailCovers(a, chunks, c);
        TailCovers(b, chunks, c);
      }
      SameCoverSameSegments(a[1..], b[1..], chunks);
      assert a == [a[0]] + a[1..] && b == [b[0]] + b[1..];
    } else if a != [] {
      FirstStartsNoLater(a, b, chunks);
    } else if b != [] {
      FirstStartsNoLater(b, a, chunks);
    }
  }

  /** The promise leaves no choice: one list of segments answers it. */
  lemma ExactIsUnique(a: seq<Segment>, b: seq<Segment>, marks: seq<bool>)
    requires Exact(a, marks) && Exact(b, marks)
    ensures a == b
  {
    SameCoverSameSegments(a, b, |marks|);
  }

  /** Segments are maximal: neither neighbour of a segment is marked. */
  lemma ExactIsMaximal(segments: seq<Segment>, marks: seq<bool>, k: nat)
    requires Exact(segments, marks) && k < |segments|
    ensures segments[k].start > 0 ==> !marks[segments[k].start - 1]
    ensures segments[k].end < |marks| ==> !marks[segments[k].end]
    ensures forall c | segments[k].start <= c < segments[k].end :: marks[c]
  {
  }

  /** The fallback's segments start and end on loud chunks, never hold two quiet
      chunks in a row, and lie at least two chunks apart. */
  lemma BridgesOnlySingles(segments: seq<Segment>, loud: seq<bool>, k: nat)
    requires Exact(segments, Bridged(loud)) && k < |segments|
    ensures loud[segments[k].start] && loud[segments[k].end - 1]
    ensures forall c | segments[k].start <= c < segments[k].end - 1 :: loud[c] || loud[c + 1]
    ensures k + 1 < |segments| ==> segments[k].end + 2 <= segments[k + 1].start
  {
    var marks, s := Bridged(loud), segments[k];
    ExactIsMaximal(segments, marks, k);
    assert marks[s.start] && marks[s.end - 1];
    forall c | s.start <= c < s.end - 1 ensures loud[c] || loud[c + 1] { assert marks[c]; }
    if k + 1 < |segments| {
      var next := segments[k + 1];
      ExactIsMaximal(segments, marks, k + 1);
      assert s.end < next.start && marks[next.start];
    }
  }
}
