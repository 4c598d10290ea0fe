/** A decoded audio timeline, as the segmentation code uses pydub's
    AudioSegment: one frame per millisecond, sliced by millisecond offsets,
    concatenated with `+`, and padded with synthesized silence. */
module Audio {

  /** One millisecond of decoded audio. */
  type Frame = int

  /** A decoded timeline: frame k covers milliseconds [k, k + 1). */
  type Track = seq<Frame>

  /** The frame `AudioSegment.silent` synthesizes. */
  const SILENT_FRAME: Frame := 0

  /** `PAUSE_DURATION_MS`: the gap put between two utterances of one speaker. */
  const PAUSE_DURATION_MS: nat := 500

  function Min(a: nat, b: nat): nat {
    if a <= b then a else b
  }

  /** `audio[start:end]` for non-negative millisecond offsets: both ends are
      clamped to the length of the timeline and an inverted window is empty,
      so the result is the part of [start, end) that the timeline covers. */
  function Slice(audio: Track, start: nat, end: nat): (r: Track)
    ensures |r| == if Min(end, |audio|) <= start then 0 else Min(end, |audio|) - start
    ensures forall k :: 0 <= k < |r| ==> r[k] == audio[start + k]
  {
    var s := Min(start, |audio|);
    var e := Min(end, |audio|);
    if s < e then audio[s..e] else []
  }

  /** `AudioSegment.silent(duration=n)` */
  function Silence(n: nat): (r: Track)
    ensures |r| == n
    ensures forall k :: 0 <= k < n ==> r[k] == SILENT_FRAME
  {
    seq(n, _ => SILENT_FRAME)
  }

  /** The total duration of a list of slices. */
  function TotalDuration(parts: seq<Track>): nat
  {
    if |parts| == 0 then 0 else TotalDuration(parts[..|parts| - 1]) + |parts[|parts| - 1]|
  }

  /** A combined speaker track: the first slice as it is, each later slice
      after a pause of `PAUSE_DURATION_MS` of silence. */
  function JoinWithPauses(parts: seq<Track>): Track
  {
    if |parts| == 0 then []
    else if |parts| == 1 then parts[0]
    else JoinWithPauses(parts[..|parts| - 1]) + Silence(PAUSE_DURATION_MS) + parts[|parts| - 1]
  }

  /** Where slice i begins in the combined track: after every earlier slice
      and one pause per earlier slice. */
  function Offset(parts: seq<Track>, i: nat): nat
    requires i <= |parts|
  {
    TotalDuration(parts[..i]) + PAUSE_DURATION_MS * i
  }

  /** A combined track of k >= 1 slices lasts as long as the slices together
      plus k - 1 pauses. */
  lemma {:induction false} JoinDuration(parts: seq<Track>)
    requires |parts| >= 1
    ensures |JoinWithPauses(parts)| == TotalDuration(parts) + PAUSE_DURATION_MS * (|parts| - 1)
  {
    if |parts| > 1 {
      var init := parts[..|parts| - 1];
      JoinDuration(init);
      assert TotalDuration(parts) == TotalDuration(init) + |parts[|parts| - 1]|;
    } else {
      assert TotalDuration(parts) == TotalDuration(parts[..0]) + |parts[0]|;
    }
  }

  /** A window inside the first part of a concatenation is a window of
      that part. */
  lemma WindowOfFront(a: Track, b: Track, lo: nat, hi: nat)
    requires lo <= hi <= |a|
    ensures (a + b)[lo..hi] == a[lo..hi]
  {
  }

  /** The last slice ends the combined track. */
  lemma JoinEnd(parts: seq<Track>)
    requires |parts| >= 1
    ensures |JoinWithPauses(parts)| == Offset(parts, |parts| - 1) + |parts[|parts| - 1]|
  {
    var n := |parts|;
    JoinDuration(parts);
    assert TotalDuration(parts[..n]) == TotalDuration(parts[..n - 1]) + |parts[n - 1]| by {
      assert parts[..n] == parts;
    }
  }

  /** Slice i of a combined track sits at Offset(parts, i), unchanged. */
  lemma {:induction false} JoinSliceAt(parts: seq<Track>, i: nat)
    requires i < |parts|
    ensures Offset(parts, i) + |parts[i]| <= |JoinWithPauses(parts)|
    ensures JoinWithPauses(parts)[Offset(parts, i)..Offset(parts, i) + |parts[i]|] == parts[i]
  {
    var n := |parts|;
    JoinEnd(parts);
    if n > 1 {
      var init := parts[..n - 1];
      var front := JoinWithPauses(init);
      var back := Silence(PAUSE_DURATION_MS) + parts[n - 1];
      var o := Offset(parts, i);
      assert JoinWithPauses(parts) == front + back;
      if i < n - 1 {
        JoinSliceAt(init, i);
        assert o == Offset(init, i) by {
          assert init[..i] == parts[..i];
        }
        WindowOfFront(front, back, o, o + |parts[i]|);
      } else {
        JoinDuration(init);
        assert |front| + PAUSE_DURATION_MS == o;
      }
    }
  }

  /** Every slice but the first is preceded by a full pause of silence. */
  lemma {:induction false} JoinPauseBefore(parts: seq<Track>, i: nat)
    requires 0 < i < |parts|
    ensures PAUSE_DURATION_MS <= Offset(parts, i) <= |JoinWithPauses(parts)|
    ensures JoinWithPauses(parts)[Offset(parts, i) - PAUSE_DURATION_MS..Offset(parts, i)] == Silence(PAUSE_DURATION_MS)
  {
    var n := |parts|;
    var init := parts[..n - 1];
    var front := JoinWithPauses(init);
    var back := Silence(PAUSE_DURATION_MS) + parts[n - 1];
    var o := Offset(parts, i);
    JoinEnd(parts);
    assert JoinWithPauses(parts) == front + back;
    if i < n - 1 {
      JoinPauseBefore(init, i);
      assert o == Offset(init, i) by {
        assert init[..i] == parts[..i];
      }
      WindowOfFront(front, back, o - PAUSE_DURATION_MS, o);
    } else {
      JoinDuration(init);
      assert |front| + PAUSE_DURATION_MS == o;
    }
  }

  /** The layout of a combined track: slice i sits at Offset(parts, i), each
      slice but the first is preceded by a full pause of silence, and the
      track ends with the last slice. Slices are laid out in the order given,
      never reordered or trimmed. */
  lemma JoinLayout(parts: seq<Track>, i: nat)
    requires i < |parts|
    ensures |JoinWithPauses(parts)| == Offset(parts, |parts| - 1) + |parts[|parts| - 1]|
    ensures Offset(parts, i) + |parts[i]| <= |JoinWithPauses(parts)|
    ensures JoinWithPauses(parts)[Offset(parts, i)..Offset(parts, i) + |parts[i]|] == parts[i]
    ensures i > 0 ==>
      JoinWithPauses(parts)[Offset(parts, i) - PAUSE_DURATION_MS..Offset(parts, i)] == Silence(PAUSE_DURATION_MS)
  {
    JoinEnd(parts);
    JoinSliceAt(parts, i);
    if i > 0 {
      JoinPauseBefore(parts, i);
    }
  }
}
