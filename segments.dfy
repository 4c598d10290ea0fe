/** Speaker-segment assembly (`create_speaker_segments` in main.py): one pass
    over the transcript's utterances in transcript order builds, per speaker,
    a combined track (slices separated by pauses) and the list of individual
    slices; the output list then names every combined track and every
    individual slice. Nothing is sorted and overlapping utterances are not
    clamped. */
module Segments {
  import opened Audio
  import opened Text

  /** One entry of `transcript["utterances"]`: the speaker label and the
      utterance's window in milliseconds. */
  datatype Utterance = Utterance(speaker: string, start: nat, end: nat)

  /** One `(filename, audio)` pair of the output list. */
  datatype OutputFile = OutputFile(name: string, audio: Track)

  /** `f"speaker_{speaker}.mp3"`: the name of a combined track. */
  function CombinedName(speaker: string): string {
    "speaker_" + speaker + ".mp3"
  }

  /** `f"speaker_{speaker}_segment_{n}.mp3"`: the name of the n-th slice. */
  function SegmentName(speaker: string, n: nat): string {
    "speaker_" + speaker + "_segment_" + NatToString(n) + ".mp3"
  }

  predicate Occurs(us: seq<Utterance>, s: string) {
    exists k :: 0 <= k < |us| && us[k].speaker == s
  }

  /** The speakers in order of first appearance, each once: the key order
      of both dictionaries the loop fills, since a key is inserted when its
      speaker is first seen. */
  function SpeakersOf(us: seq<Utterance>): seq<string>
  {
    if |us| == 0 then []
    else
      var prev := SpeakersOf(us[..|us| - 1]);
      var last := us[|us| - 1].speaker;
      if last in prev then prev else prev + [last]
  }

  /** No speaker is listed twice. */
  lemma {:induction false} SpeakersDistinct(us: seq<Utterance>)
    ensures forall a, b :: 0 <= a < b < |SpeakersOf(us)| ==> SpeakersOf(us)[a] != SpeakersOf(us)[b]
  {
    if |us| > 0 {
      SpeakersDistinct(us[..|us| - 1]);
    }
  }

  /** A new speaker is appended to the key order; a known one leaves it as
      it is. */
  lemma SpeakersAppend(us: seq<Utterance>, u: Utterance)
    ensures SpeakersOf(us + [u]) == if u.speaker in SpeakersOf(us) then SpeakersOf(us) else SpeakersOf(us) + [u.speaker]
  {
    assert (us + [u])[..|us|] == us;
  }

  /** A speaker is a key exactly when some utterance belongs to it. */
  lemma {:induction false} SpeakersOfOccurs(us: seq<Utterance>, s: string)
    ensures s in SpeakersOf(us) <==> Occurs(us, s)
  {
    if |us| > 0 {
      var init := us[..|us| - 1];
      SpeakersOfOccurs(init, s);
      if Occurs(init, s) {
        var k :| 0 <= k < |init| && init[k].speaker == s;
        assert us[k].speaker == s;
      }
      if Occurs(us, s) && s != us[|us| - 1].speaker {
        var k :| 0 <= k < |us| && us[k].speaker == s;
        assert init[k].speaker == s;
      }
    }
  }

  /** The transcript positions of the utterances of speaker s. */
  function Positions(us: seq<Utterance>, s: string): seq<nat>
  {
    if |us| == 0 then []
    else
      var prev := Positions(us[..|us| - 1], s);
      if us[|us| - 1].speaker == s then prev + [|us| - 1] else prev
  }

  /** Every position of speaker s is an utterance of s. */
  lemma {:induction false} PositionsValid(us: seq<Utterance>, s: string)
    ensures forall i :: 0 <= i < |Positions(us, s)| ==> Positions(us, s)[i] < |us| && us[Positions(us, s)[i]].speaker == s
  {
    if |us| > 0 {
      var init := us[..|us| - 1];
      PositionsValid(init, s);
      var p := Positions(init, s);
      forall i | 0 <= i < |p| ensures us[p[i]] == init[p[i]] { }
    }
  }

  /** The positions of speaker s are ascending and include every utterance
      of s. */
  lemma {:induction false} PositionsComplete(us: seq<Utterance>, s: string)
    ensures forall i, j :: 0 <= i < j < |Positions(us, s)| ==> Positions(us, s)[i] < Positions(us, s)[j]
    ensures forall k :: 0 <= k < |us| && us[k].speaker == s ==> k in Positions(us, s)
  {
    if |us| > 0 {
      var init := us[..|us| - 1];
      PositionsComplete(init, s);
      PositionsValid(init, s);
      forall k | 0 <= k < |us| - 1 && us[k].speaker == s ensures k in Positions(us, s) {
        assert init[k].speaker == s;
      }
    }
  }

  /** The individual slices of speaker s, in transcript order:
      `speaker_individual_segments[s]` once the loop has seen `us`. */
  function SlicesOf(us: seq<Utterance>, s: string, audio: Track): seq<Track>
  {
    if |us| == 0 then []
    else
      var u := us[|us| - 1];
      SlicesOf(us[..|us| - 1], s, audio) + (if u.speaker == s then [Slice(audio, u.start, u.end)] else [])
  }

  /** The combined track of speaker s: `speaker_segments[s]` once the loop
      has seen `us`. */
  function CombinedTrack(us: seq<Utterance>, s: string, audio: Track): Track
  {
    JoinWithPauses(SlicesOf(us, s, audio))
  }

  /** One slice per utterance of the speaker. */
  lemma {:induction false} SlicesLength(us: seq<Utterance>, s: string, audio: Track)
    ensures |SlicesOf(us, s, audio)| == |Positions(us, s)|
  {
    if |us| > 0 {
      SlicesLength(us[..|us| - 1], s, audio);
    }
  }

  /** A speaker's individual list has exactly one entry per utterance of
      that speaker, in transcript order, and each entry is that utterance's
      window of the audio. */
  lemma {:induction false} SlicesAt(us: seq<Utterance>, s: string, audio: Track)
    ensures |SlicesOf(us, s, audio)| == |Positions(us, s)|
    ensures forall i :: 0 <= i < |Positions(us, s)| ==>
      && Positions(us, s)[i] < |us|
      && SlicesOf(us, s, audio)[i] == Slice(audio, us[Positions(us, s)[i]].start, us[Positions(us, s)[i]].end)
  {
    PositionsValid(us, s);
    if |us| > 0 {
      var init := us[..|us| - 1];
      var u := us[|us| - 1];
      SlicesAt(init, s, audio);
      PositionsValid(init, s);
      var p := Positions(init, s);
      var sl := SlicesOf(init, s, audio);
      forall i | 0 <= i < |p| ensures us[p[i]] == init[p[i]] { }
      if u.speaker == s {
        assert Positions(us, s) == p + [|us| - 1];
        assert SlicesOf(us, s, audio) == sl + [Slice(audio, u.start, u.end)];
      } else {
        assert Positions(us, s) == p;
        assert SlicesOf(us, s, audio) == sl;
      }
    }
  }

  /** A speaker has individual slices iff the speaker occurs in the
      transcript. */
  lemma SlicesExist(us: seq<Utterance>, s: string, audio: Track)
    ensures |SlicesOf(us, s, audio)| > 0 <==> s in SpeakersOf(us)
  {
    SlicesLength(us, s, audio);
    SpeakersOfOccurs(us, s);
    PositionsComplete(us, s);
    PositionsValid(us, s);
    var p := Positions(us, s);
    if s in SpeakersOf(us) {
      var k :| 0 <= k < |us| && us[k].speaker == s;
      assert k in p;
    }
    if |p| > 0 {
      assert us[p[0]].speaker == s;
    }
  }

  /** What one more utterance does to the per-speaker state: a new speaker
      is appended to the key order; that speaker's slices gain one entry; its
      combined track begins with the slice (new speaker) or gains a pause and
      the slice (seen speaker). */
  lemma AppendUtterance(us: seq<Utterance>, u: Utterance, audio: Track)
    ensures SpeakersOf(us + [u]) == if u.speaker in SpeakersOf(us) then SpeakersOf(us) else SpeakersOf(us) + [u.speaker]
    ensures SlicesOf(us + [u], u.speaker, audio) == SlicesOf(us, u.speaker, audio) + [Slice(audio, u.start, u.end)]
    ensures u.speaker !in SpeakersOf(us) ==> CombinedTrack(us + [u], u.speaker, audio) == Slice(audio, u.start, u.end)
    ensures u.speaker in SpeakersOf(us) ==>
      CombinedTrack(us + [u], u.speaker, audio) == CombinedTrack(us, u.speaker, audio) + (Silence(PAUSE_DURATION_MS) + Slice(audio, u.start, u.end))
  {
    var us' := us + [u];
    assert us'[..|us|] == us;
    SlicesExist(us, u.speaker, audio);
    var slices := SlicesOf(us', u.speaker, audio);
    if u.speaker in SpeakersOf(us) {
      assert slices[..|slices| - 1] == SlicesOf(us, u.speaker, audio);
    }
  }

  /** One more utterance adds a slice to its own speaker's list only. */
  lemma SlicesOfAppend(us: seq<Utterance>, u: Utterance, s: string, audio: Track)
    ensures SlicesOf(us + [u], s, audio)
         == if u.speaker == s then SlicesOf(us, s, audio) + [Slice(audio, u.start, u.end)] else SlicesOf(us, s, audio)
  {
    assert (us + [u])[..|us|] == us;
    assert SlicesOf(us, s, audio) + [] == SlicesOf(us, s, audio);
  }

  /** A speaker's first utterance sets the combined track to exactly its
      slice, with no leading pause. */
  lemma FirstUtteranceTrack(us: seq<Utterance>, k: nat, audio: Track)
    requires k < |us|
    requires !Occurs(us[..k], us[k].speaker)
    ensures CombinedTrack(us[..k + 1], us[k].speaker, audio) == Slice(audio, us[k].start, us[k].end)
  {
    assert us[..k + 1] == us[..k] + [us[k]];
    SpeakersOfOccurs(us[..k], us[k].speaker);
    AppendUtterance(us[..k], us[k], audio);
  }

  /** Every later utterance of an already-seen speaker appends a pause of
      `PAUSE_DURATION_MS` and then its slice to the combined track. */
  lemma LaterUtteranceTrack(us: seq<Utterance>, k: nat, audio: Track)
    requires k < |us|
    requires Occurs(us[..k], us[k].speaker)
    ensures CombinedTrack(us[..k + 1], us[k].speaker, audio)
         == CombinedTrack(us[..k], us[k].speaker, audio) + Silence(PAUSE_DURATION_MS) + Slice(audio, us[k].start, us[k].end)
  {
    assert us[..k + 1] == us[..k] + [us[k]];
    SpeakersOfOccurs(us[..k], us[k].speaker);
    AppendUtterance(us[..k], us[k], audio);
  }

  /** A speaker with n utterances gets a combined track as long as its n
      slices together plus n - 1 pauses; each slice counts in full, so time
      covered by two overlapping utterances of one speaker counts twice. */
  lemma TrackDuration(us: seq<Utterance>, s: string, audio: Track)
    requires s in SpeakersOf(us)
    ensures |CombinedTrack(us, s, audio)|
         == TotalDuration(SlicesOf(us, s, audio)) + PAUSE_DURATION_MS * (|Positions(us, s)| - 1)
  {
    SlicesLength(us, s, audio);
    SlicesExist(us, s, audio);
    JoinDuration(SlicesOf(us, s, audio));
  }

  /** The keys seen after the first k utterances are the first keys of the
      final order: speakers stay in order of first appearance. */
  lemma {:induction false} SpeakersGrow(us: seq<Utterance>, k: nat)
    requires k <= |us|
    ensures SpeakersOf(us[..k]) <= SpeakersOf(us)
  {
    if k < |us| {
      var init := us[..|us| - 1];
      assert us[..k] == init[..k];
      SpeakersGrow(init, k);
      var a := SpeakersOf(init[..k]);
      var b := SpeakersOf(init);
      var c := SpeakersOf(us);
      assert c == b || c == b + [us[|us| - 1].speaker];
      assert c[..|b|] == b;
      assert c[..|a|] == b[..|a|];
    } else {
      assert us[..k] == us;
    }
  }

  /** Two overlapping utterances of one speaker, (0, 1000) and (500, 1500):
      the combined track is 2500 ms long, and the overlap 500..1000 is heard
      twice, once in each slice. */
  lemma OverlapCountedTwice(audio: Track)
    requires |audio| >= 1500
    ensures var t := CombinedTrack([Utterance("A", 0, 1000), Utterance("A", 500, 1500)], "A", audio);
      |t| == 2500 && t[500..1000] == audio[500..1000] && t[1500..2000] == audio[500..1000]
  {
    var us := [Utterance("A", 0, 1000), Utterance("A", 500, 1500)];
    assert us[..1] == [Utterance("A", 0, 1000)];
    assert us[..1][..0] == [];
    assert SlicesOf(us[..1], "A", audio) == [Slice(audio, 0, 1000)];
    var slices := SlicesOf(us, "A", audio);
    assert slices == [Slice(audio, 0, 1000), Slice(audio, 500, 1500)];
    assert slices[..1] == [Slice(audio, 0, 1000)];
    assert JoinWithPauses(slices) == JoinWithPauses(slices[..1]) + Silence(500) + slices[1];
    var t := CombinedTrack(us, "A", audio);
    assert t == Slice(audio, 0, 1000) + Silence(500) + Slice(audio, 500, 1500);
  }

  /** The combined-track entries, one per key in key order. */
  function CombinedFiles(speakers: seq<string>, us: seq<Utterance>, audio: Track): seq<OutputFile>
  {
    if |speakers| == 0 then []
    else
      var s := speakers[|speakers| - 1];
      CombinedFiles(speakers[..|speakers| - 1], us, audio) + [OutputFile(CombinedName(s), CombinedTrack(us, s, audio))]
  }

  /** The numbered entries of one speaker's individual slices. */
  function SegmentFiles(speaker: string, slices: seq<Track>): seq<OutputFile>
  {
    if |slices| == 0 then []
    else
      SegmentFiles(speaker, slices[..|slices| - 1]) + [OutputFile(SegmentName(speaker, |slices|), slices[|slices| - 1])]
  }

  /** The numbered individual entries of every key, key by key. */
  function IndividualFiles(speakers: seq<string>, us: seq<Utterance>, audio: Track): seq<OutputFile>
  {
    if |speakers| == 0 then []
    else
      var s := speakers[|speakers| - 1];
      IndividualFiles(speakers[..|speakers| - 1], us, audio) + SegmentFiles(s, SlicesOf(us, s, audio))
  }

  /** The list `create_speaker_segments` returns. */
  function OutputFiles(us: seq<Utterance>, audio: Track): seq<OutputFile>
  {
    CombinedFiles(SpeakersOf(us), us, audio) + IndividualFiles(SpeakersOf(us), us, audio)
  }

  /** The number of utterances the given speakers have. */
  function UtteranceCount(speakers: seq<string>, us: seq<Utterance>): nat
  {
    if |speakers| == 0 then 0
    else UtteranceCount(speakers[..|speakers| - 1], us) + |Positions(us, speakers[|speakers| - 1])|
  }

  lemma {:induction false} CombinedFilesLength(speakers: seq<string>, us: seq<Utterance>, audio: Track)
    ensures |CombinedFiles(speakers, us, audio)| == |speakers|
  {
    if |speakers| > 0 {
      CombinedFilesLength(speakers[..|speakers| - 1], us, audio);
    }
  }

  lemma {:induction false} CombinedFilesAt(speakers: seq<string>, us: seq<Utterance>, audio: Track, k: nat)
    requires k < |speakers|
    ensures |CombinedFiles(speakers, us, audio)| == |speakers|
    ensures CombinedFiles(speakers, us, audio)[k] == OutputFile(CombinedName(speakers[k]), CombinedTrack(us, speakers[k], audio))
  {
    var n := |speakers|;
    var init := speakers[..n - 1];
    var front := CombinedFiles(init, us, audio);
    var entry := OutputFile(CombinedName(speakers[n - 1]), CombinedTrack(us, speakers[n - 1], audio));
    assert CombinedFiles(speakers, us, audio) == front + [entry];
    CombinedFilesLength(init, us, audio);
    if k < n - 1 {
      CombinedFilesAt(init, us, audio, k);
      assert init[k] == speakers[k];
    }
  }

  lemma {:induction false} SegmentFilesAt(speaker: string, slices: seq<Track>, i: nat)
    requires i < |slices|
    ensures |SegmentFiles(speaker, slices)| == |slices|
    ensures SegmentFiles(speaker, slices)[i] == OutputFile(SegmentName(speaker, i + 1), slices[i])
  {
    var n := |slices|;
    if i < n - 1 {
      SegmentFilesAt(speaker, slices[..n - 1], i);
    } else if n > 1 {
      SegmentFilesAt(speaker, slices[..n - 1], 0);
    }
  }

  lemma {:induction false} IndividualFilesLength(speakers: seq<string>, us: seq<Utterance>, audio: Track)
    ensures |IndividualFiles(speakers, us, audio)| == UtteranceCount(speakers, us)
  {
    var n := |speakers|;
    if n > 0 {
      IndividualFilesLength(speakers[..n - 1], us, audio);
      var slices := SlicesOf(us, speakers[n - 1], audio);
      SlicesLength(us, speakers[n - 1], audio);
      if |slices| > 0 {
        SegmentFilesAt(speakers[n - 1], slices, 0);
      }
    }
  }

  /** The individual entries of key j occupy a block of consecutive places,
      after the entries of all earlier keys, numbered 1, 2, ... in transcript
      order. */
  lemma {:induction false} IndividualFilesAt(speakers: seq<string>, us: seq<Utterance>, audio: Track, j: nat, i: nat)
    requires j < |speakers|
    requires i < |Positions(us, speakers[j])|
    ensures |SlicesOf(us, speakers[j], audio)| == |Positions(us, speakers[j])|
    ensures UtteranceCount(speakers[..j], us) + i < |IndividualFiles(speakers, us, audio)|
    ensures IndividualFiles(speakers, us, audio)[UtteranceCount(speakers[..j], us) + i]
         == OutputFile(SegmentName(speakers[j], i + 1), SlicesOf(us, speakers[j], audio)[i])
  {
    var n := |speakers|;
    var init := speakers[..n - 1];
    var last := speakers[n - 1];
    IndividualFilesLength(init, us, audio);
    SlicesLength(us, last, audio);
    SlicesLength(us, speakers[j], audio);
    var front := IndividualFiles(init, us, audio);
    var block := SegmentFiles(last, SlicesOf(us, last, audio));
    assert IndividualFiles(speakers, us, audio) == front + block;
    if j < n - 1 {
      assert init[..j] == speakers[..j];
      IndividualFilesAt(init, us, audio, j, i);
    } else {
      assert speakers[..j] == init;
      SegmentFilesAt(last, SlicesOf(us, last, audio), i);
    }
  }

  /** Adding one utterance to the transcript adds one to the count of the
      speaker it belongs to and leaves every other speaker's count alone. */
  lemma {:induction false} CountAppend(speakers: seq<string>, us: seq<Utterance>, u: Utterance)
    requires forall a, b :: 0 <= a < b < |speakers| ==> speakers[a] != speakers[b]
    ensures UtteranceCount(speakers, us + [u]) == UtteranceCount(speakers, us) + (if u.speaker in speakers then 1 else 0)
  {
    var n := |speakers|;
    if n > 0 {
      var init := speakers[..n - 1];
      CountAppend(init, us, u);
      var s := speakers[n - 1];
      var us' := us + [u];
      assert us'[..|us|] == us;
      assert u.speaker in speakers <==> u.speaker in init || u.speaker == s;
      assert u.speaker == s ==> u.speaker !in init;
    }
  }

  /** Every utterance is counted once, under its own speaker. */
  lemma {:induction false} CountAll(us: seq<Utterance>)
    ensures UtteranceCount(SpeakersOf(us), us) == |us|
  {
    if |us| > 0 {
      var init := us[..|us| - 1];
      var u := us[|us| - 1];
      var prev := SpeakersOf(init);
      assert us == init + [u];
      CountAll(init);
      SpeakersDistinct(init);
      SpeakersAppend(init, u);
      CountAppend(prev, init, u);
      if u.speaker !in prev {
        var next := prev + [u.speaker];
        assert next[..|prev|] == prev;
        assert |Positions(init, u.speaker)| == 0 by {
          SlicesExist(init, u.speaker, []);
          SlicesLength(init, u.speaker, []);
        }
        assert Positions(us, u.speaker) == Positions(init, u.speaker) + [|us| - 1];
        assert UtteranceCount(next, us) == UtteranceCount(prev, us) + |Positions(us, u.speaker)|;
      }
    }
  }

  /** The output list has one entry per speaker plus one per utterance, so
      an empty transcript gives an empty list. */
  lemma OutputLength(us: seq<Utterance>, audio: Track)
    ensures |OutputFiles(us, audio)| == |SpeakersOf(us)| + |us|
  {
    var speakers := SpeakersOf(us);
    CountAll(us);
    IndividualFilesLength(speakers, us, audio);
    if |speakers| > 0 {
      CombinedFilesAt(speakers, us, audio, 0);
    }
  }

  /** The output list opens with one combined entry per speaker, in order of
      first appearance. */
  lemma OutputCombinedEntries(us: seq<Utterance>, audio: Track, k: nat)
    requires k < |SpeakersOf(us)|
    ensures k < |OutputFiles(us, audio)|
    ensures OutputFiles(us, audio)[k] == OutputFile(CombinedName(SpeakersOf(us)[k]), CombinedTrack(us, SpeakersOf(us)[k], audio))
  {
    CombinedFilesAt(SpeakersOf(us), us, audio, k);
  }

  /** After the combined entries come, speaker by speaker in the same order,
      the speaker's individual slices in consecutive places, numbered from 1. */
  lemma OutputSegmentEntries(us: seq<Utterance>, audio: Track, j: nat, i: nat)
    requires j < |SpeakersOf(us)|
    requires i < |Positions(us, SpeakersOf(us)[j])|
    ensures |SlicesOf(us, SpeakersOf(us)[j], audio)| == |Positions(us, SpeakersOf(us)[j])|
    ensures |SpeakersOf(us)| + UtteranceCount(SpeakersOf(us)[..j], us) + i < |OutputFiles(us, audio)|
    ensures OutputFiles(us, audio)[|SpeakersOf(us)| + UtteranceCount(SpeakersOf(us)[..j], us) + i]
         == OutputFile(SegmentName(SpeakersOf(us)[j], i + 1), SlicesOf(us, SpeakersOf(us)[j], audio)[i])
  {
    var speakers := SpeakersOf(us);
    CombinedFilesAt(speakers, us, audio, 0);
    IndividualFilesAt(speakers, us, audio, j, i);
  }

  /** A map that agrees with m[k := v] on its keys and its values is
      m[k := v]. */
  lemma UpdateExt<V>(m': map<string, V>, m: map<string, V>, k: string, v: V)
    requires forall x :: x in m' <==> x in m || x == k
    requires forall x :: x in m' ==> m'[x] == if x == k then v else m[x]
    ensures m' == m[k := v]
  {
  }

  /** `speaker_segments` once the loop has seen `us`. */
  function TrackMap(us: seq<Utterance>, audio: Track): map<string, Track>
  {
    map s | s in SpeakersOf(us) :: CombinedTrack(us, s, audio)
  }

  /** `speaker_individual_segments` once the loop has seen `us`. */
  function SliceMap(us: seq<Utterance>, audio: Track): map<string, seq<Track>>
  {
    map s | s in SpeakersOf(us) :: SlicesOf(us, s, audio)
  }

  /** One more utterance, on `speaker_segments`: a speaker seen for the
      first time gets its slice as track; a speaker seen before gets a pause
      and the slice appended to its track. */
  lemma TrackMapAppend(us: seq<Utterance>, u: Utterance, audio: Track)
    ensures u.speaker in TrackMap(us, audio) <==> u.speaker in SpeakersOf(us)
    ensures TrackMap(us + [u], audio)
         == (if u.speaker in TrackMap(us, audio)
             then TrackMap(us, audio)[u.speaker := TrackMap(us, audio)[u.speaker] + (Silence(PAUSE_DURATION_MS) + Slice(audio, u.start, u.end))]
             else TrackMap(us, audio)[u.speaker := Slice(audio, u.start, u.end)])
  {
    var m := TrackMap(us, audio);
    var m' := TrackMap(us + [u], audio);
    var seg := Slice(audio, u.start, u.end);
    var entry := if u.speaker in m then m[u.speaker] + (Silence(PAUSE_DURATION_MS) + seg) else seg;
    forall x ensures x in m' <==> x in m || x == u.speaker {
      SpeakersAppend(us, u);
    }
    forall x | x in m' ensures m'[x] == if x == u.speaker then entry else m[x] {
      TrackAppend(us, u, x, audio);
    }
    UpdateExt(m', m, u.speaker, entry);
  }

  /** The combined track of one speaker after one more utterance. */
  lemma TrackAppend(us: seq<Utterance>, u: Utterance, s: string, audio: Track)
    ensures CombinedTrack(us + [u], s, audio)
         == if s != u.speaker then CombinedTrack(us, s, audio)
            else if s in SpeakersOf(us) then CombinedTrack(us, s, audio) + (Silence(PAUSE_DURATION_MS) + Slice(audio, u.start, u.end))
            else Slice(audio, u.start, u.end)
  {
    if s == u.speaker {
      AppendUtterance(us, u, audio);
    } else {
      SlicesOfAppend(us, u, s, audio);
    }
  }

  /** One more utterance, on `speaker_individual_segments`: a speaker seen
      for the first time gets a one-entry list; a speaker seen before gets the
      slice appended to its list. */
  lemma SliceMapAppend(us: seq<Utterance>, u: Utterance, audio: Track)
    ensures u.speaker in SliceMap(us, audio) <==> u.speaker in SpeakersOf(us)
    ensures SliceMap(us + [u], audio)
         == (if u.speaker in SliceMap(us, audio)
             then SliceMap(us, audio)[u.speaker := SliceMap(us, audio)[u.speaker] + [Slice(audio, u.start, u.end)]]
             else SliceMap(us, audio)[u.speaker := [Slice(audio, u.start, u.end)]])
  {
    var m := SliceMap(us, audio);
    var m' := SliceMap(us + [u], audio);
    var seg := Slice(audio, u.start, u.end);
    var entry := if u.speaker in m then m[u.speaker] + [seg] else [seg];
    forall x ensures x in m' <==> x in m || x == u.speaker {
      SpeakersAppend(us, u);
    }
    forall x | x in m' ensures m'[x] == if x == u.speaker then entry else m[x] {
      SlicesOfAppend(us, u, x, audio);
      if x == u.speaker {
        SlicesExist(us, u.speaker, audio);
      }
    }
    UpdateExt(m', m, u.speaker, entry);
  }

  /** The utterance loop of `create_speaker_segments`: one pass over the
      utterances in transcript order, filling two insertion-ordered
      dictionaries, each a key list plus a map. */
  method CollectSegments(utterances: seq<Utterance>, audio: Track)
    returns (segmentKeys: seq<string>, speakerSegments: map<string, Track>,
             individualKeys: seq<string>, speakerIndividualSegments: map<string, seq<Track>>)
    ensures segmentKeys == SpeakersOf(utterances) && individualKeys == SpeakersOf(utterances)
    ensures speakerSegments == TrackMap(utterances, audio)
    ensures speakerIndividualSegments == SliceMap(utterances, audio)
  {
    segmentKeys, speakerSegments := [], map[];
    individualKeys, speakerIndividualSegments := [], map[];
    var i := 0;
    while i < |utterances|
      invariant i <= |utterances|
      invariant segmentKeys == SpeakersOf(utterances[..i]) && individualKeys == segmentKeys
      invariant speakerSegments == TrackMap(utterances[..i], audio)
      invariant speakerIndividualSegments == SliceMap(utterances[..i], audio)
    {
      var utterance := utterances[i];
      var speaker := utterance.speaker;
      var segment := Slice(audio, utterance.start, utterance.end);
      assert utterances[..i + 1] == utterances[..i] + [utterance];
      SpeakersAppend(utterances[..i], utterance);
      TrackMapAppend(utterances[..i], utterance, audio);
      SliceMapAppend(utterances[..i], utterance, audio);
      if speaker !in speakerSegments {
        speakerSegments := speakerSegments[speaker := segment];
        segmentKeys := segmentKeys + [speaker];
      } else {
        var pause := Silence(PAUSE_DURATION_MS);
        speakerSegments := speakerSegments[speaker := speakerSegments[speaker] + (pause + segment)];
      }
      if speaker !in speakerIndividualSegments {
        speakerIndividualSegments := speakerIndividualSegments[speaker := [segment]];
        individualKeys := individualKeys + [speaker];
      } else {
        speakerIndividualSegments := speakerIndividualSegments[speaker := speakerIndividualSegments[speaker] + [segment]];
      }
      i := i + 1;
    }
    assert utterances[..i] == utterances;
  }

  /** The first export loop of `create_speaker_segments`: one entry
      `speaker_{s}.mp3` per key of the combined-track dictionary, in key
      order. */
  method ListCombinedFiles(segmentKeys: seq<string>, speakerSegments: map<string, Track>,
                           ghost utterances: seq<Utterance>, ghost audio: Track)
    returns (outputs: seq<OutputFile>)
    requires forall s :: s in segmentKeys ==> s in speakerSegments && speakerSegments[s] == CombinedTrack(utterances, s, audio)
    ensures outputs == CombinedFiles(segmentKeys, utterances, audio)
  {
    outputs := [];
    var j := 0;
    while j < |segmentKeys|
      invariant j <= |segmentKeys|
      invariant outputs == CombinedFiles(segmentKeys[..j], utterances, audio)
    {
      var speaker := segmentKeys[j];
      assert segmentKeys[..j + 1][..j] == segmentKeys[..j];
      outputs := outputs + [OutputFile(CombinedName(speaker), speakerSegments[speaker])];
      j := j + 1;
    }
    assert segmentKeys[..j] == segmentKeys;
  }

  /** The inner export loop for one speaker: its slices in list order, each
      appended as `speaker_{s}_segment_{i}.mp3` with i counting from 1. */
  method AppendSegmentFiles(outputs0: seq<OutputFile>, speaker: string, segments: seq<Track>)
    returns (outputs: seq<OutputFile>)
    ensures outputs == outputs0 + SegmentFiles(speaker, segments)
  {
    outputs := outputs0;
    var k := 0;
    while k < |segments|
      invariant k <= |segments|
      invariant outputs == outputs0 + SegmentFiles(speaker, segments[..k])
    {
      assert segments[..k + 1][..k] == segments[..k];
      outputs := outputs + [OutputFile(SegmentName(speaker, k + 1), segments[k])];
      k := k + 1;
    }
    assert segments[..k] == segments;
  }

  /** The second export loop of `create_speaker_segments`: key by key of the
      individual dictionary, one entry `speaker_{s}_segment_{i}.mp3` per
      slice, numbered from 1, appended to `outputs`. */
  method ListIndividualFiles(outputs0: seq<OutputFile>, individualKeys: seq<string>,
                             speakerIndividualSegments: map<string, seq<Track>>,
                             ghost utterances: seq<Utterance>, ghost audio: Track)
    returns (outputs: seq<OutputFile>)
    requires forall s :: s in individualKeys ==>
      s in speakerIndividualSegments && speakerIndividualSegments[s] == SlicesOf(utterances, s, audio)
    ensures outputs == outputs0 + IndividualFiles(individualKeys, utterances, audio)
  {
    outputs := outputs0;
    var j := 0;
    while j < |individualKeys|
      invariant j <= |individualKeys|
      invariant outputs == outputs0 + IndividualFiles(individualKeys[..j], utterances, audio)
    {
      var speaker := individualKeys[j];
      var segments := speakerIndividualSegments[speaker];
      outputs := AppendSegmentFiles(outputs, speaker, segments);
      assert individualKeys[..j + 1][..j] == individualKeys[..j];
      assert IndividualFiles(individualKeys[..j + 1], utterances, audio)
          == IndividualFiles(individualKeys[..j], utterances, audio) + SegmentFiles(speaker, segments);
      assert outputs == outputs0 + IndividualFiles(individualKeys[..j + 1], utterances, audio);
      j := j + 1;
    }
    assert individualKeys[..j] == individualKeys;
  }

  /** `create_speaker_segments` after decoding the audio: the utterance
      loop, then the export loops; the list it returns is `OutputFiles`, whose
      shape the lemmas above describe. */
  method CreateSpeakerSegments(utterances: seq<Utterance>, audio: Track) returns (outputs: seq<OutputFile>)
    ensures outputs == OutputFiles(utterances, audio)
    ensures |outputs| == |SpeakersOf(utterances)| + |utterances|
  {
    var segmentKeys, speakerSegments, individualKeys, speakerIndividualSegments := CollectSegments(utterances, audio);
    outputs := ListCombinedFiles(segmentKeys, speakerSegments, utterances, audio);
    outputs := ListIndividualFiles(outputs, individualKeys, speakerIndividualSegments, utterances, audio);
    OutputLength(utterances, audio);
  }
}
