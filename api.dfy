/** The `VideoProcessing.post` handler of app.py: it checks the JSON body,
    runs the pipeline, and turns each `(filename, audio)` pair the pipeline
    returns into a display name and a payload. The URL parser and the
    pipeline itself are parameters. */
module Api {
  import opened Wrappers
  import opened Text
  import opened Audio
  import opened Segments

  /** A value of the request's JSON object: a string, or anything else. */
  datatype JsonValue = JString(s: string) | JOther

  type JsonObject = map<string, JsonValue>

  /** One entry of the `audio_files` list of a 200 answer; `data` stands for
      the base64 text of the exported audio. */
  datatype AudioFile = AudioFile(name: string, data: Track)

  /** The handler's answer: 200 with the audio files, or an abort. */
  datatype Response = Ok(audioFiles: seq<AudioFile>) | Abort(status: nat, description: string)

  /** A request that passed every check, with the stripped key. */
  datatype Accepted = Accepted(youtubeUrl: string, apiKey: string)

  const API_KEY_LENGTH: nat := 32
  const MISSING_FIELDS: string := "Invalid request. Please provide 'youtube_url' and 'api_key'."
  const BAD_API_KEY: string := "Invalid API key. It should be 32 characters long."
  const BAD_URL: string := "Invalid YouTube URL."
  /** `str(e)` of the IndexError a too-short `split_name` raises. */
  const INDEX_ERROR: string := "list index out of range"
  /** The framework's answer to an exception the handler does not catch. */
  const INTERNAL_ERROR: string := "Internal Server Error"

  /** `request.json` is truthy and holds both required keys. */
  predicate HasRequiredFields(body: Option<JsonObject>) {
    body.Some? && body.value != map[] && "youtube_url" in body.value && "api_key" in body.value
  }

  /** `re.match(r'^(www\.)?youtube\.com', netloc)`: the optional group is
      tried first and skipped on failure; nothing anchors the end. */
  predicate YoutubeHostMatch(netloc: string) {
    || (HasPrefix(netloc, "www.") && HasPrefix(netloc[4..], "youtube.com"))
    || HasPrefix(netloc, "youtube.com")
  }

  /** The host check accepts exactly the hosts that start with `youtube.com`
      or `www.youtube.com`. */
  lemma YoutubeHostIff(netloc: string)
    ensures YoutubeHostMatch(netloc) <==> HasPrefix(netloc, "youtube.com") || HasPrefix(netloc, "www.youtube.com")
  {
    assert "www.youtube.com" == "www." + "youtube.com";
    if |netloc| >= 15 {
      assert netloc[..15] == netloc[..4] + netloc[4..][..11];
    }
  }

  /** The match is a prefix match only: whatever follows an accepted host
      prefix is accepted too, such as `youtube.com.example.org`. */
  lemma YoutubeHostPrefixOnly(suffix: string)
    ensures YoutubeHostMatch("youtube.com" + suffix)
    ensures YoutubeHostMatch("www.youtube.com" + suffix)
    ensures YoutubeHostMatch("youtube.com.example.org")
  {
    assert ("youtube.com" + suffix)[..11] == "youtube.com";
    assert ("www.youtube.com" + suffix)[..15] == "www.youtube.com";
    assert "youtube.com.example.org"[..11] == "youtube.com";
    YoutubeHostIff("youtube.com" + suffix);
    YoutubeHostIff("www.youtube.com" + suffix);
  }

  /** Hosts the check refuses: another subdomain, other letter case, and a
      host that only ends in the domain. */
  lemma YoutubeHostRejects()
    ensures !YoutubeHostMatch("m.youtube.com")
    ensures !YoutubeHostMatch("YouTube.com")
    ensures !YoutubeHostMatch("notyoutube.com")
  {
    NotPrefixAt("m.youtube.com", "www.", 0);
    NotPrefixAt("m.youtube.com", "youtube.com", 0);
    NotPrefixAt("YouTube.com", "www.", 0);
    NotPrefixAt("YouTube.com", "youtube.com", 0);
    NotPrefixAt("notyoutube.com", "www.", 0);
    NotPrefixAt("notyoutube.com", "youtube.com", 0);
  }

  /** The checks at the top of `post`, in their order: required fields (400),
      the stripped key's length (400), the URL's host (400). A key that is
      not a string makes `.strip()` raise; a URL that is not a string makes
      `urlparse` raise or hands `re.match` a bytes host, which raises too;
      and some strings make `urlparse` raise. All of these happen outside the
      handler's `try`, so the framework answers 500. `netlocOf` stands for
      `urlparse(url).netloc` on a string URL, None when it raises. */
  function Validate(body: Option<JsonObject>, netlocOf: string -> Option<string>): (r: Result<Accepted, Response>)
    ensures !HasRequiredFields(body) ==> r == Failure(Abort(400, MISSING_FIELDS))
    ensures HasRequiredFields(body) && !body.value["api_key"].JString? ==> r == Failure(Abort(500, INTERNAL_ERROR))
    ensures HasRequiredFields(body) && body.value["api_key"].JString? && |Strip(body.value["api_key"].s)| != API_KEY_LENGTH
      ==> r == Failure(Abort(400, BAD_API_KEY))
    ensures HasRequiredFields(body) && body.value["api_key"].JString? && |Strip(body.value["api_key"].s)| == API_KEY_LENGTH
        && !body.value["youtube_url"].JString?
      ==> r == Failure(Abort(500, INTERNAL_ERROR))
    ensures HasRequiredFields(body) && body.value["api_key"].JString? && |Strip(body.value["api_key"].s)| == API_KEY_LENGTH
        && body.value["youtube_url"].JString? && netlocOf(body.value["youtube_url"].s).None?
      ==> r == Failure(Abort(500, INTERNAL_ERROR))
    ensures HasRequiredFields(body) && body.value["api_key"].JString? && |Strip(body.value["api_key"].s)| == API_KEY_LENGTH
        && body.value["youtube_url"].JString? && netlocOf(body.value["youtube_url"].s).Some?
        && !YoutubeHostMatch(netlocOf(body.value["youtube_url"].s).value)
      ==> r == Failure(Abort(400, BAD_URL))
    ensures r.Success? <==>
      && HasRequiredFields(body)
      && body.value["api_key"].JString?
      && |Strip(body.value["api_key"].s)| == API_KEY_LENGTH
      && body.value["youtube_url"].JString?
      && netlocOf(body.value["youtube_url"].s).Some?
      && var host := netlocOf(body.value["youtube_url"].s).value;
         HasPrefix(host, "youtube.com") || HasPrefix(host, "www.youtube.com")
    ensures r.Success? ==> r.value == Accepted(body.value["youtube_url"].s, Strip(body.value["api_key"].s))
    ensures r.Failure? ==> r.error.Abort? && (r.error.status == 400 || r.error.status == 500)
  {
    if !HasRequiredFields(body) then Failure(Abort(400, MISSING_FIELDS))
    else
      var youtubeUrl := body.value["youtube_url"];
      var rawKey := body.value["api_key"];
      if !rawKey.JString? then Failure(Abort(500, INTERNAL_ERROR))
      else
        var apiKey := Strip(rawKey.s);
        if |apiKey| != API_KEY_LENGTH then Failure(Abort(400, BAD_API_KEY))
        else if !youtubeUrl.JString? then Failure(Abort(500, INTERNAL_ERROR))
        else match netlocOf(youtubeUrl.s)
          case None => Failure(Abort(500, INTERNAL_ERROR))
          case Some(netloc) =>
            YoutubeHostIff(netloc);
            if !YoutubeHostMatch(netloc) then Failure(Abort(400, BAD_URL))
            else Success(Accepted(youtubeUrl.s, apiKey))
  }

  /** The display name of one output file: `filename.split('_')` must have a
      field 1 and a field 3, else the lookup raises an IndexError; the name is
      "Speaker " and field 1, followed by " Part " and field 3 when the
      pipeline returned more than one file. */
  function DisplayName(filename: string, total: nat): Option<string>
  {
    var fields := Split(filename, '_');
    if |fields| < 4 then None
    else Some("Speaker " + fields[1] + (if total > 1 then " Part " + fields[3] else ""))
  }

  /** The name of an individual slice splits into the four fields
      `speaker`, the speaker label, `segment` and the number with the
      extension, when the label has no underscore. */
  lemma SegmentNameFields(speaker: string, n: nat)
    requires '_' !in speaker
    ensures Split(SegmentName(speaker, n), '_') == ["speaker", speaker, "segment", NatToString(n) + ".mp3"]
  {
    var part := NatToString(n) + ".mp3";
    assert '_' !in part by {
      forall k | 0 <= k < |part| ensures part[k] != '_' {
        if k < |NatToString(n)| { assert part[k] == NatToString(n)[k]; } else { assert part[k] == ".mp3"[k - |NatToString(n)|]; }
      }
    }
    var tail := "segment" + ['_'] + part;
    var mid := speaker + ['_'] + tail;
    assert SegmentName(speaker, n) == "speaker" + ['_'] + mid;
    assert Split(tail, '_') == ["segment", part] by {
      SplitAtFirstSep("segment", '_', part);
      SplitWithoutSep(part, '_');
    }
    SplitAtFirstSep(speaker, '_', tail);
    SplitAtFirstSep("speaker", '_', mid);
  }

  /** For the name of an individual slice the display name recovers the
      speaker label, and the part keeps the `.mp3` extension; the part is
      shown only when there is more than one file overall. */
  lemma DisplayNameOfSegment(speaker: string, n: nat, total: nat)
    requires '_' !in speaker
    ensures DisplayName(SegmentName(speaker, n), total)
         == Some("Speaker " + speaker + (if total > 1 then " Part " + NatToString(n) + ".mp3" else ""))
  {
    SegmentNameFields(speaker, n);
    assert " Part " + (NatToString(n) + ".mp3") == " Part " + NatToString(n) + ".mp3";
  }

  /** The name of a combined track has fewer than four fields unless the
      speaker label holds two underscores or more, so its display name
      cannot be formed. */
  lemma DisplayNameOfCombined(speaker: string, total: nat)
    requires Occurrences(speaker, '_') < 2
    ensures |Split(CombinedName(speaker), '_')| < 4
    ensures DisplayName(CombinedName(speaker), total) == None
  {
    var name := CombinedName(speaker);
    var rest := speaker + ".mp3";
    assert |Split(rest, '_')| < 3 by {
      OccurrencesConcat(speaker, ".mp3", '_');
      OccurrencesAbsent(".mp3", '_');
      SplitCount(rest, '_');
    }
    assert Split(name, '_') == ["speaker"] + Split(rest, '_') by {
      assert name == "speaker" + ['_'] + rest;
      SplitAtFirstSep("speaker", '_', rest);
    }
  }

  /** The loop of `post` over the pipeline's `(filename, audio)` pairs: one
      entry per pair, in order, or the IndexError of the first name with
      fewer than four fields. */
  method BuildAudioFiles(speakersAudio: seq<OutputFile>) returns (r: Result<seq<AudioFile>, string>)
    ensures r.Success? <==> forall k :: 0 <= k < |speakersAudio| ==> |Split(speakersAudio[k].name, '_')| >= 4
    ensures r.Success? ==> |r.value| == |speakersAudio|
    ensures r.Success? ==> forall k :: 0 <= k < |speakersAudio| ==>
      && DisplayName(speakersAudio[k].name, |speakersAudio|).Some?
      && r.value[k] == AudioFile(DisplayName(speakersAudio[k].name, |speakersAudio|).value, speakersAudio[k].audio)
    ensures r.Failure? ==> r.error == INDEX_ERROR
  {
    var audioFiles: seq<AudioFile> := [];
    var i := 0;
    while i < |speakersAudio|
      invariant i <= |speakersAudio|
      invariant |audioFiles| == i
      invariant forall k :: 0 <= k < i ==> |Split(speakersAudio[k].name, '_')| >= 4
      invariant forall k :: 0 <= k < i ==>
        && DisplayName(speakersAudio[k].name, |speakersAudio|).Some?
        && audioFiles[k] == AudioFile(DisplayName(speakersAudio[k].name, |speakersAudio|).value, speakersAudio[k].audio)
    {
      var filename := speakersAudio[i].name;
      var splitName := Split(filename, '_');
      if |splitName| < 4 {
        return Failure(INDEX_ERROR);
      }
      var speakerName := splitName[1];
      var partNumber := splitName[3];
      var displayName := "Speaker " + speakerName;
      if |speakersAudio| > 1 {
        displayName := displayName + " Part " + partNumber;
      }
      audioFiles := audioFiles + [AudioFile(displayName, speakersAudio[i].audio)];
      i := i + 1;
    }
    return Success(audioFiles);
  }

  /** `VideoProcessing.post`: the checks, then the pipeline (`process`,
      given the stripped key and the URL; a Failure is the exception it
      raises), then the output loop. Inside the `try`, any exception becomes
      a 500 carrying its message. */
  method Post(body: Option<JsonObject>, netlocOf: string -> Option<string>,
              process: (string, string) -> Result<seq<OutputFile>, string>)
    returns (response: Response)
    ensures Validate(body, netlocOf).Failure? ==> response == Validate(body, netlocOf).error
    ensures Validate(body, netlocOf).Success? ==>
      var accepted := Validate(body, netlocOf).value;
      var outcome := process(accepted.apiKey, accepted.youtubeUrl);
      && (outcome.Failure? ==> response == Abort(500, outcome.error))
      && (outcome.Success? ==>
            (response.Ok? <==> forall k :: 0 <= k < |outcome.value| ==> |Split(outcome.value[k].name, '_')| >= 4))
      && (outcome.Success? && response.Ok? ==>
            && |response.audioFiles| == |outcome.value|
            && forall k :: 0 <= k < |outcome.value| ==>
                 && DisplayName(outcome.value[k].name, |outcome.value|).Some?
                 && response.audioFiles[k].name == DisplayName(outcome.value[k].name, |outcome.value|).value
                 && response.audioFiles[k].data == outcome.value[k].audio)
      && (outcome.Success? && !response.Ok? ==> response == Abort(500, INDEX_ERROR))
  {
    var checked := Validate(body, netlocOf);
    if checked.Failure? {
      return checked.error;
    }
    var speakersAudio := process(checked.value.apiKey, checked.value.youtubeUrl);
    if speakersAudio.Failure? {
      return Abort(500, speakersAudio.error);
    }
    var audioFiles := BuildAudioFiles(speakersAudio.value);
    if audioFiles.Failure? {
      return Abort(500, audioFiles.error);
    }
    return Ok(audioFiles.value);
  }

  /** If the pipeline returned the list `create_speaker_segments` builds, the
      handler could not answer 200 for any non-empty transcript whose first
      speaker label has fewer than two underscores: that list opens with the
      combined track `speaker_{s}.mp3`, whose name has no field 3. */
  lemma SegmentListRejected(us: seq<Utterance>, audio: Track)
    requires |us| > 0
    requires Occurrences(us[0].speaker, '_') < 2
    ensures |OutputFiles(us, audio)| > 0
    ensures OutputFiles(us, audio)[0].name == CombinedName(us[0].speaker)
    ensures |Split(OutputFiles(us, audio)[0].name, '_')| < 4
  {
    SpeakersGrow(us, 1);
    assert us[..1] == [] + [us[0]];
    SpeakersAppend([], us[0]);
    OutputCombinedEntries(us, audio, 0);
    DisplayNameOfCombined(us[0].speaker, 0);
  }
}
