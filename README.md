# Speaker isolator: a Dafny model

This project models the two pieces of logic in the speaker-isolator service.

- **Speaker-segment assembly** (`create_speaker_segments` in main.py). The
  input is the transcript's utterances (speaker label, start and end in
  milliseconds) and the decoded audio. One pass over the utterances, in
  transcript order, builds two insertion-ordered dictionaries. The first maps
  each speaker to a combined track; the second maps each speaker to the list
  of its individual slices. A speaker's first slice starts its combined track.
  Every later slice of that speaker is appended after `PAUSE_DURATION_MS`
  (500 ms) of silence. The function then returns one `speaker_{s}.mp3` entry
  per speaker, in order of first appearance. After those come the numbered
  `speaker_{s}_segment_{i}.mp3` entries of every speaker, in the same order.
- **The poll decision of `get_transcript`** (main.py). The first status
  response that is "completed" ends the loop with its transcript. The first
  one that is "error", or that carries an HTTP error code, ends it with a
  failure. Any other response leads to a five-second sleep and another poll.
- **The request handler `VideoProcessing.post`** (app.py). It checks that the
  JSON body holds both fields, that the stripped API key is 32 characters
  long, and that the URL's host prefix-matches `(www\.)?youtube\.com`. It then
  runs the pipeline and turns every `(filename, audio)` pair into a display
  name: the name is split on `_`, field 1 is the speaker, and field 3 is the
  part, shown only when there is more than one file overall.

Audio is a sequence of integer frames, one per millisecond. `audio[start:end]`
is a slice clamped to the track like a Python slice. `AudioSegment.silent` is
a run of zero frames. Each Python dictionary is a key-order sequence plus a
`map`. `create_speaker_segments` is a method with the source's four loops (the
utterance loop, two export loops and the nested `enumerate` loop), one method each,
proved equal to the function `OutputFiles`; the shape of that list is proved
in lemmas. The poll loop is a method over the sequence of responses the
endpoint gives, proved equal to `PollResult`. `post` is a method whose checks
are the function `Validate` and whose output loop is the method
`BuildAudioFiles`.

Modules: `Wrappers` (Option, Result), `Text` (Python's `split`, `strip`,
decimal formatting and prefix test), `Audio` (slices, silence, joined
tracks), `Segments` (main.py's assembly), `Transcript` (main.py's poll
decision) and `Api` (app.py's handler).

### Behaviour worth noting

- Utterances are taken in transcript order, with no sorting and no overlap
  clamp (main.py:115). Two overlapping utterances of one speaker are both
  extracted in full, so the overlap is heard twice
  (`Segments.OverlapCountedTwice`).
- Every later utterance of a speaker is preceded by 500 ms of silence in the
  combined track (main.py:124-126); the first one is not.
- Nothing cuts a track into time-bounded chunks. The numbered "parts" are the
  individual utterance slices, numbered from 1 (main.py:137-139).
- The handler appends " Part " and field 3 of the name whenever there is more
  than one file overall, whatever the number of speakers (app.py:51-52).
  Field 3 is `{i}.mp3`, extension included.
- An empty transcript gives an empty list, not an error
  (`Segments.OutputLength`).
- Polling fails only on status "error" or an HTTP error code, and keeps
  polling on every other status, including unknown ones (main.py:90-96).

## Model

| member | source | states |
|---|---|---|
| `Segments.CreateSpeakerSegments` | main.py:102-141 | the returned list is exactly `OutputFiles(utterances, audio)`, with one entry per distinct speaker plus one per utterance |
| `Segments.CollectSegments` | main.py:112-131 | after the utterance loop, both dictionaries' key orders are the speakers in order of first appearance; `speaker_segments` maps each speaker to its combined track and `speaker_individual_segments` to its list of slices |
| `Segments.ListCombinedFiles` | main.py:133-135 | the first export loop appends one `speaker_{s}.mp3` entry per key, in key order, carrying that speaker's combined track |
| `Segments.AppendSegmentFiles` | main.py:138-139 | the inner export loop appends a speaker's slices in list order as `speaker_{s}_segment_{i}.mp3`, with `i` counting from 1 |
| `Segments.ListIndividualFiles` | main.py:137-139 | the second export loop appends, key by key, the numbered entries of every speaker's slices after what is already in the list |
| `Segments.SpeakersAppend` | main.py:122-123 | an utterance of an unseen speaker appends that speaker to the key order; an utterance of a seen speaker leaves the order unchanged |
| `Segments.SpeakersDistinct` | main.py:112-113 | no speaker appears twice in the key order |
| `Segments.SpeakersOfOccurs` | main.py:115-116 | a speaker is a key exactly when some utterance carries that label |
| `Segments.SpeakersGrow` | main.py:115-131 | the keys seen after any prefix of the utterances are a prefix of the final key order, so the order of first appearance never changes |
| `Segments.PositionsValid` | main.py:115-116 | every recorded position of speaker s is an utterance of s |
| `Segments.PositionsComplete` | main.py:115-116 | a speaker's positions are strictly ascending and include every utterance of that speaker |
| `Segments.SlicesLength` | main.py:128-131 | a speaker's list of slices has one entry per utterance of that speaker |
| `Segments.SlicesAt` | main.py:120-131 | entry i of a speaker's list is the audio window of that speaker's i-th utterance in transcript order |
| `Segments.SlicesExist` | main.py:128-131 | a speaker has a non-empty list of slices exactly when the speaker is a key |
| `Segments.SlicesOfAppend` | main.py:128-131 | one more utterance appends its slice to its own speaker's list and changes no other speaker's list |
| `Segments.AppendUtterance` | main.py:115-131 | one more utterance: key order, that speaker's slices, and its combined track (the slice alone for a new speaker, else the old track, a pause and the slice) |
| `Segments.TrackAppend` | main.py:122-126 | one more utterance changes only its own speaker's combined track: it becomes the slice for a new speaker, else the old track followed by a pause and the slice |
| `Segments.TrackMapAppend` | main.py:122-126 | one step of the loop on `speaker_segments`: the new dictionary is the old one with the speaker's entry set to the slice, or to the old track plus pause plus slice |
| `Segments.SliceMapAppend` | main.py:128-131 | one step of the loop on `speaker_individual_segments`: the new dictionary is the old one with the speaker's list started as `[slice]` or extended by the slice |
| `Segments.FirstUtteranceTrack` | main.py:122-123 | a speaker's first utterance sets its combined track to exactly its slice, with no leading pause |
| `Segments.LaterUtteranceTrack` | main.py:124-126 | every later utterance of a seen speaker appends 500 ms of silence and then its slice to that speaker's track |
| `Segments.TrackDuration` | main.py:115-126 | a speaker with k utterances gets a combined track as long as its slices together plus 500·(k−1) ms |
| `Segments.OverlapCountedTwice` | main.py:115-126 | utterances (0, 1000) and (500, 1500) of one speaker give a 2500 ms track in which 500..1000 of the audio is heard twice, since nothing is clamped |
| `Segments.CombinedFilesLength` | main.py:133-135 | the combined entries number one per key |
| `Segments.CombinedFilesAt` | main.py:133-135 | combined entry k is named `speaker_{s}.mp3` for key k and carries that speaker's track |
| `Segments.SegmentFilesAt` | main.py:138-139 | a speaker's entry i is named with number i+1 and carries slice i |
| `Segments.IndividualFilesLength` | main.py:137-139 | the individual entries number as many as the keys' utterances together |
| `Segments.IndividualFilesAt` | main.py:137-139 | the entries of key j form a consecutive block after those of all earlier keys, numbered 1, 2, … in transcript order |
| `Segments.CountAppend` | main.py:115-131 | one more utterance adds one to its own speaker's count and nothing to any other speaker's count |
| `Segments.CountAll` | main.py:115-131 | every utterance is counted once, under its own speaker |
| `Segments.OutputLength` | main.py:133-141 | the returned list has one entry per distinct speaker plus one per utterance; an empty transcript gives an empty list |
| `Segments.OutputCombinedEntries` | main.py:133-135 | the list opens with the combined entries, one per speaker in order of first appearance |
| `Segments.OutputSegmentEntries` | main.py:137-139 | after the combined entries come each speaker's slices, in key order, consecutive and numbered from 1 |
| `Audio.Slice` | main.py:120 | `audio[start:end]` has the clamped length and frame k is frame start+k of the audio |
| `Audio.Silence` | main.py:125 | `AudioSegment.silent(n)` is n silent frames |
| `Audio.JoinDuration` | main.py:124-126 | a combined track of k ≥ 1 slices lasts as long as the slices together plus k−1 pauses |
| `Audio.JoinEnd` | main.py:124-126 | a combined track ends with its last slice |
| `Audio.JoinSliceAt` | main.py:122-126 | slice i sits unchanged at its offset: after all earlier slices and one pause per earlier slice |
| `Audio.JoinPauseBefore` | main.py:124-126 | every slice but the first is immediately preceded by a full pause of silence |
| `Audio.JoinLayout` | main.py:122-126 | the full layout of a combined track: slice positions, pauses and total length |
| `Transcript.Decide` | main.py:87-93 | a response that ends the loop succeeds exactly when its code is not an HTTP error and its status is "completed", and the result then carries that response's utterances |
| `Transcript.FirstDecisiveResponse` | main.py:85-96 | the outcome is decided by the first response that is not a "keep polling" one; without such a response the loop has not ended |
| `Transcript.CompletedIff` | main.py:85-96 | polling succeeds exactly when the first decisive response is "completed" with no error code, and the transcript is that response's |
| `Transcript.Poll` | main.py:85-96 | the loop's outcome is `PollResult`; it sleeps five seconds once per "keep polling" response before the decisive one and stops at that one, or is still polling when the responses run out |
| `Text.StripLeadingDropsSpace` | app.py:22 | what `lstrip()` removes is whitespace |
| `Text.StripTrailingDropsSpace` | app.py:22 | what `rstrip()` removes is whitespace |
| `Text.StripOfPadded` | app.py:22 | a string with no whitespace at either end, padded with whitespace, strips back to exactly itself |
| `Text.StripIgnoresPadding` | app.py:22 | whitespace added around a key does not change what it strips to |
| `Text.StripTrims` | app.py:22 | a stripped string has no whitespace at either end, and stripping again changes nothing |
| `Text.Split` | app.py:46 | `split('_')` gives at least one field, and no field contains the separator |
| `Text.SplitCount` | app.py:46 | `split` gives one field more than there are separators |
| `Text.SplitJoin` | app.py:46 | splitting a join of separator-free fields gives the fields back |
| `Text.JoinSplit` | app.py:46 | joining the fields of a split gives back the original string |
| `Text.NatToString` | main.py:139 | the decimal rendering of the part number is non-empty, all digits, and starts with '0' only for zero |
| `Text.NatToStringRoundTrip` | main.py:139 | reading the decimal rendering back gives the number |
| `Api.YoutubeHostIff` | app.py:30-32 | the host check accepts exactly the hosts that start with `youtube.com` or `www.youtube.com` |
| `Api.YoutubeHostPrefixOnly` | app.py:31 | the match has no end anchor: any suffix after an accepted prefix is accepted, such as `youtube.com.example.org` |
| `Api.YoutubeHostRejects` | app.py:31 | `m.youtube.com`, `YouTube.com` and `notyoutube.com` are refused |
| `Api.Validate` | app.py:16-32 | 400 with the fields message unless both fields are present. Otherwise 400 with the key message when the stripped key is not 32 long, whatever the URL. Otherwise 400 with the URL message when the host does not match. A non-string key, a non-string URL or a URL the parser raises on gives 500. Success exactly when every check passes, with the stripped key |
| `Api.SegmentNameFields` | app.py:46-48 | `speaker_{s}_segment_{i}.mp3` with `s` free of `_` splits into `speaker`, `s`, `segment` and `{i}.mp3` |
| `Api.DisplayNameOfSegment` | app.py:45-52 | for such a name the display name is `Speaker {s}`, followed by ` Part {i}.mp3` exactly when there is more than one file, extension kept |
| `Api.DisplayNameOfCombined` | app.py:45-48 | `speaker_{s}.mp3` with fewer than two `_` in `s` has fewer than four fields, so no display name can be formed |
| `Api.BuildAudioFiles` | app.py:39-56 | the output loop succeeds exactly when every name has at least four fields; it then gives one entry per pair, in order, named by the display rule and carrying that pair's audio; otherwise it fails with the IndexError message |
| `Api.Post` | app.py:16-59 | the checks' refusals are returned as they are; a pipeline exception becomes 500 with its message; otherwise 200 exactly when every name has four fields, with entry k named by the display rule and carrying pair k's audio, else 500 with the IndexError message |
| `Api.SegmentListRejected` | app.py:46-48 | the list `create_speaker_segments` returns for a non-empty transcript opens with `speaker_{s}.mp3`, which has fewer than four fields when `s` has fewer than two `_`; fed that list, the handler could not answer 200 |

## Left out

- Downloading the YouTube audio and transcoding mp4 to mp3 (`download_youtube_video`, main.py:31-50): media I/O through pytube and pydub.
- Uploading the audio to AssemblyAI (`upload_audio`, main.py:52-65): a network call.
- Submitting the transcription job inside `get_transcript` (main.py:74-83): a network call. `Transcript.Poll` starts after the job is submitted.
- The HTTP requests and the five-second `time.sleep` inside the poll loop: the model counts the sleeps and takes the responses as a sequence.
- Transcript.Poll: the source loops for ever while the service keeps answering "processing"; the model runs over a finite sequence of responses and reports `StillPolling` when they run out.
- Transcript.Decide: a response whose JSON lacks `status`, or that cannot be decoded, is not modelled; `raise_for_status` is modelled as failing for codes 400 to 599.
- Decoding and encoding audio (`AudioSegment.from_file`, `export`, main.py:110, app.py:42) and base64 (app.py:43): codecs are outside the model, which uses abstract frame sequences.
- Api.BuildAudioFiles: the `data` field carries the track itself rather than its base64 mp3 encoding.
- Audio.Slice: one frame per millisecond; pydub's sample rate, channels and the rate conversion when slices and silence are joined are not modelled.
- Negative utterance times are not modelled (start and end are natural numbers); Python would count them from the end of the track.
- The zip-file endpoint `process_video_endpoint` in main.py (main.py:146-191): glue around the same pipeline. There, the `abort(400)` calls sit inside `try` and so come back as 500.
- `process_video`, which app.py imports, is not part of this model. `Api.Post` takes it as a parameter returning the `(filename, audio)` pairs or the message of the exception it raises.
- `urlparse` is a library call. `Api.Validate` takes the netloc of a string URL as a parameter; None stands for a string it raises on (such as an unbalanced `[` in the host). A URL that is not a string always ends in 500: `urlparse` raises on a truthy one, and `re.match` raises on the bytes host of a falsy one.
- `create_speaker_segments`'s own error paths are not modelled: a transcript whose `utterances` is missing or null, or an utterance lacking `speaker`, `start` or `end`, raises KeyError or TypeError (main.py:115-118). The model takes a ready-made sequence of utterances.
- Request bodies that are JSON but not objects (a list, a string, a number), and Flask's reaction to a non-JSON content type, are not modelled; the body is an optional map from keys to values.
- `print(api_key)` before the key-length refusal (app.py:26), logging, environment variables and app start-up: I/O only.
- `str.isspace` is modelled for the code points Python's `strip()` removes; Unicode normalisation and case are not involved.
