# TranscriptPro transcript playback, modelled in Dafny

TranscriptPro plays a YouTube video next to its transcript. While the video plays, the
transcript follows it. This project models the three pieces of logic behind that, and proves
what each one promises.

- **The caption reader** of the backend (`backend/routes/youtube.js`):
  - `parseVTTTime` reads a WebVTT timestamp `HH:MM:SS.mmm`. The timestamp syntax is in
    section 4.1 of the W3C WebVTT specification, "WebVTT file structure".
  - The line loop of `parseVTTFile` turns the text of a `.vtt` file into
    `{start, end, duration, text}` entries.
  - The filter in `checkAvailableCaptions` reads the language list from the output of
    `yt-dlp --list-subs`.
  - Module `Captions`, file `captions.dfy`. It uses the JavaScript string primitives of
    module `JsText` (`js_text.dfy`): `trim`, `includes`/`indexOf`, `split`/`join`, `padStart`,
    `Number`, `parseInt` and the decimal rendering of integers.
- **The player adapter** `YouTubePlayerIntegration` (`frontend/scripts/youtube-player.js`):
  - a ready flag that gates every command and every getter;
  - the state-code and error-code tables;
  - the state and time listeners, called in registration order;
  - the `isSyncing` flag, `formatTime`, and `destroy`.
  - Module `Player`, file `player.dfy`. The embedded IFrame player is an `EmbeddedPlayer`
    object that records the calls it receives.
- **The transcript sync controller** `TranscriptProApp` (`frontend/script.js`):
  - finds the sentence the video is in, keeping the old highlight in a gap;
  - starts and stops its sync interval;
  - dispatches player state names;
  - seeks to a sentence;
  - counts the words and phrases saved from a video;
  - builds the completion record.
  - Module `TranscriptApp`, file `app.dfy`. It drives the `Player` adapter it is given.

`wrappers.dfy` holds the `Option` type.

`parseVTTTime` returns seconds, with the milliseconds as a fraction. The model keeps the same
quantity as an exact whole number of milliseconds, 1000 times the source's value. A time may
also be NaN or `undefined`. Times in the player and the controller are seconds, as `real`.

The reader is specified twice. `Cues` is a reference definition: one entry per marker line,
holding the text of the lines up to the next marker. The loop (`ParseVttLines`) is proved to
compute it. A WebVTT writer (`RenderVtt`) is defined only to state a round trip: reading what
it writes gives back the captions written.

Where a plain reading of the behaviour and the code differ, the model follows the code:

- Non-final entries are pushed even when their text is empty.
- A malformed timestamp gives NaN, not an error.
- A marker line without `" --> "` gives an entry whose end is `undefined` and whose duration is
  NaN. `split` returns one piece there and nothing throws. Only an unreadable file reaches the
  `catch`.
- `seekToSentence` does not change `currentSentenceIndex`.
- The adapter's `destroy` leaves `isPlayerReady` set, so commands after it still reach the
  destroyed player.
- The controller's `destroy` clears the sync interval but keeps its handle. A later
  `startTranscriptSync` is then a no-op.
- `backend/routes/youtube.js` declares `parseVTTFile`, `parseVTTTime` and
  `checkAvailableCaptions` with method syntax outside any class, and uses `await` in a
  callback that is not `async`. The model takes these as the plain functions they evidently
  are.

## Model

| member | source | states |
|---|---|---|
| JsText.Trim | backend/routes/youtube.js:106-107 | `trim` is empty exactly for an all-whitespace line; otherwise it starts and ends with non-whitespace |
| JsText.TrimMargins | backend/routes/youtube.js:106-107 | `trim` is the slice of the line left once an all-whitespace margin is removed at each end |
| JsText.IndexOf | backend/routes/youtube.js:92 | `indexOf` gives -1 or a position where the substring occurs |
| JsText.IndexOfFirst | backend/routes/youtube.js:92 | no occurrence comes before the position `indexOf` finds, and there is none at all when it gives -1 |
| JsText.Split | backend/routes/youtube.js:86 | `split` gives at least one piece, and exactly one when the separator does not occur |
| JsText.SplitJoin | backend/routes/youtube.js:86 | joining the pieces of `split` with the separator gives back the string |
| JsText.SplitClean | backend/routes/youtube.js:97 | no piece of `split` contains the separator |
| JsText.SplitJoinChar | backend/routes/youtube.js:86 | splitting on a character undoes joining on it when no piece holds it |
| JsText.NatToString | frontend/scripts/youtube-player.js:287 | `toString` of a natural number is a non-empty digit run of that value |
| JsText.NatToStringNoLeadingZero | frontend/scripts/youtube-player.js:287 | `toString` writes no leading zero: only 0 itself starts with '0' |
| JsText.PadStart | frontend/scripts/youtube-player.js:287 | `padStart` reaches the width, keeps the string at the end and fills the front |
| JsText.ToNumberDigits | backend/routes/youtube.js:130 | `Number` reads a run of decimal digits as its value |
| JsText.ParseIntDigits | backend/routes/youtube.js:132 | `parseInt` reads a non-empty run of digits as its value |
| Captions.ParseVttTime | backend/routes/youtube.js:128-133 | a timestamp is never `undefined`, and one without '.' is NaN |
| Captions.ReadClock | backend/routes/youtube.js:129-130 | without a milliseconds part the time is NaN |
| Captions.ReadFieldValues | backend/routes/youtube.js:130-132 | fewer than three clock fields give NaN |
| Captions.ReadFields | backend/routes/youtube.js:128-133 | digit fields `H:M:S.mmm` read as `H*3600000 + M*60000 + S*1000 + mmm` ms |
| Captions.ParseRenderedTimestamp | backend/routes/youtube.js:128-133 | reading a rendered `HH:MM:SS.mmm` timestamp gives back its time |
| Captions.OpenEntry | backend/routes/youtube.js:97-103 | the entry a marker opens has `duration = end - start`, empty text and a defined start |
| Captions.MarkerPositions | backend/routes/youtube.js:92 | the marker positions are timing lines, in increasing order |
| Captions.MarkerPositionsComplete | backend/routes/youtube.js:92 | every timing line is among the marker positions |
| Captions.DropEmptyLast | backend/routes/youtube.js:112-114 | only the last entry is dropped, and only when its text is empty; the rest are kept in order |
| Captions.ParseVttFile | backend/routes/youtube.js:83-122 | an unreadable file gives []; otherwise the entries of `Cues` for its lines, each with `duration = end - start` |
| Captions.ParseVttLines | backend/routes/youtube.js:86-116 | the line loop returns exactly the reference entries `Cues(lines)`, each with `duration = end - start` |
| Captions.ReadLine | backend/routes/youtube.js:90-109 | one loop pass changes the pushed entries plus the open one exactly as one more line changes the reference entries |
| Captions.AllCuesSnoc | backend/routes/youtube.js:90-109 | a marker appends an empty entry, a text line extends the last entry's text, other lines change nothing |
| Captions.DropPending | backend/routes/youtube.js:111-114 | after the loop, the open entry is pushed exactly when its text is non-empty |
| Captions.MarkerLines | backend/routes/youtube.js:92-103 | the timing lines are exactly the lines holding "-->", and each opens the entry of its own times |
| Captions.NoMarkerNoCues | backend/routes/youtube.js:92-116 | content with no marker line gives no entries |
| Captions.CuesFollowMarkers | backend/routes/youtube.js:92-114 | one entry per marker in marker order, less the last one when its text is empty; each holds the text of the lines up to the next marker |
| Captions.CueCount | backend/routes/youtube.js:112-114 | the number of entries is the number of markers, or one less when the last body has no text |
| Captions.LastCueCount | backend/routes/youtube.js:112-114 | with at least one marker, the last entry is dropped exactly when its body has no text |
| Captions.CueTimesFollowMarkers | backend/routes/youtube.js:97-103 | each entry has the start, end and duration its own marker line gives |
| Captions.CueTextIsOneLine | backend/routes/youtube.js:106-107 | no entry text holds a line break or starts or ends with whitespace |
| Captions.AllCuesOfRendered | backend/routes/youtube.js:90-109 | the line kinds of written captions give back every caption written |
| Captions.ParseRendered | backend/routes/youtube.js:83-116 | reading a written file gives back the captions written, when the last one has text |
| Captions.FirstToken | backend/routes/youtube.js:149 | `split(' ')[0]` is the text before the first space: a prefix with no space, followed by a space or the end of the line |
| Captions.LineLanguage | backend/routes/youtube.js:148-150 | a line adds at most one language, non-empty and without spaces |
| Captions.Languages | backend/routes/youtube.js:147-150 | at most one language per line, each non-empty and without spaces |
| Captions.AvailableLanguages | backend/routes/youtube.js:142-150 | a failed command gives []; every language listed is non-empty and has no space |
| Captions.LanguagesAppend | backend/routes/youtube.js:147-150 | the languages of two blocks of lines come in block order |
| Captions.LanguagesMembers | backend/routes/youtube.js:147-150 | a language is listed exactly when it is the non-empty first token of a line holding "vtt" |
| Player.StateName | frontend/scripts/youtube-player.js:98-107 | "unknown" exactly for codes outside {-1, 0, 1, 2, 3, 5}; a known code's name maps back to it |
| Player.StateCode | frontend/scripts/youtube-player.js:98-105 | a state name maps back only to a code of the table |
| Player.StateNamesDistinct | frontend/scripts/youtube-player.js:98-105 | no two codes share a name of the table |
| Player.ErrorMessage | frontend/scripts/youtube-player.js:129-137 | "Unknown error" exactly for codes outside {2, 5, 100, 101, 150}; "Embedding not allowed" exactly for 101 and 150 |
| Player.ErrorMessagesDistinct | frontend/scripts/youtube-player.js:129-137 | only codes 101 and 150 share a message |
| Player.FormatTime | frontend/scripts/youtube-player.js:284-288 | `formatTime` is whole minutes, ':' and the seconds padded to two digits; its contract is stated by `FormatTimeReadsBack` (the text reads back as the whole seconds) |
| Player.FormatTimeReadsBack | frontend/scripts/youtube-player.js:284-288 | for a non-negative time the text is `M:SS`, with M written without leading zeros, SS two digits below 60 and `60*M + SS` the whole seconds |
| Player.MinutesColonSeconds | frontend/scripts/youtube-player.js:284-288 | minutes without a leading zero, ':' and two digits of seconds below 60 read back as `60*minutes + seconds`: the shape `formatTime` builds |
| Player.WholeMinutes | frontend/scripts/youtube-player.js:285-286 | `floor(s/60)` and `floor(s % 60)` are the whole seconds divided by 60 and their remainder |
| Player.Invocations | frontend/scripts/youtube-player.js:111-113 | `forEach` calls every listener once, in order, with the same argument |
| Player.RegisteredInOrder | frontend/scripts/youtube-player.js:257-266 | listeners registered one after another are called in that order |
| Player.EmbeddedPlayer.Receive | frontend/scripts/youtube-player.js:159-162 | a call to the embedded player is recorded and changes nothing else |
| Player.YouTubePlayerIntegration.constructor | frontend/scripts/youtube-player.js:7-15 | no player, not ready, no video and no listeners |
| Player.YouTubePlayerIntegration.CreatePlayer | frontend/scripts/youtube-player.js:61-77 | the created player is kept; nothing else changes |
| Player.YouTubePlayerIntegration.OnPlayerReady | frontend/scripts/youtube-player.js:83-92 | ready, time-update interval installed, ready event sent |
| Player.YouTubePlayerIntegration.OnPlayerStateChange | frontend/scripts/youtube-player.js:97-121 | every state listener is called once in order with the mapped name; "playing" sets `isSyncing`, "paused"/"ended" clear it, other names keep it |
| Player.YouTubePlayerIntegration.Notify | frontend/scripts/youtube-player.js:111-113 | the loop calls the listeners exactly as `Invocations` lists them |
| Player.YouTubePlayerIntegration.OnPlayerError | frontend/scripts/youtube-player.js:126-144 | one error event with the code unchanged and its table message |
| Player.YouTubePlayerIntegration.LoadVideo | frontend/scripts/youtube-player.js:149-165 | before ready: the call waits for a retry, the video id is unchanged and nothing loads; when ready: the video becomes current and loads from `startSeconds` (default 0) |
| Player.YouTubePlayerIntegration.RetryLoad | frontend/scripts/youtube-player.js:150-153 | the oldest waiting load is made again, and waits again while not ready; the player's state, time and duration are unchanged |
| Player.YouTubePlayerIntegration.Play | frontend/scripts/youtube-player.js:170-174 | forwarded only when ready |
| Player.YouTubePlayerIntegration.Pause | frontend/scripts/youtube-player.js:179-183 | forwarded only when ready |
| Player.YouTubePlayerIntegration.SeekTo | frontend/scripts/youtube-player.js:188-193 | forwarded as `(t, true)` only when ready |
| Player.YouTubePlayerIntegration.GetCurrentTime | frontend/scripts/youtube-player.js:198-200 | 0 before ready, the player's time after |
| Player.YouTubePlayerIntegration.GetDuration | frontend/scripts/youtube-player.js:205-207 | 0 before ready, the player's duration after |
| Player.YouTubePlayerIntegration.GetPlayerState | frontend/scripts/youtube-player.js:212-214 | -1 before ready, the player's state after |
| Player.YouTubePlayerIntegration.TimeUpdateTick | frontend/scripts/youtube-player.js:226-235 | time listeners are called, each once in order with the current time, only when ready and in state 1 |
| Player.YouTubePlayerIntegration.StartTranscriptSync | frontend/scripts/youtube-player.js:241-244 | `isSyncing` becomes true; nothing else changes |
| Player.YouTubePlayerIntegration.StopTranscriptSync | frontend/scripts/youtube-player.js:249-252 | `isSyncing` becomes false; nothing else changes |
| Player.YouTubePlayerIntegration.OnTimeUpdate | frontend/scripts/youtube-player.js:257-259 | the listener is appended after the earlier ones |
| Player.YouTubePlayerIntegration.OnStateChange | frontend/scripts/youtube-player.js:264-266 | the listener is appended after the earlier ones |
| Player.YouTubePlayerIntegration.Destroy | frontend/scripts/youtube-player.js:293-309 | interval cleared, player destroyed if created, both listener lists emptied, ready flag kept |
| TranscriptApp.ActiveIndex | frontend/script.js:333-335 | the first sentence with `start <= t < start + duration`; none exactly when no sentence covers t |
| TranscriptApp.ActiveIsTheCovering | frontend/script.js:333-335 | when sentences do not overlap, the sentence covering t is the one found |
| TranscriptApp.NewHighlight | frontend/script.js:333-341 | a sentence is selected only when one covers t and it is not the highlighted one |
| TranscriptApp.GapKeepsHighlight | frontend/script.js:338 | in a caption gap nothing new is selected |
| TranscriptApp.LearnedItems | frontend/script.js:196-199 | the filter keeps every item of the type with a context entry for the video, each as many times as the vocabulary holds it, and nothing else |
| TranscriptApp.LearnedCount | frontend/script.js:194-211 | the `.length` of the filtered vocabulary, at most the vocabulary length; `LearnedItems` fixes which items and how many, `WordsAndPhrases` and `SavingAWord` state how the counts behave |
| TranscriptApp.WordsAndPhrases | frontend/script.js:194-211 | each count is at most the vocabulary length, and so is their sum |
| TranscriptApp.SavingAWord | frontend/script.js:196-199 | an item saved from the video as a word adds one to the word count and nothing to the phrase count |
| TranscriptApp.CompletionRecord | frontend/script.js:169-179 | no record without user or video; otherwise completed, 100 percent, the player's duration, and the two counts |
| TranscriptApp.CompletionCounts | frontend/script.js:177-178 | the record's word and phrase counts add up to at most the vocabulary length |
| TranscriptApp.ErrorNotifications | frontend/script.js:131-141 | always the player's message; a second one only for codes 100 and 101 |
| TranscriptApp.ErrorNotificationsDistinct | frontend/script.js:133-140 | the second notification for 100 differs from the one for 101, and from the player's message |
| TranscriptApp.StartSync | frontend/script.js:347-354 | a no-op while a handle is held; otherwise syncing with a live interval |
| TranscriptApp.StopSync | frontend/script.js:365-372 | a no-op without a handle; otherwise not syncing and no interval |
| TranscriptApp.SyncIdempotent | frontend/script.js:347-372 | starting twice is starting once, stopping twice is stopping once, stop after start leaves nothing syncing |
| TranscriptApp.TranscriptProApp.constructor | frontend/script.js:7-31 | no user, no video, no sentences, no vocabulary, no highlight, no sync |
| TranscriptApp.TranscriptProApp.HighlightCurrentSentence | frontend/script.js:331-342 | a match that differs from the highlighted index is selected once and becomes the index; otherwise nothing changes |
| TranscriptApp.TranscriptProApp.StartTranscriptSync | frontend/script.js:347-360 | the sync fields become `StartSync` of the old ones; nothing else changes |
| TranscriptApp.TranscriptProApp.StopTranscriptSync | frontend/script.js:365-373 | the sync fields become `StopSync` of the old ones; nothing else changes |
| TranscriptApp.TranscriptProApp.SyncTick | frontend/script.js:354-359 | while the interval is live and the player is in state 1, the sentence at the player's time is highlighted |
| TranscriptApp.TranscriptProApp.HandlePlayerStateChange | frontend/script.js:109-126 | "playing" starts the sync, "paused" stops it, "ended" stops it and sends the completion record; other names change nothing |
| TranscriptApp.TranscriptProApp.HandleVideoEnd | frontend/script.js:146-155 | stops the sync, sends the completion record if there is one, congratulates |
| TranscriptApp.TranscriptProApp.SaveCompletionStats | frontend/script.js:168-189 | sends `CompletionRecord` with the player's duration, or nothing without user or video |
| TranscriptApp.TranscriptProApp.HandlePlayerError | frontend/script.js:131-141 | shows the notifications of `ErrorNotifications` |
| TranscriptApp.TranscriptProApp.SeekToSentence | frontend/script.js:378-384 | for an index with a sentence: seek to its start (forwarded if the player is ready), then select it; the highlighted index is unchanged; any other index does nothing |
| TranscriptApp.TranscriptProApp.Destroy | frontend/script.js:391-406 | the sync interval stops firing with its handle kept; the adapter is destroyed as its `destroy` promises: interval stopped, player destroyed, listener lists emptied, ready flag, video id, pending loads and player state kept |

## Left out

- Floating point: the model computes times exactly. It uses integer milliseconds in the
  reader and `real` seconds in the player and the controller. Float rounding is not modelled.
- `Number` forms beyond optionally signed decimal integers are read as NaN. These include
  exponents, fractions, hexadecimal and `Infinity`. The hexadecimal prefix of `parseInt` is
  also left out. Neither appears in a WebVTT timestamp.
- Negative, NaN and non-number inputs to `formatTime`: `FormatTimeReadsBack` covers non-negative times
  only. `FormatTime` computes texts such as "-1:-5" for negative times, as the source does, but
  no lemma describes them. NaN and non-numbers are not modelled.
- File and process I/O: `fs.readFileSync` becomes an optional content string, where `None`
  means the read threw. The `yt-dlp` runs by `exec` become an optional stdout. The route
  handlers, temp-dir creation, `cleanupTempFiles` and the video-details mapping are not part
  of this model.
- Timers: each `setInterval` firing and each 100 ms `loadVideo` retry is an explicit method
  call (`TimeUpdateTick`, `SyncTick`, `RetryLoad`). Real time and interleaving are not
  modelled.
- Script injection and `YT.Player` construction (`init`, `createPlayer`): the created player
  is passed to `CreatePlayer`.
- `window.dispatchEvent`, console logging, `showNotification` and `selectSentence` are
  recorded in ghost traces. Their effects on the page are not modelled.
- Listeners are identities. What a registered listener does is not composed with the adapter.
  The controller's handlers are modelled as its own methods. A listener that registers
  listeners during `forEach` is not modelled.
- `handleVideoTimeUpdate`: its DOM writes, including the progress percentage that divides by
  a duration that may be 0, are left out. Its remaining effect is
  `HighlightCurrentSentence`.
- `setupYouTubePlayerEvents`, `init`, `removeEventListeners` and the network calls of
  `loadVideo`/`loadOrCreateTranscript`/`createNewTranscript` are listener and network
  plumbing.
- `apiService.saveProgress` is a recorded call. Its network failure, which the `catch` only
  logs, is not modelled.
- Vocabulary items keep only their type and the video ids of their context entries. A
  `context` that is not a list is not modelled.
- `isSyncing` starts `undefined` in both classes; the model starts it `false`. Neither class
  reads it.
- JavaScript values of the wrong type are not modelled. These are a non-integer
  `event.data`, a non-integer sentence index, and a `videoId` that is not a string.
- `RenderVtt`, `RenderLines`, `MarkerLine` and `RenderTimestamp` are not in the source. They
  are a WebVTT writer, there only to state the round trip `ParseRendered`.
