/**
 * The transcript sync controller of frontend/script.js: `TranscriptProApp` highlights the
 * sentence the video is in, starts and stops its sync interval as the player's state changes,
 * seeks the player to a chosen sentence, and records a completion entry with the number of
 * words and phrases saved from the video. Times are seconds, as `real`.
 */
module TranscriptApp {
  import opened Wrappers
  import opened Player

  // ---------------------------------------------------------------------------------------
  // The active sentence

  /** A transcript sentence, by its timing. */
  datatype Sentence = Sentence(start: real, duration: real)

  /** The sentence is on screen at time t: from its start up to, not including, its end. */
  predicate Covers(s: Sentence, t: real) {
    s.start <= t < s.start + s.duration
  }

  /** `findIndex` over the sentences: the first one that covers t, if any. */
  function ActiveIndex(sentences: seq<Sentence>, t: real): (i: Option<nat>)
    ensures i.Some? ==> i.value < |sentences| && Covers(sentences[i.value], t)
    ensures i.Some? ==> forall j :: 0 <= j < i.value ==> !Covers(sentences[j], t)
    ensures i.None? <==> forall j :: 0 <= j < |sentences| ==> !Covers(sentences[j], t)
  {
    if sentences == [] then None
    else if Covers(sentences[0], t) then Some(0)
    else
      var rest := ActiveIndex(sentences[1..], t);
      assert forall j :: 1 <= j < |sentences| ==> sentences[j] == sentences[1..][j - 1];
      if rest.None? then None else Some(rest.value + 1)
  }

  /** Sentences that follow one another without overlapping. */
  predicate Consecutive(sentences: seq<Sentence>) {
    forall a, b :: 0 <= a < b < |sentences| ==> sentences[a].start + sentences[a].duration <= sentences[b].start
  }

  /** When sentences do not overlap, the first sentence covering t is the only one. */
  lemma ActiveIsTheCovering(sentences: seq<Sentence>, t: real, j: nat)
    requires Consecutive(sentences) && j < |sentences| && Covers(sentences[j], t)
    ensures ActiveIndex(sentences, t) == Some(j)
  {
  }

  /**
   * The sentence `highlightCurrentSentence` selects at time t, given the highlighted one: the
   * first covering sentence when there is one and it is not already highlighted.
   */
  function NewHighlight(sentences: seq<Sentence>, current: Option<nat>, t: real): (next: Option<nat>)
    ensures next.Some? ==> next == ActiveIndex(sentences, t) && next != current
    ensures next.None? ==> ActiveIndex(sentences, t).None? || ActiveIndex(sentences, t) == current
  {
    var i := ActiveIndex(sentences, t);
    if i.Some? && i != current then i else None
  }

  /** In a gap between sentences nothing new is selected, so the old highlight stays. */
  lemma GapKeepsHighlight(sentences: seq<Sentence>, current: Option<nat>, t: real)
    requires forall j :: 0 <= j < |sentences| ==> !Covers(sentences[j], t)
    ensures NewHighlight(sentences, current, t) == None
  {
  }

  // ---------------------------------------------------------------------------------------
  // Words and phrases saved from a video

  /** One entry of a vocabulary item's `context` list. */
  datatype ContextEntry = ContextEntry(videoId: Option<string>)

  /** A saved vocabulary item: its type ("word", "phrase", ...) and its `context` list, if it has one. */
  datatype VocabularyItem = VocabularyItem(kind: string, context: Option<seq<ContextEntry>>)

  /**
   * The filter of `getWordsLearnedCount` and `getPhrasesLearnedCount`: the item has the type and
   * a context entry whose video id equals the current video's (`undefined` matching `undefined`).
   */
  predicate SavedFrom(item: VocabularyItem, kind: string, videoId: Option<string>) {
    item.kind == kind && item.context.Some? && ContextEntry(videoId) in item.context.value
  }

  /** The items of one type saved from one video, in vocabulary order. */
  function LearnedItems(vocabulary: seq<VocabularyItem>, kind: string, videoId: Option<string>): (items: seq<VocabularyItem>)
    ensures forall x :: multiset(items)[x] == if SavedFrom(x, kind, videoId) then multiset(vocabulary)[x] else 0
    ensures forall x :: x in items <==> x in vocabulary && SavedFrom(x, kind, videoId)
    ensures |items| <= |vocabulary|
  {
    if vocabulary == [] then []
    else
      var rest := LearnedItems(vocabulary[1..], kind, videoId);
      assert vocabulary == [vocabulary[0]] + vocabulary[1..];
      if SavedFrom(vocabulary[0], kind, videoId) then [vocabulary[0]] + rest else rest
  }

  /** The `.length` of the filtered vocabulary. */
  function LearnedCount(vocabulary: seq<VocabularyItem>, kind: string, videoId: Option<string>): (n: nat)
    ensures n <= |vocabulary|
  {
    |LearnedItems(vocabulary, kind, videoId)|
  }

  /** Each count is at most the vocabulary size, and so is the sum of the word and phrase counts. */
  lemma {:induction false} WordsAndPhrases(vocabulary: seq<VocabularyItem>, videoId: Option<string>)
    ensures LearnedCount(vocabulary, "word", videoId) <= |vocabulary|
    ensures LearnedCount(vocabulary, "phrase", videoId) <= |vocabulary|
    ensures LearnedCount(vocabulary, "word", videoId) + LearnedCount(vocabulary, "phrase", videoId) <= |vocabulary|
  {
    if vocabulary != [] {
      WordsAndPhrases(vocabulary[1..], videoId);
    }
  }

  /** Adding an item saved from the video as a word raises the word count by one and leaves the phrase count. */
  lemma {:induction false} SavingAWord(vocabulary: seq<VocabularyItem>, item: VocabularyItem, videoId: Option<string>)
    requires SavedFrom(item, "word", videoId)
    ensures LearnedCount([item] + vocabulary, "word", videoId) == LearnedCount(vocabulary, "word", videoId) + 1
    ensures LearnedCount([item] + vocabulary, "phrase", videoId) == LearnedCount(vocabulary, "phrase", videoId)
  {
    assert ([item] + vocabulary)[1..] == vocabulary;
  }

  // ---------------------------------------------------------------------------------------
  // The completion record

  /** The video being watched, by id. */
  datatype Video = Video(videoId: string)

  /** The `progressData` record `saveCompletionStats` sends. */
  datatype Progress = Progress(
    videoId: string, completed: bool, completionPercentage: int, timeSpent: real,
    wordsSaved: nat, phrasesSaved: nat)

  /**
   * What `saveCompletionStats` sends: nothing without a signed-in user and a video; otherwise a
   * completed record at 100 percent with the words and phrases saved from the video.
   */
  function CompletionRecord(user: Option<string>, video: Option<Video>, vocabulary: seq<VocabularyItem>, timeSpent: real)
    : (record: Option<Progress>)
    ensures record.None? <==> user.None? || video.None?
    ensures record.Some? ==> var p := record.value;
      && p.videoId == video.value.videoId && p.completed && p.completionPercentage == 100
      && p.timeSpent == timeSpent
      && p.wordsSaved == LearnedCount(vocabulary, "word", Some(p.videoId))
      && p.phrasesSaved == LearnedCount(vocabulary, "phrase", Some(p.videoId))
  {
    if user.None? || video.None? then None
    else
      var id := video.value.videoId;
      Some(Progress(id, true, 100, timeSpent, LearnedCount(vocabulary, "word", Some(id)), LearnedCount(vocabulary, "phrase", Some(id))))
  }

  /** The record never claims more saved items than the vocabulary holds. */
  lemma CompletionCounts(user: Option<string>, video: Option<Video>, vocabulary: seq<VocabularyItem>, timeSpent: real)
    requires user.Some? && video.Some?
    ensures var p := CompletionRecord(user, video, vocabulary, timeSpent).value;
      p.wordsSaved + p.phrasesSaved <= |vocabulary|
  {
    WordsAndPhrases(vocabulary, Some(video.value.videoId));
  }

  // ---------------------------------------------------------------------------------------
  // Notifications

  /** A message shown to the user and its kind ("success", "error"). */
  datatype Notification = Notification(message: string, kind: string)

  /**
   * `handlePlayerError`: always the player's message; then a second, specific one for code 100
   * (not found or private) and code 101 (embedding refused); every other code gets no second one.
   */
  function ErrorNotifications(code: int, message: string): (shown: seq<Notification>)
    ensures |shown| == if code == 100 || code == 101 then 2 else 1
    ensures shown[0] == Notification("Player error: " + message, "error")
    ensures forall k :: 0 <= k < |shown| ==> shown[k].kind == "error"
  {
    [Notification("Player error: " + message, "error")] +
    if code == 100 then [Notification("Video not found or private", "error")]
    else if code == 101 then [Notification("Embedding not allowed by video owner", "error")]
    else []
  }

  /** The second notification tells code 100 from code 101. */
  lemma ErrorNotificationsDistinct(message: string)
    ensures ErrorNotifications(100, message)[1] != ErrorNotifications(101, message)[1]
    ensures ErrorNotifications(100, message)[1].message != "Player error: " + message
    ensures ErrorNotifications(101, message)[1].message != "Player error: " + message
  {
    assert ("Player error: " + message)[0] == 'P';
  }

  /** The notification `handleVideoEnd` shows. */
  const Completed := Notification("Video completed! Great job! \U{1F389}", "success")

  // ---------------------------------------------------------------------------------------
  // The sync interval

  /**
   * The sync fields: `isSyncing`, whether `syncInterval` holds a handle, and whether that
   * interval is still firing (`destroy` clears it but keeps the handle).
   */
  datatype SyncState = SyncState(isSyncing: bool, interval: bool, ticking: bool)

  /** `startTranscriptSync`: nothing while a handle is held; otherwise syncing, with a live interval. */
  function StartSync(s: SyncState): (r: SyncState)
    ensures r.interval
    ensures s.interval ==> r == s
    ensures !s.interval ==> r.isSyncing && r.ticking
  {
    if s.interval then s else SyncState(true, true, true)
  }

  /** `stopTranscriptSync`: nothing without a handle; otherwise not syncing, interval cleared and dropped. */
  function StopSync(s: SyncState): (r: SyncState)
    ensures !r.interval
    ensures !s.interval ==> r == s
    ensures s.interval ==> !r.isSyncing && !r.ticking
  {
    if !s.interval then s else SyncState(false, false, false)
  }

  /** Starting twice is starting once, stopping twice is stopping once, and stop undoes start. */
  lemma SyncIdempotent(s: SyncState)
    ensures StartSync(StartSync(s)) == StartSync(s)
    ensures StopSync(StopSync(s)) == StopSync(s)
    ensures !StopSync(StartSync(s)).isSyncing && !StopSync(StartSync(s)).ticking
  {
  }

  // ---------------------------------------------------------------------------------------
  // The controller

  /** What the controller loaded and does not change here: user, video, sentences, vocabulary. */
  datatype AppData = AppData(
    currentUser: Option<string>, currentVideo: Option<Video>,
    sentences: seq<Sentence>, vocabulary: seq<VocabularyItem>)

  class TranscriptProApp {
    const youtubePlayer: YouTubePlayerIntegration
    var currentUser: Option<string>
    var currentVideo: Option<Video>
    var sentences: seq<Sentence>
    var vocabulary: seq<VocabularyItem>
    /** `undefined` until the first sentence is highlighted. */
    var currentSentenceIndex: Option<nat>
    var isSyncing: bool
    var syncInterval: bool
    var syncTicking: bool
    /** The `selectSentence` calls, in order. */
    ghost var selected: seq<nat>
    ghost var notifications: seq<Notification>
    /** The records handed to `apiService.saveProgress`, in order. */
    ghost var savedProgress: seq<Progress>

    predicate Valid()
      reads this, youtubePlayer
    {
      youtubePlayer.Valid() && (syncTicking ==> syncInterval)
    }

    function Data(): AppData
      reads this
    {
      AppData(currentUser, currentVideo, sentences, vocabulary)
    }

    function Sync(): SyncState
      reads this
    {
      SyncState(isSyncing, syncInterval, syncTicking)
    }

    /** What `youtubePlayer.getDuration()` returns. */
    function PlayerDuration(): real
      reads this, youtubePlayer, youtubePlayer.player
      requires youtubePlayer.Valid()
    {
      if youtubePlayer.isPlayerReady then youtubePlayer.player.duration else 0.0
    }

    /** The constructor's fields, with the global player passed in. */
    constructor(player: YouTubePlayerIntegration)
      requires player.Valid()
      ensures Valid() && youtubePlayer == player
      ensures Data() == AppData(None, None, [], []) && currentSentenceIndex == None
      ensures Sync() == SyncState(false, false, false)
      ensures selected == [] && notifications == [] && savedProgress == []
    {
      youtubePlayer := player;
      currentUser, currentVideo := None, None;
      sentences, vocabulary := [], [];
      currentSentenceIndex := None;
      isSyncing, syncInterval, syncTicking := false, false, false;
      selected, notifications, savedProgress := [], [], [];
    }

    /**
     * `highlightCurrentSentence`: when a sentence covers t and it is not the highlighted one, it
     * is selected once and becomes the highlighted one; otherwise nothing changes.
     */
    method HighlightCurrentSentence(t: real)
      requires Valid()
      modifies this
      ensures Valid()
      ensures var next := NewHighlight(sentences, old(currentSentenceIndex), t);
        && currentSentenceIndex == (if next.Some? then next else old(currentSentenceIndex))
        && selected == old(selected) + (if next.Some? then [next.value] else [])
      ensures Data() == old(Data()) && Sync() == old(Sync())
      ensures notifications == old(notifications) && savedProgress == old(savedProgress)
    {
      var i := ActiveIndex(sentences, t);
      if i.Some? && i != currentSentenceIndex {
        selected := selected + [i.value];
        currentSentenceIndex := i;
      }
    }

    /** `startTranscriptSync`. */
    method StartTranscriptSync()
      requires Valid()
      modifies this
      ensures Valid() && Sync() == StartSync(old(Sync()))
      ensures Data() == old(Data()) && currentSentenceIndex == old(currentSentenceIndex)
      ensures selected == old(selected) && notifications == old(notifications) && savedProgress == old(savedProgress)
    {
      if syncInterval {
        return;
      }
      isSyncing := true;
      syncInterval, syncTicking := true, true;
    }

    /** `stopTranscriptSync`. */
    method StopTranscriptSync()
      requires Valid()
      modifies this
      ensures Valid() && Sync() == StopSync(old(Sync()))
      ensures Data() == old(Data()) && currentSentenceIndex == old(currentSentenceIndex)
      ensures selected == old(selected) && notifications == old(notifications) && savedProgress == old(savedProgress)
    {
      if !syncInterval {
        return;
      }
      isSyncing := false;
      syncInterval, syncTicking := false, false;
    }

    /**
     * One firing of the sync interval: only while it is live and the player is playing (state 1),
     * the sentence at the player's current time is highlighted.
     */
    method SyncTick()
      requires Valid()
      modifies this
      ensures Valid()
      ensures var playing := old(syncTicking) && youtubePlayer.isPlayerReady && youtubePlayer.player.state == 1;
        var next := if playing then NewHighlight(sentences, old(currentSentenceIndex), youtubePlayer.player.currentTime) else None;
        && currentSentenceIndex == (if next.Some? then next else old(currentSentenceIndex))
        && selected == old(selected) + (if next.Some? then [next.value] else [])
      ensures Data() == old(Data()) && Sync() == old(Sync())
      ensures notifications == old(notifications) && savedProgress == old(savedProgress)
    {
      if !syncTicking {
        return;
      }
      var state := youtubePlayer.GetPlayerState();
      if state == 1 {
        var currentTime := youtubePlayer.GetCurrentTime();
        HighlightCurrentSentence(currentTime);
      }
    }

    /**
     * `handlePlayerStateChange`: "playing" starts the sync, "paused" stops it, "ended" ends the
     * video; "buffering" and every other name change nothing.
     */
    method HandlePlayerStateChange(state: string)
      requires Valid()
      modifies this
      ensures Valid()
      ensures Sync() ==
        if state == "playing" then StartSync(old(Sync()))
        else if state in {"paused", "ended"} then StopSync(old(Sync()))
        else old(Sync())
      ensures var record := CompletionRecord(currentUser, currentVideo, vocabulary, PlayerDuration());
        && savedProgress == old(savedProgress) + (if state == "ended" && record.Some? then [record.value] else [])
        && notifications == old(notifications) + (if state == "ended" then [Completed] else [])
      ensures Data() == old(Data()) && currentSentenceIndex == old(currentSentenceIndex) && selected == old(selected)
    {
      if state == "playing" {
        StartTranscriptSync();
      } else if state == "paused" {
        StopTranscriptSync();
      } else if state == "ended" {
        HandleVideoEnd();
      }
    }

    /** `handleVideoEnd`: stop the sync, send the completion record, congratulate. */
    method HandleVideoEnd()
      requires Valid()
      modifies this
      ensures Valid() && Sync() == StopSync(old(Sync()))
      ensures var record := CompletionRecord(currentUser, currentVideo, vocabulary, PlayerDuration());
        savedProgress == old(savedProgress) + (if record.Some? then [record.value] else [])
      ensures notifications == old(notifications) + [Completed]
      ensures Data() == old(Data()) && currentSentenceIndex == old(currentSentenceIndex) && selected == old(selected)
    {
      StopTranscriptSync();
      SaveCompletionStats();
      notifications := notifications + [Completed];
    }

    /** `saveCompletionStats`: the record of `CompletionRecord`, with the player's duration as time spent. */
    method SaveCompletionStats()
      requires Valid()
      modifies this
      ensures Valid()
      ensures var record := CompletionRecord(currentUser, currentVideo, vocabulary, PlayerDuration());
        savedProgress == old(savedProgress) + (if record.Some? then [record.value] else [])
      ensures Data() == old(Data()) && Sync() == old(Sync()) && currentSentenceIndex == old(currentSentenceIndex)
      ensures selected == old(selected) && notifications == old(notifications)
    {
      if currentUser.None? || currentVideo.None? {
        return;
      }
      var timeSpent := youtubePlayer.GetDuration();
      var id := currentVideo.value.videoId;
      var record := Progress(id, true, 100, timeSpent,
        LearnedCount(vocabulary, "word", Some(id)), LearnedCount(vocabulary, "phrase", Some(id)));
      savedProgress := savedProgress + [record];
    }

    /** `handlePlayerError`, with the code and message of the player's error event. */
    method HandlePlayerError(code: int, message: string)
      requires Valid()
      modifies this
      ensures Valid() && notifications == old(notifications) + ErrorNotifications(code, message)
      ensures Data() == old(Data()) && Sync() == old(Sync()) && currentSentenceIndex == old(currentSentenceIndex)
      ensures selected == old(selected) && savedProgress == old(savedProgress)
    {
      notifications := notifications + [Notification("Player error: " + message, "error")];
      if code == 100 {
        notifications := notifications + [Notification("Video not found or private", "error")];
      } else if code == 101 {
        notifications := notifications + [Notification("Embedding not allowed by video owner", "error")];
      }
    }

    /**
     * `seekToSentence`: for an index with a sentence, the player is asked to seek to its start
     * and the sentence is selected; the highlighted index is left as it was. Any other index
     * does nothing.
     */
    method SeekToSentence(i: int)
      requires Valid()
      modifies this, youtubePlayer.player
      ensures Valid()
      ensures var p := youtubePlayer.player; p != null ==>
        && p.received == old(p.received) +
          (if 0 <= i < |sentences| && youtubePlayer.isPlayerReady then [PlayerCall.SeekTo(sentences[i].start, true)] else [])
        && p.state == old(p.state) && p.currentTime == old(p.currentTime) && p.duration == old(p.duration)
      ensures selected == old(selected) + (if 0 <= i < |sentences| then [i] else [])
      ensures Data() == old(Data()) && Sync() == old(Sync()) && currentSentenceIndex == old(currentSentenceIndex)
      ensures notifications == old(notifications) && savedProgress == old(savedProgress)
    {
      if 0 <= i < |sentences| {
        youtubePlayer.SeekTo(sentences[i].start);
        selected := selected + [i];
      }
    }

    /**
     * `destroy`: the sync interval stops firing (its handle is kept) and the player adapter is
     * destroyed, which empties its listener lists.
     */
    method Destroy()
      requires Valid()
      modifies this, youtubePlayer, youtubePlayer.player
      ensures Valid() && !syncTicking
      ensures isSyncing == old(isSyncing) && syncInterval == old(syncInterval)
      ensures youtubePlayer.onTimeUpdateCallbacks == [] && youtubePlayer.onStateChangeCallbacks == []
      ensures !youtubePlayer.timeUpdateRunning
      ensures youtubePlayer.player == old(youtubePlayer.player) && youtubePlayer.isPlayerReady == old(youtubePlayer.isPlayerReady)
      ensures youtubePlayer.currentVideoId == old(youtubePlayer.currentVideoId) && youtubePlayer.isSyncing == old(youtubePlayer.isSyncing)
      ensures youtubePlayer.pendingLoads == old(youtubePlayer.pendingLoads) && youtubePlayer.notices == old(youtubePlayer.notices)
      ensures var p := youtubePlayer.player; p != null ==>
        && p.received == old(p.received) + [DestroyPlayer]
        && p.state == old(p.state) && p.currentTime == old(p.currentTime) && p.duration == old(p.duration)
      ensures Data() == old(Data()) && currentSentenceIndex == old(currentSentenceIndex)
      ensures selected == old(selected) && notifications == old(notifications) && savedProgress == old(savedProgress)
    {
      if syncInterval {
        syncTicking := false;
      }
      youtubePlayer.Destroy();
    }
  }
}
