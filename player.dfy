/**
 * The player adapter of frontend/scripts/youtube-player.js: `YouTubePlayerIntegration` wraps
 * the embedded YouTube IFrame player, gates every command and getter on a ready flag, hands
 * player events to the callbacks registered with it and keeps an `isSyncing` flag. Times are
 * seconds, as `real`.
 */
module Player {
  import opened Wrappers
  import opened JsText

  // ---------------------------------------------------------------------------------------
  // The state and error tables

  /** The player state codes `onPlayerStateChange` has a name for. */
  predicate KnownState(code: int) {
    code == -1 || code == 0 || code == 1 || code == 2 || code == 3 || code == 5
  }

  /** The name `onPlayerStateChange` gives a state code; codes outside the table are "unknown". */
  function StateName(code: int): (name: string)
    ensures name == "unknown" <==> !KnownState(code)
    ensures KnownState(code) ==> StateCode(name) == Some(code)
  {
    if code == -1 then "unstarted"
    else if code == 0 then "ended"
    else if code == 1 then "playing"
    else if code == 2 then "paused"
    else if code == 3 then "buffering"
    else if code == 5 then "video cued"
    else "unknown"
  }

  /** The table read backwards: the code of a state name, if the table has one. */
  function StateCode(name: string): (code: Option<int>)
    ensures code.Some? ==> KnownState(code.value)
  {
    if name == "unstarted" then Some(-1)
    else if name == "ended" then Some(0)
    else if name == "playing" then Some(1)
    else if name == "paused" then Some(2)
    else if name == "buffering" then Some(3)
    else if name == "video cued" then Some(5)
    else None
  }

  /** Each name in the table belongs to exactly one code. */
  lemma StateNamesDistinct(a: int, b: int)
    requires KnownState(a) && StateName(a) == StateName(b)
    ensures a == b
  {
    assert StateCode(StateName(a)) == Some(a);
  }

  /** The error codes `onPlayerError` has a message for. */
  predicate KnownError(code: int) {
    code == 2 || code == 5 || code == 100 || code == 101 || code == 150
  }

  /** The message `onPlayerError` gives an error code; codes outside the table get "Unknown error". */
  function ErrorMessage(code: int): (message: string)
    ensures message == "Unknown error" <==> !KnownError(code)
    ensures message == "Embedding not allowed" <==> code == 101 || code == 150
  {
    if code == 2 then "Invalid video ID"
    else if code == 5 then "HTML5 player error"
    else if code == 100 then "Video not found"
    else if code == 101 then "Embedding not allowed"
    else if code == 150 then "Embedding not allowed"
    else "Unknown error"
  }

  /** Only the two embedding codes share a message; every other code of the table has its own. */
  lemma ErrorMessagesDistinct(a: int, b: int)
    requires KnownError(a) && KnownError(b) && ErrorMessage(a) == ErrorMessage(b)
    ensures a == b || (a in {101, 150} && b in {101, 150})
  {
  }

  // ---------------------------------------------------------------------------------------
  // formatTime

  /** JavaScript's truncation toward zero. */
  function Truncate(x: real): int {
    if x >= 0.0 then x.Floor else -((-x).Floor)
  }

  /** JavaScript's `%` on numbers: the remainder takes the sign of the dividend. */
  function Remainder(a: real, b: real): real
    requires b != 0.0
  {
    a - b * Truncate(a / b) as real
  }

  /** `formatTime`: whole minutes, a colon, and whole seconds padded to two characters with '0'. */
  function FormatTime(seconds: real): (text: string)
    ensures |text| >= 4
  {
    var mins := IntToString((seconds / 60.0).Floor);
    var secs := PadStart(IntToString(Remainder(seconds, 60.0).Floor), 2, '0');
    assert |mins| >= 1 && |secs| >= 2;
    mins + ":" + secs
  }

  /**
   * `text` is `M:SS` reading back as `n` whole seconds: minutes without a leading zero (unless
   * they are a single digit), a colon, and two digits of seconds below 60.
   */
  ghost predicate ReadsBackAs(text: string, n: int) {
    && |text| >= 4 && text[|text| - 3] == ':'
    && AllDigits(text[..|text| - 3]) && AllDigits(text[|text| - 2..])
    && DigitsValue(text[|text| - 2..]) < 60
    && 60 * DigitsValue(text[..|text| - 3]) + DigitsValue(text[|text| - 2..]) == n
    && (|text| == 4 || text[0] != '0')
  }

  /**
   * For a non-negative time the text is `M:SS`: two digits of seconds below 60 after the colon,
   * the minutes before it, and together they give back the whole seconds of the time.
   */
  lemma FormatTimeReadsBack(seconds: real)
    requires seconds >= 0.0
    ensures ReadsBackAs(FormatTime(seconds), seconds.Floor)
  {
    var n := seconds.Floor;
    var q, r := n / 60, n % 60;
    WholeMinutes(seconds, n, q, r);
    var mins, secs := NatToString(q), PadStart(NatToString(r), 2, '0');
    assert FormatTime(seconds) == mins + ":" + secs;
    assert |secs| == 2 && AllDigits(secs) && DigitsValue(secs) == r by {
      ShortDigits(r);
      PadDigits(NatToString(r), 2);
    }
    assert |mins| == 1 || mins[0] != '0' by {
      NatToStringNoLeadingZero(q);
    }
    MinutesColonSeconds(mins, secs, q, r);
  }

  /** Minutes and two-character seconds joined by a colon read back as `60 * q + r`. */
  lemma MinutesColonSeconds(mins: string, secs: string, q: nat, r: nat)
    requires |mins| >= 1 && AllDigits(mins) && DigitsValue(mins) == q
    requires |mins| == 1 || mins[0] != '0'
    requires |secs| == 2 && AllDigits(secs) && DigitsValue(secs) == r && r < 60
    ensures ReadsBackAs(mins + ":" + secs, 60 * q + r)
  {
    var text := mins + ":" + secs;
    assert text[..|text| - 3] == mins;
    assert text[|text| - 2..] == secs;
    assert text[0] == mins[0];
  }

  /** The minutes and the seconds `formatTime` computes from a non-negative time. */
  lemma WholeMinutes(seconds: real, n: int, q: int, r: int)
    requires seconds >= 0.0 && n == seconds.Floor && q == n / 60 && r == n % 60
    ensures (seconds / 60.0).Floor == q && Remainder(seconds, 60.0).Floor == r
  {
    assert n as real <= seconds < n as real + 1.0;
    assert 60 * q + r == n && 0 <= r < 60;
    assert (60 * q) as real <= seconds < (60 * q + 60) as real;
    assert q as real <= seconds / 60.0 < (q + 1) as real;
    assert Truncate(seconds / 60.0) == q;
    assert Remainder(seconds, 60.0) == seconds - (60 * q) as real;
  }

  /** A number below 100 has at most two digits. */
  lemma ShortDigits(r: nat)
    requires r < 100
    ensures |NatToString(r)| <= 2
  {
    if r >= 10 {
      assert |NatToString(r / 10)| == 1;
    }
  }

  // ---------------------------------------------------------------------------------------
  // The embedded player and what the adapter reports

  /** A call the adapter makes on the embedded IFrame player. */
  datatype PlayerCall =
    | PlayVideo
    | PauseVideo
    | SeekTo(seconds: real, allowSeekAhead: bool)
    | LoadVideoById(videoId: string, startSeconds: real)
    | DestroyPlayer

  /**
   * The embedded `YT.Player`. Its state, time and duration belong to the page around it and
   * change between the adapter's calls; the calls it receives are recorded in order.
   */
  class EmbeddedPlayer {
    var state: int
    var currentTime: real
    var duration: real
    ghost var received: seq<PlayerCall>

    constructor(state: int, currentTime: real, duration: real)
      ensures this.state == state && this.currentTime == currentTime && this.duration == duration
      ensures received == []
    {
      this.state, this.currentTime, this.duration := state, currentTime, duration;
      received := [];
    }

    /** Receiving a call records it and changes nothing else. */
    method Receive(call: PlayerCall)
      modifies this
      ensures received == old(received) + [call]
      ensures state == old(state) && currentTime == old(currentTime) && duration == old(duration)
    {
      received := received + [call];
    }
  }

  /** A registered listener, by identity. */
  type Callback = nat

  /** What a listener is called with: a state name and its code, or the current time. */
  datatype CallbackArg = StateArg(state: string, code: int) | TimeArg(seconds: real)

  /** What the adapter reports to the page: the two window events and the listener calls. */
  datatype Notice =
    | Ready
    | PlayerError(code: int, message: string)
    | Called(callback: Callback, arg: CallbackArg)

  /** `forEach` over the listeners: each one called with the same argument, in order. */
  function Invocations(callbacks: seq<Callback>, arg: CallbackArg): (calls: seq<Notice>)
    ensures |calls| == |callbacks|
    ensures forall k :: 0 <= k < |calls| ==> calls[k] == Called(callbacks[k], arg)
  {
    if callbacks == [] then []
    else Invocations(callbacks[..|callbacks| - 1], arg) + [Called(callbacks[|callbacks| - 1], arg)]
  }

  /** A `loadVideo` call waiting on the retry timer. */
  datatype Load = Load(videoId: string, startSeconds: real)

  // ---------------------------------------------------------------------------------------
  // The adapter

  class YouTubePlayerIntegration {
    var player: EmbeddedPlayer?
    var isPlayerReady: bool
    var currentVideoId: Option<string>
    var onTimeUpdateCallbacks: seq<Callback>
    var onStateChangeCallbacks: seq<Callback>
    /** Never read by the adapter; `undefined` before the first state change is `false` here. */
    var isSyncing: bool
    /** Whether the 100 ms time-update interval is installed. */
    var timeUpdateRunning: bool
    /** The `loadVideo` calls made before the player was ready, each waiting to be retried. */
    var pendingLoads: seq<Load>
    ghost var notices: seq<Notice>

    /** The ready event only comes from a created player. */
    predicate Valid()
      reads this
    {
      isPlayerReady ==> player != null
    }

    constructor()
      ensures Valid() && player == null && !isPlayerReady && currentVideoId == None
      ensures onTimeUpdateCallbacks == [] && onStateChangeCallbacks == []
      ensures !isSyncing && !timeUpdateRunning && pendingLoads == [] && notices == []
    {
      player := null;
      isPlayerReady := false;
      currentVideoId := None;
      onTimeUpdateCallbacks, onStateChangeCallbacks := [], [];
      isSyncing, timeUpdateRunning := false, false;
      pendingLoads := [];
      notices := [];
    }

    /** `createPlayer`, with the player it constructs passed in. */
    method CreatePlayer(p: EmbeddedPlayer)
      requires Valid()
      modifies this
      ensures Valid() && player == p
      ensures isPlayerReady == old(isPlayerReady) && currentVideoId == old(currentVideoId)
      ensures onTimeUpdateCallbacks == old(onTimeUpdateCallbacks) && onStateChangeCallbacks == old(onStateChangeCallbacks)
      ensures isSyncing == old(isSyncing) && timeUpdateRunning == old(timeUpdateRunning)
      ensures pendingLoads == old(pendingLoads) && notices == old(notices)
    {
      player := p;
    }

    /** `onPlayerReady`: the adapter becomes ready, installs the time-update interval and says so. */
    method OnPlayerReady()
      requires player != null
      modifies this
      ensures Valid() && isPlayerReady && timeUpdateRunning
      ensures notices == old(notices) + [Ready]
      ensures player == old(player) && currentVideoId == old(currentVideoId)
      ensures onTimeUpdateCallbacks == old(onTimeUpdateCallbacks) && onStateChangeCallbacks == old(onStateChangeCallbacks)
      ensures isSyncing == old(isSyncing) && pendingLoads == old(pendingLoads)
    {
      isPlayerReady := true;
      timeUpdateRunning := true;
      notices := notices + [Ready];
    }

    /**
     * `onPlayerStateChange`: every state listener is called once, in registration order, with
     * the state's name; then "playing" starts the transcript sync and "paused" or "ended" stop it.
     */
    method OnPlayerStateChange(code: int)
      requires Valid()
      modifies this
      ensures Valid()
      ensures notices == old(notices) + Invocations(onStateChangeCallbacks, StateArg(StateName(code), code))
      ensures isSyncing ==
        if StateName(code) == "playing" then true
        else if StateName(code) in {"paused", "ended"} then false
        else old(isSyncing)
      ensures player == old(player) && isPlayerReady == old(isPlayerReady) && currentVideoId == old(currentVideoId)
      ensures onTimeUpdateCallbacks == old(onTimeUpdateCallbacks) && onStateChangeCallbacks == old(onStateChangeCallbacks)
      ensures timeUpdateRunning == old(timeUpdateRunning) && pendingLoads == old(pendingLoads)
    {
      var state := StateName(code);
      Notify(onStateChangeCallbacks, StateArg(state, code));
      if state == "playing" {
        StartTranscriptSync();
      } else if state == "paused" || state == "ended" {
        StopTranscriptSync();
      }
    }

    /** Calls each listener in turn with the same argument. */
    method Notify(callbacks: seq<Callback>, arg: CallbackArg)
      modifies this
      ensures notices == old(notices) + Invocations(callbacks, arg)
      ensures player == old(player) && isPlayerReady == old(isPlayerReady) && currentVideoId == old(currentVideoId)
      ensures onTimeUpdateCallbacks == old(onTimeUpdateCallbacks) && onStateChangeCallbacks == old(onStateChangeCallbacks)
      ensures isSyncing == old(isSyncing) && timeUpdateRunning == old(timeUpdateRunning)
      ensures pendingLoads == old(pendingLoads)
    {
      for k := 0 to |callbacks|
        invariant notices == old(notices) + Invocations(callbacks[..k], arg)
        invariant player == old(player) && isPlayerReady == old(isPlayerReady) && currentVideoId == old(currentVideoId)
        invariant onTimeUpdateCallbacks == old(onTimeUpdateCallbacks) && onStateChangeCallbacks == old(onStateChangeCallbacks)
        invariant isSyncing == old(isSyncing) && timeUpdateRunning == old(timeUpdateRunning)
        invariant pendingLoads == old(pendingLoads)
      {
        assert callbacks[..k + 1][..k] == callbacks[..k];
        notices := notices + [Called(callbacks[k], arg)];
      }
      assert callbacks[..|callbacks|] == callbacks;
    }

    /** `onPlayerError`: an error event carrying the code unchanged and the code's message. */
    method OnPlayerError(code: int)
      modifies this
      ensures notices == old(notices) + [PlayerError(code, ErrorMessage(code))]
      ensures player == old(player) && isPlayerReady == old(isPlayerReady) && currentVideoId == old(currentVideoId)
      ensures onTimeUpdateCallbacks == old(onTimeUpdateCallbacks) && onStateChangeCallbacks == old(onStateChangeCallbacks)
      ensures isSyncing == old(isSyncing) && timeUpdateRunning == old(timeUpdateRunning)
      ensures pendingLoads == old(pendingLoads)
    {
      notices := notices + [PlayerError(code, ErrorMessage(code))];
    }

    /**
     * `loadVideo`: before the player is ready the call waits for the retry timer and nothing is
     * loaded; once ready the video becomes the current one and is loaded from `startSeconds`.
     */
    method LoadVideo(videoId: string, startSeconds: real := 0.0)
      requires Valid()
      modifies this, player
      ensures Valid() && player == old(player) && isPlayerReady == old(isPlayerReady)
      ensures !isPlayerReady ==> currentVideoId == old(currentVideoId) && pendingLoads == old(pendingLoads) + [Load(videoId, startSeconds)]
      ensures isPlayerReady ==> currentVideoId == Some(videoId) && pendingLoads == old(pendingLoads)
      ensures player != null ==>
        player.received == old(player.received) + (if isPlayerReady then [LoadVideoById(videoId, startSeconds)] else [])
      ensures player != null ==>
        player.state == old(player.state) && player.currentTime == old(player.currentTime) && player.duration == old(player.duration)
      ensures onTimeUpdateCallbacks == old(onTimeUpdateCallbacks) && onStateChangeCallbacks == old(onStateChangeCallbacks)
      ensures isSyncing == old(isSyncing) && timeUpdateRunning == old(timeUpdateRunning) && notices == old(notices)
    {
      if !isPlayerReady {
        pendingLoads := pendingLoads + [Load(videoId, startSeconds)];
        return;
      }
      currentVideoId := Some(videoId);
      player.Receive(LoadVideoById(videoId, startSeconds));
    }

    /** The retry timer of the oldest waiting `loadVideo` call fires and makes the call again. */
    method RetryLoad()
      requires Valid() && pendingLoads != []
      modifies this, player
      ensures Valid() && player == old(player) && isPlayerReady == old(isPlayerReady)
      ensures var load := old(pendingLoads[0]);
        && (!isPlayerReady ==> currentVideoId == old(currentVideoId) && pendingLoads == old(pendingLoads[1..]) + [load])
        && (isPlayerReady ==> currentVideoId == Some(load.videoId) && pendingLoads == old(pendingLoads[1..]))
        && (player != null ==>
          player.received == old(player.received) + (if isPlayerReady then [LoadVideoById(load.videoId, load.startSeconds)] else []))
      ensures player != null ==>
        player.state == old(player.state) && player.currentTime == old(player.currentTime) && player.duration == old(player.duration)
      ensures onTimeUpdateCallbacks == old(onTimeUpdateCallbacks) && onStateChangeCallbacks == old(onStateChangeCallbacks)
      ensures isSyncing == old(isSyncing) && timeUpdateRunning == old(timeUpdateRunning) && notices == old(notices)
    {
      var load := pendingLoads[0];
      pendingLoads := pendingLoads[1..];
      LoadVideo(load.videoId, load.startSeconds);
    }

    /** `play`: forwarded to the player only once it is ready. */
    method Play()
      requires Valid()
      modifies player
      ensures player != null ==> player.received == old(player.received) + (if isPlayerReady then [PlayVideo] else [])
      ensures player != null ==>
        player.state == old(player.state) && player.currentTime == old(player.currentTime) && player.duration == old(player.duration)
    {
      if isPlayerReady {
        player.Receive(PlayVideo);
      }
    }

    /** `pause`: forwarded to the player only once it is ready. */
    method Pause()
      requires Valid()
      modifies player
      ensures player != null ==> player.received == old(player.received) + (if isPlayerReady then [PauseVideo] else [])
      ensures player != null ==>
        player.state == old(player.state) && player.currentTime == old(player.currentTime) && player.duration == old(player.duration)
    {
      if isPlayerReady {
        player.Receive(PauseVideo);
      }
    }

    /** `seekTo`: once ready, forwarded with seeking ahead allowed; before that, nothing. */
    method SeekTo(seconds: real)
      requires Valid()
      modifies player
      ensures player != null ==>
        player.received == old(player.received) + (if isPlayerReady then [PlayerCall.SeekTo(seconds, true)] else [])
      ensures player != null ==>
        player.state == old(player.state) && player.currentTime == old(player.currentTime) && player.duration == old(player.duration)
    {
      if isPlayerReady {
        player.Receive(PlayerCall.SeekTo(seconds, true));
      }
    }

    /** `getCurrentTime`: the player's time once ready, 0 before. */
    method GetCurrentTime() returns (seconds: real)
      requires Valid()
      ensures !isPlayerReady ==> seconds == 0.0
      ensures isPlayerReady ==> seconds == player.currentTime
    {
      seconds := if isPlayerReady then player.currentTime else 0.0;
    }

    /** `getDuration`: the player's duration once ready, 0 before. */
    method GetDuration() returns (seconds: real)
      requires Valid()
      ensures !isPlayerReady ==> seconds == 0.0
      ensures isPlayerReady ==> seconds == player.duration
    {
      seconds := if isPlayerReady then player.duration else 0.0;
    }

    /** `getPlayerState`: the player's state code once ready, -1 (unstarted) before. */
    method GetPlayerState() returns (code: int)
      requires Valid()
      ensures !isPlayerReady ==> code == -1
      ensures isPlayerReady ==> code == player.state
    {
      code := if isPlayerReady then player.state else -1;
    }

    /**
     * One firing of the 100 ms interval of `startTimeUpdateListener`: only when the interval is
     * installed, the player is ready and playing (state 1), every time listener is called once,
     * in registration order, with the current time.
     */
    method TimeUpdateTick()
      requires Valid()
      modifies this
      ensures Valid()
      ensures notices == old(notices) +
        if timeUpdateRunning && isPlayerReady && player.state == 1
        then Invocations(onTimeUpdateCallbacks, TimeArg(player.currentTime))
        else []
      ensures player == old(player) && isPlayerReady == old(isPlayerReady) && currentVideoId == old(currentVideoId)
      ensures onTimeUpdateCallbacks == old(onTimeUpdateCallbacks) && onStateChangeCallbacks == old(onStateChangeCallbacks)
      ensures isSyncing == old(isSyncing) && timeUpdateRunning == old(timeUpdateRunning)
      ensures pendingLoads == old(pendingLoads)
    {
      if !timeUpdateRunning {
        return;
      }
      var state := GetPlayerState();
      if isPlayerReady && state == 1 {
        var currentTime := GetCurrentTime();
        Notify(onTimeUpdateCallbacks, TimeArg(currentTime));
      }
    }

    /** `startTranscriptSync`. */
    method StartTranscriptSync()
      modifies this
      ensures isSyncing
      ensures player == old(player) && isPlayerReady == old(isPlayerReady) && currentVideoId == old(currentVideoId)
      ensures onTimeUpdateCallbacks == old(onTimeUpdateCallbacks) && onStateChangeCallbacks == old(onStateChangeCallbacks)
      ensures timeUpdateRunning == old(timeUpdateRunning) && pendingLoads == old(pendingLoads) && notices == old(notices)
    {
      isSyncing := true;
    }

    /** `stopTranscriptSync`. */
    method StopTranscriptSync()
      modifies this
      ensures !isSyncing
      ensures player == old(player) && isPlayerReady == old(isPlayerReady) && currentVideoId == old(currentVideoId)
      ensures onTimeUpdateCallbacks == old(onTimeUpdateCallbacks) && onStateChangeCallbacks == old(onStateChangeCallbacks)
      ensures timeUpdateRunning == old(timeUpdateRunning) && pendingLoads == old(pendingLoads) && notices == old(notices)
    {
      isSyncing := false;
    }

    /** `onTimeUpdate`: the listener goes after those registered before it. */
    method OnTimeUpdate(callback: Callback)
      modifies this
      ensures onTimeUpdateCallbacks == old(onTimeUpdateCallbacks) + [callback]
      ensures player == old(player) && isPlayerReady == old(isPlayerReady) && currentVideoId == old(currentVideoId)
      ensures onStateChangeCallbacks == old(onStateChangeCallbacks) && isSyncing == old(isSyncing)
      ensures timeUpdateRunning == old(timeUpdateRunning) && pendingLoads == old(pendingLoads) && notices == old(notices)
    {
      onTimeUpdateCallbacks := onTimeUpdateCallbacks + [callback];
    }

    /** `onStateChange`: the listener goes after those registered before it. */
    method OnStateChange(callback: Callback)
      modifies this
      ensures onStateChangeCallbacks == old(onStateChangeCallbacks) + [callback]
      ensures player == old(player) && isPlayerReady == old(isPlayerReady) && currentVideoId == old(currentVideoId)
      ensures onTimeUpdateCallbacks == old(onTimeUpdateCallbacks) && isSyncing == old(isSyncing)
      ensures timeUpdateRunning == old(timeUpdateRunning) && pendingLoads == old(pendingLoads) && notices == old(notices)
    {
      onStateChangeCallbacks := onStateChangeCallbacks + [callback];
    }

    /**
     * `destroy`: the time-update interval is cleared, the player (if created) is destroyed and
     * both listener lists are emptied. The ready flag is left as it was.
     */
    method Destroy()
      requires Valid()
      modifies this, player
      ensures Valid() && !timeUpdateRunning
      ensures onTimeUpdateCallbacks == [] && onStateChangeCallbacks == []
      ensures player == old(player) && isPlayerReady == old(isPlayerReady) && currentVideoId == old(currentVideoId)
      ensures player != null ==> player.received == old(player.received) + [DestroyPlayer]
      ensures player != null ==>
        player.state == old(player.state) && player.currentTime == old(player.currentTime) && player.duration == old(player.duration)
      ensures isSyncing == old(isSyncing) && pendingLoads == old(pendingLoads) && notices == old(notices)
    {
      timeUpdateRunning := false;
      if player != null {
        player.Receive(DestroyPlayer);
      }
      onTimeUpdateCallbacks := [];
      onStateChangeCallbacks := [];
    }
  }

  /** Listeners registered one after another are called in that order, each once. */
  lemma RegisteredInOrder(callbacks: seq<Callback>, first: Callback, second: Callback, arg: CallbackArg)
    ensures var calls := Invocations(callbacks + [first] + [second], arg);
      calls == Invocations(callbacks, arg) + [Called(first, arg), Called(second, arg)]
  {
    var all := callbacks + [first] + [second];
    assert all[..|all| - 1] == callbacks + [first];
    assert (callbacks + [first])[..|callbacks|] == callbacks;
  }
}
