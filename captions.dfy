/**
 * The WebVTT caption reader of backend/routes/youtube.js: `parseVTTTime`, the line loop of
 * `parseVTTFile`, and the language list that `checkAvailableCaptions` reads from the output
 * of `yt-dlp --list-subs`. Times are integer milliseconds (the source uses float seconds).
 */
module Captions {
  import opened Wrappers
  import opened JsText

  /** A JavaScript number holding a time in milliseconds, or the NaN and `undefined` the reader can produce. */
  datatype JsTime = Ms(ms: int) | NaN | Undefined

  /** JavaScript subtraction: anything but two numbers gives NaN. */
  function Minus(a: JsTime, b: JsTime): JsTime {
    if a.Ms? && b.Ms? then Ms(a.ms - b.ms) else NaN
  }

  /** One caption entry `{start, end, duration, text}`. */
  datatype Caption = Caption(start: JsTime, end: JsTime, duration: JsTime, text: string)

  // ---------------------------------------------------------------------------------------
  // Timestamps

  /**
   * `parseVTTTime`: the part before the first '.' is split on ':' into hours, minutes and
   * seconds, each read with `Number`; the part after it is read with `parseInt` as a count of
   * milliseconds. A missing field or an unreadable one makes the sum NaN.
   */
  function ParseVttTime(timestamp: string): (t: JsTime)
    ensures t != Undefined
    ensures !Includes(timestamp, ".") ==> t == NaN
  {
    ReadClock(Split(timestamp, "."))
  }

  /** The pieces of a timestamp around its dots: the first holds the clock, the second the milliseconds. */
  function ReadClock(dot: seq<string>): (t: JsTime)
    requires |dot| >= 1
    ensures t != Undefined
    ensures |dot| < 2 ==> t == NaN
  {
    if |dot| < 2 then NaN else ReadFieldValues(Split(dot[0], ":"), dot[1])
  }

  /** Hours, minutes and seconds read with `Number`, milliseconds with `parseInt`, summed. */
  function ReadFieldValues(hms: seq<string>, frac: string): (t: JsTime)
    ensures t != Undefined
    ensures |hms| < 3 ==> t == NaN
  {
    if |hms| < 3 then NaN
    else
      match (ToNumber(hms[0]), ToNumber(hms[1]), ToNumber(hms[2]), ParseInt(frac))
      case (Some(h), Some(m), Some(s), Some(ms)) => Ms(ClockMs(h, m, s, ms))
      case _ => NaN
  }

  /** `hours * 3600 + minutes * 60 + seconds + millis / 1000` seconds, in milliseconds. */
  function ClockMs(hours: int, minutes: int, seconds: int, millis: int): int {
    hours * 3600000 + minutes * 60000 + seconds * 1000 + millis
  }

  function Pad(n: nat, width: nat): string {
    PadStart(NatToString(n), width, '0')
  }

  /** A zero-padded number is a non-empty run of digits of that value. */
  lemma PadValue(n: nat, width: nat)
    ensures Pad(n, width) != "" && AllDigits(Pad(n, width)) && DigitsValue(Pad(n, width)) == n
  {
    PadDigits(NatToString(n), width);
  }

  /** The `HH:MM:SS.mmm` form of section 4.1 of WebVTT for a non-negative time. */
  function RenderTimestamp(t: nat): string {
    var minutes, rest := t / 60000, t % 60000;
    Pad(minutes / 60, 2) + ":" + Pad(minutes % 60, 2) + ":" + Pad(rest / 1000, 2) + "." + Pad(rest % 1000, 3)
  }

  lemma DigitsLack(s: string, c: char)
    requires AllDigits(s) && !IsDigit(c)
    ensures c !in s
  {
  }

  /** The four fields of a rendered timestamp, as the reader splits them apart. */
  lemma {:induction false} RenderedFields(h: string, m: string, s: string, f: string)
    requires AllDigits(h) && AllDigits(m) && AllDigits(s) && AllDigits(f)
    ensures var time := h + ":" + m + ":" + s;
      Split(time + "." + f, ".") == [time, f] && Split(time, ":") == [h, m, s]
  {
    DigitsLack(h, '.');
    DigitsLack(m, '.');
    DigitsLack(s, '.');
    DigitsLack(f, '.');
    DigitsLack(h, ':');
    DigitsLack(m, ':');
    DigitsLack(s, ':');
    var time := h + ":" + m + ":" + s;
    assert '.' !in time;
    SplitAfterFirst(time, ".", f);
    NotIncludedWithoutFirstChar(f, ".");
    assert time == h + ":" + (m + ":" + s);
    SplitAfterFirst(h, ":", m + ":" + s);
    SplitAfterFirst(m, ":", s);
    NotIncludedWithoutFirstChar(s, ":");
  }

  /** Hours, minutes, seconds and milliseconds of a time add back up to it. */
  lemma ClockFields(t: nat)
    ensures var minutes, rest := t / 60000, t % 60000;
      ClockMs(minutes / 60, minutes % 60, rest / 1000, rest % 1000) == t
  {
    var minutes, rest := t / 60000, t % 60000;
    assert minutes == 60 * (minutes / 60) + minutes % 60;
    assert rest == 1000 * (rest / 1000) + rest % 1000;
    assert t == 60000 * minutes + rest;
  }

  /** Readable fields add up as hours, minutes, seconds and milliseconds. */
  lemma FieldSum(h: string, m: string, s: string, f: string, a: int, b: int, c: int, d: int)
    requires ToNumber(h) == Some(a) && ToNumber(m) == Some(b) && ToNumber(s) == Some(c) && ParseInt(f) == Some(d)
    ensures ReadFieldValues([h, m, s], f) == Ms(ClockMs(a, b, c, d))
  {
  }

  /** Decimal digit fields read as their values. */
  lemma DigitFieldSum(h: string, m: string, s: string, f: string)
    requires AllDigits(h) && AllDigits(m) && AllDigits(s) && AllDigits(f) && f != ""
    ensures ReadFieldValues([h, m, s], f) == Ms(ClockMs(DigitsValue(h), DigitsValue(m), DigitsValue(s), DigitsValue(f)))
  {
    ToNumberDigits(h);
    ToNumberDigits(m);
    ToNumberDigits(s);
    ParseIntDigits(f);
    FieldSum(h, m, s, f, DigitsValue(h), DigitsValue(m), DigitsValue(s), DigitsValue(f));
  }

  /** A timestamp whose pieces are known is read from those pieces. */
  lemma ReadPieces(ts: string, time: string, h: string, m: string, s: string, f: string)
    requires Split(ts, ".") == [time, f] && Split(time, ":") == [h, m, s]
    ensures ParseVttTime(ts) == ReadFieldValues([h, m, s], f)
  {
  }

  /** Digit fields in `H:M:S.mmm` form are read field by field. */
  lemma ReadDigitPieces(h: string, m: string, s: string, f: string)
    requires AllDigits(h) && AllDigits(m) && AllDigits(s) && AllDigits(f)
    ensures ParseVttTime(h + ":" + m + ":" + s + "." + f) == ReadFieldValues([h, m, s], f)
  {
    RenderedFields(h, m, s, f);
    ReadPieces(h + ":" + m + ":" + s + "." + f, h + ":" + m + ":" + s, h, m, s, f);
  }

  /** Digit fields in `H:M:S.mmm` form read as `H*3600000 + M*60000 + S*1000 + mmm`. */
  lemma ReadFields(h: string, m: string, s: string, f: string)
    requires AllDigits(h) && AllDigits(m) && AllDigits(s) && AllDigits(f) && f != ""
    ensures ParseVttTime(h + ":" + m + ":" + s + "." + f)
      == Ms(ClockMs(DigitsValue(h), DigitsValue(m), DigitsValue(s), DigitsValue(f)))
  {
    ReadDigitPieces(h, m, s, f);
    DigitFieldSum(h, m, s, f);
  }

  /** The reader gives back the time the renderer wrote. */
  lemma ParseRenderedTimestamp(t: nat)
    ensures ParseVttTime(RenderTimestamp(t)) == Ms(t)
  {
    var minutes, rest := t / 60000, t % 60000;
    PadValue(minutes / 60, 2);
    PadValue(minutes % 60, 2);
    PadValue(rest / 1000, 2);
    PadValue(rest % 1000, 3);
    ReadFields(Pad(minutes / 60, 2), Pad(minutes % 60, 2), Pad(rest / 1000, 2), Pad(rest % 1000, 3));
    ClockFields(t);
  }

  // ---------------------------------------------------------------------------------------
  // The line loop of parseVTTFile

  /** A cue-timing line: any line that contains "-->". */
  predicate IsMarker(line: string) {
    Includes(line, "-->")
  }

  /** A line that adds to the open entry's text: not blank, not a `WEBVTT` header, not a `NOTE`. */
  predicate IsTextLine(line: string) {
    Trim(line) != "" && !("WEBVTT" <= line) && !("NOTE" <= line)
  }

  /** The start of a marker line: the time read from the piece before the first " --> ". */
  function MarkerStart(line: string): JsTime {
    ParseVttTime(Split(line, " --> ")[0])
  }

  /**
   * The end of a marker line: the time read from the piece after the first " --> ". A line
   * lacking that separator has no second piece, so its end is `undefined` (nothing throws).
   */
  function MarkerEnd(line: string): JsTime {
    var parts := Split(line, " --> ");
    if |parts| > 1 then ParseVttTime(parts[1]) else Undefined
  }

  /** The entry a marker line opens: its two times, `duration = end - start`, and no text yet. */
  function OpenEntry(line: string): (c: Caption)
    ensures c.duration == Minus(c.end, c.start) && c.text == ""
    ensures c.start != Undefined
  {
    Caption(MarkerStart(line), MarkerEnd(line), Minus(MarkerEnd(line), MarkerStart(line)), "")
  }

  /** `text += (text ? ' ' : '') + piece` */
  function AppendText(text: string, piece: string): string {
    text + (if text != "" then " " else "") + piece
  }

  type NonEmptyString = s: string | s != "" witness "?"

  /**
   * What a line means to the loop: a timing line with the entry it opens, a text line with its
   * trimmed text, or a line the loop skips.
   */
  datatype LineKind = Timing(entry: Caption) | Text(piece: NonEmptyString) | Skipped

  /** The branch of the loop body a line takes; a text line only counts once an entry is open. */
  function Classify(line: string): LineKind {
    if IsMarker(line) then Timing(OpenEntry(line)) else TextKind(line)
  }

  /** The kind of a line that is not a timing line. */
  function TextKind(line: string): LineKind {
    if IsTextLine(line) then Text(Trim(line)) else Skipped
  }

  /** The kind of every line, in order. */
  function Kinds(lines: seq<string>): (kinds: seq<LineKind>)
    ensures |kinds| == |lines|
  {
    MapSeq(Classify, lines)
  }

  /** `f` applied to every element of `s`, in order. */
  function MapSeq<A, B>(f: A -> B, s: seq<A>): (r: seq<B>)
    ensures |r| == |s|
    ensures forall i :: 0 <= i < |s| ==> r[i] == f(s[i])
  {
    seq(|s|, i requires 0 <= i < |s| => f(s[i]))
  }

  lemma MapSeqAppend<A, B>(f: A -> B, a: seq<A>, b: seq<A>)
    ensures MapSeq(f, a + b) == MapSeq(f, a) + MapSeq(f, b)
  {
    assert forall i :: 0 <= i < |a| ==> (a + b)[i] == a[i];
    assert forall i :: |a| <= i < |a| + |b| ==> (a + b)[i] == b[i - |a|];
  }

  /** The positions of the timing lines, in increasing order. */
  function MarkerPositions(kinds: seq<LineKind>): (pos: seq<nat>)
    ensures forall k :: 0 <= k < |pos| ==> pos[k] < |kinds| && kinds[pos[k]].Timing?
    ensures forall k, k' :: 0 <= k < k' < |pos| ==> pos[k] < pos[k']
  {
    if kinds == [] then []
    else
      var n := |kinds| - 1;
      var front := MarkerPositions(kinds[..n]);
      assert forall k :: 0 <= k < |front| ==> kinds[front[k]] == kinds[..n][front[k]];
      if kinds[n].Timing? then front + [n] else front
  }

  /** Every timing line is among the marker positions. */
  lemma {:induction false} MarkerPositionsComplete(kinds: seq<LineKind>, i: nat)
    requires i < |kinds| && kinds[i].Timing?
    ensures i in MarkerPositions(kinds)
  {
    var n := |kinds| - 1;
    if i < n {
      assert kinds[..n][i] == kinds[i];
      MarkerPositionsComplete(kinds[..n], i);
    }
  }

  /** The texts of the text lines of a cue body, in order. */
  function TextPieces(body: seq<LineKind>): seq<NonEmptyString> {
    if body == [] then []
    else (if body[0].Text? then [body[0].piece] else []) + TextPieces(body[1..])
  }

  /** The text of a cue: the texts of its text lines joined with single spaces. */
  function BodyText(body: seq<LineKind>): string {
    Join(TextPieces(body), " ")
  }

  /** The end of the body of the k-th timing line: the next timing line, or the end of the file. */
  function BodyEnd(kinds: seq<LineKind>, pos: seq<nat>, k: nat): nat
    requires k < |pos|
  {
    if k + 1 < |pos| then pos[k + 1] else |kinds|
  }

  /** The entry a timing line opens and the lines that follow it up to the next timing line. */
  datatype Span = Span(entry: Caption, body: seq<LineKind>)

  /** The span of the k-th timing line. */
  function SpanAt(kinds: seq<LineKind>, k: nat): Span
    requires k < |MarkerPositions(kinds)|
  {
    var pos := MarkerPositions(kinds);
    Span(kinds[pos[k]].entry, kinds[pos[k] + 1..BodyEnd(kinds, pos, k)])
  }

  /** The spans of all timing lines, in order. */
  function Spans(kinds: seq<LineKind>): (spans: seq<Span>)
    ensures |spans| == |MarkerPositions(kinds)|
  {
    seq(|MarkerPositions(kinds)|, k requires 0 <= k < |MarkerPositions(kinds)| => SpanAt(kinds, k))
  }

  /** The finished entry of a span: the entry its timing line opened, with the text of its body. */
  function CueOf(span: Span): Caption {
    span.entry.(text := BodyText(span.body))
  }

  function CuesOf(spans: seq<Span>): (cues: seq<Caption>)
    ensures |cues| == |spans|
  {
    seq(|spans|, k requires 0 <= k < |spans| => CueOf(spans[k]))
  }

  /** One entry per timing line, in order, each with the text of the lines that follow it. */
  function AllCues(kinds: seq<LineKind>): seq<Caption> {
    CuesOf(Spans(kinds))
  }

  /**
   * The entries `parseVTTFile` returns for the lines of a readable file: every timing line's
   * entry, empty text included, except that the last one is kept only when its text is non-empty.
   */
  function Cues(lines: seq<string>): seq<Caption> {
    DropEmptyLast(AllCues(Kinds(lines)))
  }

  /** The entries with the last one left out when its text is empty. */
  function DropEmptyLast(all: seq<Caption>): (kept: seq<Caption>)
    ensures |kept| == |all| - (if all != [] && all[|all| - 1].text == "" then 1 else 0)
    ensures forall k :: 0 <= k < |kept| ==> kept[k] == all[k]
  {
    if all != [] && all[|all| - 1].text == "" then all[..|all| - 1] else all
  }

  /**
   * `parseVTTFile` over the file content; `None` stands for a file `readFileSync` cannot read,
   * which the catch turns into an empty list.
   */
  method ParseVttFile(content: Option<string>) returns (captions: seq<Caption>)
    ensures content.None? ==> captions == []
    ensures content.Some? ==> captions == Cues(Split(content.value, "\n"))
    ensures forall k :: 0 <= k < |captions| ==> WellTimed(captions[k])
  {
    if content.None? {
      return [];
    }
    captions := ParseVttLines(Split(content.value, "\n"));
  }

  /** The line loop of `parseVTTFile` over the lines of the file. */
  method ParseVttLines(lines: seq<string>) returns (captions: seq<Caption>)
    ensures captions == Cues(lines)
    ensures forall k :: 0 <= k < |captions| ==> WellTimed(captions[k])
  {
    captions := [];
    var currentEntry: Option<Caption> := None;
    ghost var kinds := Kinds(lines);
    for i := 0 to |lines|
      invariant Pending(captions, currentEntry) == AllCues(kinds[..i])
      invariant currentEntry.None? ==> captions == []
      invariant forall k :: 0 <= k < |captions| ==> WellTimed(captions[k])
      invariant currentEntry.Some? ==> WellTimed(currentEntry.value)
    {
      captions, currentEntry := ReadLine(captions, currentEntry, lines[i]);
      assert Pending(captions, currentEntry) == AllCues(kinds[..i + 1]) by {
        AllCuesPrefixStep(kinds, i);
        assert kinds[i] == Classify(lines[i]);
      }
    }
    assert Pending(captions, currentEntry) == AllCues(kinds) by {
      assert kinds[..|lines|] == kinds;
    }
    DropPending(captions, currentEntry);
    if currentEntry.Some? && currentEntry.value.text != "" {
      captions := captions + [currentEntry.value];
    }
  }

  /** Dropping an empty last entry from the pending entries drops an open entry whose text is empty. */
  lemma DropPending(captions: seq<Caption>, currentEntry: Option<Caption>)
    requires currentEntry.None? ==> captions == []
    ensures DropEmptyLast(Pending(captions, currentEntry)) ==
      if currentEntry.Some? && currentEntry.value.text != "" then captions + [currentEntry.value] else captions
  {
    if currentEntry.Some? {
      assert Pending(captions, currentEntry)[..|captions|] == captions;
    }
  }

  /**
   * One pass of the loop body: a marker line closes the open entry and opens a new one; a
   * text line, when an entry is open, adds its trimmed text; any other line is skipped.
   */
  method ReadLine(captions: seq<Caption>, currentEntry: Option<Caption>, line: string)
      returns (captions': seq<Caption>, currentEntry': Option<Caption>)
    requires currentEntry.None? ==> captions == []
    ensures Pending(captions', currentEntry') == NextCues(Pending(captions, currentEntry), Classify(line))
    ensures currentEntry'.None? ==> captions' == []
    ensures (forall k :: 0 <= k < |captions| ==> WellTimed(captions[k])) &&
            (currentEntry.Some? ==> WellTimed(currentEntry.value)) ==>
            (forall k :: 0 <= k < |captions'| ==> WellTimed(captions'[k])) &&
            (currentEntry'.Some? ==> WellTimed(currentEntry'.value))
  {
    captions', currentEntry' := captions, currentEntry;
    if IsMarker(line) {
      assert Classify(line) == Timing(OpenEntry(line));
      if currentEntry.Some? {
        captions' := captions + [currentEntry.value];
      }
      currentEntry' := Some(OpenEntry(line));
    } else if currentEntry.Some? && IsTextLine(line) {
      assert Classify(line) == Text(Trim(line));
      var entry := currentEntry.value;
      currentEntry' := Some(entry.(text := AppendText(entry.text, Trim(line))));
      assert Pending(captions, currentEntry)[..|captions|] == captions;
    } else {
      assert !Classify(line).Timing?;
    }
  }

  /** `AllCuesSnoc` for the prefixes of one list of line kinds. */
  lemma AllCuesPrefixStep(kinds: seq<LineKind>, i: nat)
    requires i < |kinds|
    ensures AllCues(kinds[..i + 1]) == NextCues(AllCues(kinds[..i]), kinds[i])
  {
    assert kinds[..i + 1] == kinds[..i] + [kinds[i]];
    AllCuesSnoc(kinds[..i], kinds[i]);
  }

  /**
   * The entries after one more line: a timing line opens a new entry, a text line extends the
   * last one, any other line changes nothing.
   */
  ghost function NextCues(all: seq<Caption>, kind: LineKind): seq<Caption> {
    match kind
    case Timing(entry) => all + [entry.(text := "")]
    case Text(piece) =>
      if all == [] then all
      else all[..|all| - 1] + [all[|all| - 1].(text := AppendText(all[|all| - 1].text, piece))]
    case Skipped => all
  }

  /** An entry whose duration is its end minus its start, as every entry the reader builds. */
  predicate WellTimed(c: Caption) {
    c.duration == Minus(c.end, c.start)
  }

  /** The finished entries followed by the open one, if any. */
  ghost function Pending(captions: seq<Caption>, currentEntry: Option<Caption>): seq<Caption> {
    captions + if currentEntry.Some? then [currentEntry.value] else []
  }

  // ---------------------------------------------------------------------------------------
  // Why the loop computes Cues: the entries after one more line

  lemma {:induction false} TextPiecesSnoc(body: seq<LineKind>, kind: LineKind)
    ensures TextPieces(body + [kind]) == TextPieces(body) + (if kind.Text? then [kind.piece] else [])
  {
    if body != [] {
      assert (body + [kind])[1..] == body[1..] + [kind];
      TextPiecesSnoc(body[1..], kind);
    }
  }

  lemma {:induction false} JoinSnoc(parts: seq<string>, sep: string, p: string)
    ensures Join(parts + [p], sep) == if parts == [] then p else Join(parts, sep) + sep + p
  {
    if |parts| > 1 {
      assert (parts + [p])[1..] == parts[1..] + [p];
      JoinSnoc(parts[1..], sep, p);
    }
  }

  /** Joining non-empty pieces gives the empty string only for no pieces. */
  lemma {:induction false} JoinEmpty(parts: seq<string>, sep: string)
    requires forall k :: 0 <= k < |parts| ==> parts[k] != ""
    ensures Join(parts, sep) == "" <==> parts == []
  {
    if |parts| > 1 {
      assert Join(parts, sep) == parts[0] + sep + Join(parts[1..], sep);
      assert parts[0] != "";
    }
  }

  /** One more body line appends its text, space-separated, exactly as the loop does. */
  lemma BodyTextSnoc(body: seq<LineKind>, kind: LineKind)
    ensures BodyText(body + [kind]) == if kind.Text? then AppendText(BodyText(body), kind.piece) else BodyText(body)
  {
    TextPiecesSnoc(body, kind);
    var pieces: seq<string> := TextPieces(body);
    if kind.Text? {
      JoinSnoc(pieces, " ", kind.piece);
      JoinEmpty(pieces, " ");
    } else {
      assert TextPieces(body + [kind]) == TextPieces(body) + [];
      assert TextPieces(body + [kind]) == TextPieces(body);
    }
  }

  /** The entries of the lines read so far, after one more line, are the next entries of `NextCues`. */
  lemma AllCuesSnoc(kinds: seq<LineKind>, kind: LineKind)
    ensures AllCues(kinds + [kind]) == NextCues(AllCues(kinds), kind)
  {
    SpansSnoc(kinds, kind);
    CuesOfNext(Spans(kinds), kind);
  }

  /** The spans after one more line: a timing line opens a span with no body, any other line ends the last body. */
  ghost function NextSpans(spans: seq<Span>, kind: LineKind): seq<Span> {
    if kind.Timing? then spans + [Span(kind.entry, [])]
    else if spans == [] then spans
    else spans[..|spans| - 1] + [spans[|spans| - 1].(body := spans[|spans| - 1].body + [kind])]
  }

  /** Following the spans one line further follows the entries one line further. */
  lemma CuesOfNext(spans: seq<Span>, kind: LineKind)
    ensures CuesOf(NextSpans(spans, kind)) == NextCues(CuesOf(spans), kind)
  {
    if kind.Timing? {
      CuesOfSnoc(spans, Span(kind.entry, []));
    } else if spans != [] {
      CuesOfNextLast(spans, kind);
    }
  }

  lemma CuesOfNextLast(spans: seq<Span>, kind: LineKind)
    requires !kind.Timing? && spans != []
    ensures CuesOf(NextSpans(spans, kind)) == NextCues(CuesOf(spans), kind)
  {
    var k := |spans| - 1;
    var last := spans[k].(body := spans[k].body + [kind]);
    CuesOfSnoc(spans[..k], last);
    CuesOfSnoc(spans[..k], spans[k]);
    assert spans[..k] + [spans[k]] == spans;
    BodyTextSnoc(spans[k].body, kind);
    if !kind.Text? {
      assert CueOf(last) == CueOf(spans[k]);
    }
  }

  /** The entries of one more span: the entries so far and the entry of that span. */
  lemma CuesOfSnoc(spans: seq<Span>, s: Span)
    ensures CuesOf(spans + [s]) == CuesOf(spans) + [CueOf(s)]
  {
    var all, all' := CuesOf(spans), CuesOf(spans + [s]);
    forall k | 0 <= k < |spans| ensures all'[k] == all[k] {
      assert (spans + [s])[k] == spans[k];
    }
  }

  /** The spans of the lines read so far, after one more line, are the next spans of `NextSpans`. */
  lemma SpansSnoc(kinds: seq<LineKind>, kind: LineKind)
    ensures Spans(kinds + [kind]) == NextSpans(Spans(kinds), kind)
  {
    MarkerPositionsSnoc(kinds, kind);
    if kind.Timing? {
      SpansSnocTiming(kinds, kind);
    } else if Spans(kinds) != [] {
      SpansSnocBody(kinds, kind);
    }
  }

  lemma SpansSnocTiming(kinds: seq<LineKind>, kind: LineKind)
    requires kind.Timing?
    ensures Spans(kinds + [kind]) == Spans(kinds) + [Span(kind.entry, [])]
  {
    var spans, spans' := Spans(kinds), Spans(kinds + [kind]);
    MarkerPositionsSnoc(kinds, kind);
    forall k | 0 <= k < |spans| ensures spans'[k] == spans[k] {
      EarlierSpanSnoc(kinds, kind, k);
    }
    NewSpanSnoc(kinds, kind);
    SnocEqual(spans', spans, Span(kind.entry, []));
  }

  lemma SpansSnocBody(kinds: seq<LineKind>, kind: LineKind)
    requires !kind.Timing? && Spans(kinds) != []
    ensures var spans := Spans(kinds);
      Spans(kinds + [kind]) == spans[..|spans| - 1] + [spans[|spans| - 1].(body := spans[|spans| - 1].body + [kind])]
  {
    var spans, spans' := Spans(kinds), Spans(kinds + [kind]);
    var n := |spans|;
    MarkerPositionsSnoc(kinds, kind);
    LastSpanSnoc(kinds, kind);
    forall k | 0 <= k < n - 1 ensures spans'[k] == spans[k] {
      EarlierSpanSnoc(kinds, kind, k);
    }
    LastEqual(spans', spans, spans[n - 1].(body := spans[n - 1].body + [kind]));
  }

  /** A sequence that agrees with `b` and then ends with `x` is `b + [x]`. */
  lemma SnocEqual<T>(a: seq<T>, b: seq<T>, x: T)
    requires |a| == |b| + 1 && a[|b|] == x
    requires forall k :: 0 <= k < |b| ==> a[k] == b[k]
    ensures a == b + [x]
  {
  }

  /** A sequence that agrees with non-empty `b` but for its last element `x` is `b` with `x` last. */
  lemma LastEqual<T>(a: seq<T>, b: seq<T>, x: T)
    requires |a| == |b| > 0 && a[|b| - 1] == x
    requires forall k :: 0 <= k < |b| - 1 ==> a[k] == b[k]
    ensures a == b[..|b| - 1] + [x]
  {
  }

  /** One more line adds its position to the marker positions exactly when it is a timing line. */
  lemma MarkerPositionsSnoc(kinds: seq<LineKind>, kind: LineKind)
    ensures MarkerPositions(kinds + [kind]) ==
      if kind.Timing? then MarkerPositions(kinds) + [|kinds|] else MarkerPositions(kinds)
  {
    TakeSnoc(kinds, kind);
  }

  lemma TakeSnoc<T>(s: seq<T>, x: T)
    ensures (s + [x])[..|s|] == s && (s + [x])[|s|] == x
  {
  }

  /** A span whose body ends before the new line stays as it was. */
  lemma EarlierSpanSnoc(kinds: seq<LineKind>, kind: LineKind, k: nat)
    requires k < |MarkerPositions(kinds)|
    requires kind.Timing? || k + 1 < |MarkerPositions(kinds)|
    ensures k < |MarkerPositions(kinds + [kind])| && SpanAt(kinds + [kind], k) == SpanAt(kinds, k)
  {
    var more := kinds + [kind];
    var pos, pos' := MarkerPositions(kinds), MarkerPositions(more);
    MarkerPositionsSnoc(kinds, kind);
    var e := BodyEnd(kinds, pos, k);
    assert pos'[k] == pos[k];
    assert BodyEnd(more, pos', k) == e;
    assert more[pos[k] + 1..e] == kinds[pos[k] + 1..e];
    assert more[pos[k]] == kinds[pos[k]];
  }

  /** After a line that is not a timing line, the last span's body has that line at its end. */
  lemma LastSpanSnoc(kinds: seq<LineKind>, kind: LineKind)
    requires !kind.Timing? && MarkerPositions(kinds) != []
    ensures var k := |MarkerPositions(kinds)| - 1;
      && MarkerPositions(kinds + [kind]) == MarkerPositions(kinds)
      && SpanAt(kinds + [kind], k) == SpanAt(kinds, k).(body := SpanAt(kinds, k).body + [kind])
  {
    var more := kinds + [kind];
    var pos := MarkerPositions(kinds);
    MarkerPositionsSnoc(kinds, kind);
    var k := |pos| - 1;
    LastSpanAt(kinds);
    LastSpanAt(more);
    SliceSnoc(kinds, kind, pos[k]);
  }

  /** The last span runs from the last timing line to the end. */
  lemma LastSpanAt(kinds: seq<LineKind>)
    requires MarkerPositions(kinds) != []
    ensures var pos := MarkerPositions(kinds);
      SpanAt(kinds, |pos| - 1) == Span(kinds[pos[|pos| - 1]].entry, kinds[pos[|pos| - 1] + 1..])
  {
    var pos := MarkerPositions(kinds);
    assert BodyEnd(kinds, pos, |pos| - 1) == |kinds|;
  }

  lemma SliceSnoc<T>(s: seq<T>, x: T, p: nat)
    requires p < |s|
    ensures (s + [x])[p] == s[p] && (s + [x])[p + 1..|s| + 1] == s[p + 1..] + [x]
  {
  }

  /** A timing line at the end opens a span with an empty body. */
  lemma NewSpanSnoc(kinds: seq<LineKind>, kind: LineKind)
    requires kind.Timing?
    ensures var k := |MarkerPositions(kinds)|;
      && MarkerPositions(kinds + [kind]) == MarkerPositions(kinds) + [|kinds|]
      && SpanAt(kinds + [kind], k) == Span(kind.entry, [])
  {
    MarkerPositionsSnoc(kinds, kind);
  }

  // ---------------------------------------------------------------------------------------
  // Properties of what the reader returns

  /** The k-th entry, before the last one is dropped: the k-th timing line's entry with its body's text. */
  lemma AllCuesAt(kinds: seq<LineKind>, k: nat)
    requires k < |MarkerPositions(kinds)|
    ensures var pos := MarkerPositions(kinds);
      AllCues(kinds)[k] == kinds[pos[k]].entry.(text := BodyText(kinds[pos[k] + 1..BodyEnd(kinds, pos, k)]))
  {
    assert AllCues(kinds)[k] == CueOf(Spans(kinds)[k]);
  }

  /** The timing lines are exactly the lines holding "-->", and each opens the entry of its own times. */
  lemma MarkerLines(lines: seq<string>)
    ensures var kinds := Kinds(lines);
      var pos := MarkerPositions(kinds);
      && (forall k :: 0 <= k < |pos| ==> IsMarker(lines[pos[k]]) && kinds[pos[k]].entry == OpenEntry(lines[pos[k]]))
      && (forall i :: 0 <= i < |lines| && IsMarker(lines[i]) ==> i in pos)
  {
    var kinds := Kinds(lines);
    forall i | 0 <= i < |lines| && IsMarker(lines[i]) ensures i in MarkerPositions(kinds) {
      MarkerPositionsComplete(kinds, i);
    }
  }

  /** Lines without a marker give no entries, whatever else they hold. */
  lemma NoMarkerNoCues(lines: seq<string>)
    requires forall i :: 0 <= i < |lines| ==> !IsMarker(lines[i])
    ensures Cues(lines) == []
  {
    MarkerLines(lines);
  }

  /**
   * One entry per marker line in line order, the last dropped exactly when its text is empty;
   * earlier entries are kept even with empty text. Each entry holds the text of the lines
   * between its marker and the next one.
   */
  lemma CuesFollowMarkers(lines: seq<string>)
    ensures var kinds := Kinds(lines);
      var pos, cues := MarkerPositions(kinds), Cues(lines);
      && |cues| == |pos| - (if pos != [] && BodyText(kinds[pos[|pos| - 1] + 1..]) == "" then 1 else 0)
      && forall k :: 0 <= k < |cues| ==> cues[k].text == BodyText(kinds[pos[k] + 1..BodyEnd(kinds, pos, k)])
  {
    CueTexts(Kinds(lines));
  }

  /** `CuesFollowMarkers` for any kinds of lines. */
  lemma CueTexts(kinds: seq<LineKind>)
    ensures var pos, cues := MarkerPositions(kinds), DropEmptyLast(AllCues(kinds));
      && |cues| == |pos| - (if pos != [] && BodyText(kinds[pos[|pos| - 1] + 1..]) == "" then 1 else 0)
      && forall k :: 0 <= k < |cues| ==> cues[k].text == BodyText(kinds[pos[k] + 1..BodyEnd(kinds, pos, k)])
  {
    CueCount(kinds);
    CueBodies(kinds);
  }

  /** Each entry holds the text of its timing line's body. */
  lemma CueBodies(kinds: seq<LineKind>)
    ensures var pos, cues := MarkerPositions(kinds), DropEmptyLast(AllCues(kinds));
      forall k :: 0 <= k < |cues| ==> cues[k].text == BodyText(kinds[pos[k] + 1..BodyEnd(kinds, pos, k)])
  {
    var pos, cues := MarkerPositions(kinds), DropEmptyLast(AllCues(kinds));
    forall k | 0 <= k < |cues| ensures cues[k].text == BodyText(kinds[pos[k] + 1..BodyEnd(kinds, pos, k)]) {
      AllCuesAt(kinds, k);
    }
  }

  /** The number of entries: one per timing line, less the last one when its body has no text. */
  lemma CueCount(kinds: seq<LineKind>)
    ensures var pos := MarkerPositions(kinds);
      |DropEmptyLast(AllCues(kinds))| == |pos| - (if pos != [] && BodyText(kinds[pos[|pos| - 1] + 1..]) == "" then 1 else 0)
  {
    if MarkerPositions(kinds) != [] {
      LastCueCount(kinds);
    } else {
      assert AllCues(kinds) == [];
    }
  }

  lemma LastCueCount(kinds: seq<LineKind>)
    requires MarkerPositions(kinds) != []
    ensures var pos := MarkerPositions(kinds);
      |DropEmptyLast(AllCues(kinds))| == |pos| - (if BodyText(kinds[pos[|pos| - 1] + 1..]) == "" then 1 else 0)
  {
    var pos, all := MarkerPositions(kinds), AllCues(kinds);
    var text := BodyText(kinds[pos[|pos| - 1] + 1..]);
    assert |all| == |pos| && all[|all| - 1].text == text by {
      LastCueText(kinds);
    }
    LastText(all, pos, text);
  }

  /** The last entry, before it may be dropped, holds the text of the lines after the last timing line. */
  lemma LastCueText(kinds: seq<LineKind>)
    requires MarkerPositions(kinds) != []
    ensures var pos, all := MarkerPositions(kinds), AllCues(kinds);
      |all| == |pos| && all[|all| - 1].text == BodyText(kinds[pos[|pos| - 1] + 1..])
  {
    var pos := MarkerPositions(kinds);
    var k := |pos| - 1;
    assert AllCues(kinds)[k].text == BodyText(kinds[pos[k] + 1..]) by {
      AllCuesAt(kinds, k);
      assert BodyEnd(kinds, pos, k) == |kinds|;
      SliceToEnd(kinds, pos[k] + 1);
    }
  }

  lemma SliceToEnd<T>(s: seq<T>, i: nat)
    requires i <= |s|
    ensures s[i..|s|] == s[i..]
  {
  }

  /** Whether the last entry is dropped depends only on the last entry's text. */
  lemma LastText(all: seq<Caption>, pos: seq<nat>, text: string)
    requires all != [] && |all| == |pos| && all[|all| - 1].text == text
    ensures |DropEmptyLast(all)| == |pos| - (if text == "" then 1 else 0)
  {
  }

  /** Each entry is the one its own marker line opened, with its text filled in. */
  lemma CueTimesFollowMarkers(lines: seq<string>)
    ensures var pos, cues := MarkerPositions(Kinds(lines)), Cues(lines);
      forall k :: 0 <= k < |cues| ==> cues[k] == OpenEntry(lines[pos[k]]).(text := cues[k].text)
  {
    var kinds := Kinds(lines);
    var pos, cues := MarkerPositions(kinds), Cues(lines);
    forall k | 0 <= k < |cues| ensures cues[k] == OpenEntry(lines[pos[k]]).(text := cues[k].text) {
      assert cues[k] == kinds[pos[k]].entry.(text := cues[k].text) by {
        CueEntry(kinds, k);
      }
      assert kinds[pos[k]] == Classify(lines[pos[k]]);
      TimingEntry(lines[pos[k]]);
    }
  }

  /** A line read as a timing line opens the entry of its own times. */
  lemma TimingEntry(line: string)
    requires Classify(line).Timing?
    ensures Classify(line).entry == OpenEntry(line)
  {
  }

  /** The k-th entry is the entry its timing line opened, with its text filled in. */
  lemma CueEntry(kinds: seq<LineKind>, k: nat)
    requires k < |DropEmptyLast(AllCues(kinds))|
    ensures var pos, cues := MarkerPositions(kinds), DropEmptyLast(AllCues(kinds));
      cues[k] == kinds[pos[k]].entry.(text := cues[k].text)
  {
    AllCuesAt(kinds, k);
  }

  /** A string on one line with no whitespace at either end. */
  predicate OneLine(t: string) {
    '\n' !in t && (t == "" || (!IsSpace(t[0]) && !IsSpace(t[|t| - 1])))
  }

  /** No entry text holds a line break, and none begins or ends with whitespace. */
  lemma CueTextIsOneLine(content: string)
    ensures forall c :: c in Cues(Split(content, "\n")) ==> OneLine(c.text)
  {
    var lines := Split(content, "\n");
    var kinds := Kinds(lines);
    SplitClean(content, "\n");
    forall i | 0 <= i < |lines| ensures '\n' !in lines[i] {
      IncludesChar(lines[i], '\n');
    }
    KindsOneLine(lines);
    forall c | c in Cues(lines) ensures OneLine(c.text) {
      var k :| 0 <= k < |Cues(lines)| && Cues(lines)[k] == c;
      CueOneLine(kinds, k);
    }
  }

  /** The text of a line with no line break, once trimmed, is one line. */
  lemma KindsOneLine(lines: seq<string>)
    requires forall i :: 0 <= i < |lines| ==> '\n' !in lines[i]
    ensures forall i :: 0 <= i < |lines| && Kinds(lines)[i].Text? ==> OneLine(Kinds(lines)[i].piece)
  {
    forall i | 0 <= i < |lines| && Kinds(lines)[i].Text? ensures OneLine(Kinds(lines)[i].piece) {
      TrimInside(lines[i], '\n');
    }
  }

  /** Entries built from one-line texts have one-line texts. */
  lemma CueOneLine(kinds: seq<LineKind>, k: nat)
    requires forall i :: 0 <= i < |kinds| && kinds[i].Text? ==> OneLine(kinds[i].piece)
    requires k < |AllCues(kinds)|
    ensures OneLine(AllCues(kinds)[k].text)
  {
    var pos := MarkerPositions(kinds);
    AllCuesAt(kinds, k);
    var body := kinds[pos[k] + 1..BodyEnd(kinds, pos, k)];
    PiecesOneLine(body);
    JoinOneLine(TextPieces(body));
  }

  lemma {:induction false} PiecesOneLine(body: seq<LineKind>)
    requires forall i :: 0 <= i < |body| && body[i].Text? ==> OneLine(body[i].piece)
    ensures forall k :: 0 <= k < |TextPieces(body)| ==> OneLine(TextPieces(body)[k])
  {
    if body != [] {
      PiecesOneLine(body[1..]);
    }
  }

  lemma {:induction false} JoinOneLine(parts: seq<string>)
    requires forall k :: 0 <= k < |parts| ==> parts[k] != "" && OneLine(parts[k])
    ensures OneLine(Join(parts, " "))
  {
    if |parts| > 1 {
      JoinOneLine(parts[1..]);
      var rest := Join(parts[1..], " ");
      JoinEmpty(parts[1..], " ");
      assert Join(parts, " ") == parts[0] + " " + rest;
    }
  }

  // ---------------------------------------------------------------------------------------
  // Round trip: what a WebVTT writer produces, the reader gives back

  /**
   * A caption a WebVTT writer can emit and this reader keeps as it is: non-negative times,
   * `duration = end - start`, and a one-line text with no margins that is neither a marker,
   * a header nor a note.
   */
  predicate Renderable(c: Caption) {
    && c.start.Ms? && c.start.ms >= 0 && c.end.Ms? && c.end.ms >= 0
    && c.duration == Minus(c.end, c.start)
    && '\n' !in c.text && Trim(c.text) == c.text
    && !Includes(c.text, "-->") && !("WEBVTT" <= c.text) && !("NOTE" <= c.text)
  }

  /** Every caption of the list is renderable. */
  predicate AllRenderable(cues: seq<Caption>) {
    cues == [] || (AllRenderable(cues[..|cues| - 1]) && Renderable(cues[|cues| - 1]))
  }

  lemma {:induction false} AllRenderableEach(cues: seq<Caption>)
    ensures AllRenderable(cues) <==> forall k :: 0 <= k < |cues| ==> Renderable(cues[k])
  {
    if cues != [] {
      var front := cues[..|cues| - 1];
      AllRenderableEach(front);
      assert forall k :: 0 <= k < |front| ==> front[k] == cues[k];
    }
  }

  function MarkerLine(start: nat, end: nat): string {
    RenderTimestamp(start) + " --> " + RenderTimestamp(end)
  }

  /** The lines of a WebVTT file: the header, a blank line, then timing, text and a blank line per cue. */
  function RenderLines(cues: seq<Caption>): seq<string>
    requires AllRenderable(cues)
  {
    if cues == [] then ["WEBVTT", ""]
    else
      var c := cues[|cues| - 1];
      RenderLines(cues[..|cues| - 1]) + [MarkerLine(c.start.ms, c.end.ms), c.text, ""]
  }

  function RenderVtt(cues: seq<Caption>): string
    requires AllRenderable(cues)
  {
    Join(RenderLines(cues), "\n")
  }

  /** A rendered timestamp holds no space, no line break and no dash. */
  lemma TimestampChars(t: nat)
    ensures ' ' !in RenderTimestamp(t) && '\n' !in RenderTimestamp(t) && '-' !in RenderTimestamp(t)
  {
    var minutes, rest := t / 60000, t % 60000;
    PadValue(minutes / 60, 2);
    PadValue(minutes % 60, 2);
    PadValue(rest / 1000, 2);
    PadValue(rest % 1000, 3);
    ClockChars(Pad(minutes / 60, 2), Pad(minutes % 60, 2), Pad(rest / 1000, 2), Pad(rest % 1000, 3));
  }

  /** Four digit runs joined by ':', ':' and '.' hold no space, no line break and no dash. */
  lemma ClockChars(h: string, m: string, s: string, f: string)
    requires AllDigits(h) && AllDigits(m) && AllDigits(s) && AllDigits(f)
    ensures var line := h + ":" + m + ":" + s + "." + f;
      ' ' !in line && '\n' !in line && '-' !in line
  {
    var line := h + ":" + m + ":" + s + "." + f;
    assert forall i :: 0 <= i < |line| ==> IsDigit(line[i]) || line[i] in ":.";
  }

  /** A rendered timing line holds "-->" and splits around " --> " into its two timestamps. */
  lemma MarkerLinePieces(start: nat, end: nat)
    ensures IsMarker(MarkerLine(start, end)) && '\n' !in MarkerLine(start, end)
    ensures Split(MarkerLine(start, end), " --> ") == [RenderTimestamp(start), RenderTimestamp(end)]
  {
    TimestampChars(start);
    TimestampChars(end);
    TimingLine(RenderTimestamp(start), RenderTimestamp(end));
  }

  /** Two timestamps free of spaces, dashes and line breaks, joined by " --> ", form a timing line. */
  lemma TimingLine(a: string, b: string)
    requires ' ' !in a && '-' !in a && '\n' !in a && ' ' !in b && '\n' !in b
    ensures IsMarker(a + " --> " + b) && '\n' !in a + " --> " + b
    ensures Split(a + " --> " + b, " --> ") == [a, b]
  {
    var line := a + " --> " + b;
    assert line[|a| + 1..|a| + 4] == "-->";
    OccursAtSlice(line, "-->", |a| + 1);
    IncludesWhenOccurs(line, "-->", |a| + 1);
    SplitAfterFirst(a, " --> ", b);
    NotIncludedWithoutFirstChar(b, " --> ");
  }

  /** A rendered timing line opens the entry of the two times it was written with. */
  lemma ReadMarkerLine(start: nat, end: nat)
    ensures Classify(MarkerLine(start, end)) == Timing(Caption(Ms(start), Ms(end), Ms(end - start), ""))
  {
    TimestampChars(start);
    TimestampChars(end);
    ParseRenderedTimestamp(start);
    ParseRenderedTimestamp(end);
    ReadTimingLine(RenderTimestamp(start), RenderTimestamp(end), Ms(start), Ms(end));
    MinusMs(end, start);
  }

  /** A timing line made of two timestamps opens the entry of the times they read as. */
  lemma ReadTimingLine(a: string, b: string, start: JsTime, end: JsTime)
    requires ' ' !in a && '-' !in a && '\n' !in a && ' ' !in b && '\n' !in b
    requires ParseVttTime(a) == start && ParseVttTime(b) == end
    ensures Classify(a + " --> " + b) == Timing(Caption(start, end, Minus(end, start), ""))
  {
    var line := a + " --> " + b;
    TimingLine(a, b);
    MarkerTimesOf(line, a, b);
    ClassifyMarker(line, start, end);
  }

  lemma MinusMs(a: int, b: int)
    ensures Minus(Ms(a), Ms(b)) == Ms(a - b)
  {
  }

  /** A timing line opens the entry of its two times. */
  lemma ClassifyMarker(line: string, start: JsTime, end: JsTime)
    requires IsMarker(line) && MarkerStart(line) == start && MarkerEnd(line) == end
    ensures Classify(line) == Timing(Caption(start, end, Minus(end, start), ""))
  {
  }

  /** The times of a line made of two timestamps around " --> " are the times they read as. */
  lemma MarkerTimesOf(line: string, a: string, b: string)
    requires Split(line, " --> ") == [a, b]
    ensures MarkerStart(line) == ParseVttTime(a) && MarkerEnd(line) == ParseVttTime(b)
  {
    var parts := Split(line, " --> ");
    assert parts[0] == a && parts[1] == b;
  }

  /** The text line of a renderable caption adds exactly its text, and an empty one is skipped. */
  lemma ReadTextLine(c: Caption)
    requires Renderable(c)
    ensures Classify(c.text) == if c.text == "" then Skipped else Text(c.text)
  {
    if c.text == "" {
      NotIncludedWithoutFirstChar("", "-->");
    }
  }

  /** The entries of the rendered lines are the captions rendered, all of them. */
  lemma {:induction false} AllCuesOfRendered(cues: seq<Caption>)
    requires AllRenderable(cues)
    ensures AllCues(Kinds(RenderLines(cues))) == cues
  {
    if cues == [] {
      NotIncludedWithoutFirstChar("WEBVTT", "-->");
      NotIncludedWithoutFirstChar("", "-->");
      assert Kinds(["WEBVTT", ""]) == [Skipped, Skipped];
      assert MarkerPositions([Skipped, Skipped]) == [];
    } else {
      var front, c := cues[..|cues| - 1], cues[|cues| - 1];
      assert cues == front + [c];
      AllCuesOfRendered(front);
      RenderedCue(front, c);
    }
  }

  /** Writing one more caption adds exactly that caption to the entries read back. */
  lemma RenderedCue(front: seq<Caption>, c: Caption)
    requires AllRenderable(front)
    requires Renderable(c) && AllCues(Kinds(RenderLines(front))) == front
    ensures AllRenderable(front + [c])
    ensures AllCues(Kinds(RenderLines(front + [c]))) == front + [c]
  {
    var cues := front + [c];
    assert cues[..|cues| - 1] == front;
    RenderedCueKinds(cues);
    CueLines(Kinds(RenderLines(front)), c, if c.text == "" then Skipped else Text(c.text));
  }

  /** The three lines written for the last caption: its timing line, its text line and a blank line. */
  lemma RenderedCueKinds(cues: seq<Caption>)
    requires cues != [] && AllRenderable(cues)
    ensures var c := cues[|cues| - 1];
      Kinds(RenderLines(cues)) == Kinds(RenderLines(cues[..|cues| - 1])) +
        [Timing(c.(text := "")), if c.text == "" then Skipped else Text(c.text), Skipped]
  {
    var c := cues[|cues| - 1];
    RenderedCueLines(c);
    CueKinds(RenderLines(cues[..|cues| - 1]), MarkerLine(c.start.ms, c.end.ms), c.text, c.(text := ""));
  }

  /** The timing line of a renderable caption opens it without its text; its text line adds the text. */
  lemma RenderedCueLines(c: Caption)
    requires Renderable(c)
    ensures Classify(MarkerLine(c.start.ms, c.end.ms)) == Timing(c.(text := ""))
    ensures Classify(c.text) == if c.text == "" then Skipped else Text(c.text)
  {
    assert Classify(MarkerLine(c.start.ms, c.end.ms)) == Timing(c.(text := "")) by {
      ReadMarkerLine(c.start.ms, c.end.ms);
      RenderableEntry(c);
    }
    ReadTextLine(c);
  }

  /** A renderable caption without its text is the entry its timing line opens. */
  lemma RenderableEntry(c: Caption)
    requires Renderable(c)
    ensures c.(text := "") == Caption(Ms(c.start.ms), Ms(c.end.ms), Ms(c.end.ms - c.start.ms), "")
  {
  }

  /** The kinds of a caption's timing, text and blank lines, after the lines before them. */
  lemma CueKinds(lines: seq<string>, marker: string, text: string, entry: Caption)
    requires Classify(marker) == Timing(entry)
    requires Classify(text) == if text == "" then Skipped else Text(text)
    ensures Kinds(lines + [marker, text, ""]) ==
      Kinds(lines) + [Timing(entry), if text == "" then Skipped else Text(text), Skipped]
  {
    NotIncludedWithoutFirstChar("", "-->");
    MapSeqAppendThree(Classify, lines, marker, text, "");
  }

  lemma MapSeqAppendThree<A, B>(f: A -> B, s: seq<A>, x: A, y: A, z: A)
    ensures MapSeq(f, s + [x, y, z]) == MapSeq(f, s) + [f(x), f(y), f(z)]
  {
    MapSeqAppend(f, s, [x, y, z]);
  }

  /** No rendered line holds a line break, so the file splits back into exactly these lines. */
  lemma {:induction false} RenderedLinesOneLine(cues: seq<Caption>)
    requires AllRenderable(cues)
    ensures forall i :: 0 <= i < |RenderLines(cues)| ==> '\n' !in RenderLines(cues)[i]
  {
    if cues != [] {
      var front, c := cues[..|cues| - 1], cues[|cues| - 1];
      RenderedLinesOneLine(front);
      MarkerLineOneLine(c.start.ms, c.end.ms);
      assert '\n' !in c.text;
      LinesOneLineAppend(RenderLines(front), MarkerLine(c.start.ms, c.end.ms), c.text);
    }
  }

  lemma MarkerLineOneLine(start: nat, end: nat)
    ensures '\n' !in MarkerLine(start, end)
  {
    TimestampChars(start);
    TimestampChars(end);
    NoCharAppend(RenderTimestamp(start), " --> ", RenderTimestamp(end), '\n');
  }

  lemma NoCharAppend(a: string, b: string, c: string, x: char)
    requires x !in a && x !in b && x !in c
    ensures x !in a + b + c
  {
  }

  lemma LinesOneLineAppend(lines: seq<string>, marker: string, text: string)
    requires forall i :: 0 <= i < |lines| ==> '\n' !in lines[i]
    requires '\n' !in marker && '\n' !in text
    ensures forall i :: 0 <= i < |lines + [marker, text, ""]| ==> '\n' !in (lines + [marker, text, ""])[i]
  {
  }

  /** The entries after a caption's three lines: the entries so far and that caption. */
  lemma CueLines(kinds: seq<LineKind>, c: Caption, textKind: LineKind)
    requires textKind == if c.text == "" then Skipped else Text(c.text)
    ensures AllCues(kinds + [Timing(c.(text := "")), textKind, Skipped]) == AllCues(kinds) + [c]
  {
    var entry := Timing(c.(text := ""));
    var k1 := kinds + [entry];
    var k2 := k1 + [textKind];
    var k3 := k2 + [Skipped];
    AllCuesSnoc(kinds, entry);
    AllCuesSnoc(k1, textKind);
    AllCuesSnoc(k2, Skipped);
    assert kinds + [entry, textKind, Skipped] == k3;
    CueLinesNext(AllCues(kinds), c, textKind);
  }

  lemma CueLinesNext(all: seq<Caption>, c: Caption, textKind: LineKind)
    requires textKind == if c.text == "" then Skipped else Text(c.text)
    ensures NextCues(NextCues(NextCues(all, Timing(c.(text := ""))), textKind), Skipped) == all + [c]
  {
    var all1 := all + [c.(text := "")];
    assert all1[..|all1| - 1] == all;
    assert AppendText("", c.text) == c.text;
    assert c.(text := "").(text := c.text) == c;
  }

  /**
   * Reading a written file gives back the captions written, provided the last one has text
   * (a final entry with empty text is the one the reader drops).
   */
  lemma ParseRendered(cues: seq<Caption>)
    requires AllRenderable(cues)
    requires cues != [] ==> cues[|cues| - 1].text != ""
    ensures Cues(Split(RenderVtt(cues), "\n")) == cues
  {
    AllCuesOfRendered(cues);
    RenderedLinesOneLine(cues);
    SplitJoinChar(RenderLines(cues), '\n');
  }

  // ---------------------------------------------------------------------------------------
  // checkAvailableCaptions

  /** `line.split(' ')[0]`: the text before the first space. */
  function FirstToken(line: string): (token: string)
    ensures token <= line && ' ' !in token
    ensures |token| == |line| || line[|token|] == ' '
  {
    var token := Split(line, " ")[0];
    SplitClean(line, " ");
    IncludesChar(token, ' ');
    assert |token| < |line| ==> line[|token|] == ' ' by {
      var i := IndexOf(line, " ");
      if i >= 0 {
        assert token == line[..i];
        OccursAtSlice(line, " ", i);
        assert line[i] == line[i..i + 1][0];
      }
    }
    token
  }

  /** The languages of the lines of `yt-dlp --list-subs` output, in line order. */
  function Languages(lines: seq<string>): (langs: seq<string>)
    ensures |langs| <= |lines|
    ensures forall k :: 0 <= k < |langs| ==> langs[k] != "" && ' ' !in langs[k]
  {
    if lines == [] then [] else LineLanguage(lines[0]) + Languages(lines[1..])
  }

  /** What one line adds: its first token, when the line mentions "vtt" and the token is not empty. */
  function LineLanguage(line: string): (langs: seq<string>)
    ensures |langs| <= 1
    ensures forall k :: 0 <= k < |langs| ==> langs[k] != "" && ' ' !in langs[k]
  {
    var token := FirstToken(line);
    if Includes(line, "vtt") && token != "" then [token] else []
  }

  /** The list `checkAvailableCaptions` resolves with; `None` is a failed command, which resolves with []. */
  function AvailableLanguages(stdout: Option<string>): (langs: seq<string>)
    ensures stdout.None? ==> langs == []
    ensures forall k :: 0 <= k < |langs| ==> langs[k] != "" && ' ' !in langs[k]
  {
    if stdout.None? then [] else Languages(Split(stdout.value, "\n"))
  }

  /** The list is built line by line: the languages of two blocks of lines come in block order. */
  lemma {:induction false} LanguagesAppend(a: seq<string>, b: seq<string>)
    ensures Languages(a + b) == Languages(a) + Languages(b)
  {
    if a == [] {
      assert a + b == b;
    } else {
      assert (a + b)[0] == a[0];
      assert (a + b)[1..] == a[1..] + b;
      LanguagesAppend(a[1..], b);
    }
  }

  /** A language is listed exactly when it is the non-empty first token of a line mentioning "vtt". */
  lemma {:induction false} LanguagesMembers(lines: seq<string>, lang: string)
    ensures lang in Languages(lines) <==>
      lang != "" && exists i :: 0 <= i < |lines| && Includes(lines[i], "vtt") && FirstToken(lines[i]) == lang
  {
    if lines != [] {
      LanguagesMembers(lines[1..], lang);
      if lang in Languages(lines[1..]) {
        var i :| 0 <= i < |lines[1..]| && Includes(lines[1..][i], "vtt") && FirstToken(lines[1..][i]) == lang;
        assert lines[i + 1] == lines[1..][i];
      }
      if exists i :: 0 <= i < |lines| && Includes(lines[i], "vtt") && FirstToken(lines[i]) == lang {
        var i :| 0 <= i < |lines| && Includes(lines[i], "vtt") && FirstToken(lines[i]) == lang;
        if i > 0 {
          assert lines[1..][i - 1] == lines[i];
        }
      }
    }
  }
}
