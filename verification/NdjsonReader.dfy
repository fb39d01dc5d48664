/** The streaming chat reader `readNdjson` of apps/web/hooks/useChat.ts. The decoded response
    arrives in arbitrary pieces; the reader buffers partial lines and dispatches whole ones. */
module NdjsonReader {
  import opened Optional
  import opened Text

  /** One stream event. Fields that are only handed on are kept as one payload. */
  datatype Event =
    | Meta(payload: string)
    | Delta(text: string)
    | Sources(payload: string)
    | Actions(payload: string)
    | Error(payload: string)
    | Done
    | OtherType

  /** What `JSON.parse` makes of a line: an exception, `null` (on which `evt.type` throws), or
      an event. */
  datatype Parsed = Malformed | Null | Parsed(evt: Event)

  datatype Callback =
    | OnMeta(payload: string)
    | OnDelta(cumulative: string, chunk: string)
    | OnSources(payload: string)
    | OnActions(payload: string)
    | OnInlineError(payload: string)
    | OnTransportError
    | OnDone(cumulative: string)

  /** How the byte stream ends after the last chunk. `flush` is what `decoder.decode()` still
      yields: nothing, or a replacement character for a cut-off sequence. */
  datatype Ending =
    | Closed(flush: string)
    | SignalAborted(flush: string)
    | AbortError
    | ReadFailed

  // ---------------------------------------------------------------- the simple form

  /** The lines of the text that a newline ends, and what follows the last newline. */
  function Lines(text: string): seq<string> {
    if text == "" then []
    else
      var n := |text| - 1;
      Lines(text[..n]) + if text[n] == '\n' then [Rest(text[..n])] else []
  }

  function Rest(text: string): string {
    if text == "" || text[|text| - 1] == '\n' then ""
    else Rest(text[..|text| - 1]) + [text[|text| - 1]]
  }

  /** The whole text split at newlines. */
  function Split(text: string): seq<string> {
    Lines(text) + [Rest(text)]
  }

  lemma {:induction false} RestHasNoNewline(text: string)
    ensures '\n' !in Rest(text)
  {
    if text != "" {
      RestHasNoNewline(text[..|text| - 1]);
    }
  }

  lemma {:induction false} JoinSnoc(parts: seq<string>, last: string, separator: string)
    requires parts != []
    ensures Join(parts + [last], separator) == Join(parts, separator) + separator + last
  {
    if |parts| == 1 {
      assert (parts + [last])[1..] == [last];
    } else {
      assert (parts + [last])[1..] == parts[1..] + [last];
      JoinSnoc(parts[1..], last, separator);
    }
  }

  lemma {:induction false} JoinGrowLast(parts: seq<string>, last: string, c: char, separator: string)
    ensures Join(parts + [last + [c]], separator) == Join(parts + [last], separator) + [c]
  {
    if parts != [] {
      JoinSnoc(parts, last, separator);
      JoinSnoc(parts, last + [c], separator);
    }
  }

  /** Splitting is the inverse of joining with newlines, and its pieces hold no newline. */
  lemma {:induction false} SplitInvertsJoin(text: string)
    ensures Join(Split(text), "\n") == text
    ensures forall i :: 0 <= i < |Split(text)| ==> '\n' !in Split(text)[i]
  {
    if text != "" {
      var n := |text| - 1;
      SplitInvertsJoin(text[..n]);
      RestHasNoNewline(text);
      assert text == text[..n] + [text[n]];
      if text[n] == '\n' {
        JoinSnoc(Split(text[..n]), "", "\n");
        assert Split(text) == Split(text[..n]) + [""];
      } else {
        JoinGrowLast(Lines(text[..n]), Rest(text[..n]), text[n], "\n");
        assert Lines(text) == Lines(text[..n]);
        assert forall i :: 0 <= i < |Lines(text)| ==> Split(text)[i] == Split(text[..n])[i];
      }
    }
  }

  /** What has been told to the caller so far. `threw` stops the reader. */
  datatype Session = Session(cumulative: string, errored: bool, log: seq<Callback>, threw: bool)

  const START := Session("", false, [], false)

  function Tell(s: Session, c: Callback): Session {
    s.(log := s.log + [c])
  }

  function Dispatch(s: Session, evt: Event): Session {
    match evt
    case Meta(p) => Tell(s, OnMeta(p))
    case Delta(t) => Tell(s.(cumulative := s.cumulative + t), OnDelta(s.cumulative + t, t))
    case Sources(p) => Tell(s, OnSources(p))
    case Actions(p) => Tell(s, OnActions(p))
    case Error(p) => Tell(s.(errored := true), OnInlineError(p))
    case Done => Tell(s, OnDone(s.cumulative))
    case OtherType => s
  }

  function Handle(s: Session, line: string, parse: string -> Parsed): Session {
    if s.threw || Trim(line) == "" then s
    else match parse(Trim(line))
      case Malformed => s
      case Null => s.(threw := true)
      case Parsed(evt) => Dispatch(s, evt)
  }

  function HandleAll(s: Session, lines: seq<string>, parse: string -> Parsed): Session {
    if lines == [] then s
    else Handle(HandleAll(s, lines[..|lines| - 1], parse), lines[|lines| - 1], parse)
  }

  function Flush(ending: Ending): string {
    match ending
    case Closed(flush) => flush
    case SignalAborted(flush) => flush
    case _ => ""
  }

  /** The lines the reader dispatches: all pieces, unless reading broke off. */
  function Dispatched(text: string, ending: Ending): seq<string> {
    if ending.AbortError? || ending.ReadFailed? then Lines(text) else Split(text + Flush(ending))
  }

  function Finish(s: Session, ending: Ending): Session {
    if s.threw || ending.ReadFailed? then Tell(s, OnTransportError)
    else if ending.AbortError? || s.errored then s
    else Tell(s, OnDone(s.cumulative))
  }

  /** The reader's whole effect, as a function of the whole text. */
  function WholeText(text: string, ending: Ending, parse: string -> Parsed): Session {
    Finish(HandleAll(START, Dispatched(text, ending), parse), ending)
  }

  // ---------------------------------------------------------------- cutting does not matter

  lemma {:induction false} NoNewlineNoLines(text: string)
    requires '\n' !in text
    ensures Lines(text) == [] && Rest(text) == text
  {
    if text != "" {
      NoNewlineNoLines(text[..|text| - 1]);
    }
  }

  /** One more character at the end of a text. */
  lemma LinesOfSnoc(text: string, c: char)
    ensures Lines(text + [c]) == Lines(text) + if c == '\n' then [Rest(text)] else []
    ensures Rest(text + [c]) == if c == '\n' then "" else Rest(text) + [c]
  {
    assert (text + [c])[..|text|] == text;
  }

  /** `a` may be replaced by its remainder in front of `b`. */
  ghost predicate CutsAnywhere(a: string, b: string) {
    Lines(a + b) == Lines(a) + Lines(Rest(a) + b) && Rest(a + b) == Rest(Rest(a) + b)
  }

  lemma ConcatSnoc(a: string, b: string, c: char)
    ensures a + (b + [c]) == (a + b) + [c]
  {
  }

  lemma CutsAnywhereSnoc(a: string, b: string, c: char)
    requires CutsAnywhere(a, b)
    ensures CutsAnywhere(a, b + [c])
  {
    var ab, rb := a + b, Rest(a) + b;
    LinesOfSnoc(ab, c);
    LinesOfSnoc(rb, c);
    ConcatSnoc(a, b, c);
    ConcatSnoc(Rest(a), b, c);
    LinesConcatSnoc(Lines(a), Lines(rb), Rest(ab), c == '\n');
  }

  lemma LinesConcatSnoc(before: seq<string>, after: seq<string>, last: string, ends: bool)
    ensures (before + after) + (if ends then [last] else []) == before + (after + if ends then [last] else [])
  {
  }

  lemma {:induction false} LinesOfConcat(a: string, b: string)
    ensures Lines(a + b) == Lines(a) + Lines(Rest(a) + b)
    ensures Rest(a + b) == Rest(Rest(a) + b)
    decreases |b|
  {
    if b == "" {
      RestHasNoNewline(a);
      NoNewlineNoLines(Rest(a));
      assert a + b == a && Rest(a) + b == Rest(a);
    } else {
      var before, c := b[..|b| - 1], b[|b| - 1];
      LinesOfConcat(a, before);
      CutsAnywhereSnoc(a, before, c);
      assert b == before + [c];
    }
  }

  /** One round of the drain loop: cut at the first newline. */
  lemma CutFirstLine(buf: string, line: string, rest: string)
    requires buf == line + "\n" + rest && '\n' !in line
    ensures Lines(buf) == [line] + Lines(rest)
    ensures Rest(buf) == Rest(rest)
  {
    NoNewlineNoLines(line);
    LinesOfSnoc(line, '\n');
    LinesOfConcat(line + "\n", rest);
    assert "" + rest == rest;
  }

  lemma {:induction false} HandleAllOfConcat(s: Session, a: seq<string>, b: seq<string>, parse: string -> Parsed)
    ensures HandleAll(s, a + b, parse) == HandleAll(HandleAll(s, a, parse), b, parse)
    decreases |b|
  {
    if b == [] {
      assert a + b == a;
    } else {
      assert (a + b)[..|a + b| - 1] == a + b[..|b| - 1];
      HandleAllOfConcat(s, a, b[..|b| - 1], parse);
    }
  }

  lemma HandleAllOfSnoc(s: Session, lines: seq<string>, line: string, parse: string -> Parsed)
    ensures HandleAll(s, lines + [line], parse) == Handle(HandleAll(s, lines, parse), line, parse)
  {
    assert (lines + [line])[..|lines|] == lines;
  }

  lemma HandleAllAfterThrow(s: Session, a: seq<string>, b: seq<string>, parse: string -> Parsed)
    requires HandleAll(s, a, parse).threw
    ensures HandleAll(s, a + b, parse) == HandleAll(s, a, parse)
  {
    HandleAllOfConcat(s, a, b, parse);
    NothingAfterThrow(HandleAll(s, a, parse), b, parse);
  }

  lemma {:induction false} NothingAfterThrow(s: Session, lines: seq<string>, parse: string -> Parsed)
    requires s.threw
    ensures HandleAll(s, lines, parse) == s
  {
    if lines != [] {
      NothingAfterThrow(s, lines[..|lines| - 1], parse);
    }
  }

  /** The lines dispatched for a longer text begin with the lines of a shorter one. */
  lemma DispatchedOfConcat(a: string, b: string, ending: Ending) returns (more: seq<string>)
    ensures Dispatched(a + b, ending) == Lines(a) + more
  {
    if ending.AbortError? || ending.ReadFailed? {
      LinesOfConcat(a, b);
      more := Lines(Rest(a) + b);
    } else {
      more := SplitOfConcat(a, b + Flush(ending));
      assert (a + b) + Flush(ending) == a + (b + Flush(ending));
    }
  }

  lemma SplitOfConcat(a: string, b: string) returns (more: seq<string>)
    ensures Split(a + b) == Lines(a) + more
  {
    LinesOfConcat(a, b);
    more := Split(Rest(a) + b);
  }

  /** A throw among the lines read so far fixes the outcome, whatever follows. */
  lemma ThrowDecides(a: string, b: string, ending: Ending, parse: string -> Parsed)
    requires HandleAll(START, Lines(a), parse).threw
    ensures WholeText(a + b, ending, parse) == Tell(HandleAll(START, Lines(a), parse), OnTransportError)
  {
    var more := DispatchedOfConcat(a, b, ending);
    HandleAllAfterThrow(START, Lines(a), more, parse);
  }

  lemma {:induction false} ConcatSplit<T>(parts: seq<seq<T>>, i: nat)
    requires i <= |parts|
    ensures Concat(parts) == Concat(parts[..i]) + Concat(parts[i..])
  {
    if i == |parts| {
      assert parts[..i] == parts;
    } else {
      var n := |parts| - 1;
      ConcatSplit(parts[..n], i);
      assert parts[..n][..i] == parts[..i] && parts[..n][i..] == parts[i..][..n - i];
    }
  }

  // ---------------------------------------------------------------- lines that are JSON null

  /** A line on which `dispatch` throws. */
  predicate IsNull(line: string, parse: string -> Parsed) {
    Trim(line) != "" && parse(Trim(line)).Null?
  }

  ghost predicate HasNull(lines: seq<string>, parse: string -> Parsed) {
    exists i :: 0 <= i < |lines| && IsNull(lines[i], parse)
  }

  lemma HasNullSnoc(lines: seq<string>, line: string, parse: string -> Parsed)
    ensures HasNull(lines + [line], parse) <==> HasNull(lines, parse) || IsNull(line, parse)
  {
    var all := lines + [line];
    assert all[|lines|] == line;
    if HasNull(lines, parse) {
      var i :| 0 <= i < |lines| && IsNull(lines[i], parse);
      assert all[i] == lines[i];
    }
  }

  /** The reader throws exactly when one of its lines is JSON null. */
  lemma {:induction false} ThrowsIff(lines: seq<string>, parse: string -> Parsed)
    ensures HandleAll(START, lines, parse).threw <==> HasNull(lines, parse)
  {
    if lines != [] {
      var before, last := lines[..|lines| - 1], lines[|lines| - 1];
      ThrowsIff(before, parse);
      assert lines == before + [last];
      HasNullSnoc(before, last, parse);
    }
  }

  /** A line that holds an event is acted on exactly when no line before it is JSON null. */
  lemma PieceIsHandledIff(lines: seq<string>, i: nat, evt: Event, parse: string -> Parsed)
    requires i < |lines| && Trim(lines[i]) != "" && parse(Trim(lines[i])) == Parsed(evt)
    ensures HandleAll(START, lines[..i + 1], parse)
         == if HasNull(lines[..i], parse) then HandleAll(START, lines[..i], parse)
            else Dispatch(HandleAll(START, lines[..i], parse), evt)
  {
    ThrowsIff(lines[..i], parse);
    assert lines[..i + 1] == lines[..i] + [lines[i]];
    HandleAllOfSnoc(START, lines[..i], lines[i], parse);
  }

  lemma {:induction false} NoTransportErrorYet(lines: seq<string>, parse: string -> Parsed)
    ensures OnTransportError !in HandleAll(START, lines, parse).log
  {
    if lines != [] {
      NoTransportErrorYet(lines[..|lines| - 1], parse);
    }
  }

  /** A transport error is reported exactly when reading failed or a dispatched line is JSON null. */
  lemma TransportErrorIff(text: string, ending: Ending, parse: string -> Parsed)
    ensures OnTransportError in WholeText(text, ending, parse).log
            <==> ending.ReadFailed? || HasNull(Dispatched(text, ending), parse)
  {
    ThrowsIff(Dispatched(text, ending), parse);
    NoTransportErrorYet(Dispatched(text, ending), parse);
  }

  /** Every whole line of a text is dispatched. */
  lemma LineIsDispatched(a: string, line: string, b: string, ending: Ending) returns (i: nat)
    requires '\n' !in line
    ensures var lines := Dispatched((a + "\n") + (line + "\n" + b), ending);
            i < |lines| && lines[i] == line
  {
    var head, tail := a + "\n", line + "\n" + b;
    LinesOfSnoc(a, '\n');
    LinesOfHeadFirst(head, line, b);
    var rest := DispatchedOfConcat(head + tail, "", ending);
    assert head + tail + "" == head + tail;
    i := |Lines(head)|;
    assert (Lines(head + tail) + rest)[i] == Lines(head + tail)[i];
  }

  lemma LinesOfHeadFirst(head: string, line: string, b: string)
    requires Rest(head) == "" && '\n' !in line
    ensures Lines(head + (line + "\n" + b)) == Lines(head) + ([line] + Lines(b))
  {
    LinesOfConcat(head, line + "\n" + b);
    assert "" + (line + "\n" + b) == line + "\n" + b;
    CutFirstLine(line + "\n" + b, line, b);
  }

  /** Any text with a line of JSON null in it is such a case. */
  lemma NullLineFails(a: string, line: string, b: string, ending: Ending, parse: string -> Parsed)
    requires '\n' !in line && IsNull(line, parse)
    ensures OnTransportError in WholeText((a + "\n") + (line + "\n" + b), ending, parse).log
  {
    var i := LineIsDispatched(a, line, b, ending);
    assert IsNull(Dispatched((a + "\n") + (line + "\n" + b), ending)[i], parse);
    TransportErrorIff((a + "\n") + (line + "\n" + b), ending, parse);
  }

  // ---------------------------------------------------------------- the running text

  /** The delta texts handed out so far, concatenated. */
  function Spoken(log: seq<Callback>): string {
    if log == [] then ""
    else Spoken(log[..|log| - 1]) + if log[|log| - 1].OnDelta? then log[|log| - 1].chunk else ""
  }

  ghost predicate Accumulates(log: seq<Callback>) {
    forall i :: 0 <= i < |log| && (log[i].OnDelta? || log[i].OnDone?) ==> log[i].cumulative == Spoken(log[..i + 1])
  }

  lemma SpokenSnoc(log: seq<Callback>, c: Callback)
    ensures Spoken(log + [c]) == Spoken(log) + if c.OnDelta? then c.chunk else ""
  {
    assert (log + [c])[..|log|] == log;
  }

  lemma AccumulatesSnoc(log: seq<Callback>, c: Callback)
    requires Accumulates(log)
    requires c.OnDelta? || c.OnDone? ==> c.cumulative == Spoken(log + [c])
    ensures Accumulates(log + [c])
  {
    var log' := log + [c];
    forall i | 0 <= i < |log'| && (log'[i].OnDelta? || log'[i].OnDone?)
      ensures log'[i].cumulative == Spoken(log'[..i + 1])
    {
      assert log'[..i + 1] == if i < |log| then log[..i + 1] else log';
    }
  }

  lemma TellAccumulates(s: Session, c: Callback)
    requires Accumulates(s.log)
    requires c.OnDone? ==> c.cumulative == Spoken(s.log)
    requires c.OnDelta? ==> c.cumulative == Spoken(s.log) + c.chunk
    ensures Accumulates(Tell(s, c).log)
    ensures Spoken(Tell(s, c).log) == Spoken(s.log) + if c.OnDelta? then c.chunk else ""
  {
    SpokenSnoc(s.log, c);
    AccumulatesSnoc(s.log, c);
  }

  ghost predicate InStep(s: Session) {
    Accumulates(s.log) && s.cumulative == Spoken(s.log)
  }

  lemma DispatchStaysInStep(s: Session, evt: Event)
    requires InStep(s)
    ensures InStep(Dispatch(s, evt))
  {
    match evt
    case Meta(p) => TellAccumulates(s, OnMeta(p));
    case Delta(t) => TellAccumulates(s.(cumulative := s.cumulative + t), OnDelta(s.cumulative + t, t));
    case Sources(p) => TellAccumulates(s, OnSources(p));
    case Actions(p) => TellAccumulates(s, OnActions(p));
    case Error(p) => TellAccumulates(s.(errored := true), OnInlineError(p));
    case Done => TellAccumulates(s, OnDone(s.cumulative));
    case OtherType =>
  }

  lemma {:induction false} HandleAllStaysInStep(lines: seq<string>, parse: string -> Parsed)
    ensures InStep(HandleAll(START, lines, parse))
  {
    if lines != [] {
      HandleAllStaysInStep(lines[..|lines| - 1], parse);
      var s := HandleAll(START, lines[..|lines| - 1], parse);
      var parsed := parse(Trim(lines[|lines| - 1]));
      if parsed.Parsed? {
        DispatchStaysInStep(s, parsed.evt);
      }
    }
  }

  /** Every cumulative text handed to a callback, and the one returned, is the concatenation of
      the delta texts up to then. */
  lemma CumulativeIsConcatenation(text: string, ending: Ending, parse: string -> Parsed)
    ensures InStep(WholeText(text, ending, parse))
  {
    HandleAllStaysInStep(Dispatched(text, ending), parse);
    var s := HandleAll(START, Dispatched(text, ending), parse);
    TellAccumulates(s, OnTransportError);
    TellAccumulates(s, OnDone(s.cumulative));
  }

  // ---------------------------------------------------------------- what the caller is told

  /** The event of a line, if it holds one of a known type. */
  function KnownEvent(line: string, parse: string -> Parsed): seq<Event> {
    if Trim(line) != "" && parse(Trim(line)).Parsed? && !parse(Trim(line)).evt.OtherType?
    then [parse(Trim(line)).evt] else []
  }

  /** The known events of the lines before the first JSON null. */
  ghost function Heard(lines: seq<string>, parse: string -> Parsed): seq<Event> {
    if lines == [] then []
    else
      Heard(lines[..|lines| - 1], parse)
      + if HasNull(lines, parse) then [] else KnownEvent(lines[|lines| - 1], parse)
  }

  /** The texts of the delta events, concatenated. */
  ghost function Said(events: seq<Event>): string {
    if events == [] then ""
    else Said(events[..|events| - 1]) + if events[|events| - 1].Delta? then events[|events| - 1].text else ""
  }

  /** The callback that belongs to an event when the delta texts up to it read `said`. */
  ghost predicate Answers(c: Callback, e: Event, said: string) {
    match e
    case Meta(p) => c == OnMeta(p)
    case Delta(t) => c == OnDelta(said, t)
    case Sources(p) => c == OnSources(p)
    case Actions(p) => c == OnActions(p)
    case Error(p) => c == OnInlineError(p)
    case Done => c == OnDone(said)
    case OtherType => false
  }

  /** One callback for each event, in order. */
  ghost predicate AnswersAll(log: seq<Callback>, events: seq<Event>) {
    |log| == |events| && forall i :: 0 <= i < |log| ==> Answers(log[i], events[i], Said(events[..i + 1]))
  }

  ghost predicate HasError(events: seq<Event>) {
    exists i :: 0 <= i < |events| && events[i].Error?
  }

  lemma AnswersAllSnoc(log: seq<Callback>, events: seq<Event>, c: Callback, e: Event)
    requires AnswersAll(log, events) && Answers(c, e, Said(events + [e]))
    ensures AnswersAll(log + [c], events + [e])
  {
    forall i | 0 <= i <= |log|
      ensures Answers((log + [c])[i], (events + [e])[i], Said((events + [e])[..i + 1]))
    {
      assert (events + [e])[..i + 1] == if i < |log| then events[..i + 1] else events + [e];
    }
  }

  lemma HasErrorSnoc(events: seq<Event>, e: Event)
    ensures HasError(events + [e]) <==> HasError(events) || e.Error?
  {
    assert (events + [e])[|events|] == e;
    if i :| 0 <= i < |events| && events[i].Error? {
      assert (events + [e])[i] == events[i];
    }
  }

  ghost predicate Reports(s: Session, events: seq<Event>) {
    AnswersAll(s.log, events) && s.cumulative == Said(events) && (s.errored <==> HasError(events))
  }

  lemma DispatchReports(s: Session, events: seq<Event>, e: Event)
    requires Reports(s, events)
    ensures Reports(Dispatch(s, e), if e.OtherType? then events else events + [e])
  {
    if !e.OtherType? {
      var s' := Dispatch(s, e);
      assert (events + [e])[..|events|] == events;
      AnswersAllSnoc(s.log, events, s'.log[|s.log|], e);
      HasErrorSnoc(events, e);
    }
  }

  lemma HandleReports(s: Session, events: seq<Event>, line: string, parse: string -> Parsed)
    requires Reports(s, events) && !s.threw
    ensures Reports(Handle(s, line, parse), events + KnownEvent(line, parse))
  {
    assert events + [] == events;
    var parsed := parse(Trim(line));
    if Trim(line) != "" && parsed.Parsed? {
      DispatchReports(s, events, parsed.evt);
    }
  }

  lemma HeardSnoc(lines: seq<string>, line: string, parse: string -> Parsed)
    ensures Heard(lines + [line], parse)
         == Heard(lines, parse) + if HasNull(lines, parse) then [] else KnownEvent(line, parse)
  {
    assert (lines + [line])[..|lines|] == lines;
    HasNullSnoc(lines, line, parse);
  }

  lemma {:induction false} HandleAllReports(lines: seq<string>, parse: string -> Parsed)
    ensures Reports(HandleAll(START, lines, parse), Heard(lines, parse))
  {
    if lines != [] {
      var before, line := lines[..|lines| - 1], lines[|lines| - 1];
      assert lines == before + [line];
      HandleAllReports(before, parse);
      ThrowsIff(before, parse);
      HeardSnoc(before, line, parse);
      if HasNull(before, parse) {
        assert Heard(before, parse) + [] == Heard(before, parse);
      } else {
        HandleReports(HandleAll(START, before, parse), Heard(before, parse), line, parse);
      }
    }
  }

  /** What the caller is told after the events: a transport error, nothing more, or that the answer
      is complete, although no done event may have come. */
  ghost function Farewell(lines: seq<string>, ending: Ending, parse: string -> Parsed): seq<Callback> {
    if ending.ReadFailed? || HasNull(lines, parse) then [OnTransportError]
    else if ending.AbortError? || HasError(Heard(lines, parse)) then []
    else [OnDone(Said(Heard(lines, parse)))]
  }

  ghost predicate TellsEverything(cumulative: string, log: seq<Callback>, lines: seq<string>, ending: Ending,
                                  parse: string -> Parsed) {
    var n := |Heard(lines, parse)|;
    && |log| >= n
    && AnswersAll(log[..n], Heard(lines, parse))
    && log[n..] == Farewell(lines, ending, parse)
    && cumulative == Said(Heard(lines, parse))
  }

  /** The reader's effect in terms of the events alone: each known event before the first JSON null has
      its own callback, and only a clean end without an inline error adds the implicit done. */
  lemma WholeTextTellsEverything(text: string, ending: Ending, parse: string -> Parsed)
    ensures var whole := WholeText(text, ending, parse);
            TellsEverything(whole.cumulative, whole.log, Dispatched(text, ending), ending, parse)
  {
    var lines := Dispatched(text, ending);
    HandleAllReports(lines, parse);
    ThrowsIff(lines, parse);
    var log := HandleAll(START, lines, parse).log;
    assert WholeText(text, ending, parse).log == log + Farewell(lines, ending, parse);
  }

  // ---------------------------------------------------------------- the code

  class Reader {
    var buf: string
    var cumulative: string
    var inlineErrored: bool
    var log: seq<Callback>

    ghost function Told(): Session
      reads this
    {
      Session(cumulative, inlineErrored, log, false)
    }

    constructor ()
      ensures buf == "" && Told() == START
    {
      buf, cumulative, inlineErrored, log := "", "", false, [];
    }

    /** The `dispatch` closure together with the emptiness test before it. */
    method DispatchLine(line: string, parse: string -> Parsed) returns (threw: bool)
      modifies this`cumulative, this`inlineErrored, this`log
      ensures Told().(threw := threw) == Handle(old(Told()), line, parse)
    {
      var trimmed := Trim(line);
      if trimmed == "" {
        return false;
      }
      match parse(trimmed) {
        case Malformed => return false;
        case Null => return true;
        case Parsed(evt) =>
          match evt {
            case Meta(p) => log := log + [OnMeta(p)];
            case Delta(t) =>
              cumulative := cumulative + t;
              log := log + [OnDelta(cumulative, t)];
            case Sources(p) => log := log + [OnSources(p)];
            case Actions(p) => log := log + [OnActions(p)];
            case Error(p) =>
              inlineErrored := true;
              log := log + [OnInlineError(p)];
            case Done => log := log + [OnDone(cumulative)];
            case OtherType =>
          }
          return false;
      }
    }

    /** Drains the whole lines of the buffer. */
    method Drain(parse: string -> Parsed) returns (threw: bool)
      modifies this
      ensures Told().(threw := threw) == HandleAll(old(Told()), Lines(old(buf)), parse)
      ensures !threw ==> buf == Rest(old(buf))
    {
      ghost var text, start := buf, Told();
      ghost var drained: seq<string> := [];
      var nl := IndexOf(buf, '\n');
      while nl != -1
        invariant nl == IndexOf(buf, '\n')
        invariant IsDrained(text, drained, buf)
        invariant Told() == HandleAll(start, drained, parse)
        decreases |buf|
      {
        var line := buf[..nl];
        DrainOne(text, drained, buf, nl);
        HandleAllOfSnoc(start, drained, line, parse);
        buf := buf[nl + 1..];
        threw := DispatchLine(line, parse);
        drained := drained + [line];
        if threw {
          HandleAllAfterThrow(start, drained, Lines(buf), parse);
          return true;
        }
        nl := IndexOf(buf, '\n');
      }
      NoNewlineNoLines(buf);
      assert drained + [] == drained;
      threw := false;
    }
  }

  /** `drained` are the first lines of the text and `buf` is what follows them. */
  ghost predicate IsDrained(text: string, drained: seq<string>, buf: string) {
    Lines(text) == drained + Lines(buf) && Rest(text) == Rest(buf)
  }

  lemma DrainOne(text: string, drained: seq<string>, buf: string, nl: nat)
    requires IsDrained(text, drained, buf) && nl == IndexOf(buf, '\n')
    ensures IsDrained(text, drained + [buf[..nl]], buf[nl + 1..])
  {
    CutFirstLine(buf, buf[..nl], buf[nl + 1..]);
    assert drained + ([buf[..nl]] + Lines(buf[nl + 1..])) == (drained + [buf[..nl]]) + Lines(buf[nl + 1..]);
  }

  /** One turn of the read loop: the chunk is appended and the whole lines are drained. */
  method TakeChunk(reader: Reader, ghost before: string, chunk: string, parse: string -> Parsed) returns (threw: bool)
    requires reader.Told() == HandleAll(START, Lines(before), parse) && reader.buf == Rest(before)
    modifies reader
    ensures reader.Told().(threw := threw) == HandleAll(START, Lines(before + chunk), parse)
    ensures !threw ==> reader.buf == Rest(before + chunk)
  {
    LinesOfConcat(before, chunk);
    HandleAllOfConcat(START, Lines(before), Lines(Rest(before) + chunk), parse);
    reader.buf := reader.buf + chunk;
    threw := reader.Drain(parse);
  }

  /** The reading of a response that has a body. */
  method ReadBody(chunks: seq<string>, ending: Ending, parse: string -> Parsed)
    returns (cumulative: string, log: seq<Callback>)
    requires ending.Closed? || ending.SignalAborted? ==> '\n' !in ending.flush
    ensures cumulative == WholeText(Concat(chunks), ending, parse).cumulative
    ensures log == WholeText(Concat(chunks), ending, parse).log
  {
    var reader := new Reader();
    for i := 0 to |chunks|
      invariant reader.Told() == HandleAll(START, Lines(Concat(chunks[..i])), parse)
      invariant reader.buf == Rest(Concat(chunks[..i]))
    {
      assert chunks[..i + 1][..i] == chunks[..i];
      var threw := TakeChunk(reader, Concat(chunks[..i]), chunks[i], parse);
      if threw {
        ConcatSplit(chunks, i + 1);
        ThrowDecides(Concat(chunks[..i + 1]), Concat(chunks[i + 1..]), ending, parse);
        return reader.cumulative, reader.log + [OnTransportError];
      }
    }
    assert chunks[..|chunks|] == chunks;
    if ending.AbortError? {
      return reader.cumulative, reader.log;
    }
    if ending.ReadFailed? {
      return reader.cumulative, reader.log + [OnTransportError];
    }
    FlushIsLastPiece(Concat(chunks), ending, parse);
    var threw := reader.DispatchLine(reader.buf + ending.flush, parse);
    if threw {
      return reader.cumulative, reader.log + [OnTransportError];
    }
    if !reader.inlineErrored {
      return reader.cumulative, reader.log + [OnDone(reader.cumulative)];
    }
    return reader.cumulative, reader.log;
  }

  lemma SplitWithFlush(text: string, flush: string)
    requires '\n' !in flush
    ensures Split(text + flush) == Lines(text) + [Rest(text) + flush]
  {
    LinesOfConcat(text, flush);
    RestHasNoNewline(text);
    NoNewlineNoLines(Rest(text) + flush);
    assert Lines(text) + [] == Lines(text);
  }

  lemma FlushIsLastPiece(text: string, ending: Ending, parse: string -> Parsed)
    requires ending.Closed? || ending.SignalAborted?
    requires '\n' !in ending.flush
    ensures HandleAll(START, Dispatched(text, ending), parse)
         == Handle(HandleAll(START, Lines(text), parse), Rest(text) + ending.flush, parse)
  {
    SplitWithFlush(text, ending.flush);
    HandleAllOfSnoc(START, Lines(text), Rest(text) + ending.flush, parse);
  }

  /** `readNdjson`: dispatches exactly what splitting the whole text would dispatch, in order,
      however the text was cut into chunks. A response may come without a body. */
  method ReadNdjson(body: Option<seq<string>>, ending: Ending, parse: string -> Parsed)
    returns (cumulative: string, log: seq<Callback>)
    requires ending.Closed? || ending.SignalAborted? ==> '\n' !in ending.flush
    ensures body.Some? ==> cumulative == WholeText(Concat(body.value), ending, parse).cumulative
    ensures body.Some? ==> log == WholeText(Concat(body.value), ending, parse).log
    ensures body.None? ==> cumulative == "" && log == [OnTransportError]
    // each event has its own callback, and a clean end without an inline error adds the implicit done
    ensures body.Some? ==>
              TellsEverything(cumulative, log, Dispatched(Concat(body.value), ending), ending, parse)
    // when exactly a transport error is reported
    ensures OnTransportError in log <==>
              body.None? || ending.ReadFailed? || HasNull(Dispatched(Concat(body.value), ending), parse)
  {
    if body.None? {
      return "", [OnTransportError];
    }
    TransportErrorIff(Concat(body.value), ending, parse);
    WholeTextTellsEverything(Concat(body.value), ending, parse);
    cumulative, log := ReadBody(body.value, ending, parse);
  }
}
