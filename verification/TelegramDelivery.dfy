/** What the sink makes of a whole run of events: which it takes, what text they become, and that a chat that answers
    shows all of it in the end. */
module TelegramDelivery {
  import opened Common
  import opened SplitText
  import opened TelegramSink

  // ----- The text of the events

  /** A line of its own: after a line break, where there is text before that does not end in one. */
  function OnNewLine(text: string, line: string): string {
    (if text == "" || text[|text| - 1] == '\n' then text else text + "\n") + (line + "\n")
  }

  /** Deltas follow each other directly; every status stands on a line of its own. */
  function Rendered(kinds: seq<EventKind>): string {
    if kinds == [] then ""
    else
      var before, last := Rendered(kinds[..|kinds| - 1]), kinds[|kinds| - 1];
      if last.TextDelta? then before + last.text
      else if StatusLine(last).Some? then OnNewLine(before, StatusLine(last).value)
      else before
  }

  /** The status lines say what happened to which tool or stage: a tool is completed only if it said so; a stage failed
      if it had an error, else is blocked if it has a summary, else done, with its text where it has one. */
  lemma StatusLines(kind: EventKind)
    ensures StatusLine(kind).Some? <==> !(kind.RunStarted? || kind.TurnStarted? || kind.TextDelta? || kind.RunCompleted?
                                          || kind.Unsupported?)
    ensures kind.ToolCompleted? ==>
              StatusLine(kind) == Some("[tool] " + kind.tool + (if kind.succeeded == Some(true) then " completed" else " failed"))
    ensures kind.ToolStarted? ==> StatusLine(kind) == Some("[tool] " + kind.tool + " requested")
    ensures kind.StageStarted? ==> StatusLine(kind) == Some("[stage] " + kind.stage + " started")
    ensures kind.StageProgress? ==> StatusLine(kind) == Some("[stage] " + kind.stage + ": " + kind.text)
    ensures kind.StageCompleted? && kind.errorKind != "" ==>
              StatusLine(kind) == Some("[stage] " + kind.stage + " failed: " + kind.summary)
    ensures kind.StageCompleted? && kind.errorKind == "" && kind.summary != "" ==>
              "[stage] " + kind.stage + " blocked: " + kind.summary <= StatusLine(kind).value
    ensures kind.StageCompleted? && kind.errorKind == "" && kind.summary == "" ==>
              StatusLine(kind).value == "[stage] " + kind.stage + " done" + (if kind.text != "" then ": " + kind.text else "")
    ensures kind.RunFailed? ==> StatusLine(kind) == Some("[run] failed: " + kind.summary)
  {
  }

  /** The kinds of the events a run took, in order. */
  function Taken(ops: seq<Op>, client: Client, config: Config): seq<EventKind> {
    if ops == [] then []
    else
      var before, op := Taken(ops[..|ops| - 1], client, config), ops[|ops| - 1];
      var s := Run(ops[..|ops| - 1], client, config);
      if op.OpEmit? && Takes(s, op) then before + [op.event.kind] else before
  }

  /** Not cancelled, not after the end, newer than everything seen, and in its place in the run. */
  predicate Takes(s: Sink, op: Op)
    requires op.OpEmit?
  {
    && !op.cancelled && !s.finished && op.event.sequence > s.sequence
    && match op.event.kind
       case RunStarted => !s.started
       case TextDelta(text) => s.started && !s.terminal && text != ""
       case Unsupported => false
       case _ => s.started && !s.terminal
  }

  lemma {:induction false} EditKeepsText(s: Sink, parts: seq<string>, i: nat, client: Client)
    ensures var t := EditFrom(s, parts, i, client).0; t == s.(messages := t.messages, calls := t.calls)
    decreases |parts| - i
  {
    if i < |s.messages| && i < |parts| {
      if s.messages[i].text == parts[i] {
        EditKeepsText(s, parts, i + 1, client);
      } else {
        var call := Edit(s.messages[i].id, parts[i]);
        if client(|s.calls|, call).Answers? {
          EditKeepsText(Called(s, call).(messages := s.messages[i := client(|s.calls|, call).message]), parts, i + 1, client);
        }
      }
    }
  }

  lemma {:induction false} SendKeepsText(s: Sink, parts: seq<string>, client: Client)
    ensures var t := SendFrom(s, parts, client).0; t == s.(messages := t.messages, calls := t.calls)
    decreases |parts| - |s.messages|
  {
    if |s.messages| < |parts| {
      var call := Send(parts[|s.messages|]);
      if client(|s.calls|, call).Answers? {
        SendKeepsText(Called(s, call).(messages := s.messages + [client(|s.calls|, call).message]), parts, client);
      }
    }
  }

  /** A flush changes the chat and whether text is waiting, and nothing else of the sink. */
  lemma FlushKeepsText(s: Sink, client: Client, config: Config, now: nat)
    ensures var t := Flush(s, client, config, now).0;
            t == s.(messages := t.messages, calls := t.calls, dirty := t.dirty, lastFlush := t.lastFlush)
  {
    hide Split, EditFrom, SendFrom;
    var parts := Split(s.buffer, config.chunkSize);
    EditKeepsText(s, parts, 0, client);
    SendKeepsText(EditFrom(s, parts, 0, client).0, parts, client);
  }

  /** One event: taken as said; then its text is added, and the marks of the run are set. */
  lemma EmitTakes(s: Sink, op: Op, client: Client, config: Config)
    requires op.OpEmit?
    ensures var t := Step(s, op, client, config).0;
            var kind := op.event.kind;
            && (!Takes(s, op) ==> t.buffer == s.buffer && t.started == s.started && t.terminal == s.terminal)
            && (Takes(s, op) ==>
                  && t.buffer == (if kind.TextDelta? then s.buffer + kind.text
                                  else if StatusLine(kind).Some? then OnNewLine(s.buffer, StatusLine(kind).value) else s.buffer)
                  && t.started && t.sequence == op.event.sequence && t.finished == s.finished
                  && ((s.terminal ==> s.started) ==> (t.terminal <==> kind.RunCompleted? || kind.RunFailed?)))
            && t.sequence >= s.sequence && (s.started ==> t.started)
  {
    hide Flush;
    var seen := s.(sequence := op.event.sequence);
    var next := Absorb(seen, op.event.kind);
    FlushKeepsText(next, client, config, op.later);
    if Takes(s, op) && StatusLine(op.event.kind).Some? {
      var line := StatusLine(op.event.kind).value;
      assert LineStart(s.buffer) + line + "\n" == OnNewLine(s.buffer, line);
    }
  }

  lemma FinishKeepsText(s: Sink, op: Op, client: Client, config: Config)
    requires op.OpFinish?
    ensures var t := Step(s, op, client, config).0;
            t.buffer == s.buffer && t.started == s.started && t.terminal == s.terminal && t.sequence == s.sequence
  {
    hide Flush;
    FlushKeepsText(s, client, config, op.now);
  }

  /** In every run the text is that of the events that were taken, in order, whatever the client answers. */
  lemma {:induction false} TextOfTheEvents(ops: seq<Op>, client: Client, config: Config)
    ensures Run(ops, client, config).buffer == Rendered(Taken(ops, client, config))
  {
    hide Step, Takes, OnNewLine, StatusLine;
    if ops != [] {
      var front, op := ops[..|ops| - 1], ops[|ops| - 1];
      TextOfTheEvents(front, client, config);
      var s := Run(front, client, config);
      if op.OpEmit? {
        EmitTakes(s, op, client, config);
        var before := Taken(front, client, config);
        assert (before + [op.event.kind])[..|before|] == before;
      } else {
        FinishKeepsText(s, op, client, config);
      }
    }
  }

  // ----- A run in good order

  /** The events of one run: started once, at first; ended at most once, at last; no blank delta; numbered upwards. */
  predicate InOrder(events: seq<Event>) {
    && (forall i, j | 0 <= i < j < |events| :: events[i].sequence < events[j].sequence)
    && (forall i | 0 <= i < |events| ::
          && events[i].sequence > 0 && !events[i].kind.Unsupported?
          && (events[i].kind.RunStarted? <==> i == 0)
          && (events[i].kind.RunCompleted? || events[i].kind.RunFailed? ==> i == |events| - 1)
          && (events[i].kind.TextDelta? ==> events[i].kind.text != ""))
  }

  function Emits(events: seq<Event>, times: seq<(nat, nat)>): seq<Op>
    requires |times| == |events|
  {
    seq(|events|, i requires 0 <= i < |events| => OpEmit(events[i], false, times[i].0, times[i].1))
  }

  function Kinds(events: seq<Event>): seq<EventKind> {
    seq(|events|, i requires 0 <= i < |events| => events[i].kind)
  }

  /** Every event of a run in good order is taken. */
  lemma {:induction false} AllAreTaken(events: seq<Event>, times: seq<(nat, nat)>, client: Client, config: Config)
    requires |times| == |events| && InOrder(events)
    ensures var s := Run(Emits(events, times), client, config);
            && Taken(Emits(events, times), client, config) == Kinds(events)
            && !s.finished && (s.started <==> events != [])
            && s.sequence == (if events == [] then 0 else events[|events| - 1].sequence)
            && (s.terminal ==> events != [] && (events[|events| - 1].kind.RunCompleted? || events[|events| - 1].kind.RunFailed?))
  {
    hide Step;
    if events != [] {
      var n := |events| - 1;
      var front, op := events[..n], OpEmit(events[n], false, times[n].0, times[n].1);
      assert InOrder(front);
      AllAreTaken(front, times[..n], client, config);
      assert Emits(events, times)[..n] == Emits(front, times[..n]) && Emits(events, times)[n] == op;
      var s := Run(Emits(front, times[..n]), client, config);
      if n > 0 {
        assert events[n - 1].sequence < events[n].sequence;
      }
      assert Takes(s, op);
      EmitTakes(s, op, client, config);
      assert Kinds(events) == Kinds(front) + [events[n].kind];
    }
  }

  // ----- Delivery

  ghost predicate AlwaysAnswers(client: Client) {
    forall n, call :: client(n, call).Answers?
  }

  lemma {:induction false} EditSucceeds(s: Sink, parts: seq<string>, i: nat, client: Client)
    requires AlwaysAnswers(client)
    ensures EditFrom(s, parts, i, client).1
    decreases |parts| - i
  {
    if i < |s.messages| && i < |parts| {
      if s.messages[i].text == parts[i] {
        EditSucceeds(s, parts, i + 1, client);
      } else {
        var call := Edit(s.messages[i].id, parts[i]);
        EditSucceeds(Called(s, call).(messages := s.messages[i := client(|s.calls|, call).message]), parts, i + 1, client);
      }
    }
  }

  lemma {:induction false} SendSucceeds(s: Sink, parts: seq<string>, client: Client)
    requires AlwaysAnswers(client)
    ensures SendFrom(s, parts, client).1
    decreases |parts| - |s.messages|
  {
    if |s.messages| < |parts| {
      var call := Send(parts[|s.messages|]);
      SendSucceeds(Called(s, call).(messages := s.messages + [client(|s.calls|, call).message]), parts, client);
    }
  }

  lemma FinishSucceeds(s: Sink, client: Client, config: Config, now: nat)
    requires AlwaysAnswers(client) && !s.finished
    ensures Finish(s, false, client, config, now).1 && Finish(s, false, client, config, now).0.finished
  {
    hide Split, EditFrom, SendFrom;
    var parts := Split(s.buffer, config.chunkSize);
    EditSucceeds(s, parts, 0, client);
    SendSucceeds(EditFrom(s, parts, 0, client).0, parts, client);
    FlushKeepsText(s, client, config, now);
  }

  /** With a client that answers every call with the text it was given: after the events of a run in good order and the
      finish, the messages of the chat put together are the rendered text of all the events. */
  lemma EverythingIsDelivered(events: seq<Event>, times: seq<(nat, nat)>, now: nat, client: Client, config: Config)
    requires |times| == |events| && InOrder(events) && config.chunkSize > 0 && Echoes(client) && AlwaysAnswers(client)
    ensures var s := Run(Emits(events, times) + [OpFinish(false, now)], client, config);
            s.finished && Concat(Texts(s.messages)) == Rendered(Kinds(events))
  {
    hide Step, Run, Taken, Rendered, Split, Concat, Echoes, AlwaysAnswers, Emits, InOrder, Finish;
    var ops, op := Emits(events, times), OpFinish(false, now);
    AllAreTaken(events, times, client, config);
    TextOfTheEvents(ops, client, config);
    var s := Run(ops, client, config);
    FinishSucceeds(s, client, config, now);
    FinishKeepsText(s, op, client, config);
    RunMore(ops, op, client, config);
    StepIsFinish(s, op, client, config);
    ChatShowsEverything(ops + [op], client, config);
  }

  lemma RunMore(ops: seq<Op>, op: Op, client: Client, config: Config)
    ensures Run(ops + [op], client, config) == Step(Run(ops, client, config), op, client, config).0
  {
    hide Step;
    assert (ops + [op])[..|ops|] == ops;
  }

  lemma StepIsFinish(s: Sink, op: Op, client: Client, config: Config)
    requires op.OpFinish?
    ensures Step(s, op, client, config) == Finish(s, op.cancelled, client, config, op.now)
  {
    hide Finish;
  }

  // ----- Pace

  /** While text streams, nothing is called before the interval since the last flush has passed. */
  lemma NotBeforeTheInterval(s: Sink, op: Op, client: Client, config: Config)
    requires op.OpEmit? && s.streamed && s.lastFlush != 0 && op.now - s.lastFlush < config.interval
    ensures Step(s, op, client, config).0.calls == s.calls
  {
    hide Flush;
  }

  /** When it has passed, and as long as nothing has streamed or been flushed yet, an event with text shows everything
      at once. */
  lemma ShownWhenDue(s: Sink, op: Op, client: Client, config: Config)
    requires op.OpEmit? && Takes(s, op) && AlwaysAnswers(client)
    requires op.event.kind.TextDelta? || StatusLine(op.event.kind).Some?
    requires || s.lastFlush == 0 || op.now - s.lastFlush >= config.interval
             || (!s.streamed && !op.event.kind.TextDelta?)
    ensures var t := Step(s, op, client, config).0; !t.dirty && t.lastFlush == op.later
  {
    hide Split, EditFrom, SendFrom, StatusLine;
    var next := Absorb(s.(sequence := op.event.sequence), op.event.kind);
    var parts := Split(next.buffer, config.chunkSize);
    EditSucceeds(next, parts, 0, client);
    SendSucceeds(EditFrom(next, parts, 0, client).0, parts, client);
    assert next.dirty by { TakenIsWaiting(s, op); }
  }

  lemma TakenIsWaiting(s: Sink, op: Op)
    requires op.OpEmit? && Takes(s, op) && (op.event.kind.TextDelta? || StatusLine(op.event.kind).Some?)
    ensures Absorb(s.(sequence := op.event.sequence), op.event.kind).dirty
  {
  }

  /** A flush of a chat that already shows the text calls nobody. */
  lemma NothingIsRepeated(s: Sink, client: Client, config: Config, now: nat)
    requires Shows(s.messages, Split(s.buffer, config.chunkSize))
    ensures Flush(s, client, config, now).0.calls == s.calls && Flush(s, client, config, now).0.messages == s.messages
  {
    hide Split;
    AllSkipped(s, Split(s.buffer, config.chunkSize), 0, client);
  }

  lemma {:induction false} AllSkipped(s: Sink, parts: seq<string>, i: nat, client: Client)
    requires Shows(s.messages, parts)
    ensures EditFrom(s, parts, i, client) == (s, true)
    decreases |parts| - i
  {
    if i < |parts| {
      AllSkipped(s, parts, i + 1, client);
    }
  }
}
