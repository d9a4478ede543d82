/** The Telegram sink of one request: it renders run events into a growing text and keeps the chat messages
    of that text up to date, editing and sending as few as it can. The client may refuse any call. */
module TelegramSink {
  import opened Common
  import opened SplitText

  datatype EventKind =
    | RunStarted
    | TurnStarted
    | TextDelta(text: string)
    | ToolStarted(tool: string)
    | ToolCompleted(tool: string, succeeded: Option<bool>)
    | StageStarted(stage: string)
    | StageProgress(stage: string, text: string)
    | StageCompleted(stage: string, errorKind: string, summary: string, text: string)
    | RunCompleted
    | RunFailed(summary: string)
    | Unsupported

  datatype Event = Event(sequence: nat, kind: EventKind)

  datatype Message = Message(id: int, text: string)

  datatype Call = Edit(id: int, text: string) | Send(text: string)

  datatype Reply = Fails | Answers(message: Message)

  /** The reply to the n-th call. */
  type Client = (nat, Call) -> Reply

  datatype Config = Config(interval: nat, chunkSize: nat)

  /** `calls` are the calls made so far; a time of 0 is the zero time. */
  datatype Sink = Sink(
    sequence: nat, started: bool, terminal: bool, finished: bool, streamed: bool, rendered: bool, dirty: bool,
    buffer: string, messages: seq<Message>, lastFlush: nat, calls: seq<Call>)

  const FRESH := Sink(0, false, false, false, false, false, false, "", [], 0, [])

  // ----- Rendering

  function StageOutcome(stage: string, errorKind: string, summary: string, text: string): string {
    if errorKind != "" then "[stage] " + stage + " failed: " + summary
    else if summary != "" then
      "[stage] " + stage + " blocked: " + summary + if text != "" then " \U{2014} " + text else ""
    else if text != "" then "[stage] " + stage + " done: " + text
    else "[stage] " + stage + " done"
  }

  /** The status line of an event that has one. */
  function StatusLine(kind: EventKind): Option<string> {
    match kind
    case ToolStarted(tool) => Some("[tool] " + tool + " requested")
    case ToolCompleted(tool, succeeded) =>
      Some("[tool] " + tool + if succeeded == Some(true) then " completed" else " failed")
    case StageStarted(stage) => Some("[stage] " + stage + " started")
    case StageProgress(stage, text) => Some("[stage] " + stage + ": " + text)
    case StageCompleted(stage, errorKind, summary, text) => Some(StageOutcome(stage, errorKind, summary, text))
    case RunFailed(summary) => Some("[run] failed: " + summary)
    case _ => None
  }

  function LineStart(buffer: string): string {
    if buffer != "" && buffer[|buffer| - 1] != '\n' then buffer + "\n" else buffer
  }

  function WithLine(s: Sink, line: string): Sink {
    s.(buffer := LineStart(s.buffer) + line + "\n", rendered := true, dirty := true)
  }

  predicate Acceptable(s: Sink, kind: EventKind) {
    match kind
    case RunStarted => !s.started
    case TextDelta(text) => s.started && !s.terminal && text != ""
    case Unsupported => false
    case _ => s.started && !s.terminal
  }

  /** An acceptable event of any kind. */
  function Absorb(s: Sink, kind: EventKind): Sink {
    match kind
    case RunStarted => s.(started := true)
    case TurnStarted => s
    case TextDelta(text) => s.(buffer := s.buffer + text, streamed := true, rendered := true, dirty := true)
    case RunCompleted => s.(terminal := true)
    case RunFailed(_) => WithLine(s, StatusLine(kind).value).(terminal := true)
    case Unsupported => s
    case _ => WithLine(s, StatusLine(kind).value)
  }

  // ----- Flushing

  function Called(s: Sink, call: Call): Sink {
    s.(calls := s.calls + [call])
  }

  function EditFrom(s: Sink, parts: seq<string>, i: nat, client: Client): (Sink, bool)
    decreases |parts| - i
  {
    if i >= |s.messages| || i >= |parts| then (s, true)
    else if s.messages[i].text == parts[i] then EditFrom(s, parts, i + 1, client)
    else
      var call := Edit(s.messages[i].id, parts[i]);
      match client(|s.calls|, call)
      case Fails => (Called(s, call), false)
      case Answers(message) =>
        EditFrom(Called(s, call).(messages := s.messages[i := message]), parts, i + 1, client)
  }

  function SendFrom(s: Sink, parts: seq<string>, client: Client): (Sink, bool)
    decreases |parts| - |s.messages|
  {
    if |s.messages| >= |parts| then (s, true)
    else
      var call := Send(parts[|s.messages|]);
      match client(|s.calls|, call)
      case Fails => (Called(s, call), false)
      case Answers(message) => SendFrom(Called(s, call).(messages := s.messages + [message]), parts, client)
  }

  function Flush(s: Sink, client: Client, config: Config, now: nat): (Sink, bool) {
    if !s.dirty then (s, true)
    else
      var parts := Split(s.buffer, config.chunkSize);
      var (edited, ok) := EditFrom(s, parts, 0, client);
      if !ok then (edited, false)
      else
        var (sent, done) := SendFrom(edited, parts, client);
        if done then (sent.(dirty := false, lastFlush := now), true) else (sent, false)
  }

  predicate FlushDue(s: Sink, config: Config, now: nat) {
    s.dirty && (!s.streamed || s.lastFlush == 0 || now - s.lastFlush >= config.interval)
  }

  /** `now` is the time of the check and `later` the time after the flush. */
  function Emit(s: Sink, event: Event, cancelled: bool, client: Client, config: Config, now: nat, later: nat)
    : (Sink, bool)
  {
    if cancelled || s.finished || event.sequence == 0 || event.sequence <= s.sequence then (s, false)
    else
      var seen := s.(sequence := event.sequence);
      if !Acceptable(seen, event.kind) then (seen, false)
      else
        var next := Absorb(seen, event.kind);
        if FlushDue(next, config, now) then Flush(next, client, config, later) else (next, true)
  }

  function Finish(s: Sink, cancelled: bool, client: Client, config: Config, now: nat): (Sink, bool) {
    if s.finished then (s, true)
    else if cancelled then (s, false)
    else
      var (t, ok) := Flush(s, client, config, now);
      (if ok then t.(finished := true) else t, ok)
  }

  // ----- What the chat shows

  /** The client answers with the text it was given and leaves an edited message its id. */
  ghost predicate Echoes(client: Client) {
    forall n, call | client(n, call).Answers? ::
      && client(n, call).message.text == call.text
      && (call.Edit? ==> client(n, call).message.id == call.id)
  }

  /** Only the last message held may lag behind the chunks. */
  predicate Held(messages: seq<Message>, parts: seq<string>) {
    && |messages| <= |parts|
    && forall i | 0 <= i < |messages| - 1 :: messages[i].text == parts[i]
  }

  predicate Shows(messages: seq<Message>, parts: seq<string>) {
    && |messages| == |parts|
    && forall i | 0 <= i < |messages| :: messages[i].text == parts[i]
  }

  ghost predicate Inv(s: Sink, config: Config) {
    && Held(s.messages, Split(s.buffer, config.chunkSize))
    && (!s.dirty ==> Shows(s.messages, Split(s.buffer, config.chunkSize)))
    && (s.finished ==> !s.dirty)
    && (s.terminal ==> s.started)
  }

  /** How a step moves the chat: no message is lost, all but the last one held stay as they are, and of the
      calls made only the first can be an edit, of that last message. */
  ghost predicate SmallStep(s: Sink, t: Sink) {
    && s.buffer <= t.buffer
    && |s.messages| <= |t.messages|
    && (forall i | 0 <= i < |s.messages| - 1 :: t.messages[i] == s.messages[i])
    && (s.messages != [] ==> t.messages[|s.messages| - 1].id == s.messages[|s.messages| - 1].id)
    && s.calls <= t.calls
    && (forall k | |s.calls| <= k < |t.calls| && t.calls[k].Edit? ::
          k == |s.calls| && s.messages != [] && t.calls[k].id == s.messages[|s.messages| - 1].id)
  }

  lemma {:induction false} SkipsHeld(s: Sink, parts: seq<string>, i: nat, client: Client)
    requires Held(s.messages, parts) && s.messages != [] && i < |s.messages|
    ensures EditFrom(s, parts, i, client) == EditFrom(s, parts, |s.messages| - 1, client)
    decreases |s.messages| - i
  {
    if i < |s.messages| - 1 {
      SkipsHeld(s, parts, i + 1, client);
    }
  }

  ghost predicate SameText(s: Sink, t: Sink) {
    t == s.(messages := t.messages, calls := t.calls)
  }

  /** Editing the last message held is a small step, whether the client takes it or not. */
  lemma EditIsSmall(s: Sink, t: Sink, text: string, message: Message)
    requires s.messages != [] && message.id == s.messages[|s.messages| - 1].id
    requires t == s.(messages := t.messages, calls := t.calls)
    requires t.calls == s.calls || t.calls == s.calls + [Edit(message.id, text)]
    requires t.messages == s.messages || t.messages == s.messages[|s.messages| - 1 := message]
    ensures SmallStep(s, t) && SameText(s, t)
  {
  }

  /** The pass over the shared chunks, which only the last one can change. */
  lemma EditLast(s: Sink, parts: seq<string>, client: Client)
    requires Held(s.messages, parts) && s.messages != []
    ensures var last := |s.messages| - 1;
            var call := Edit(s.messages[last].id, parts[last]);
            var reply := client(|s.calls|, call);
            EditFrom(s, parts, 0, client)
            == if s.messages[last].text == parts[last] then (s, true)
               else if reply.Fails? then (Called(s, call), false)
               else (Called(s, call).(messages := s.messages[last := reply.message]), true)
  {
    SkipsHeld(s, parts, 0, client);
  }

  lemma NothingToEdit(s: Sink, parts: seq<string>, client: Client)
    requires s.messages == []
    ensures EditFrom(s, parts, 0, client) == (s, true) && SmallStep(s, s) && SameText(s, s)
  {
  }

  lemma EchoOf(client: Client, n: nat, call: Call)
    requires Echoes(client) && client(n, call).Answers?
    ensures client(n, call).message.text == call.text && (call.Edit? ==> client(n, call).message.id == call.id)
  {
  }

  /** With its last message right, what is held is right. */
  lemma LastCompletes(messages: seq<Message>, message: Message, parts: seq<string>)
    requires Held(messages, parts) && messages != []
    ensures var last := |messages| - 1;
            message.text == parts[last] ==> Leads(messages[last := message], parts) && Held(messages[last := message], parts)
    ensures messages[|messages| - 1].text == parts[|messages| - 1] ==> Leads(messages, parts)
  {
  }

  /** One edit at most, of the last message held. */
  lemma EditEffect(s: Sink, parts: seq<string>, client: Client)
    requires Echoes(client) && Held(s.messages, parts)
    ensures var (t, ok) := EditFrom(s, parts, 0, client);
            && SameText(s, t) && SmallStep(s, t) && |t.messages| == |s.messages| && Held(t.messages, parts)
            && (ok ==> Leads(t.messages, parts))
  {
    if s.messages == [] {
      NothingToEdit(s, parts, client);
    } else {
      EditEffectOnLast(s, parts, client);
    }
  }

  lemma EditEffectOnLast(s: Sink, parts: seq<string>, client: Client)
    requires Echoes(client) && Held(s.messages, parts) && s.messages != []
    ensures var (t, ok) := EditFrom(s, parts, 0, client);
            && SameText(s, t) && SmallStep(s, t) && |t.messages| == |s.messages| && Held(t.messages, parts)
            && (ok ==> Leads(t.messages, parts))
  {
    EditLast(s, parts, client);
    hide EditFrom, SmallStep, SameText, Echoes, Leads, Held;
    var last := |s.messages| - 1;
    HeldFits(s.messages, parts);
    var call := Edit(s.messages[last].id, parts[last]);
    var reply := client(|s.calls|, call);
    LastCompletes(s.messages, s.messages[last], parts);
    EditIsSmall(s, s, parts[last], s.messages[last]);
    EditIsSmall(s, Called(s, call), parts[last], s.messages[last]);
    if reply.Answers? {
      EchoOf(client, |s.calls|, call);
      LastCompletes(s.messages, reply.message, parts);
      EditIsSmall(s, Called(s, call).(messages := s.messages[last := reply.message]), parts[last], reply.message);
    }
  }

  lemma HeldFits(messages: seq<Message>, parts: seq<string>)
    requires Held(messages, parts)
    ensures |messages| <= |parts|
  {
  }

  /** The messages held are the first chunks. */
  predicate Leads(messages: seq<Message>, parts: seq<string>) {
    |messages| <= |parts| && forall i | 0 <= i < |messages| :: messages[i].text == parts[i]
  }

  ghost predicate OnlySends(calls: seq<Call>, n: nat) {
    n <= |calls| && forall k | n <= k < |calls| :: calls[k].Send?
  }

  lemma SendStep(s: Sink, parts: seq<string>, client: Client)
    requires Echoes(client) && Leads(s.messages, parts) && |s.messages| < |parts|
    requires client(|s.calls|, Send(parts[|s.messages|])).Answers?
    ensures Leads(s.messages + [client(|s.calls|, Send(parts[|s.messages|])).message], parts)
  {
  }

  lemma {:induction false} SendEffect(s: Sink, parts: seq<string>, client: Client)
    requires Echoes(client) && Leads(s.messages, parts)
    ensures var (t, ok) := SendFrom(s, parts, client);
            && SameText(s, t) && s.messages <= t.messages && Leads(t.messages, parts)
            && (ok ==> |t.messages| == |parts|)
            && s.calls <= t.calls && OnlySends(t.calls, |s.calls|)
    decreases |parts| - |s.messages|
  {
    hide Echoes, Leads, SameText;
    LeadsLength(s.messages, parts);
    if |s.messages| < |parts| {
      var call := Send(parts[|s.messages|]);
      var reply := client(|s.calls|, call);
      SameTextStep(s, Called(s, call), Called(s, call));
      if reply.Answers? {
        var next := Called(s, call).(messages := s.messages + [reply.message]);
        SendStep(s, parts, client);
        SendEffect(next, parts, client);
        SameTextStep(s, next, SendFrom(next, parts, client).0);
      }
    } else {
      SameTextStep(s, s, s);
    }
  }

  lemma SameTextStep(s: Sink, next: Sink, t: Sink)
    requires next == s.(messages := next.messages, calls := next.calls) && (t == next || SameText(next, t))
    ensures SameText(s, t)
  {
  }

  lemma LeadsLength(messages: seq<Message>, parts: seq<string>)
    requires Leads(messages, parts)
    ensures |messages| <= |parts|
  {
  }

  lemma FlushEffect(s: Sink, client: Client, config: Config, now: nat)
    requires Echoes(client) && Inv(s, config)
    ensures var (t, ok) := Flush(s, client, config, now);
            && SmallStep(s, t) && Inv(t, config) && t.buffer == s.buffer && t.finished == s.finished
            && (ok ==> !t.dirty)
  {
    hide EditFrom, SendFrom, Split, Echoes;
    if s.dirty {
      var parts := Split(s.buffer, config.chunkSize);
      EditEffect(s, parts, client);
      var (edited, ok) := EditFrom(s, parts, 0, client);
      if ok {
        SendEffect(edited, parts, client);
      }
    }
  }

  lemma AbsorbGrows(s: Sink, kind: EventKind)
    requires Acceptable(s, kind)
    ensures var t := Absorb(s, kind);
            && s.buffer <= t.buffer && t.messages == s.messages && t.calls == s.calls && t.finished == s.finished
            && (t.buffer != s.buffer ==> t.dirty) && (s.dirty ==> t.dirty)
            && (s.started ==> t.started) && (t.terminal ==> t.started)
  {
  }

  /** The text may only grow, so the messages already sent stay right up to the last one. */
  lemma GrowthKeeps(s: Sink, t: Sink, config: Config)
    requires config.chunkSize > 0 && Inv(s, config) && !s.finished && !t.finished
    requires s.buffer <= t.buffer && t.messages == s.messages && (t.buffer != s.buffer ==> t.dirty) && (s.dirty ==> t.dirty)
    requires t.terminal ==> t.started
    ensures Inv(t, config)
  {
    hide Split;
    var more := t.buffer[|s.buffer|..];
    assert t.buffer == s.buffer + more;
    SplitGrows(s.buffer, more, config.chunkSize);
  }

  lemma EmitEffect(s: Sink, event: Event, cancelled: bool, client: Client, config: Config, now: nat, later: nat)
    requires config.chunkSize > 0 && Echoes(client) && Inv(s, config)
    ensures var (t, ok) := Emit(s, event, cancelled, client, config, now, later);
            SmallStep(s, t) && Inv(t, config) && (s.terminal ==> !ok && t == s.(sequence := t.sequence))
  {
    hide Flush, Inv, Echoes, Absorb, Acceptable;
    if !cancelled && !s.finished && event.sequence > s.sequence {
      var seen := s.(sequence := event.sequence);
      TerminalRefuses(s, seen, event.kind, config);
      GrowthKeeps(s, seen, config);
      if Acceptable(seen, event.kind) {
        var next := Absorb(seen, event.kind);
        AbsorbGrows(seen, event.kind);
        GrowthKeeps(seen, next, config);
        FlushEffect(next, client, config, later);
      }
    } else {
      assert Emit(s, event, cancelled, client, config, now, later) == (s, false);
      if s.terminal {
        assert s == s.(sequence := s.sequence);
      }
    }
  }

  lemma TerminalRefuses(s: Sink, seen: Sink, kind: EventKind, config: Config)
    requires Inv(s, config) && seen == s.(sequence := seen.sequence)
    ensures s.terminal ==> s.started && !Acceptable(seen, kind)
  {
  }

  lemma FinishEffect(s: Sink, cancelled: bool, client: Client, config: Config, now: nat)
    requires Echoes(client) && Inv(s, config)
    ensures var (t, ok) := Finish(s, cancelled, client, config, now);
            SmallStep(s, t) && Inv(t, config) && (ok <==> t.finished) && t.buffer == s.buffer
  {
    hide Flush, Echoes;
    FlushEffect(s, client, config, now);
  }

  // ----- Runs

  datatype Op =
    | OpEmit(event: Event, cancelled: bool, now: nat, later: nat)
    | OpFinish(cancelled: bool, now: nat)

  function Step(s: Sink, op: Op, client: Client, config: Config): (Sink, bool) {
    match op
    case OpEmit(event, cancelled, now, later) => Emit(s, event, cancelled, client, config, now, later)
    case OpFinish(cancelled, now) => Finish(s, cancelled, client, config, now)
  }

  function Run(ops: seq<Op>, client: Client, config: Config): Sink {
    if ops == [] then FRESH
    else Step(Run(ops[..|ops| - 1], client, config), ops[|ops| - 1], client, config).0
  }

  /** In every run, with any calls failing: the messages held are the chunks of the text but for the last
      one, they are exactly the chunks unless text is still waiting, and none waits once the sink finished. */
  lemma {:induction false} RunKeeps(ops: seq<Op>, client: Client, config: Config)
    requires config.chunkSize > 0 && Echoes(client)
    ensures Inv(Run(ops, client, config), config)
  {
    hide Inv, Echoes, Emit, Finish;
    if ops == [] {
      FreshKeeps(config);
    } else {
      RunKeeps(ops[..|ops| - 1], client, config);
      StepEffect(Run(ops[..|ops| - 1], client, config), ops[|ops| - 1], client, config);
    }
  }

  lemma FreshKeeps(config: Config)
    ensures Inv(FRESH, config)
  {
  }

  lemma StepEffect(s: Sink, op: Op, client: Client, config: Config)
    requires config.chunkSize > 0 && Echoes(client) && Inv(s, config)
    ensures SmallStep(s, Step(s, op, client, config).0) && Inv(Step(s, op, client, config).0, config)
  {
    hide Inv, Echoes, Emit, Finish, SmallStep;
    match op
    case OpEmit(event, cancelled, now, later) => EmitEffect(s, event, cancelled, client, config, now, later);
    case OpFinish(cancelled, now) => FinishEffect(s, cancelled, client, config, now);
  }

  /** Every call, wherever it comes in a run, makes at most one edit, and that is of the last message held;
      messages are never dropped, and the text never shrinks. */
  lemma EveryStepIsSmall(ops: seq<Op>, op: Op, client: Client, config: Config)
    requires config.chunkSize > 0 && Echoes(client)
    ensures SmallStep(Run(ops, client, config), Run(ops + [op], client, config))
  {
    hide Inv, Echoes, SmallStep, Step;
    RunKeeps(ops, client, config);
    StepEffect(Run(ops, client, config), op, client, config);
    assert (ops + [op])[..|ops|] == ops;
  }

  function Texts(messages: seq<Message>): (r: seq<string>)
    ensures |r| == |messages| && forall i | 0 <= i < |r| :: r[i] == messages[i].text
  {
    seq(|messages|, i requires 0 <= i < |messages| => messages[i].text)
  }

  /** Whenever nothing is waiting, and so after every successful flush and after the end, the messages of
      the chat put together are the whole text, none is empty and none is too long. */
  lemma ChatShowsEverything(ops: seq<Op>, client: Client, config: Config)
    requires config.chunkSize > 0 && Echoes(client)
    ensures var s := Run(ops, client, config);
            && (s.finished ==> !s.dirty)
            && (!s.dirty ==> Texts(s.messages) == Split(s.buffer, config.chunkSize)
                             && Concat(Texts(s.messages)) == s.buffer
                             && forall m | m in s.messages :: 1 <= |m.text| <= config.chunkSize)
  {
    hide Echoes, Run, Split, Concat;
    RunKeeps(ops, client, config);
    var s := Run(ops, client, config);
    SplitPartitions(s.buffer, config.chunkSize);
    if !s.dirty {
      assert Texts(s.messages) == Split(s.buffer, config.chunkSize);
      forall m | m in s.messages ensures 1 <= |m.text| <= config.chunkSize {
        var i :| 0 <= i < |s.messages| && s.messages[i] == m;
        assert Texts(s.messages)[i] in Split(s.buffer, config.chunkSize);
      }
    }
  }

  lemma NoSize(text: string)
    ensures Split(text, 0) == []
  {
  }

  // ----- The sink object

  class RequestSink {
    const client: Client
    const config: Config
    var sequence: nat
    var started: bool
    var terminal: bool
    var finished: bool
    var streamed: bool
    var rendered: bool
    var dirty: bool
    var buffer: string
    var messages: seq<Message>
    var lastFlush: nat
    var calls: seq<Call>

    function Value(): Sink
      reads this
    {
      Sink(sequence, started, terminal, finished, streamed, rendered, dirty, buffer, messages, lastFlush, calls)
    }

    constructor (client: Client, config: Config)
      ensures Value() == FRESH && this.client == client && this.config == config
    {
      this.client, this.config := client, config;
      sequence, buffer, messages, lastFlush, calls := 0, "", [], 0, [];
      started, terminal, finished, streamed, rendered, dirty := false, false, false, false, false, false;
    }

    method AppendLine(text: string)
      modifies `buffer, `rendered, `dirty
      ensures Value() == WithLine(old(Value()), text)
    {
      if buffer != "" && buffer[|buffer| - 1] != '\n' {
        buffer := buffer + "\n";
      }
      buffer := buffer + text;
      buffer := buffer + "\n";
      rendered := true;
      dirty := true;
    }

    method Invoke(call: Call) returns (reply: Reply)
      modifies `calls
      ensures reply == client(|old(calls)|, call) && Value() == Called(old(Value()), call)
    {
      reply := client(|calls|, call);
      calls := calls + [call];
    }

    method EditShared(parts: seq<string>) returns (ok: bool)
      modifies `messages, `calls
      ensures (Value(), ok) == EditFrom(old(Value()), parts, 0, client)
    {
      ghost var before := Value();
      var index := 0;
      while index < |messages| && index < |parts|
        invariant EditFrom(before, parts, 0, client) == EditFrom(Value(), parts, index, client)
        decreases |parts| - index
      {
        if messages[index].text != parts[index] {
          var reply := Invoke(Edit(messages[index].id, parts[index]));
          if reply.Fails? {
            return false;
          }
          messages := messages[index := reply.message];
        }
        index := index + 1;
      }
      return true;
    }

    method SendMissing(parts: seq<string>) returns (ok: bool)
      modifies `messages, `calls
      ensures (Value(), ok) == SendFrom(old(Value()), parts, client)
    {
      ghost var before := Value();
      while |messages| < |parts|
        invariant SendFrom(before, parts, client) == SendFrom(Value(), parts, client)
        decreases |parts| - |messages|
      {
        var reply := Invoke(Send(parts[|messages|]));
        if reply.Fails? {
          return false;
        }
        messages := messages + [reply.message];
      }
      return true;
    }

    method FlushLocked(now: nat) returns (ok: bool)
      modifies `messages, `dirty, `lastFlush, `calls
      ensures (Value(), ok) == Flush(old(Value()), client, config, now)
    {
      hide Split, EditFrom, SendFrom;
      if !dirty {
        return true;
      }
      var parts := SplitRunes(buffer, config.chunkSize);
      NoSize(buffer);
      ok := EditShared(parts);
      if !ok {
        return false;
      }
      ok := SendMissing(parts);
      if !ok {
        return false;
      }
      dirty := false;
      lastFlush := now;
      return true;
    }

    method Accept(kind: EventKind) returns (ok: bool)
      modifies this
      ensures ok == Acceptable(old(Value()), kind)
      ensures Value() == if ok then Absorb(old(Value()), kind) else old(Value())
    {
      hide StageOutcome, WithLine;
      if kind.RunStarted? {
        if started {
          return false;
        }
        started := true;
        return true;
      }
      if !started || terminal {
        return false;
      }
      match kind {
        case TurnStarted =>
        case TextDelta(text) =>
          if text == "" {
            return false;
          }
          buffer := buffer + text;
          streamed, rendered, dirty := true, true, true;
        case ToolStarted(tool) =>
          AppendLine("[tool] " + tool + " requested");
        case ToolCompleted(tool, succeeded) =>
          var status := " completed";
          if succeeded.None? || !succeeded.value {
            status := " failed";
          }
          AppendLine("[tool] " + tool + status);
        case StageStarted(stage) =>
          AppendLine("[stage] " + stage + " started");
        case StageProgress(stage, text) =>
          AppendLine("[stage] " + stage + ": " + text);
        case StageCompleted(stage, errorKind, summary, text) =>
          AppendLine(StageOutcome(stage, errorKind, summary, text));
        case RunCompleted =>
          terminal := true;
        case RunFailed(summary) =>
          AppendLine("[run] failed: " + summary);
          terminal := true;
        case Unsupported =>
          return false;
      }
      return true;
    }

    method EmitEvent(event: Event, cancelled: bool, now: nat, later: nat) returns (ok: bool)
      modifies this
      ensures (Value(), ok) == Emit(old(Value()), event, cancelled, client, config, now, later)
    {
      hide Flush, Acceptable, Absorb;
      if cancelled || finished || event.sequence == 0 || event.sequence <= sequence {
        return false;
      }
      sequence := event.sequence;
      ok := Accept(event.kind);
      if !ok {
        return false;
      }
      if dirty && (!streamed || lastFlush == 0 || now - lastFlush >= config.interval) {
        ok := FlushLocked(later);
      }
    }

    method FinishRun(cancelled: bool, now: nat) returns (ok: bool)
      modifies this
      ensures (Value(), ok) == Finish(old(Value()), cancelled, client, config, now)
    {
      hide Flush;
      if finished {
        return true;
      }
      if cancelled {
        return false;
      }
      ok := FlushLocked(now);
      if ok {
        finished := true;
      }
    }
  }
}
