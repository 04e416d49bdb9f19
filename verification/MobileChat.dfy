/**
 The tool loop of the mobile chat and its event stream (app/api/mobile_chat.py).

 The model, the warm-up and the node commands are outside services that return something
 or raise; everything else is the loop's own doing.  What the loop does is written down as
 a log of emitted events, continuations handed to the model, and the closing of the trace.
 */
module MobileChat {
  import opened Options
  import opened Strings

  const MAX_TOOL_ITERATIONS := 5

  /** An awaited service call: it returns, or raises with a message. */
  datatype Outcome<+T> = Returned(value: T) | Raised(message: string)

  datatype ToolCall = ToolCall(id: string, name: string)

  /** A node command's output, as far as the loop looks into it. */
  datatype Output =
    | Plain
    | Fields(actions: seq<string>, preview: string, message: string, context: Context)
  datatype Context = NoContext | PlainContext | ContextFields(actions: seq<string>, preview: string, message: string)

  datatype ToolResult = ToolResult(id: string, output: Output)

  datatype ModelResult = ModelResult(
    stopReason: Option<string>, message: Option<string>, reasoning: string, toolCalls: seq<ToolCall>,
    question: string, error: Option<string>)

  /** The latest actions found in tool outputs, with the command they came from. */
  datatype Pending = Pending(actions: seq<string>, command: string, source: Output, preview: Option<string>)
  const NOTHING_PENDING := Pending([], "", Plain, None)

  datatype Event =
    | Status(message: string)
    | Acknowledgment(text: string)
    | Delta(text: string)
    | Done(fullText: string, stopReason: string, actions: Option<Pending>, reasoning: Option<string>,
        validation: Option<string>)
    | Error(message: string)

  datatype Entry =
    | Emit(event: Event)
    | Continue(results: seq<ToolResult>)
    | CloseTrace
    | LogTranscript

  /** Everything outside the loop; `reply(0)` answers the message, `reply(n)` the n-th continuation. */
  datatype Services = Services(
    warm: bool, warmupError: Option<string>, acknowledgment: string,
    reply: nat -> Outcome<ModelResult>, tool: (nat, nat) -> Outcome<Output>)

  // ---------------------------------------------------------------- what is shown

  predicate StartsWith(s: string, prefix: string) {
    |prefix| <= |s| && s[..|prefix|] == prefix
  }

  function Find(s: string, part: string): (r: Option<nat>)
    ensures r.Some? ==> r.value + |part| <= |s| && s[r.value..r.value + |part|] == part
  {
    if StartsWith(s, part) then Some(0)
    else if s == "" then None
    else
      var r := Find(s[1..], part);
      if r.Some? then Some(r.value + 1) else None
  }

  const TOOL_DATA := "[Tool data:"
  const TOOL_DATA_END := "]\n\n"

  /** The answer without the tool-data prefix kept for the conversation history. */
  function Displayed(message: string, isSpace: char -> bool): string {
    var end := Find(message, TOOL_DATA_END);
    if Find(message, TOOL_DATA).Some? && end.Some? then Trim(message[end.value + |TOOL_DATA_END|..], isSpace)
    else message
  }

  /** The words of a text cut at every single space; an empty text is one empty word. */
  function Words(s: string): (r: seq<string>)
    ensures r != []
  {
    if s == "" then [""]
    else
      var rest := Words(s[1..]);
      if s[0] == ' ' then [""] + rest else [[s[0]] + rest[0]] + rest[1..]
  }

  /** Every word but the last carries its space along. */
  function Chunks(words: seq<string>): seq<string> {
    if |words| <= 1 then words else [words[0] + " "] + Chunks(words[1..])
  }

  function Concat(parts: seq<string>): string {
    if parts == [] then "" else parts[0] + Concat(parts[1..])
  }

  function Deltas(text: string): seq<Entry> {
    var chunks := if text == "" then [] else Chunks(Words(text));
    seq(|chunks|, i requires 0 <= i < |chunks| => Emit(Delta(chunks[i])))
  }

  lemma {:induction false} OnePart(part: string)
    ensures Concat([part]) == part
  {
    assert [part][1..] == [] && Concat([]) == "";
  }

  lemma {:induction false} FirstChunk(words: seq<string>)
    requires |words| > 1
    ensures Concat(Chunks(words)) == (words[0] + " ") + Concat(Chunks(words[1..]))
  {
    assert Chunks(words)[1..] == Chunks(words[1..]);
  }

  lemma {:induction false} LongerFirstWord(c: char, words: seq<string>)
    requires words != []
    ensures Concat(Chunks([[c] + words[0]] + words[1..])) == [c] + Concat(Chunks(words))
  {
    var longer := [[c] + words[0]] + words[1..];
    assert longer[1..] == words[1..];
    if |words| == 1 {
      assert longer == [[c] + words[0]];
      OnePart(words[0]);
      OnePart([c] + words[0]);
    } else {
      var tail := Concat(Chunks(words[1..]));
      FirstChunk(words);
      FirstChunk(longer);
      assert ([c] + words[0] + " ") + tail == [c] + ((words[0] + " ") + tail);
    }
  }

  /** Streaming an answer word by word loses nothing: the deltas spell the text. */
  lemma {:induction false} ChunksSpellTheText(s: string)
    ensures Concat(Chunks(Words(s))) == s
  {
    if s == "" {
    } else {
      var rest := Words(s[1..]);
      ChunksSpellTheText(s[1..]);
      if s[0] == ' ' {
        assert Words(s)[1..] == rest;
        FirstChunk(Words(s));
        assert "" + " " == [s[0]];
      } else {
        LongerFirstWord(s[0], rest);
      }
    }
  }

  // ---------------------------------------------------------------- the tool pass

  /** The actions an output carries: its own, or else those of its context. */
  function ActionsOf(output: Output): seq<string> {
    if output.Plain? then []
    else if output.actions != [] then output.actions
    else if output.context.ContextFields? then output.context.actions
    else []
  }

  function PreviewOf(preview: string, message: string): Option<string> {
    if preview != "" then Some(preview) else if message != "" then Some(message) else None
  }

  /** An output with actions replaces what was pending; a context that is no record keeps the old preview. */
  function Track(pending: Pending, command: string, output: Output): Pending {
    if ActionsOf(output) == [] then pending
    else
      var preview :=
        match output.context
        case NoContext => PreviewOf(output.preview, output.message)
        case PlainContext => pending.preview
        case ContextFields(_, p, m) => PreviewOf(p, m);
      Pending(ActionsOf(output), command, output, preview)
  }

  datatype ToolPass = Passed(results: seq<ToolResult>, pending: Pending) | Broken(message: string)

  /** Run the tool calls of reply n in order, stopping at the first that raises. */
  function RunTools(s: Services, n: nat, calls: seq<ToolCall>, pending: Pending): ToolPass {
    if calls == [] then Passed([], pending)
    else
      var k := |calls| - 1;
      var before := RunTools(s, n, calls[..k], pending);
      if before.Broken? then before
      else
        match s.tool(n, k)
        case Raised(message) => Broken(message)
        case Returned(output) =>
          Passed(before.results + [ToolResult(calls[k].id, output)], Track(before.pending, calls[k].name, output))
  }

  // ---------------------------------------------------------------- the loop

  function Failure(message: string): seq<Entry> {
    [Emit(Error(message)), CloseTrace]
  }

  const TOO_MANY := "Too many tool iterations"

  /** What one reply leads to: the end of the stream, or another continuation. */
  datatype Handled =
    | Finish(entries: seq<Entry>)
    | GoOn(entries: seq<Entry>, pending: Pending, reasoning: string)

  /** Reasoning is shown only on request, and survives replies that bring none. */
  function Shown(includeReasoning: bool, reasoning: string): Option<string> {
    if includeReasoning && reasoning != "" then Some(reasoning) else None
  }

  function Answer(text: string, pending: Pending, shown: Option<string>): seq<Entry> {
    Deltas(text)
      + [Emit(Done(text, "complete", if pending.actions != [] then Some(pending) else None, shown, None)),
         CloseTrace, LogTranscript]
  }

  function Announce(intermediate: string): seq<Entry> {
    (if intermediate != "" then [Emit(Delta(intermediate + " "))] else [])
        + [Emit(Status("Running command on node..."))]
  }

  function Handle(
      s: Services, isSpace: char -> bool, includeReasoning: bool, n: nat, r: ModelResult, pending: Pending,
      reasoning: string): Handled
  {
    var stop := r.stopReason.GetOr("complete");
    var thought := if r.reasoning != "" then r.reasoning else reasoning;
    if stop == "complete" || stop == "server_tool_complete" then
      Finish(Answer(Displayed(r.message.GetOr(""), isSpace), pending, Shown(includeReasoning, thought)))
    else if stop == "validation_required" then
      Finish([Emit(Done(r.message.GetOr(r.question), stop, None, None, Some(r.question))), CloseTrace])
    else if stop == "tool_calls" then
      if r.toolCalls == [] then Finish(Failure(TOO_MANY))
      else
        var opening := Announce(Trim(r.message.GetOr(""), isSpace));
        match RunTools(s, n, r.toolCalls, pending)
        case Broken(message) => Finish(opening + Failure(message))
        case Passed(results, latest) => GoOn(opening + [Continue(results)], latest, thought)
    else if stop == "error" then Finish(Failure(r.error.GetOr("An error occurred")))
    else Finish([Emit(Done(r.message.GetOr(""), stop, None, Shown(includeReasoning, thought), None)), CloseTrace])
  }

  /** How each reply is handled, given its number, what is pending, and the reasoning so far. */
  type Handler = (nat, ModelResult, Pending, string) -> Handled

  function HandlerFor(s: Services, isSpace: char -> bool, includeReasoning: bool): Handler {
    (n: nat, r, pending, reasoning) => Handle(s, isSpace, includeReasoning, n, r, pending, reasoning)
  }

  /** What the stream does from reply n on. */
  function Turn(s: Services, handle: Handler, n: nat, pending: Pending, reasoning: string): seq<Entry>
    requires n <= MAX_TOOL_ITERATIONS
    decreases MAX_TOOL_ITERATIONS - n
  {
    match s.reply(n)
    case Raised(message) => Failure(message)
    case Returned(r) =>
      if n == MAX_TOOL_ITERATIONS then Failure(TOO_MANY)
      else
        match handle(n, r, pending, reasoning)
        case Finish(entries) => entries
        case GoOn(entries, latest, thought) => entries + Turn(s, handle, n + 1, latest, thought)
  }

  function Opening(s: Services): seq<Entry> {
    (if s.warm then [] else [Emit(Status("Starting conversation..."))])
      + (if !s.warm && s.warmupError.Some? then [] else [Emit(Acknowledgment(s.acknowledgment))])
  }

  function Stream(s: Services, isSpace: char -> bool, includeReasoning: bool): seq<Entry> {
    Opening(s) + if !s.warm && s.warmupError.Some? then Failure(s.warmupError.value)
                 else Turn(s, HandlerFor(s, isSpace, includeReasoning), 0, NOTHING_PENDING, "")
  }

  /** The generator itself, writing its effects to the log as they happen. */
  method ChatStream(s: Services, isSpace: char -> bool, includeReasoning: bool) returns (log: seq<Entry>)
    ensures log == Stream(s, isSpace, includeReasoning)
  {
    log := [];
    if !s.warm {
      log := log + [Emit(Status("Starting conversation..."))];
      if s.warmupError.Some? {
        return log + Failure(s.warmupError.value);
      }
    }
    log := log + [Emit(Acknowledgment(s.acknowledgment))];
    assert log == Opening(s);
    var entries := ToolLoop(s, isSpace, includeReasoning);
    return log + entries;
  }

  method ToolLoop(s: Services, isSpace: char -> bool, includeReasoning: bool) returns (log: seq<Entry>)
    ensures log == Turn(s, HandlerFor(s, isSpace, includeReasoning), 0, NOTHING_PENDING, "")
  {
    var reply := s.reply(0);
    if reply.Raised? {
      return Failure(reply.message);
    }
    var result := reply.value;
    var pending, reasoning := NOTHING_PENDING, "";
    ghost var handle := HandlerFor(s, isSpace, includeReasoning);
    ghost var all := Turn(s, handle, 0, NOTHING_PENDING, "");
    log := [];
    var n := 0;
    while n < MAX_TOOL_ITERATIONS
      invariant 0 <= n <= MAX_TOOL_ITERATIONS
      invariant handle == HandlerFor(s, isSpace, includeReasoning)
      invariant s.reply(n) == Returned(result)
      invariant log + Turn(s, handle, n, pending, reasoning) == all
    {
      var handled := HandleReply(s, isSpace, includeReasoning, n, result, pending, reasoning);
      TurnAsHandled(s, handle, n, result, pending, reasoning, log, handled);
      log := log + handled.entries;
      if handled.Finish? {
        return log;
      }
      pending, reasoning := handled.pending, handled.reasoning;
      n := n + 1;
      reply := s.reply(n);
      if reply.Raised? {
        TurnFails(s, handle, n, pending, reasoning);
        return log + Failure(reply.message);
      }
      result := reply.value;
    }
    TurnFails(s, handle, n, pending, reasoning);
    return log + Failure(TOO_MANY);
  }

  /** The log grows by the entries of one turn, and what is still to come follows. */
  lemma {:induction false} TurnAsHandled(
      s: Services, handle: Handler, n: nat, r: ModelResult, pending: Pending, reasoning: string, log: seq<Entry>,
      h: Handled)
    requires n < MAX_TOOL_ITERATIONS && s.reply(n) == Returned(r) && h == handle(n, r, pending, reasoning)
    ensures log + Turn(s, handle, n, pending, reasoning) ==
            if h.Finish? then log + h.entries
            else log + h.entries + Turn(s, handle, n + 1, h.pending, h.reasoning)
  {
    if h.GoOn? {
      Regroup(log, h.entries, Turn(s, handle, n + 1, h.pending, h.reasoning));
    }
  }

  lemma {:induction false} TurnFails(s: Services, handle: Handler, n: nat, pending: Pending, reasoning: string)
    requires n <= MAX_TOOL_ITERATIONS && (s.reply(n).Raised? || n == MAX_TOOL_ITERATIONS)
    ensures Turn(s, handle, n, pending, reasoning) ==
            Failure(if s.reply(n).Raised? then s.reply(n).message else TOO_MANY)
  {}

  lemma {:induction false} TurnGoesOn(
      s: Services, handle: Handler, n: nat, r: ModelResult, pending: Pending, reasoning: string)
    requires n < MAX_TOOL_ITERATIONS && s.reply(n) == Returned(r) && handle(n, r, pending, reasoning).GoOn?
    ensures var h := handle(n, r, pending, reasoning);
            Turn(s, handle, n, pending, reasoning) == h.entries + Turn(s, handle, n + 1, h.pending, h.reasoning)
  {}

  lemma {:induction false} TurnFinishes(
      s: Services, handle: Handler, n: nat, r: ModelResult, pending: Pending, reasoning: string)
    requires n < MAX_TOOL_ITERATIONS && s.reply(n) == Returned(r) && handle(n, r, pending, reasoning).Finish?
    ensures Turn(s, handle, n, pending, reasoning) == handle(n, r, pending, reasoning).entries
  {}

  lemma {:induction false} Regroup(a: seq<Entry>, b: seq<Entry>, c: seq<Entry>)
    ensures a + (b + c) == a + b + c
  {}

  /** One turn of the loop, up to the next request to the model. */
  method HandleReply(
      s: Services, isSpace: char -> bool, includeReasoning: bool, n: nat, r: ModelResult, pending: Pending,
      reasoning: string)
    returns (handled: Handled)
    ensures handled == HandlerFor(s, isSpace, includeReasoning)(n, r, pending, reasoning)
  {
    var stop := r.stopReason.GetOr("complete");
    var thought := reasoning;
    if r.reasoning != "" {
      thought := r.reasoning;
    }
    if stop == "complete" || stop == "server_tool_complete" {
      var text := Displayed(r.message.GetOr(""), isSpace);
      var done := Done(text, "complete", None, None, None);
      if pending.actions != [] {
        done := done.(actions := Some(pending));
      }
      if includeReasoning && thought != "" {
        done := done.(reasoning := Some(thought));
      }
      return Finish(Deltas(text) + [Emit(done), CloseTrace, LogTranscript]);
    } else if stop == "validation_required" {
      return Finish([Emit(Done(r.message.GetOr(r.question), stop, None, None, Some(r.question))), CloseTrace]);
    } else if stop == "tool_calls" {
      if r.toolCalls == [] {
        return Finish(Failure(TOO_MANY));
      }
      var log: seq<Entry> := [];
      var intermediate := Trim(r.message.GetOr(""), isSpace);
      if intermediate != "" {
        log := log + [Emit(Delta(intermediate + " "))];
      }
      log := log + [Emit(Status("Running command on node..."))];
      var pass := ToolPassOf(s, n, r.toolCalls, pending);
      if pass.Broken? {
        return Finish(log + Failure(pass.message));
      }
      return GoOn(log + [Continue(pass.results)], pass.pending, thought);
    } else if stop == "error" {
      return Finish(Failure(r.error.GetOr("An error occurred")));
    } else {
      return Finish([Emit(Done(r.message.GetOr(""), stop, None, Shown(includeReasoning, thought), None)), CloseTrace]);
    }
  }

  method ToolPassOf(s: Services, n: nat, calls: seq<ToolCall>, pending: Pending) returns (pass: ToolPass)
    ensures pass == RunTools(s, n, calls, pending)
  {
    var results: seq<ToolResult>, latest := [], pending;
    for k := 0 to |calls|
      invariant Passed(results, latest) == RunTools(s, n, calls[..k], pending)
    {
      assert calls[..k + 1][..k] == calls[..k];
      var outcome := s.tool(n, k);
      if outcome.Raised? {
        BrokenStaysBroken(s, n, calls, k + 1, pending);
        return Broken(outcome.message);
      }
      results := results + [ToolResult(calls[k].id, outcome.value)];
      latest := Track(latest, calls[k].name, outcome.value);
    }
    assert calls[..|calls|] == calls;
    return Passed(results, latest);
  }

  lemma {:induction false} BrokenStaysBroken(s: Services, n: nat, calls: seq<ToolCall>, k: nat, pending: Pending)
    requires k <= |calls| && RunTools(s, n, calls[..k], pending).Broken?
    ensures RunTools(s, n, calls, pending) == RunTools(s, n, calls[..k], pending)
  {
    if k == |calls| {
      assert calls[..k] == calls;
    } else {
      assert calls[..|calls| - 1][..k] == calls[..k];
      BrokenStaysBroken(s, n, calls[..|calls| - 1], k, pending);
    }
  }

  // ---------------------------------------------------------------- the stream protocol

  predicate Terminal(e: Entry) {
    e.Emit? && (e.event.Done? || e.event.Error?)
  }

  /** Neither a terminal event nor anything that belongs after one. */
  predicate Ongoing(e: Entry) {
    !Terminal(e) && e != CloseTrace && e != LogTranscript
  }

  ghost predicate EndsAt(log: seq<Entry>, k: nat) {
    && k + 1 < |log| && Terminal(log[k]) && log[k + 1] == CloseTrace
    && (log[k + 2..] == [] || log[k + 2..] == [LogTranscript])
    && forall i :: 0 <= i < k ==> Ongoing(log[i])
  }

  /** One terminal event, then the trace is closed, then at most the transcript is logged. */
  ghost predicate EndsOnce(log: seq<Entry>) {
    exists k :: EndsAt(log, k)
  }

  lemma {:induction false} EndsOnceAfter(opening: seq<Entry>, log: seq<Entry>)
    requires EndsOnce(log)
    requires forall i :: 0 <= i < |opening| ==> Ongoing(opening[i])
    ensures EndsOnce(opening + log)
  {
    var k :| EndsAt(log, k);
    var all, m := opening + log, |opening| + k;
    assert all[m + 2..] == log[k + 2..];
    assert EndsAt(all, m);
  }

  lemma {:induction false} FailureEndsOnce(message: string)
    ensures EndsOnce(Failure(message))
  {
    assert EndsAt(Failure(message), 0);
  }

  /** The last entries of a stream end it once; those of a turn that goes on end nothing. */
  ghost predicate EndsProperly(h: Handled) {
    if h.Finish? then EndsOnce(h.entries) else forall i :: 0 <= i < |h.entries| ==> Ongoing(h.entries[i])
  }

  lemma {:induction false} AnswerEndsOnce(text: string, pending: Pending, shown: Option<string>)
    ensures EndsOnce(Answer(text, pending, shown))
  {
    var deltas, answer := Deltas(text), Answer(text, pending, shown);
    var ending := answer[|deltas|..];
    assert answer == deltas + ending;
    assert EndsAt(ending, 0);
    EndsOnceAfter(deltas, ending);
  }

  lemma {:induction false} HandledShape(
      s: Services, isSpace: char -> bool, includeReasoning: bool, n: nat, r: ModelResult, pending: Pending,
      reasoning: string)
    ensures EndsProperly(Handle(s, isSpace, includeReasoning, n, r, pending, reasoning))
  {
    var h := Handle(s, isSpace, includeReasoning, n, r, pending, reasoning);
    var stop := r.stopReason.GetOr("complete");
    if stop == "complete" || stop == "server_tool_complete" {
      var thought := if r.reasoning != "" then r.reasoning else reasoning;
      AnswerEndsOnce(Displayed(r.message.GetOr(""), isSpace), pending, Shown(includeReasoning, thought));
    } else if stop == "tool_calls" {
      FailureEndsOnce(TOO_MANY);
      var pass := RunTools(s, n, r.toolCalls, pending);
      if r.toolCalls != [] && pass.Broken? {
        FailureEndsOnce(pass.message);
        EndsOnceAfter(Announce(Trim(r.message.GetOr(""), isSpace)), Failure(pass.message));
      }
    } else if stop == "error" {
      FailureEndsOnce(r.error.GetOr("An error occurred"));
    } else {
      assert EndsAt(h.entries, 0);
    }
  }

  lemma {:induction false} TurnEndsOnce(s: Services, handle: Handler, n: nat, pending: Pending, reasoning: string)
    requires n <= MAX_TOOL_ITERATIONS
    requires forall m: nat, r, latest, thought :: EndsProperly(handle(m, r, latest, thought))
    ensures EndsOnce(Turn(s, handle, n, pending, reasoning))
    decreases MAX_TOOL_ITERATIONS - n
  {
    if s.reply(n).Raised? {
      FailureEndsOnce(s.reply(n).message);
    } else if n == MAX_TOOL_ITERATIONS {
      FailureEndsOnce(TOO_MANY);
    } else {
      var h := handle(n, s.reply(n).value, pending, reasoning);
      assert EndsProperly(h);
      if h.GoOn? {
        TurnEndsOnce(s, handle, n + 1, h.pending, h.reasoning);
        EndsOnceAfter(h.entries, Turn(s, handle, n + 1, h.pending, h.reasoning));
      }
    }
  }

  /**
   Whatever the services do, every stream emits exactly one terminal event, as its last
   event, and closes its trace exactly once, right after it.
   */
  lemma {:induction false} EveryStreamEndsOnce(s: Services, isSpace: char -> bool, includeReasoning: bool)
    ensures EndsOnce(Stream(s, isSpace, includeReasoning))
  {
    if !s.warm && s.warmupError.Some? {
      FailureEndsOnce(s.warmupError.value);
      EndsOnceAfter(Opening(s), Failure(s.warmupError.value));
    } else {
      var handle := HandlerFor(s, isSpace, includeReasoning);
      forall m: nat, r, latest, thought ensures EndsProperly(handle(m, r, latest, thought)) {
        HandledShape(s, isSpace, includeReasoning, m, r, latest, thought);
      }
      TurnEndsOnce(s, handle, 0, NOTHING_PENDING, "");
      EndsOnceAfter(Opening(s), Turn(s, HandlerFor(s, isSpace, includeReasoning), 0, NOTHING_PENDING, ""));
    }
  }

  // ---------------------------------------------------------------- continuations

  /** What each entry part, one after the other. */
  function Gathered<T>(log: seq<Entry>, part: Entry -> seq<T>): seq<T> {
    if log == [] then [] else part(log[0]) + Gathered(log[1..], part)
  }

  lemma {:induction false} GatheredConcat<T>(a: seq<Entry>, b: seq<Entry>, part: Entry -> seq<T>)
    ensures Gathered(a + b, part) == Gathered(a, part) + Gathered(b, part)
  {
    var all := a + b;
    if a == [] {
      assert all == b;
    } else {
      assert all[0] == a[0] && all[1..] == a[1..] + b;
      GatheredConcat(a[1..], b, part);
      assert Gathered(all, part) == part(a[0]) + (Gathered(a[1..], part) + Gathered(b, part));
    }
  }

  function ContinuationOf(e: Entry): seq<seq<ToolResult>> {
    if e.Continue? then [e.results] else []
  }

  /** The tool results handed back to the model, in order. */
  function Continuations(log: seq<Entry>): seq<seq<ToolResult>> {
    Gathered(log, ContinuationOf)
  }

  lemma {:induction false} NoContinuations(log: seq<Entry>)
    requires forall i :: 0 <= i < |log| ==> !log[i].Continue?
    ensures Continuations(log) == []
  {
    if log == [] {
    } else {
      NoContinuations(log[1..]);
    }
  }

  /** The results answer the tool calls of reply n one by one, in order, each with what its command returned. */
  ghost predicate Answers(s: Services, n: nat, results: seq<ToolResult>) {
    && s.reply(n).Returned?
    && |results| == |s.reply(n).value.toolCalls| > 0
    && forall k :: 0 <= k < |results| ==>
         results[k].id == s.reply(n).value.toolCalls[k].id && s.tool(n, k) == Returned(results[k].output)
  }

  lemma {:induction false} PassesAnswer(s: Services, n: nat, calls: seq<ToolCall>, pending: Pending)
    requires RunTools(s, n, calls, pending).Passed?
    ensures var results := RunTools(s, n, calls, pending).results;
            |results| == |calls| && forall k :: 0 <= k < |calls| ==>
              results[k].id == calls[k].id && s.tool(n, k) == Returned(results[k].output)
  {
    if calls == [] {
    } else {
      PassesAnswer(s, n, calls[..|calls| - 1], pending);
    }
  }

  /** A turn that goes on makes one continuation, and it answers the reply; a turn that ends makes none. */
  ghost predicate ContinuesProperly(s: Services, n: nat, h: Handled) {
    if h.Finish? then Continuations(h.entries) == []
    else |Continuations(h.entries)| == 1 && Answers(s, n, Continuations(h.entries)[0])
  }

  lemma {:induction false} HandledContinuations(
      s: Services, isSpace: char -> bool, includeReasoning: bool, n: nat, pending: Pending, reasoning: string)
    requires s.reply(n).Returned?
    ensures ContinuesProperly(s, n, Handle(s, isSpace, includeReasoning, n, s.reply(n).value, pending, reasoning))
  {
    var r := s.reply(n).value;
    var h := Handle(s, isSpace, includeReasoning, n, r, pending, reasoning);
    if h.GoOn? {
      var pass := RunTools(s, n, r.toolCalls, pending);
      var opening := Announce(Trim(r.message.GetOr(""), isSpace));
      PassesAnswer(s, n, r.toolCalls, pending);
      NoContinuations(opening);
      GatheredConcat(opening, [Continue(pass.results)], ContinuationOf);
      assert [Continue(pass.results)][1..] == [];
      assert Continuations([Continue(pass.results)]) == [pass.results];
    } else {
      NoContinuations(h.entries);
    }
  }

  /** The continuations answer reply n, reply n + 1, and so on. */
  ghost predicate AnswerInTurn(s: Services, n: nat, cs: seq<seq<ToolResult>>)
    decreases |cs|
  {
    cs != [] ==> Answers(s, n, cs[0]) && AnswerInTurn(s, n + 1, cs[1..])
  }

  lemma {:induction false} AnswerInTurnAt(s: Services, n: nat, cs: seq<seq<ToolResult>>, i: nat)
    requires AnswerInTurn(s, n, cs) && i < |cs|
    ensures Answers(s, n + i, cs[i])
    decreases i
  {
    if i == 0 {
    } else {
      AnswerInTurnAt(s, n + 1, cs[1..], i - 1);
    }
  }

  lemma {:induction false} OneMoreContinuation(s: Services, n: nat, h: Handled, rest: seq<Entry>)
    requires h.GoOn? && ContinuesProperly(s, n, h) && AnswerInTurn(s, n + 1, Continuations(rest))
    ensures |Continuations(h.entries + rest)| == 1 + |Continuations(rest)|
    ensures AnswerInTurn(s, n, Continuations(h.entries + rest))
  {
    GatheredConcat(h.entries, rest, ContinuationOf);
    assert Continuations(h.entries + rest)[1..] == Continuations(rest);
  }

  lemma {:induction false} TurnContinuations(s: Services, handle: Handler, n: nat, pending: Pending, reasoning: string)
    requires n <= MAX_TOOL_ITERATIONS
    requires forall m: nat, latest, thought :: s.reply(m).Returned? ==>
               ContinuesProperly(s, m, handle(m, s.reply(m).value, latest, thought))
    ensures var cs := Continuations(Turn(s, handle, n, pending, reasoning));
            |cs| <= MAX_TOOL_ITERATIONS - n && AnswerInTurn(s, n, cs)
    decreases MAX_TOOL_ITERATIONS - n
  {
    if s.reply(n).Raised? {
      NoContinuations(Failure(s.reply(n).message));
    } else if n == MAX_TOOL_ITERATIONS {
      NoContinuations(Failure(TOO_MANY));
    } else {
      var h := handle(n, s.reply(n).value, pending, reasoning);
      assert ContinuesProperly(s, n, h);
      if h.GoOn? {
        TurnContinuations(s, handle, n + 1, h.pending, h.reasoning);
        OneMoreContinuation(s, n, h, Turn(s, handle, n + 1, h.pending, h.reasoning));
      }
    }
  }

  lemma {:induction false} StreamContinuations(s: Services, isSpace: char -> bool, includeReasoning: bool)
    ensures Continuations(Stream(s, isSpace, includeReasoning)) ==
              if !s.warm && s.warmupError.Some? then []
              else Continuations(Turn(s, HandlerFor(s, isSpace, includeReasoning), 0, NOTHING_PENDING, ""))
  {
    NoContinuations(Opening(s));
    if !s.warm && s.warmupError.Some? {
      GatheredConcat(Opening(s), Failure(s.warmupError.value), ContinuationOf);
      NoContinuations(Failure(s.warmupError.value));
    } else {
      GatheredConcat(Opening(s), Turn(s, HandlerFor(s, isSpace, includeReasoning), 0, NOTHING_PENDING, ""),
          ContinuationOf);
    }
  }

  lemma {:induction false} LoopContinuations(s: Services, isSpace: char -> bool, includeReasoning: bool)
    ensures var cs := Continuations(Turn(s, HandlerFor(s, isSpace, includeReasoning), 0, NOTHING_PENDING, ""));
            |cs| <= MAX_TOOL_ITERATIONS && AnswerInTurn(s, 0, cs)
  {
    var handle := HandlerFor(s, isSpace, includeReasoning);
    forall m: nat, latest, thought | s.reply(m).Returned?
      ensures ContinuesProperly(s, m, handle(m, s.reply(m).value, latest, thought))
    {
      HandledContinuations(s, isSpace, includeReasoning, m, latest, thought);
    }
    TurnContinuations(s, handle, 0, NOTHING_PENDING, "");
  }

  lemma {:induction false} AllAnswered(s: Services, cs: seq<seq<ToolResult>>, i: nat)
    requires |cs| <= MAX_TOOL_ITERATIONS && AnswerInTurn(s, 0, cs)
    ensures |cs| <= MAX_TOOL_ITERATIONS && (i < |cs| ==> Answers(s, i, cs[i]))
  {
    if i < |cs| {
      AnswerInTurnAt(s, 0, cs, i);
    }
  }

  /**
   A stream hands the model at most five continuations, and the n-th carries exactly one
   result per tool call of the n-th reply, in the order of the calls.
   */
  lemma {:induction false} ContinuationsAnswerTheCalls(
      s: Services, isSpace: char -> bool, includeReasoning: bool, i: nat)
    ensures |Continuations(Stream(s, isSpace, includeReasoning))| <= 5
    ensures i < |Continuations(Stream(s, isSpace, includeReasoning))| ==>
              Answers(s, i, Continuations(Stream(s, isSpace, includeReasoning))[i])
  {
    AllAnswered(s, Continuations(Stream(s, isSpace, includeReasoning)), i) by {
      StreamContinuations(s, isSpace, includeReasoning);
      LoopContinuations(s, isSpace, includeReasoning);
    }
  }

  // ---------------------------------------------------------------- done or error

  /** Reply n asks for tools, and all of them come back. */
  ghost predicate GoesOn(s: Services, n: nat) {
    && s.reply(n).Returned? && s.reply(n).value.stopReason == Some("tool_calls") && s.reply(n).value.toolCalls != []
    && forall k :: 0 <= k < |s.reply(n).value.toolCalls| ==> s.tool(n, k).Returned?
  }

  /** Reply n is an answer, or a question to the user. */
  ghost predicate Settles(s: Services, n: nat) {
    s.reply(n).Returned? && s.reply(n).value.stopReason != Some("tool_calls")
        && s.reply(n).value.stopReason != Some("error")
  }

  /** Reply m settles the stream, and every reply from n up to it went on. */
  ghost predicate SettledBy(s: Services, n: nat, m: nat) {
    n <= m < 5 && Settles(s, m) && forall i :: n <= i < m ==> GoesOn(s, i)
  }

  lemma {:induction false} SettledLater(s: Services, n: nat, next: nat)
    requires n < MAX_TOOL_ITERATIONS && GoesOn(s, n) && next == n + 1
    ensures (exists m :: SettledBy(s, n, m)) <==> exists m :: SettledBy(s, next, m)
  {
    if m :| SettledBy(s, n, m) {
      assert SettledBy(s, next, m);
    }
    if m :| SettledBy(s, next, m) {
      assert SettledBy(s, n, m);
    }
  }

  lemma {:induction false} SettledOnlyAfterGoingOn(s: Services, n: nat)
    requires GoesOn(s, n) ==> n == MAX_TOOL_ITERATIONS
    ensures (exists m :: SettledBy(s, n, m)) <==> n < MAX_TOOL_ITERATIONS && Settles(s, n)
  {
    if m :| SettledBy(s, n, m) {
      assert m == n;
    }
    if n < MAX_TOOL_ITERATIONS && Settles(s, n) {
      assert SettledBy(s, n, n);
    }
  }

  predicate IsDone(e: Entry) {
    e.Emit? && e.event.Done?
  }

  ghost predicate EndsDone(log: seq<Entry>) {
    exists k :: 0 <= k < |log| && IsDone(log[k])
  }

  lemma {:induction false} EndsDoneAfter(opening: seq<Entry>, log: seq<Entry>)
    requires forall i :: 0 <= i < |opening| ==> !IsDone(opening[i])
    ensures EndsDone(opening + log) <==> EndsDone(log)
  {
    var all := opening + log;
    if EndsDone(log) {
      var k :| 0 <= k < |log| && IsDone(log[k]);
      assert IsDone(all[|opening| + k]);
    }
    if EndsDone(all) {
      var k :| 0 <= k < |all| && IsDone(all[k]);
      assert IsDone(log[k - |opening|]);
    }
  }

  lemma {:induction false} PassesExactlyWhenAllReturn(s: Services, n: nat, calls: seq<ToolCall>, pending: Pending)
    ensures RunTools(s, n, calls, pending).Passed? <==> forall k :: 0 <= k < |calls| ==> s.tool(n, k).Returned?
  {
    if calls == [] {
    } else {
      PassesExactlyWhenAllReturn(s, n, calls[..|calls| - 1], pending);
    }
  }

  /** The turn goes on exactly when it should, and ends with `done` exactly when the reply settles it. */
  ghost predicate SettlesProperly(s: Services, n: nat, h: Handled) {
    && (h.GoOn? <==> GoesOn(s, n))
    && (h.GoOn? ==> forall i :: 0 <= i < |h.entries| ==> !IsDone(h.entries[i]))
    && (h.Finish? ==> (EndsDone(h.entries) <==> Settles(s, n)))
  }

  lemma {:induction false} AnswersEndDone(text: string, pending: Pending, shown: Option<string>)
    ensures EndsDone(Answer(text, pending, shown))
  {
    assert IsDone(Answer(text, pending, shown)[|Deltas(text)|]);
  }

  lemma {:induction false} HandledDone(
      s: Services, isSpace: char -> bool, includeReasoning: bool, n: nat, pending: Pending, reasoning: string)
    requires s.reply(n).Returned?
    ensures SettlesProperly(s, n, Handle(s, isSpace, includeReasoning, n, s.reply(n).value, pending, reasoning))
  {
    var r := s.reply(n).value;
    var h := Handle(s, isSpace, includeReasoning, n, r, pending, reasoning);
    PassesExactlyWhenAllReturn(s, n, r.toolCalls, pending);
    if Settles(s, n) {
      if h.entries != [] && IsDone(h.entries[0]) {
      } else {
        var thought := if r.reasoning != "" then r.reasoning else reasoning;
        AnswersEndDone(Displayed(r.message.GetOr(""), isSpace), pending, Shown(includeReasoning, thought));
      }
    } else {
      assert forall i :: 0 <= i < |h.entries| ==> !IsDone(h.entries[i]);
    }
  }

  lemma {:induction false} TurnEndsDone(s: Services, handle: Handler, n: nat, pending: Pending, reasoning: string)
    requires n <= MAX_TOOL_ITERATIONS
    requires forall m: nat, latest, thought :: s.reply(m).Returned? ==>
               SettlesProperly(s, m, handle(m, s.reply(m).value, latest, thought))
    ensures EndsDone(Turn(s, handle, n, pending, reasoning)) <==> exists m :: SettledBy(s, n, m)
    decreases MAX_TOOL_ITERATIONS - n
  {
    var log := Turn(s, handle, n, pending, reasoning);
    if s.reply(n).Raised? || n == MAX_TOOL_ITERATIONS {
      assert forall i :: 0 <= i < |log| ==> !IsDone(log[i]);
      SettledOnlyAfterGoingOn(s, n);
    } else {
      var h := handle(n, s.reply(n).value, pending, reasoning);
      assert SettlesProperly(s, n, h);
      if h.GoOn? {
        TurnEndsDone(s, handle, n + 1, h.pending, h.reasoning);
        EndsDoneAfter(h.entries, Turn(s, handle, n + 1, h.pending, h.reasoning));
        SettledLater(s, n, n + 1);
      } else {
        SettledOnlyAfterGoingOn(s, n);
      }
    }
  }

  /**
   A stream ends with `done` if and only if one of the first five replies settles it and
   every earlier reply asked for tools that all came back; otherwise it ends with `error`.
   */
  lemma {:induction false} DoneExactlyWhenAReplySettles(s: Services, isSpace: char -> bool, includeReasoning: bool)
    ensures EndsDone(Stream(s, isSpace, includeReasoning)) <==>
            (s.warm || s.warmupError.None?) && exists m :: SettledBy(s, 0, m)
  {
    if s.warm || s.warmupError.None? {
      var handle := HandlerFor(s, isSpace, includeReasoning);
      forall m: nat, latest, thought | s.reply(m).Returned?
        ensures SettlesProperly(s, m, handle(m, s.reply(m).value, latest, thought))
      {
        HandledDone(s, isSpace, includeReasoning, m, latest, thought);
      }
      TurnEndsDone(s, handle, 0, NOTHING_PENDING, "");
      EndsDoneAfter(Opening(s), Turn(s, HandlerFor(s, isSpace, includeReasoning), 0, NOTHING_PENDING, ""));
    } else {
      EndsDoneAfter(Opening(s), Failure(s.warmupError.value));
      assert forall k :: 0 <= k < |Failure(s.warmupError.value)| ==> !IsDone(Failure(s.warmupError.value)[k]);
    }
  }

  // ---------------------------------------------------------------- the streamed text

  function DeltaOf(e: Entry): string {
    if e.Emit? && e.event.Delta? then e.event.text else ""
  }

  /** All the text the listener has seen as deltas. */
  function DeltaText(log: seq<Entry>): string {
    Gathered(log, DeltaOf)
  }

  lemma {:induction false} DeltaTextOfChunks(chunks: seq<string>, log: seq<Entry>, ending: seq<Entry>)
    requires |log| == |chunks| && forall i :: 0 <= i < |chunks| ==> log[i] == Emit(Delta(chunks[i]))
    requires DeltaText(ending) == ""
    ensures DeltaText(log + ending) == Concat(chunks)
  {
    if chunks == [] {
      assert log + ending == ending;
    } else {
      assert (log + ending)[1..] == log[1..] + ending && (log + ending)[0] == log[0];
      DeltaTextOfChunks(chunks[1..], log[1..], ending);
    }
  }

  /** The deltas of a final answer spell exactly the full text its `done` event repeats. */
  lemma {:induction false} AnswersAreSpelledOut(text: string, pending: Pending, shown: Option<string>)
    ensures DeltaText(Answer(text, pending, shown)) == text
  {
    var chunks := if text == "" then [] else Chunks(Words(text));
    var ending := Answer(text, pending, shown)[|chunks|..];
    assert Answer(text, pending, shown) == Deltas(text) + ending;
    var tail: seq<Entry> := [CloseTrace, LogTranscript];
    assert tail[1..] == [LogTranscript] && ending[1..] == tail;
    assert DeltaText([LogTranscript]) == "" == DeltaText(tail);
    DeltaTextOfChunks(chunks, Deltas(text), ending);
    ChunksSpellTheText(text);
  }

  // ---------------------------------------------------------------- pending actions

  /** After a tool pass the pending actions are those of the last output that has any, or what was pending before. */
  lemma {:induction false} TheLastActionsWin(s: Services, n: nat, calls: seq<ToolCall>, pending: Pending, k: nat)
    requires RunTools(s, n, calls, pending).Passed?
    requires k < |calls| && s.tool(n, k).Returned? && ActionsOf(s.tool(n, k).value) != []
    requires forall j :: k < j < |calls| && s.tool(n, j).Returned? ==> ActionsOf(s.tool(n, j).value) == []
    ensures var latest := RunTools(s, n, calls, pending).pending;
            var output := s.tool(n, k).value;
            && latest.actions == ActionsOf(output) && latest.command == calls[k].name && latest.source == output
            && (output.context.NoContext? ==> latest.preview == PreviewOf(output.preview, output.message))
            && (output.context.ContextFields? ==>
                  latest.preview == PreviewOf(output.context.preview, output.context.message))
  {
    if k < |calls| - 1 {
      TheLastActionsWin(s, n, calls[..|calls| - 1], pending, k);
    }
  }
}
