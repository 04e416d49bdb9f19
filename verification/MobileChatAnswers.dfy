/**
 What a listener of the mobile chat stream is told in the end (app/api/mobile_chat.py): the
 text, the pending actions and the reasoning that a `done` event carries, over all the turns
 that led to it.
 */
module MobileChatAnswers {
  import opened Options
  import opened Strings
  import opened MobileChat

  // ---------------------------------------------------------------- what has been gathered by reply m

  const BLANK := ModelResult(None, None, "", [], "", None)

  /** Reply n, or a blank one if it never came. */
  function ReplyAt(s: Services, n: nat): ModelResult {
    if s.reply(n).Returned? then s.reply(n).value else BLANK
  }

  /** What is pending after the tool pass of reply n. */
  function PassedOn(s: Services, n: nat, pending: Pending): Pending {
    var pass := RunTools(s, n, ReplyAt(s, n).toolCalls, pending);
    if pass.Passed? then pass.pending else pending
  }

  /** The latest reasoning, once reply n is there. */
  function Thought(s: Services, n: nat, reasoning: string): string {
    if ReplyAt(s, n).reasoning != "" then ReplyAt(s, n).reasoning else reasoning
  }

  /** The remark a reply makes while its tools run, with the space that follows it. */
  function Remark(s: Services, isSpace: char -> bool, n: nat): string {
    var intermediate := Trim(ReplyAt(s, n).message.GetOr(""), isSpace);
    if intermediate != "" then intermediate + " " else ""
  }

  /** What the n-th reply adds to the text, to what is pending, and to the reasoning. */
  datatype Telling = Telling(
    remark: nat -> string, passed: (nat, Pending) -> Pending, thought: (nat, string) -> string)

  function TellingOf(s: Services, isSpace: char -> bool): Telling {
    Telling((n: nat) => Remark(s, isSpace, n), (n: nat, pending) => PassedOn(s, n, pending),
            (n: nat, reasoning) => Thought(s, n, reasoning))
  }

  /** What is pending at reply m, if `pending` was at reply n. */
  function PendingAt(t: Telling, n: nat, m: nat, pending: Pending): Pending
    requires n <= m
    decreases m - n
  {
    if n == m then pending else PendingAt(t, n + 1, m, t.passed(n, pending))
  }

  /** The reasoning shown at reply m: that of the latest reply up to m that brought any. */
  function ThoughtAt(t: Telling, n: nat, m: nat, reasoning: string): string
    requires n <= m
    decreases m - n
  {
    if n == m then t.thought(n, reasoning) else ThoughtAt(t, n + 1, m, t.thought(n, reasoning))
  }

  /** The remarks of the replies from n up to m. */
  function Remarks(t: Telling, n: nat, m: nat): string
    requires n <= m
    decreases m - n
  {
    if n == m then "" else t.remark(n) + Remarks(t, n + 1, m)
  }

  predicate IsAnswer(r: ModelResult) {
    r.stopReason.GetOr("complete") in {"complete", "server_tool_complete"}
  }

  /** The event a settling reply ends with: an answer carries what is pending, a question its text. */
  function FinalEvent(
      r: ModelResult, isSpace: char -> bool, includeReasoning: bool, pending: Pending, thought: string): Event
  {
    var stop, shown := r.stopReason.GetOr("complete"), Shown(includeReasoning, thought);
    if IsAnswer(r) then
      var actions := if pending.actions != [] then Some(pending) else None;
      Done(Displayed(r.message.GetOr(""), isSpace), "complete", actions, shown, None)
    else if stop == "validation_required" then Done(r.message.GetOr(r.question), stop, None, None, Some(r.question))
    else Done(r.message.GetOr(""), stop, None, shown, None)
  }

  /** The text streamed for the settling reply itself. */
  function FinalText(r: ModelResult, isSpace: char -> bool): string {
    if IsAnswer(r) then Displayed(r.message.GetOr(""), isSpace) else ""
  }

  // ---------------------------------------------------------------- one turn

  lemma {:induction false} SilentEntry(e: Entry)
    requires !(e.Emit? && e.event.Delta?)
    ensures DeltaText([e]) == ""
  {
    assert [e][1..] == [] && Gathered([e][1..], DeltaOf) == "";
  }

  lemma {:induction false} AnnouncedText(intermediate: string, results: seq<ToolResult>)
    ensures DeltaText(Announce(intermediate) + [Continue(results)]) ==
            if intermediate != "" then intermediate + " " else ""
  {
    var status := Emit(Status("Running command on node..."));
    GatheredConcat(Announce(intermediate), [Continue(results)], DeltaOf);
    SilentEntry(status);
    SilentEntry(Continue(results));
    if intermediate != "" {
      var remark := Emit(Delta(intermediate + " "));
      GatheredConcat([remark], [status], DeltaOf);
      assert [remark][1..] == [];
    } else {
      assert Announce(intermediate) == [status];
    }
  }

  /** How a settling reply ends the stream: its text, and its event given what is pending and the reasoning. */
  datatype Close = Close(text: string, event: (Pending, string) -> Event)

  function CloseOf(s: Services, isSpace: char -> bool, includeReasoning: bool, n: nat): Close {
    Close(FinalText(ReplyAt(s, n), isSpace),
          (pending, thought) => FinalEvent(ReplyAt(s, n), isSpace, includeReasoning, pending, thought))
  }

  /** A turn that goes on makes its remark and hands on what it should. */
  ghost predicate GoesOnTelling(t: Telling, n: nat, pending: Pending, reasoning: string, h: Handled) {
    && h.GoOn? && DeltaText(h.entries) == t.remark(n)
    && h.pending == t.passed(n, pending) && h.reasoning == t.thought(n, reasoning)
  }

  /** A turn that settles the stream says its text and ends with its event. */
  ghost predicate ClosesWith(t: Telling, c: Close, n: nat, pending: Pending, reasoning: string, h: Handled) {
    h.Finish? && DeltaText(h.entries) == c.text && Emit(c.event(pending, t.thought(n, reasoning))) in h.entries
  }

  lemma {:induction false} TurnsThatGoOn(
      s: Services, isSpace: char -> bool, includeReasoning: bool, n: nat, pending: Pending, reasoning: string)
    requires GoesOn(s, n)
    ensures GoesOnTelling(TellingOf(s, isSpace), n, pending, reasoning,
                          Handle(s, isSpace, includeReasoning, n, ReplyAt(s, n), pending, reasoning))
  {
    var r := ReplyAt(s, n);
    PassesExactlyWhenAllReturn(s, n, r.toolCalls, pending);
    var pass := RunTools(s, n, r.toolCalls, pending);
    AnnouncedText(Trim(r.message.GetOr(""), isSpace), pass.results);
  }

  lemma {:induction false} TurnsThatSettle(
      s: Services, isSpace: char -> bool, includeReasoning: bool, n: nat, pending: Pending, reasoning: string)
    requires Settles(s, n)
    ensures ClosesWith(TellingOf(s, isSpace), CloseOf(s, isSpace, includeReasoning, n), n, pending, reasoning,
                       Handle(s, isSpace, includeReasoning, n, ReplyAt(s, n), pending, reasoning))
  {
    var r := ReplyAt(s, n);
    var thought := Thought(s, n, reasoning);
    var final := FinalEvent(r, isSpace, includeReasoning, pending, thought);
    if IsAnswer(r) {
      var text := Displayed(r.message.GetOr(""), isSpace);
      AnswersAreSpelledOut(text, pending, Shown(includeReasoning, thought));
      assert Answer(text, pending, Shown(includeReasoning, thought))[|Deltas(text)|] == Emit(final);
    } else {
      GatheredConcat([Emit(final)], [CloseTrace], DeltaOf);
      SilentEntry(Emit(final));
      SilentEntry(CloseTrace);
      assert [Emit(final), CloseTrace] == [Emit(final)] + [CloseTrace];
    }
  }

  // ---------------------------------------------------------------- the whole stream

  /** The text and the last event of a log. */
  ghost predicate Says(log: seq<Entry>, text: string, final: Event) {
    DeltaText(log) == text && Emit(final) in log
  }

  lemma {:induction false} SaysAfter(opening: seq<Entry>, said: string, log: seq<Entry>, text: string, final: Event)
    requires DeltaText(opening) == said && Says(log, text, final)
    ensures Says(opening + log, said + text, final)
  {
    GatheredConcat(opening, log, DeltaOf);
  }

  /** A turn that goes on puts its remark before what the rest of the stream says. */
  lemma {:induction false} SaysOneMore(
      s: Services, handle: Handler, n: nat, pending: Pending, reasoning: string,
      h: Handled, remark: string, text: string, final: Event)
    requires n < MAX_TOOL_ITERATIONS && s.reply(n).Returned?
    requires h == handle(n, s.reply(n).value, pending, reasoning) && h.GoOn? && DeltaText(h.entries) == remark
    requires Says(Turn(s, handle, n + 1, h.pending, h.reasoning), text, final)
    ensures Says(Turn(s, handle, n, pending, reasoning), remark + text, final)
  {
    TurnGoesOn(s, handle, n, s.reply(n).value, pending, reasoning);
    SaysAfter(h.entries, remark, Turn(s, handle, n + 1, h.pending, h.reasoning), text, final);
  }

  lemma {:induction false} LastTurn(
      s: Services, handle: Handler, n: nat, pending: Pending, reasoning: string, text: string, final: Event)
    requires n < MAX_TOOL_ITERATIONS && s.reply(n).Returned? && handle(n, s.reply(n).value, pending, reasoning).Finish?
    requires Says(handle(n, s.reply(n).value, pending, reasoning).entries, text, final)
    ensures Says(Turn(s, handle, n, pending, reasoning), "" + text, final)
  {
    TurnFinishes(s, handle, n, s.reply(n).value, pending, reasoning);
    assert "" + text == text;
  }

  lemma {:induction false} RemarksFirst(t: Telling, n: nat, m: nat, text: string)
    requires n < m
    ensures t.remark(n) + (Remarks(t, n + 1, m) + text) == Remarks(t, n, m) + text
  {}

  /** The turns from n on, of which reply m is the one that settles the stream. */
  lemma {:induction false} SettledTurn(
      s: Services, handle: Handler, t: Telling, c: Close, n: nat, m: nat, pending: Pending, reasoning: string)
    requires n <= m < MAX_TOOL_ITERATIONS && forall i :: n <= i <= m ==> s.reply(i).Returned?
    requires forall i, latest, thought :: n <= i < m ==>
               GoesOnTelling(t, i, latest, thought, handle(i, s.reply(i).value, latest, thought))
    requires forall latest, thought ::
            ClosesWith(t, c, m, latest, thought, handle(m, s.reply(m).value, latest, thought))
    ensures Says(Turn(s, handle, n, pending, reasoning), Remarks(t, n, m) + c.text,
                 c.event(PendingAt(t, n, m, pending), ThoughtAt(t, n, m, reasoning)))
    decreases m - n
  {
    var h := handle(n, s.reply(n).value, pending, reasoning);
    if n == m {
      assert ClosesWith(t, c, m, pending, reasoning, h);
      LastTurn(s, handle, n, pending, reasoning, c.text, c.event(pending, t.thought(n, reasoning)));
    } else {
      assert GoesOnTelling(t, n, pending, reasoning, h);
      SettledTurn(s, handle, t, c, n + 1, m, h.pending, h.reasoning);
      var final := c.event(PendingAt(t, n, m, pending), ThoughtAt(t, n, m, reasoning));
      SaysOneMore(s, handle, n, pending, reasoning, h, t.remark(n), Remarks(t, n + 1, m) + c.text, final);
      RemarksFirst(t, n, m, c.text);
    }
  }

  /**
   A stream that reply m settles says, as text: the remarks of the replies before, in order,
   and then, if reply m is an answer, its full text; and its one `done` event repeats that
   text with the actions pending then and the latest reasoning.
   */
  lemma {:induction false} StreamsSayWhatTheyEndWith(s: Services, isSpace: char -> bool, includeReasoning: bool, m: nat)
    requires (s.warm || s.warmupError.None?) && SettledBy(s, 0, m)
    ensures var t, r := TellingOf(s, isSpace), ReplyAt(s, m);
            Says(Stream(s, isSpace, includeReasoning), Remarks(t, 0, m) + FinalText(r, isSpace),
                 FinalEvent(r, isSpace, includeReasoning, PendingAt(t, 0, m, NOTHING_PENDING), ThoughtAt(t, 0, m, "")))
  {
    var t, c := TellingOf(s, isSpace), CloseOf(s, isSpace, includeReasoning, m);
    SettledTurns(s, isSpace, includeReasoning, m);
    OpeningIsSilent(s);
    var final := c.event(PendingAt(t, 0, m, NOTHING_PENDING), ThoughtAt(t, 0, m, ""));
    SaysAfter(Opening(s), "", Turn(s, HandlerFor(s, isSpace, includeReasoning), 0, NOTHING_PENDING, ""),
              Remarks(t, 0, m) + c.text, final);
    assert "" + (Remarks(t, 0, m) + c.text) == Remarks(t, 0, m) + c.text;
  }

  lemma {:induction false} SettledTurns(s: Services, isSpace: char -> bool, includeReasoning: bool, m: nat)
    requires SettledBy(s, 0, m)
    ensures var t, c := TellingOf(s, isSpace), CloseOf(s, isSpace, includeReasoning, m);
            Says(Turn(s, HandlerFor(s, isSpace, includeReasoning), 0, NOTHING_PENDING, ""), Remarks(t, 0, m) + c.text,
                 c.event(PendingAt(t, 0, m, NOTHING_PENDING), ThoughtAt(t, 0, m, "")))
  {
    var t, c := TellingOf(s, isSpace), CloseOf(s, isSpace, includeReasoning, m);
    var handle := HandlerFor(s, isSpace, includeReasoning);
    forall i | 0 <= i <= m ensures s.reply(i).Returned? {
      assert i < m ==> GoesOn(s, i);
    }
    forall i, latest, thought | 0 <= i < m
      ensures GoesOnTelling(t, i, latest, thought, handle(i, s.reply(i).value, latest, thought))
    {
      assert GoesOn(s, i);
      TurnsThatGoOn(s, isSpace, includeReasoning, i, latest, thought);
    }
    forall latest, thought ensures ClosesWith(t, c, m, latest, thought, handle(m, s.reply(m).value, latest, thought)) {
      TurnsThatSettle(s, isSpace, includeReasoning, m, latest, thought);
    }
    SettledTurn(s, handle, t, c, 0, m, NOTHING_PENDING, "");
  }

  lemma {:induction false} OpeningIsSilent(s: Services)
    ensures DeltaText(Opening(s)) == ""
  {
    var starting := if s.warm then [] else [Emit(Status("Starting conversation..."))];
    var acknowledging := if !s.warm && s.warmupError.Some? then [] else [Emit(Acknowledgment(s.acknowledgment))];
    GatheredConcat(starting, acknowledging, DeltaOf);
    SilentEntry(Emit(Status("Starting conversation...")));
    SilentEntry(Emit(Acknowledgment(s.acknowledgment)));
  }

  // ---------------------------------------------------------------- whose actions these are

  /** Output k of reply i brings actions. */
  predicate Brings(s: Services, i: nat, k: nat) {
    && k < |ReplyAt(s, i).toolCalls| && s.tool(i, k).Returned? && s.tool(i, k).value.Fields?
    && (var output := s.tool(i, k).value;
        output.actions != [] || (output.context.ContextFields? && output.context.actions != []))
  }

  /** Output k of reply i brings actions, and no later output before reply m does. */
  ghost predicate LastToBring(s: Services, m: nat, i: nat, k: nat) {
    && i < m && Brings(s, i, k)
    && (forall j: nat :: k < j ==> !Brings(s, i, j))
    && NoneBrings(s, i + 1, m)
  }

  /** No output of the replies from n up to m brings actions. */
  ghost predicate NoneBrings(s: Services, n: nat, m: nat) {
    forall l: nat, j: nat :: n <= l < m ==> !Brings(s, l, j)
  }

  lemma {:induction false} NothingBrought(s: Services, n: nat, calls: seq<ToolCall>, pending: Pending)
    requires forall k :: 0 <= k < |calls| ==> s.tool(n, k).Returned? && ActionsOf(s.tool(n, k).value) == []
    ensures RunTools(s, n, calls, pending).Passed? && RunTools(s, n, calls, pending).pending == pending
  {
    if calls == [] {
    } else {
      NothingBrought(s, n, calls[..|calls| - 1], pending);
    }
  }

  lemma {:induction false} NothingPassedOn(s: Services, n: nat, pending: Pending)
    requires GoesOn(s, n) && forall j: nat :: !Brings(s, n, j)
    ensures PassedOn(s, n, pending) == pending
  {
    var calls := ReplyAt(s, n).toolCalls;
    forall k | 0 <= k < |calls| ensures ActionsOf(s.tool(n, k).value) == [] {
      assert !Brings(s, n, k);
    }
    NothingBrought(s, n, calls, pending);
  }

  lemma {:induction false} NothingPendingChanges(s: Services, isSpace: char -> bool, n: nat, m: nat, pending: Pending)
    requires n <= m && (forall i :: n <= i < m ==> GoesOn(s, i)) && NoneBrings(s, n, m)
    ensures PendingAt(TellingOf(s, isSpace), n, m, pending) == pending
    decreases m - n
  {
    if n == m {
    } else {
      NothingPassedOn(s, n, pending);
      NothingPendingChanges(s, isSpace, n + 1, m, pending);
    }
  }

  /** The preview if there is one, else the message if there is one. */
  predicate IsPreview(shown: Option<string>, preview: string, message: string) {
    if preview != "" then shown == Some(preview) else if message != "" then shown == Some(message) else shown == None
  }

  /** The pending actions are those of output k of reply i, with its command and its preview. */
  predicate Holds(s: Services, latest: Pending, i: nat, k: nat)
    requires Brings(s, i, k)
  {
    && var output := s.tool(i, k).value;
    && latest.actions == (if output.actions != [] then output.actions else output.context.actions)
    && latest.command == ReplyAt(s, i).toolCalls[k].name && latest.source == output
    && (output.context.NoContext? ==> IsPreview(latest.preview, output.preview, output.message))
    && (output.context.ContextFields? ==>
          IsPreview(latest.preview, output.context.preview, output.context.message))
  }

  lemma {:induction false} LastOfThePassWins(s: Services, i: nat, k: nat, pending: Pending)
    requires GoesOn(s, i) && Brings(s, i, k) && forall j: nat :: k < j ==> !Brings(s, i, j)
    ensures Holds(s, PassedOn(s, i, pending), i, k)
  {
    var calls := ReplyAt(s, i).toolCalls;
    PassesExactlyWhenAllReturn(s, i, calls, pending);
    forall j | k < j < |calls| ensures ActionsOf(s.tool(i, j).value) == [] {
      assert !Brings(s, i, j);
    }
    TheLastActionsWin(s, i, calls, pending, k);
  }

  lemma {:induction false} LastBringerWins(
      s: Services, isSpace: char -> bool, n: nat, m: nat, pending: Pending, i: nat, k: nat)
    requires n <= i && (forall l :: n <= l < m ==> GoesOn(s, l)) && LastToBring(s, m, i, k)
    ensures Holds(s, PendingAt(TellingOf(s, isSpace), n, m, pending), i, k)
    decreases m - n
  {
    if n < i {
      LastBringerWins(s, isSpace, n + 1, m, PassedOn(s, n, pending), i, k);
    } else {
      LastOfThePassWins(s, i, k, pending);
      NothingPendingChanges(s, isSpace, n + 1, m, PassedOn(s, n, pending));
    }
  }

  lemma {:induction false} LastInPass(s: Services, i: nat, n: nat) returns (k: nat)
    requires exists j: nat :: j < n && Brings(s, i, j)
    ensures k < n && Brings(s, i, k) && forall j: nat :: k < j < n ==> !Brings(s, i, j)
  {
    if Brings(s, i, n - 1) {
      k := n - 1;
    } else {
      k := LastInPass(s, i, n - 1);
    }
  }

  /** If any output brings actions, one is the last to. */
  lemma {:induction false} LastBringer(s: Services, m: nat) returns (i: nat, k: nat)
    requires !NoneBrings(s, 0, m)
    ensures LastToBring(s, m, i, k)
  {
    var a: nat, b: nat :| a < m && Brings(s, a, b);
    i := m - 1;
    var count := |ReplyAt(s, i).toolCalls|;
    if exists j: nat :: j < count && Brings(s, i, j) {
      k := LastInPass(s, i, count);
    } else {
      assert a < i && !NoneBrings(s, 0, i);
      i, k := LastBringer(s, m - 1);
    }
  }

  /**
   The actions in the `done` event of an answer are those of the last tool output, over all
   passes of the stream, that brought any, with the command and the output they came from;
   and there are none if and only if no output brought any.
   */
  lemma {:induction false} AnswersCarryTheLastActions(s: Services, isSpace: char -> bool, m: nat)
    requires SettledBy(s, 0, m)
    ensures var latest := PendingAt(TellingOf(s, isSpace), 0, m, NOTHING_PENDING);
            && (latest.actions == [] <==> NoneBrings(s, 0, m))
            && (latest.actions != [] ==> exists i: nat, k: nat :: LastToBring(s, m, i, k) && Holds(s, latest, i, k))
  {
    if NoneBrings(s, 0, m) {
      NothingPendingChanges(s, isSpace, 0, m, NOTHING_PENDING);
    } else {
      var i, k := LastBringer(s, m);
      LastBringerWins(s, isSpace, 0, m, NOTHING_PENDING, i, k);
    }
  }
}
