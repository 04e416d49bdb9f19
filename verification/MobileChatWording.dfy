/**
 The words a listener of the mobile chat stream gets to see (app/api/mobile_chat.py): what is
 shown of an answer, what each ending says, and what each failure says.
 */
module MobileChatWording {
  import opened Options
  import opened Strings
  import opened MobileChat
  import opened MobileChatAnswers

  // ---------------------------------------------------------------- what is shown of an answer

  predicate At(s: string, part: string, i: nat) {
    i + |part| <= |s| && s[i..i + |part|] == part
  }

  ghost predicate Occurs(s: string, part: string) {
    exists i: nat :: At(s, part, i)
  }

  ghost predicate FirstAt(s: string, part: string, i: nat) {
    At(s, part, i) && forall j: nat :: j < i ==> !At(s, part, j)
  }

  lemma {:induction false} AtShifted(s: string, part: string, i: nat)
    requires s != "" && i > 0
    ensures At(s, part, i) <==> At(s[1..], part, i - 1)
  {
    if i + |part| <= |s| {
      assert s[i..i + |part|] == s[1..][i - 1..i - 1 + |part|];
    }
  }

  lemma {:induction false} FindsTheFirst(s: string, part: string)
    requires part != ""
    ensures Find(s, part).Some? ==> FirstAt(s, part, Find(s, part).value)
    ensures Find(s, part).None? ==> forall i: nat :: !At(s, part, i)
  {
    if StartsWith(s, part) {
      assert At(s, part, 0);
    } else {
      assert !At(s, part, 0);
      if s != "" {
        FindsTheFirst(s[1..], part);
        forall i: nat | i > 0 ensures At(s, part, i) <==> At(s[1..], part, i - 1) {
          AtShifted(s, part, i);
        }
      }
    }
  }

  /** t is s without the white space at its ends. */
  ghost predicate IsTrimmed(s: string, t: string, isSpace: char -> bool) {
    && (t != "" ==> !isSpace(t[0]) && !isSpace(t[|t| - 1]))
    && exists before: string, after: string :: SurroundedBySpace(s, before, t, after, isSpace)
  }

  ghost predicate SurroundedBySpace(s: string, before: string, t: string, after: string, isSpace: char -> bool) {
    && s == before + t + after
    && (forall i :: 0 <= i < |before| ==> isSpace(before[i])) && (forall i :: 0 <= i < |after| ==> isSpace(after[i]))
  }

  /** What follows the first end mark, trimmed, if the message has a mark of data and one of its end; else all of it. */
  ghost predicate ShownBehind(message: string, text: string, data: string, end: string, isSpace: char -> bool) {
    if Occurs(message, data) && Occurs(message, end) then exists i: nat :: ShowsTheRest(message, text, end, i, isSpace)
    else text == message
  }

  ghost predicate ShowsTheRest(message: string, text: string, end: string, i: nat, isSpace: char -> bool) {
    FirstAt(message, end, i) && IsTrimmed(message[i + |end|..], text, isSpace)
  }

  /** An answer is shown without the tool data that precedes it for the history. */
  ghost predicate IsShownAs(message: string, text: string, isSpace: char -> bool) {
    ShownBehind(message, text, "[Tool data:", "]\n\n", isSpace)
  }

  lemma {:induction false} FoundExactlyIfThere(s: string, part: string)
    requires part != ""
    ensures Find(s, part).Some? <==> Occurs(s, part)
    ensures Find(s, part).Some? ==> FirstAt(s, part, Find(s, part).value)
  {
    FindsTheFirst(s, part);
    if Find(s, part).Some? {
      assert At(s, part, Find(s, part).value);
    }
  }

  lemma {:induction false} TrimmingTrims(s: string, isSpace: char -> bool)
    ensures IsTrimmed(s, Trim(s, isSpace), isSpace)
  {
    var before, after := TrimStripsExactly(s, isSpace);
    assert SurroundedBySpace(s, before, Trim(s, isSpace), after, isSpace);
  }

  lemma {:induction false} ToolDataIsNotShown(message: string, isSpace: char -> bool)
    ensures IsShownAs(message, Displayed(message, isSpace), isSpace)
  {
    var end := Find(message, TOOL_DATA_END);
    FoundExactlyIfThere(message, TOOL_DATA);
    FoundExactlyIfThere(message, TOOL_DATA_END);
    if Find(message, TOOL_DATA).Some? && end.Some? {
      TrimmingTrims(message[end.value + |TOOL_DATA_END|..], isSpace);
      assert ShowsTheRest(message, Displayed(message, isSpace), TOOL_DATA_END, end.value, isSpace);
    }
  }

  /** The chunks cut the text behind each of its spaces: each but the last ends with its one space. */
  lemma {:induction false} ChunksEndAtTheSpaces(s: string)
    ensures var chunks := Chunks(Words(s));
            && chunks != []
            && (forall i, k :: 0 <= i < |chunks| && 0 <= k < |chunks[i]| ==>
                  (chunks[i][k] == ' ' <==> i < |chunks| - 1 && k == |chunks[i]| - 1))
            && (forall i :: 0 <= i < |chunks| - 1 ==> chunks[i] != "")
  {
    WordsHaveNoSpace(s);
    ChunksAddTheSpace(Words(s));
  }

  lemma {:induction false} WordsHaveNoSpace(s: string)
    ensures forall i :: 0 <= i < |Words(s)| ==> ' ' !in Words(s)[i]
  {
    if s == "" {
    } else {
      WordsHaveNoSpace(s[1..]);
    }
  }

  lemma {:induction false} ChunksAddTheSpace(words: seq<string>)
    ensures |Chunks(words)| == |words|
    ensures forall i :: 0 <= i < |words| ==> Chunks(words)[i] == words[i] + if i < |words| - 1 then " " else ""
  {
    if |words| <= 1 {
    } else {
      ChunksAddTheSpace(words[1..]);
    }
  }

  // ---------------------------------------------------------------- how a stream opens

  /**
   A cold conversation says that it starts, and every one that starts acknowledges the message
   before anything else.
   */
  lemma {:induction false} StreamsOpenWithAnAcknowledgment(
      s: Services, isSpace: char -> bool, includeReasoning: bool)
    ensures var log := Stream(s, isSpace, includeReasoning);
            if s.warm then |log| > 0 && log[0] == Emit(Acknowledgment(s.acknowledgment))
            else if s.warmupError.None? then
              |log| > 1 && log[0] == Emit(Status("Starting conversation..."))
              && log[1] == Emit(Acknowledgment(s.acknowledgment))
            else log == [Emit(Status("Starting conversation...")), Emit(Error(s.warmupError.value)), CloseTrace]
  {
    assert Opening(s) != [];
  }

  /** Every continuation stands right behind the word that a command runs. */
  ghost predicate Announced(log: seq<Entry>) {
    forall i :: 0 <= i < |log| && log[i].Continue? ==>
      i > 0 && log[i - 1] == Emit(Status("Running command on node..."))
  }

  lemma {:induction false} HandledAnnounced(
      s: Services, isSpace: char -> bool, includeReasoning: bool, n: nat, r: ModelResult, pending: Pending,
      reasoning: string)
    ensures Announced(Handle(s, isSpace, includeReasoning, n, r, pending, reasoning).entries)
  {
    var stop := r.stopReason.GetOr("complete");
    if stop == "complete" || stop == "server_tool_complete" {
      var thought := if r.reasoning != "" then r.reasoning else reasoning;
      AnswersContinueNothing(Displayed(r.message.GetOr(""), isSpace), pending, Shown(includeReasoning, thought));
    } else if stop == "tool_calls" && r.toolCalls != [] {
      var pass, said := RunTools(s, n, r.toolCalls, pending), Trim(r.message.GetOr(""), isSpace);
      PassesAreAnnounced(said, if pass.Passed? then [Continue(pass.results)] else Failure(pass.message));
    }
  }

  lemma {:induction false} AnswersContinueNothing(text: string, pending: Pending, shown: Option<string>)
    ensures forall e :: e in Answer(text, pending, shown) ==> !e.Continue?
  {
    assert forall e :: e in Deltas(text) ==> !e.Continue?;
  }

  lemma {:induction false} PassesAreAnnounced(said: string, rest: seq<Entry>)
    requires forall i :: 0 < i < |rest| ==> !rest[i].Continue?
    ensures Announced(Announce(said) + rest)
  {}

  lemma {:induction false} TurnAnnounced(s: Services, handle: Handler, n: nat, pending: Pending, reasoning: string)
    requires n <= MAX_TOOL_ITERATIONS
    requires forall m: nat, r, latest, thought :: Announced(handle(m, r, latest, thought).entries)
    ensures Announced(Turn(s, handle, n, pending, reasoning))
    decreases MAX_TOOL_ITERATIONS - n
  {
    if s.reply(n).Raised? || n == MAX_TOOL_ITERATIONS {
    } else {
      var h := handle(n, s.reply(n).value, pending, reasoning);
      assert Announced(h.entries);
      if h.GoOn? {
        TurnAnnounced(s, handle, n + 1, h.pending, h.reasoning);
      }
    }
  }

  lemma {:induction false} ContinuationsAreAnnounced(s: Services, isSpace: char -> bool, includeReasoning: bool)
    ensures Announced(Stream(s, isSpace, includeReasoning))
  {
    var handle := HandlerFor(s, isSpace, includeReasoning);
    forall m: nat, r, latest, thought ensures Announced(handle(m, r, latest, thought).entries) {
      HandledAnnounced(s, isSpace, includeReasoning, m, r, latest, thought);
    }
    TurnAnnounced(s, handle, 0, NOTHING_PENDING, "");
  }

  // ---------------------------------------------------------------- how a stream ends

  /** The reasoning of the last of the replies up to m that brought any, if reasoning is asked for and there is such. */
  ghost predicate IsLatestReasoning(s: Services, includeReasoning: bool, m: nat, shown: Option<string>) {
    if shown.None? then !includeReasoning || forall i: nat :: i <= m ==> ReplyAt(s, i).reasoning == ""
    else includeReasoning && shown.value != ""
         && exists i: nat :: i <= m && ReplyAt(s, i).reasoning == shown.value
              && forall j: nat :: i < j <= m ==> ReplyAt(s, j).reasoning == ""
  }

  lemma {:induction false} ThoughtsAreTheLatest(
      s: Services, isSpace: char -> bool, n: nat, m: nat, reasoning: string)
    requires n <= m
    ensures var thought := ThoughtAt(TellingOf(s, isSpace), n, m, reasoning);
            || (thought == reasoning && forall i: nat :: n <= i <= m ==> ReplyAt(s, i).reasoning == "")
            || (exists i: nat :: n <= i <= m && ReplyAt(s, i).reasoning == thought != ""
                  && forall j: nat :: i < j <= m ==> ReplyAt(s, j).reasoning == "")
    decreases m - n
  {
    if n == m {
    } else {
      ThoughtsAreTheLatest(s, isSpace, n + 1, m, Thought(s, n, reasoning));
    }
  }

  lemma {:induction false} LatestReasoningIsShown(s: Services, isSpace: char -> bool, includeReasoning: bool, m: nat)
    ensures IsLatestReasoning(s, includeReasoning, m,
                              Shown(includeReasoning, ThoughtAt(TellingOf(s, isSpace), 0, m, "")))
  {
    ThoughtsAreTheLatest(s, isSpace, 0, m, "");
  }

  /** What the stream of a settling reply says after the remarks, and how its `done` event reads. */
  ghost predicate EndsAsSaid(
      r: ModelResult, isSpace: char -> bool, text: string, final: Event, actions: Option<Pending>,
      shown: Option<string>)
  {
    match r.stopReason
    case None => IsShownAs(if r.message.Some? then r.message.value else "", text, isSpace)
                 && final == Done(text, "complete", actions, shown, None)
    case Some(stop) =>
      if stop == "complete" || stop == "server_tool_complete" then
        IsShownAs(if r.message.Some? then r.message.value else "", text, isSpace)
        && final == Done(text, "complete", actions, shown, None)
      else if stop == "validation_required" then
        text == ""
        && final == Done(if r.message.Some? then r.message.value else r.question, "validation_required", None, None,
                         Some(r.question))
      else
        text == "" && final == Done(if r.message.Some? then r.message.value else "", stop, None, shown, None)
  }

  /**
   The stream that reply m settles streams the remarks of the replies before and then, if reply
   m is an answer, what is to be shown of its message; its `done` event repeats that text under
   its stop reason, or asks the question of a validation.
   */
  lemma {:induction false} StreamsEndAsTheReplySays(
      s: Services, isSpace: char -> bool, includeReasoning: bool, m: nat)
    requires (s.warm || s.warmupError.None?) && SettledBy(s, 0, m)
    ensures exists text: string, final: Event, actions: Option<Pending>, shown: Option<string> ::
              && EndsAsSaid(ReplyAt(s, m), isSpace, text, final, actions, shown)
              && IsLatestReasoning(s, includeReasoning, m, shown)
              && DeltaText(Stream(s, isSpace, includeReasoning)) == Remarks(TellingOf(s, isSpace), 0, m) + text
              && Emit(final) in Stream(s, isSpace, includeReasoning)
  {
    var t, r := TellingOf(s, isSpace), ReplyAt(s, m);
    var pending, thought := PendingAt(t, 0, m, NOTHING_PENDING), ThoughtAt(t, 0, m, "");
    var text, final := FinalText(r, isSpace), FinalEvent(r, isSpace, includeReasoning, pending, thought);
    var actions := if pending.actions != [] then Some(pending) else None;
    StreamsSayWhatTheyEndWith(s, isSpace, includeReasoning, m);
    LatestReasoningIsShown(s, isSpace, includeReasoning, m);
    ToolDataIsNotShown(r.message.GetOr(""), isSpace);
    assert EndsAsSaid(r, isSpace, text, final, actions, Shown(includeReasoning, thought));
  }

  // ---------------------------------------------------------------- how a stream fails

  /** What the turn of reply m emits is emitted by the stream, if every reply before went on. */
  lemma {:induction false} TurnsAreReached(
      s: Services, handle: Handler, n: nat, m: nat, pending: Pending, reasoning: string)
    returns (latest: Pending, thought: string)
    requires n <= m <= MAX_TOOL_ITERATIONS && forall i :: n <= i < m ==> s.reply(i).Returned?
    requires forall i: nat, p, q :: n <= i < m ==> handle(i, s.reply(i).value, p, q).GoOn?
    ensures forall e :: e in Turn(s, handle, m, latest, thought) ==> e in Turn(s, handle, n, pending, reasoning)
    decreases m - n
  {
    if n == m {
      latest, thought := pending, reasoning;
    } else {
      var h := handle(n, s.reply(n).value, pending, reasoning);
      assert h.GoOn?;
      TurnGoesOn(s, handle, n, s.reply(n).value, pending, reasoning);
      latest, thought := TurnsAreReached(s, handle, n + 1, m, h.pending, h.reasoning);
    }
  }

  /** The first tool that raises breaks the pass with its message. */
  lemma {:induction false} TheFirstRaiseBreaks(s: Services, n: nat, calls: seq<ToolCall>, pending: Pending, k: nat)
    requires FirstToRaise(s, n, calls, k)
    ensures RunTools(s, n, calls, pending) == Broken(s.tool(n, k).message)
  {
    assert calls[..k + 1][..k] == calls[..k];
    PassesExactlyWhenAllReturn(s, n, calls[..k], pending);
    BrokenStaysBroken(s, n, calls, k + 1, pending);
  }

  ghost predicate FirstToRaise(s: Services, n: nat, calls: seq<ToolCall>, k: nat) {
    k < |calls| && s.tool(n, k).Raised? && forall j :: 0 <= j < k ==> s.tool(n, j).Returned?
  }

  /** What goes wrong at reply m, as the listener is told. */
  ghost predicate FailsWith(s: Services, m: nat, message: string) {
    match s.reply(m)
    case Raised(error) => message == error
    case Returned(r) =>
      if m == 5 then message == "Too many tool iterations"
      else if r.stopReason == Some("error") then
        message == if r.error.Some? then r.error.value else "An error occurred"
      else
        && r.stopReason == Some("tool_calls")
        && if r.toolCalls == [] then message == "Too many tool iterations"
           else exists k :: FirstToRaise(s, m, r.toolCalls, k) && message == s.tool(m, k).message
  }

  lemma {:induction false} FailingTurn(
      s: Services, isSpace: char -> bool, includeReasoning: bool, m: nat, pending: Pending, reasoning: string,
      message: string)
    requires m <= MAX_TOOL_ITERATIONS && FailsWith(s, m, message)
    ensures Emit(Error(message)) in Turn(s, HandlerFor(s, isSpace, includeReasoning), m, pending, reasoning)
  {
    var handle := HandlerFor(s, isSpace, includeReasoning);
    assert Emit(Error(message)) == Failure(message)[0];
    if s.reply(m).Raised? || m == MAX_TOOL_ITERATIONS {
      TurnFails(s, handle, m, pending, reasoning);
    } else {
      var r := s.reply(m).value;
      if r.stopReason == Some("tool_calls") && r.toolCalls != [] {
        var k :| FirstToRaise(s, m, r.toolCalls, k) && message == s.tool(m, k).message;
        TheFirstRaiseBreaks(s, m, r.toolCalls, pending, k);
      }
      TurnFinishes(s, handle, m, r, pending, reasoning);
    }
  }

  /**
   A stream whose replies before the m-th all went on, and that goes wrong at the m-th, tells
   the listener so in the words of what went wrong; a sixth reply is always one too many.
   */
  lemma {:induction false} StreamsSayWhyTheyFail(
      s: Services, isSpace: char -> bool, includeReasoning: bool, m: nat, message: string)
    requires (s.warm || s.warmupError.None?) && m <= 5
    requires (forall i :: 0 <= i < m ==> GoesOn(s, i)) && FailsWith(s, m, message)
    ensures Emit(Error(message)) in Stream(s, isSpace, includeReasoning)
  {
    var handle := HandlerFor(s, isSpace, includeReasoning);
    forall i | 0 <= i < m ensures s.reply(i).Returned? {
      assert GoesOn(s, i);
    }
    forall i: nat, p, q | 0 <= i < m ensures handle(i, s.reply(i).value, p, q).GoOn? {
      assert GoesOn(s, i);
      HandledDone(s, isSpace, includeReasoning, i, p, q);
    }
    var latest, thought := TurnsAreReached(s, handle, 0, m, NOTHING_PENDING, "");
    FailingTurn(s, isSpace, includeReasoning, m, latest, thought, message);
  }

  // ---------------------------------------------------------------- what is remembered

  /** Reply m settles the stream with an answer, after replies from n on that went on. */
  ghost predicate AnsweredBy(s: Services, n: nat, m: nat) {
    SettledBy(s, n, m) && s.reply(m).value.stopReason in {None, Some("complete"), Some("server_tool_complete")}
  }

  /** A turn logs the transcript exactly if its reply is an answer. */
  ghost predicate LogsAnswers(s: Services, n: nat, h: Handled) {
    && (h.GoOn? <==> GoesOn(s, n))
    && (LogTranscript in h.entries <==>
          s.reply(n).Returned? && s.reply(n).value.stopReason in {None, Some("complete"), Some("server_tool_complete")})
  }

  lemma {:induction false} AnswersAreLogged(text: string, pending: Pending, shown: Option<string>)
    ensures LogTranscript in Answer(text, pending, shown)
  {
    var log := Answer(text, pending, shown);
    assert log[|log| - 1] == LogTranscript;
  }

  lemma {:induction false} HandledTranscript(
      s: Services, isSpace: char -> bool, includeReasoning: bool, n: nat, pending: Pending, reasoning: string)
    requires s.reply(n).Returned?
    ensures LogsAnswers(s, n, Handle(s, isSpace, includeReasoning, n, s.reply(n).value, pending, reasoning))
  {
    var r := s.reply(n).value;
    var stop := r.stopReason.GetOr("complete");
    PassesExactlyWhenAllReturn(s, n, r.toolCalls, pending);
    if stop == "complete" || stop == "server_tool_complete" {
      var thought := if r.reasoning != "" then r.reasoning else reasoning;
      AnswersAreLogged(Displayed(r.message.GetOr(""), isSpace), pending, Shown(includeReasoning, thought));
    }
  }

  lemma {:induction false} AnsweredLater(s: Services, n: nat, next: nat)
    requires n < 5 && GoesOn(s, n) && next == n + 1
    ensures (exists m :: AnsweredBy(s, n, m)) <==> exists m :: AnsweredBy(s, next, m)
  {
    if m :| AnsweredBy(s, n, m) {
      assert AnsweredBy(s, next, m);
    }
    if m :| AnsweredBy(s, next, m) {
      assert AnsweredBy(s, n, m);
    }
  }

  lemma {:induction false} AnsweredNow(s: Services, n: nat)
    requires GoesOn(s, n) ==> n == 5
    ensures (exists m :: AnsweredBy(s, n, m)) <==> AnsweredBy(s, n, n)
  {
    if m :| AnsweredBy(s, n, m) {
      assert m == n;
    }
  }

  lemma {:induction false} TurnTranscript(s: Services, handle: Handler, n: nat, pending: Pending, reasoning: string)
    requires n <= MAX_TOOL_ITERATIONS
    requires forall m: nat, latest, thought :: s.reply(m).Returned? ==>
               LogsAnswers(s, m, handle(m, s.reply(m).value, latest, thought))
    ensures LogTranscript in Turn(s, handle, n, pending, reasoning) <==> exists m :: AnsweredBy(s, n, m)
    decreases MAX_TOOL_ITERATIONS - n
  {
    if s.reply(n).Raised? || n == MAX_TOOL_ITERATIONS {
      TurnFails(s, handle, n, pending, reasoning);
      AnsweredNow(s, n);
    } else {
      var h := handle(n, s.reply(n).value, pending, reasoning);
      assert LogsAnswers(s, n, h);
      if h.GoOn? {
        TurnTranscript(s, handle, n + 1, h.pending, h.reasoning);
        AnsweredLater(s, n, n + 1);
      } else {
        AnsweredNow(s, n);
      }
    }
  }

  /** The transcript is logged, for memories to be drawn from it, exactly if an answer settles the stream. */
  lemma {:induction false} TranscriptsAreLoggedExactlyForAnswers(
      s: Services, isSpace: char -> bool, includeReasoning: bool)
    ensures LogTranscript in Stream(s, isSpace, includeReasoning) <==>
            (s.warm || s.warmupError.None?) && exists m :: AnsweredBy(s, 0, m)
  {
    if s.warm || s.warmupError.None? {
      var handle := HandlerFor(s, isSpace, includeReasoning);
      forall m: nat, latest, thought | s.reply(m).Returned?
        ensures LogsAnswers(s, m, handle(m, s.reply(m).value, latest, thought))
      {
        HandledTranscript(s, isSpace, includeReasoning, m, latest, thought);
      }
      TurnTranscript(s, handle, 0, NOTHING_PENDING, "");
    } else {
      StreamsOpenWithAnAcknowledgment(s, isSpace, includeReasoning);
    }
  }
}
