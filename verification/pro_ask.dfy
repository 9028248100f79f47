/**
 * The ProAsk chat panel: a transcript that starts with a greeting, an input
 * box, four suggested prompts shown until the first exchange, and canned
 * replies chosen by keyword. The simulated reply delay is the explicit
 * `ReplyArrives` event; sending is not blocked while a reply is pending,
 * and since every reply takes the same delay, pending prompts are answered
 * first in, first out.
 */
module ProAsk {

  import opened Basics
  import opened Text

  const Greeting := "Hello! I'm ProAsk, your AI forecasting assistant. I can help you understand your forecasts, analyze sales trends, and compare different sales groups. What would you like to know?"

  const SuggestedPrompts: seq<string> :=
    ["Explain last forecast", "Why did sales spike?", "Compare sales groups", "Show accuracy trends"]

  // ---------------------------------------------------------------------------
  // Reply selection
  // ---------------------------------------------------------------------------

  /** The topics a reply can be about, in the order they are tested. */
  datatype ReplyKind = ExplainForecast | SalesSpike | Comparison | AccuracyTrend | Fallback

  function Rank(k: ReplyKind): nat {
    match k
    case ExplainForecast => 0
    case SalesSpike => 1
    case Comparison => 2
    case AccuracyTrend => 3
    case Fallback => 4
  }

  /** The lower-case keywords that select each topic. */
  function Keywords(k: ReplyKind): seq<string> {
    match k
    case ExplainForecast => ["last forecast", "explain"]
    case SalesSpike => ["spike", "sales"]
    case Comparison => ["compare"]
    case AccuracyTrend => ["accuracy"]
    case Fallback => []
  }

  /** The lower-cased prompt mentions one of the topic's keywords. */
  ghost predicate Mentions(lowered: string, k: ReplyKind) {
    exists i :: 0 <= i < |Keywords(k)| && Contains(lowered, Keywords(k)[i])
  }

  /**
   * `generateResponse`'s choice of reply: the highest-priority topic the
   * lower-cased prompt mentions, or the fallback when it mentions none.
   */
  function Classify(prompt: string): (k: ReplyKind)
    ensures k != Fallback ==> Mentions(Lower(prompt), k)
    ensures forall j :: Rank(j) < Rank(k) ==> !Mentions(Lower(prompt), j)
  {
    var lowered := Lower(prompt);
    assert Keywords(ExplainForecast)[0] == "last forecast" && Keywords(ExplainForecast)[1] == "explain";
    assert Keywords(SalesSpike)[0] == "spike" && Keywords(SalesSpike)[1] == "sales";
    assert Keywords(Comparison)[0] == "compare";
    assert Keywords(AccuracyTrend)[0] == "accuracy";
    if Contains(lowered, "last forecast") || Contains(lowered, "explain") then ExplainForecast
    else if Contains(lowered, "spike") || Contains(lowered, "sales") then SalesSpike
    else if Contains(lowered, "compare") then Comparison
    else if Contains(lowered, "accuracy") then AccuracyTrend
    else Fallback
  }

  /** The fallback is chosen exactly when the prompt mentions no topic. */
  lemma FallbackIffNoTopic(prompt: string)
    ensures Classify(prompt) == Fallback <==> forall k :: k != Fallback ==> !Mentions(Lower(prompt), k)
  {
    var k := Classify(prompt);
    if k != Fallback {
      assert Mentions(Lower(prompt), k);
    } else {
      forall j | j != Fallback
        ensures !Mentions(Lower(prompt), j)
      {
        assert Rank(j) < Rank(Fallback);
      }
    }
  }

  /** The choice ignores letter case. */
  lemma ClassifyIgnoresCase(prompt: string)
    ensures Classify(Lower(prompt)) == Classify(prompt)
  {
    LowerIdempotent(prompt);
  }

  const ExplainReply := "The last forecast was generated for Electronics × North America with a 3-month horizon. The model predicted a 12.8% growth rate with 94.2% accuracy. The forecast used our Hybrid SARIMAX + ML model, which combines statistical baseline predictions with machine learning adjustments. The peak is expected in December at 33,700 units, driven by seasonal holiday demand patterns."
  const SpikeReply := "The sales spike in September-November is primarily driven by three factors: 1) Back-to-school and holiday shopping season preparation, 2) New product launches in the electronics category, and 3) Promotional campaigns that increased conversion rates by 18%. This pattern is consistent with historical data from the past 3 years."
  const CompareReply := "Comparing your top 3 sales groups:\n\n• Electronics × North America: 12.8% growth, highest volume (23K units/month)\n• Apparel × EMEA: 8.4% growth, strong stability\n• Beauty × North America: 15.2% growth, highest growth rate but smaller volume\n\nElectronics leads in absolute numbers, while Beauty shows the strongest growth trajectory. Would you like a detailed breakdown of any specific group?"
  const AccuracyReply := "Your forecast accuracy has been improving consistently:\n\n• Last 3 months: 94.2% average accuracy\n• Previous quarter: 91.8%\n• Improvement: +2.4%\n\nThe Hybrid SARIMAX + ML model is performing particularly well on sales groups with at least 18 months of historical data. Electronics and Beauty groups show the highest accuracy (>95%), while newer groups like Home Goods are stabilizing at 89%."
  const FallbackReply := "I can help you with various analyses including forecast explanations, trend analysis, sales group comparisons, and accuracy metrics. Could you please provide more details about what you'd like to know? You can also try one of the suggested prompts above."

  /** The canned reply for each topic. */
  function ReplyText(k: ReplyKind): string {
    match k
    case ExplainForecast => ExplainReply
    case SalesSpike => SpikeReply
    case Comparison => CompareReply
    case AccuracyTrend => AccuracyReply
    case Fallback => FallbackReply
  }

  /** `generateResponse`. */
  function Respond(prompt: string): string {
    ReplyText(Classify(prompt))
  }

  // The lemmas about the suggested prompts receive each literal through a
  // parameter pinned by `requires` rather than writing it inline: a literal
  // argument lets the solver unfold `Lower` and `Contains` on it in every
  // proof that mentions the call, while a parameter keeps those facts behind
  // the few steps each lemma spells out.

  /** A text lacking the letters `f` and `x` mentions neither explanation keyword. */
  lemma NoExplainKeyword(q: string)
    requires 'f' !in q && 'x' !in q
    ensures !Contains(q, "last forecast") && !Contains(q, "explain")
  {
    assert "last forecast"[5] == 'f' && "explain"[1] == 'x';
  }

  /** "Explain last forecast" gets the forecast explanation. */
  lemma ExplainPromptReply(p: string, q: string)
    requires p == "Explain last forecast" && q == "explain last forecast"
    ensures Classify(p) == ExplainForecast
  {
    LowerIs(p, q);
    ContainsAt(q, "explain", 0);
  }

  lemma SpikeWhen(p: string)
    requires !Contains(Lower(p), "last forecast") && !Contains(Lower(p), "explain")
    requires Contains(Lower(p), "sales")
    ensures Classify(p) == SalesSpike
  {
  }

  lemma AccuracyWhen(p: string)
    requires !Contains(Lower(p), "last forecast") && !Contains(Lower(p), "explain")
    requires !Contains(Lower(p), "spike") && !Contains(Lower(p), "sales") && !Contains(Lower(p), "compare")
    requires Contains(Lower(p), "accuracy")
    ensures Classify(p) == AccuracyTrend
  {
  }

  /** "Why did sales spike?" gets the spike explanation. */
  lemma SpikePromptReply(p: string, q: string)
    requires p == "Why did sales spike?" && q == "why did sales spike?"
    ensures Classify(p) == SalesSpike
  {
    LowerIs(p, q);
    NoExplainKeyword(q);
    ContainsAt(q, "sales", 8);
    SpikeWhen(p);
  }

  /**
   * "Compare sales groups" mentions "compare", but it also mentions
   * "sales", which is tested first, so it gets the spike explanation rather
   * than the comparison.
   */
  lemma ComparePromptGetsSpikeReply(p: string, q: string)
    requires p == "Compare sales groups" && q == "compare sales groups"
    ensures Classify(p) == SalesSpike
    ensures Mentions(Lower(p), Comparison)
  {
    LowerIs(p, q);
    NoExplainKeyword(q);
    ContainsAt(q, "sales", 8);
    ContainsAt(q, "compare", 0);
    SpikeWhen(p);
    assert Keywords(Comparison)[0] == "compare";
  }

  /** "Show accuracy trends" mentions none of the keywords tested before "accuracy". */
  lemma AccuracyPromptMisses(q: string)
    requires q == "show accuracy trends"
    ensures !Contains(q, "spike") && !Contains(q, "sales") && !Contains(q, "compare")
  {
    assert "spike"[1] == 'p' && "sales"[2] == 'l' && "compare"[2] == 'm';
  }

  /** "Show accuracy trends" gets the accuracy summary. */
  lemma AccuracyPromptReply(p: string, q: string)
    requires p == "Show accuracy trends" && q == "show accuracy trends"
    ensures Classify(p) == AccuracyTrend
  {
    LowerIs(p, q);
    NoExplainKeyword(q);
    AccuracyPromptMisses(q);
    ContainsAt(q, "accuracy", 5);
    AccuracyWhen(p);
  }

  // ---------------------------------------------------------------------------
  // The conversation
  // ---------------------------------------------------------------------------

  /**
   * `content || input`: a suggested prompt's text when one was clicked and
   * it is non-empty, otherwise the input box.
   */
  function MessageText(content: Option<string>, input: string): (t: string)
    ensures content.Some? && content.value != "" ==> t == content.value
    ensures content.None? || content.value == "" ==> t == input
  {
    if content.Some? && content.value != "" then content.value else input
  }

  /** Text JavaScript's `trim` reduces to the empty string is not sent. */
  predicate IsBlank(text: string) {
    Trim(text) == ""
  }

  /**
   * A transcript entry: the greeting, a message the user sent, or the
   * assistant's answer to a prompt. The answer's text is a pure function of
   * the prompt, so the entry records the prompt and `Content` derives the
   * text.
   */
  datatype Message = Welcome | FromUser(text: string) | Reply(prompt: string)

  /** The text a transcript entry shows. */
  function Content(m: Message): string {
    match m
    case Welcome => Greeting
    case FromUser(text) => text
    case Reply(prompt) => Respond(prompt)
  }

  datatype State = State(
    messages: seq<Message>,
    input: string,
    isTyping: bool,
    pending: seq<string>)

  /** A fresh panel: the greeting alone, an empty input, nothing pending. */
  function Init(): State {
    State([Welcome], "", false, [])
  }

  /** The suggested prompts are offered while the transcript holds one message. */
  predicate ShowSuggestions(s: State) {
    |s.messages| == 1
  }

  datatype Event =
    | Type(text: string)
    | Send(content: Option<string>)
    | ReplyArrives

  /**
   * The input box and Send button are always there; a suggested prompt can
   * only be clicked while the suggestions are shown; a reply arrives only
   * while one is pending.
   */
  predicate Enabled(s: State, e: Event) {
    match e
    case Type(_) => true
    case Send(content) => content.None? || (ShowSuggestions(s) && content.value in SuggestedPrompts)
    case ReplyArrives => |s.pending| > 0
  }

  /** The texts the user sent, in order. */
  function Prompts(ms: seq<Message>): (r: seq<string>)
    ensures |r| <= |ms|
  {
    if ms == [] then []
    else (if ms[0].FromUser? then [ms[0].text] else []) + Prompts(ms[1..])
  }

  /** The prompts the assistant answered, in order. */
  function Answers(ms: seq<Message>): (r: seq<string>)
    ensures |r| <= |ms|
  {
    if ms == [] then []
    else (if ms[0].Reply? then [ms[0].prompt] else []) + Answers(ms[1..])
  }

  /** Appending an entry extends the prompts or the answers by its own. */
  lemma {:induction false} AppendMessage(ms: seq<Message>, m: Message)
    ensures Prompts(ms + [m]) == Prompts(ms) + (if m.FromUser? then [m.text] else [])
    ensures Answers(ms + [m]) == Answers(ms) + (if m.Reply? then [m.prompt] else [])
  {
    if ms == [] {
      assert [] + [m] == [m];
      assert [m][1..] == [];
    } else {
      assert (ms + [m])[1..] == ms[1..] + [m];
      AppendMessage(ms[1..], m);
    }
  }

  /** Without greetings, every entry is a prompt or an answer. */
  lemma {:induction false} CountByKind(ms: seq<Message>)
    requires Welcome !in ms
    ensures |Prompts(ms)| + |Answers(ms)| == |ms|
  {
    if ms != [] {
      assert forall i :: 0 <= i < |ms| - 1 ==> ms[1..][i] == ms[i + 1];
      CountByKind(ms[1..]);
    }
  }

  /**
   * The conversation invariant: the transcript opens with the only greeting;
   * the pending prompts are the latest the user sent, in order; the
   * assistant has answered all earlier ones, in order; and the typing
   * indicator implies a pending reply.
   */
  ghost predicate Inv(s: State) {
    var u := Prompts(s.messages);
    && |s.messages| >= 1 && s.messages[0] == Welcome && Welcome !in s.messages[1..]
    && |s.pending| <= |u|
    && s.pending == u[|u| - |s.pending|..]
    && Answers(s.messages) == u[..|u| - |s.pending|]
    && (s.isTyping ==> |s.pending| > 0)
  }

  lemma SendKeepsInv(s: State, text: string)
    requires Inv(s)
    ensures Inv(State(s.messages + [FromUser(text)], "", true, s.pending + [text]))
  {
    var r := State(s.messages + [FromUser(text)], "", true, s.pending + [text]);
    AppendMessage(s.messages, FromUser(text));
    var u := Prompts(s.messages);
    var u' := Prompts(r.messages);
    assert u' == u + [text];
    assert u'[|u'| - |r.pending|..] == u[|u| - |s.pending|..] + [text];
    assert u'[..|u'| - |r.pending|] == u[..|u| - |s.pending|];
    assert r.messages[1..] == s.messages[1..] + [FromUser(text)];
  }

  lemma ReplyKeepsInv(s: State)
    requires Inv(s) && |s.pending| > 0
    ensures Inv(State(s.messages + [Reply(s.pending[0])], s.input, false, s.pending[1..]))
  {
    var r := State(s.messages + [Reply(s.pending[0])], s.input, false, s.pending[1..]);
    AppendMessage(s.messages, Reply(s.pending[0]));
    var u := Prompts(s.messages);
    var k := |u| - |s.pending|;
    assert Prompts(r.messages) == u;
    assert u[k] == s.pending[0];
    assert r.pending == u[k + 1..];
    assert u[..k + 1] == u[..k] + [u[k]];
    assert r.messages[1..] == s.messages[1..] + [Reply(s.pending[0])];
  }

  /**
   * `handleSend`: the text is the clicked prompt or the input box; blank
   * text changes nothing, otherwise it is appended as the user's message,
   * the input is cleared, the typing indicator shown and a reply scheduled.
   */
  function SendStep(s: State, content: Option<string>): (r: State)
    ensures Inv(s) ==> Inv(r)
  {
    var text := MessageText(content, s.input);
    if IsBlank(text) then s
    else
      var r := State(s.messages + [FromUser(text)], "", true, s.pending + [text]);
      assert Inv(s) ==> Inv(r) by {
        if Inv(s) { SendKeepsInv(s, text); }
      }
      r
  }

  /** The scheduled reply: the answer to the oldest pending prompt is appended. */
  function ReplyStep(s: State): (r: State)
    requires |s.pending| > 0
    ensures Inv(s) ==> Inv(r)
  {
    var r := State(s.messages + [Reply(s.pending[0])], s.input, false, s.pending[1..]);
    assert Inv(s) ==> Inv(r) by {
      if Inv(s) { ReplyKeepsInv(s); }
    }
    r
  }

  /** One user action or reply arrival; the invariant is kept. */
  function Next(s: State, e: Event): (r: State)
    ensures Inv(s) ==> Inv(r)
    ensures !Enabled(s, e) ==> r == s
  {
    if !Enabled(s, e) then s
    else
      match e
      case Type(text) => s.(input := text)
      case Send(content) => SendStep(s, content)
      case ReplyArrives => ReplyStep(s)
  }

  function Run(s: State, events: seq<Event>): State
    decreases |events|
  {
    if events == [] then s else Run(Next(s, events[0]), events[1..])
  }

  lemma InitInv()
    ensures Inv(Init())
  {
    assert Init().messages[1..] == [];
  }

  /** Every state reachable from a state satisfying the invariant satisfies it. */
  lemma {:induction false} RunKeepsInv(s: State, events: seq<Event>)
    requires Inv(s)
    ensures Inv(Run(s, events))
    decreases |events|
  {
    if events != [] {
      RunKeepsInv(Next(s, events[0]), events[1..]);
    }
  }

  /**
   * Blank text changes nothing, not even the input box; otherwise exactly
   * one user message with that text is appended, the input is cleared and
   * the typing indicator is shown.
   */
  lemma SendEffect(s: State, content: Option<string>)
    requires Enabled(s, Send(content))
    ensures var text := MessageText(content, s.input);
      IsBlank(text) ==> Next(s, Send(content)) == s
    ensures var text := MessageText(content, s.input);
      !IsBlank(text) ==>
        Next(s, Send(content)).messages == s.messages + [FromUser(text)] &&
        Next(s, Send(content)).input == "" && Next(s, Send(content)).isTyping
  {
  }

  /**
   * Clicking a suggested prompt sends exactly that prompt, whatever the
   * input box holds, and clears the input box.
   */
  lemma SuggestionSendsItself(s: State, p: string)
    requires ShowSuggestions(s) && p in SuggestedPrompts
    ensures Next(s, Send(Some(p))).messages == s.messages + [FromUser(p)]
    ensures Next(s, Send(Some(p))).input == ""
  {
    var i :| 0 <= i < |SuggestedPrompts| && SuggestedPrompts[i] == p;
    assert SuggestedPrompts[0][0] == 'E' && SuggestedPrompts[1][0] == 'W';
    assert SuggestedPrompts[2][0] == 'C' && SuggestedPrompts[3][0] == 'S';
    assert !IsSpace(p[0]);
  }

  /** Enter or the Send button sends the input box's text when it is not blank. */
  lemma InputSent(s: State)
    requires !IsBlank(s.input)
    ensures Next(s, Send(None)).messages == s.messages + [FromUser(s.input)]
    ensures Next(s, Send(None)).input == ""
    ensures Next(s, Send(None)).pending == s.pending + [s.input]
  {
  }

  /**
   * A reply appends exactly one assistant message, whose text is the answer
   * to the oldest pending prompt, and hides the typing indicator.
   */
  lemma ReplyEffect(s: State)
    requires |s.pending| > 0
    ensures Next(s, ReplyArrives).messages == s.messages + [Reply(s.pending[0])]
    ensures Content(Next(s, ReplyArrives).messages[|s.messages|]) == Respond(s.pending[0])
    ensures !Next(s, ReplyArrives).isTyping
    ensures Next(s, ReplyArrives).pending == s.pending[1..]
  {
  }

  /** An accepted send followed by its reply grows the transcript by two and settles. */
  lemma SendThenReply(s: State, content: Option<string>)
    requires s.pending == [] && Enabled(s, Send(content))
    requires !IsBlank(MessageText(content, s.input))
    ensures var text := MessageText(content, s.input);
      var t := Next(Next(s, Send(content)), ReplyArrives);
      t.messages == s.messages + [FromUser(text), Reply(text)] && !t.isTyping && t.pending == []
  {
    var text := MessageText(content, s.input);
    var t1 := Next(s, Send(content));
    assert t1.pending == [text];
    assert t1.messages + [Reply(text)] == s.messages + [FromUser(text), Reply(text)];
  }

  /**
   * Once no reply is pending, the assistant has answered every message the
   * user sent, one for one and in order.
   */
  lemma SettledAnswersAll(s: State)
    requires Inv(s) && s.pending == []
    ensures Answers(s.messages) == Prompts(s.messages)
  {
  }

  /** With the invariant, the suggestions are offered exactly until the user has sent something. */
  lemma SuggestionsIffNothingSent(s: State)
    requires Inv(s)
    ensures ShowSuggestions(s) <==> Prompts(s.messages) == []
  {
    var ms := s.messages;
    assert ms == [ms[0]] + ms[1..];
    assert Prompts(ms) == Prompts(ms[1..]);
    assert Answers(ms) == Answers(ms[1..]);
    CountByKind(ms[1..]);
  }

  /** Whitespace-only text is rejected. */
  lemma WhitespaceRejected(text: string)
    requires forall i :: 0 <= i < |text| ==> IsSpace(text[i])
    ensures IsBlank(text)
  {
  }
}
