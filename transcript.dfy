/**
 * The transcript state of the `Home` page (bot/frontend/src/app/page.tsx):
 * the form fields, the `loading` flag and the `messages` list, and how
 * `handleSubmit` (lines 22-67) changes them.
 *
 * The request to the design endpoint is not performed here: its result is an
 * input, an `Outcome`. One submission is the synchronous part before the
 * request (`Begin`) followed by the continuation after it settles (`Complete`).
 */
module Transcript {

  import opened Wrappers
  import opened Suggestions

  /** `Message` (lines 6-11); `numbered` is absent until an answer arrives. */
  datatype Message = Message(
    question: string,
    answer: Option<seq<string>>,
    numbered: Option<bool>,
    plot: Option<string>)

  /** The entry appended when a prompt is submitted (line 29). */
  function Pending(prompt: string): (m: Message)
    ensures m.question == prompt && m.answer.None? && WellFormed(m)
  {
    Message(prompt, None, None, None)
  }

  /** What the request settled with: the two fields read from a response, or an exception. */
  datatype Outcome =
    | Success(suggestions: Option<string>, plotBase64: Option<string>)
    | Failure

  /** The request body (lines 35-41); the dimensions are forwarded as typed. */
  datatype Request = Request(length: string, breadth: string, aesthetic: string, furniture: string, prompt: string)

  /** The component's state hooks (lines 14-20). */
  datatype Page = Page(
    length: string,
    breadth: string,
    aesthetic: string,
    furniture: string,
    prompt: string,
    loading: bool,
    messages: seq<Message>)

  /** The initial values of the state hooks. */
  const Initial: Page := Page("5", "5", "", "", "", false, [])

  function RequestOf(p: Page): Request {
    Request(p.length, p.breadth, p.aesthetic, p.furniture, p.prompt)
  }

  /** `response.data.plot_base64 || null`: an absent or empty payload is no plot. */
  function PlotOf(field: Option<string>): (r: Option<string>)
    ensures r.Some? <==> field.Some? && field.value != ""
    ensures r.Some? ==> r == field
  {
    if field.Some? && field.value != "" then field else None
  }

  /** The last entry after a successful response (lines 45-57). */
  function Answered(m: Message, suggestions: Option<string>, plotBase64: Option<string>): (r: Message)
    ensures r.question == m.question && r.answer.Some?
    ensures r.numbered == Some(IsNumbered(r.answer.value))
    ensures r.plot.Some? ==> r.plot.value != ""
  {
    var items := SuggestionArray(RawSuggestions(suggestions));
    m.(answer := Some(items), numbered := Some(IsNumbered(items)), plot := PlotOf(plotBase64))
  }

  /** Lines 24-30: an empty prompt returns at once; otherwise a pending entry is appended and a request issued. */
  function Begin(p: Page): (r: (Page, Option<Request>))
    ensures r.1.Some? <==> p.prompt != ""
    ensures |r.0.messages| == |p.messages| + (if p.prompt != "" then 1 else 0)
    ensures r.0.loading == (p.loading || p.prompt != "")
  {
    if p.prompt == "" then (p, None)
    else (p.(loading := true, messages := p.messages + [Pending(p.prompt)]), Some(RequestOf(p)))
  }

  /** Lines 53-66: a success rewrites the last entry; either way `loading` and `prompt` are reset. */
  function Complete(p: Page, o: Outcome): (r: Page)
    requires o.Success? ==> |p.messages| > 0
    ensures |r.messages| == |p.messages| && !r.loading && r.prompt == ""
    ensures (r.length, r.breadth, r.aesthetic, r.furniture) == (p.length, p.breadth, p.aesthetic, p.furniture)
  {
    var messages :=
      if o.Success? then
        var last := |p.messages| - 1;
        p.messages[last := Answered(p.messages[last], o.suggestions, o.plotBase64)]
      else p.messages;
    p.(loading := false, prompt := "", messages := messages)
  }

  /** One whole `handleSubmit`: the request is issued only when `Begin` issues it. */
  function Submit(p: Page, o: Outcome): (r: (Page, Option<Request>))
    ensures r.1.Some? <==> p.prompt != ""
    ensures |r.0.messages| == |p.messages| + (if p.prompt != "" then 1 else 0)
    ensures r.0.loading ==> p.prompt == "" && p.loading
  {
    var begun := Begin(p);
    if begun.1.None? then begun else (Complete(begun.0, o), begun.1)
  }

  // ---------------------------------------------------------------------------
  // One submission
  // ---------------------------------------------------------------------------

  /** An empty prompt changes nothing and issues no request. */
  lemma EmptyPromptIsNoOp(p: Page, o: Outcome)
    requires p.prompt == ""
    ensures Begin(p) == (p, None)
    ensures Submit(p, o) == (p, None)
  {
  }

  /** Any other prompt, whitespace included, appends one pending entry and sets `loading`. */
  lemma BeginAppendsPending(p: Page)
    requires p.prompt != ""
    ensures Begin(p).1 == Some(Request(p.length, p.breadth, p.aesthetic, p.furniture, p.prompt))
    ensures var q := Begin(p).0;
      && |q.messages| == |p.messages| + 1
      && q.messages[..|p.messages|] == p.messages
      && q.messages[|p.messages|] == Message(p.prompt, None, None, None)
      && q.loading && q.prompt == p.prompt
  {
    assert Begin(p).0.messages[..|p.messages|] == p.messages;
  }

  /** Completion touches only the last entry and always clears `loading` and `prompt`. */
  lemma CompleteTouchesOnlyLast(p: Page, o: Outcome)
    requires |p.messages| > 0
    ensures var q := Complete(p, o);
      && |q.messages| == |p.messages|
      && q.messages[..|p.messages| - 1] == p.messages[..|p.messages| - 1]
      && q.messages[|p.messages| - 1].question == p.messages[|p.messages| - 1].question
      && !q.loading && q.prompt == ""
      && (o.Failure? ==> q.messages == p.messages)
  {
    var q := Complete(p, o);
    assert q.messages[..|p.messages| - 1] == p.messages[..|p.messages| - 1];
  }

  /**
   * A submitted prompt ends up as exactly one new entry at the end, with
   * earlier entries untouched, `loading` off and the prompt field cleared.
   */
  lemma SubmitAppendsOneEntry(p: Page, o: Outcome)
    requires p.prompt != ""
    ensures var (q, req) := Submit(p, o);
      && req == Some(RequestOf(p))
      && |q.messages| == |p.messages| + 1
      && q.messages[..|p.messages|] == p.messages
      && q.messages[|p.messages|].question == p.prompt
      && !q.loading && q.prompt == ""
      && q.length == p.length && q.breadth == p.breadth
      && q.aesthetic == p.aesthetic && q.furniture == p.furniture
  {
    BeginAppendsPending(p);
    CompleteTouchesOnlyLast(Begin(p).0, o);
    var q := Submit(p, o).0;
    assert q.messages[..|p.messages|] == Begin(p).0.messages[..|p.messages|];
  }

  /** A failed request leaves the new entry pending: no answer, no numbering, no plot. */
  lemma FailureLeavesPending(p: Page)
    requires p.prompt != ""
    ensures Submit(p, Failure).0.messages == p.messages + [Pending(p.prompt)]
  {
  }

  /**
   * A successful request answers the new entry with the normalised suggestions,
   * their numbering, and the plot when one was sent and non-empty.
   */
  lemma SuccessAnswersLast(p: Page, suggestions: Option<string>, plotBase64: Option<string>)
    requires p.prompt != ""
    ensures var m := Submit(p, Success(suggestions, plotBase64)).0.messages[|p.messages|];
      && var items := SuggestionArray(RawSuggestions(suggestions));
      && m == Message(p.prompt, Some(items), Some(IsNumbered(items)), m.plot)
      && (forall x :: x in items ==> |x| > 0 && Trim(x) == x)
      && (m.plot.Some? <==> plotBase64.Some? && plotBase64.value != "")
      && (m.plot.Some? ==> m.plot == plotBase64)
  {
    SuggestionsAreClean(RawSuggestions(suggestions));
  }

  // ---------------------------------------------------------------------------
  // Whole sessions
  // ---------------------------------------------------------------------------

  /**
   * The user edits the form (lines 91, 106, 116, 125, 134), then submits, and
   * the request settles with `outcome`. Each field holds what it reads at the
   * moment of submission: the setters only replace a field, so any sequence of
   * edits between two submissions comes down to these five values.
   */
  datatype Interaction = Interaction(
    length: string,
    breadth: string,
    aesthetic: string,
    furniture: string,
    prompt: string,
    outcome: Outcome)

  /** The page as the user left the form just before submitting. */
  function Typed(p: Page, x: Interaction): Page {
    p.(length := x.length, breadth := x.breadth, aesthetic := x.aesthetic,
       furniture := x.furniture, prompt := x.prompt)
  }

  /** A sequence of submissions, each one settling before the next starts. */
  function Session(p: Page, xs: seq<Interaction>): (r: Page)
    ensures |r.messages| >= |p.messages|
    ensures r.loading ==> p.loading
    decreases |xs|
  {
    if |xs| == 0 then p
    else Session(Submit(Typed(p, xs[0]), xs[0].outcome).0, xs[1..])
  }

  /** The prompts that were actually submitted, in order. */
  function Submitted(xs: seq<Interaction>): seq<string>
    decreases |xs|
  {
    if |xs| == 0 then []
    else (if xs[0].prompt != "" then [xs[0].prompt] else []) + Submitted(xs[1..])
  }

  function Questions(ms: seq<Message>): seq<string> {
    seq(|ms|, i requires 0 <= i < |ms| => ms[i].question)
  }

  /** One step of a session: append-only, one entry per non-empty prompt, questions fixed. */
  lemma StepKeepsHistory(p: Page, x: Interaction)
    ensures var q := Submit(Typed(p, x), x.outcome).0;
      && q.messages[..|p.messages|] == p.messages
      && Questions(q.messages) == Questions(p.messages) + (if x.prompt != "" then [x.prompt] else [])
      && !q.loading == (x.prompt != "" || !p.loading)
  {
    var p' := Typed(p, x);
    var q := Submit(p', x.outcome).0;
    if x.prompt != "" {
      SubmitAppendsOneEntry(p', x.outcome);
      assert q.messages == p.messages + [q.messages[|p.messages|]];
    } else {
      assert q.messages[..|p.messages|] == p.messages;
    }
  }

  /** Entries are never removed or reordered, and the session adds one entry per non-empty prompt. */
  lemma {:induction false} SessionAppendOnly(p: Page, xs: seq<Interaction>)
    ensures |Session(p, xs).messages| == |p.messages| + |Submitted(xs)|
    ensures Session(p, xs).messages[..|p.messages|] == p.messages
    decreases |xs|
  {
    if |xs| > 0 {
      var q := Submit(Typed(p, xs[0]), xs[0].outcome).0;
      StepKeepsHistory(p, xs[0]);
      SessionAppendOnly(q, xs[1..]);
      var r := Session(q, xs[1..]);
      assert |Questions(q.messages)| == |q.messages|;
      assert r.messages[..|p.messages|] == r.messages[..|q.messages|][..|p.messages|];
    }
  }

  /** The questions of the transcript are the submitted prompts, in order: no question ever changes. */
  lemma {:induction false} SessionQuestions(p: Page, xs: seq<Interaction>)
    ensures Questions(Session(p, xs).messages) == Questions(p.messages) + Submitted(xs)
    decreases |xs|
  {
    if |xs| > 0 {
      var q := Submit(Typed(p, xs[0]), xs[0].outcome).0;
      var added := if xs[0].prompt != "" then [xs[0].prompt] else [];
      assert Session(p, xs) == Session(q, xs[1..]);
      assert Submitted(xs) == added + Submitted(xs[1..]);
      StepKeepsHistory(p, xs[0]);
      SessionQuestions(q, xs[1..]);
      var a, b, c := Questions(p.messages), added, Submitted(xs[1..]);
      assert a + b + c == a + (b + c);
    }
  }

  /** Once the session's submissions have settled, nothing is loading and the prompt is empty. */
  lemma {:induction false} SessionSettles(p: Page, xs: seq<Interaction>)
    requires !p.loading
    ensures !Session(p, xs).loading
    ensures |xs| > 0 ==> Session(p, xs).prompt == ""
    decreases |xs|
  {
    if |xs| > 0 {
      var q := Submit(Typed(p, xs[0]), xs[0].outcome).0;
      StepKeepsHistory(p, xs[0]);
      assert q.prompt == "";
      SessionSettles(q, xs[1..]);
    }
  }

  /**
   * A well-formed entry: numbered is present exactly when an answer is, an
   * answer holds only non-empty trimmed items with the numbering computed from
   * them, and a plot is never the empty string.
   */
  predicate WellFormed(m: Message) {
    && (m.answer.Some? <==> m.numbered.Some?)
    && (m.answer.Some? ==> m.numbered.value == IsNumbered(m.answer.value))
    && (m.answer.Some? ==> forall x :: x in m.answer.value ==> |x| > 0 && Trim(x) == x)
    && (m.plot.Some? ==> m.plot.value != "")
  }

  predicate AllWellFormed(ms: seq<Message>) {
    forall i :: 0 <= i < |ms| ==> WellFormed(ms[i])
  }

  /** The entry a submission appends is well formed, whatever the request settled with. */
  lemma NewEntryWellFormed(p: Page, o: Outcome)
    requires p.prompt != ""
    ensures WellFormed(Submit(p, o).0.messages[|p.messages|])
  {
    SubmitAppendsOneEntry(p, o);
    match o
    case Failure => FailureLeavesPending(p);
    case Success(s, pl) => SuccessAnswersLast(p, s, pl);
  }

  lemma AppendKeepsWellFormed(ms: seq<Message>, m: Message)
    requires AllWellFormed(ms) && WellFormed(m)
    ensures AllWellFormed(ms + [m])
  {
    forall i | 0 <= i < |ms + [m]| ensures WellFormed((ms + [m])[i]) {
      if i < |ms| { assert (ms + [m])[i] == ms[i]; }
    }
  }

  /** One submission keeps every entry well formed. */
  lemma StepKeepsWellFormed(p: Page, x: Interaction)
    requires AllWellFormed(p.messages)
    ensures AllWellFormed(Submit(Typed(p, x), x.outcome).0.messages)
  {
    var p' := Typed(p, x);
    if x.prompt != "" {
      var ms := Submit(p', x.outcome).0.messages;
      SubmitAppendsOneEntry(p', x.outcome);
      NewEntryWellFormed(p', x.outcome);
      assert ms == p.messages + [ms[|p.messages|]];
      AppendKeepsWellFormed(p.messages, ms[|p.messages|]);
    }
  }

  /**
   * Every entry the page can reach is well formed: a session interleaves edits
   * to all five form fields with submissions, and the setters never touch
   * `messages`.
   */
  lemma {:induction false} SessionKeepsWellFormed(p: Page, xs: seq<Interaction>)
    requires AllWellFormed(p.messages)
    ensures AllWellFormed(Session(p, xs).messages)
    decreases |xs|
  {
    if |xs| > 0 {
      var q := Submit(Typed(p, xs[0]), xs[0].outcome).0;
      assert Session(p, xs) == Session(q, xs[1..]);
      StepKeepsWellFormed(p, xs[0]);
      SessionKeepsWellFormed(q, xs[1..]);
    }
  }

  // ---------------------------------------------------------------------------
  // The component
  // ---------------------------------------------------------------------------

  /** The `Home` component's state and its handlers. */
  class Home {
    var length: string
    var breadth: string
    var aesthetic: string
    var furniture: string
    var prompt: string
    var loading: bool
    var messages: seq<Message>

    function State(): Page
      reads this
    {
      Page(length, breadth, aesthetic, furniture, prompt, loading, messages)
    }

    /** The `useState` initial values (lines 14-20). */
    constructor ()
      ensures State() == Initial
    {
      length, breadth := "5", "5";
      aesthetic, furniture, prompt := "", "", "";
      loading := false;
      messages := [];
    }

    /** `onChange` of the length input (line 91). */
    method SetLength(s: string)
      modifies this
      ensures State() == old(State()).(length := s)
    {
      length := s;
    }

    /** `onChange` of the breadth input (line 106). */
    method SetBreadth(s: string)
      modifies this
      ensures State() == old(State()).(breadth := s)
    {
      breadth := s;
    }

    /** `onChange` of the aesthetic text area (line 116). */
    method SetAesthetic(s: string)
      modifies this
      ensures State() == old(State()).(aesthetic := s)
    {
      aesthetic := s;
    }

    /** `onChange` of the furniture text area (line 125). */
    method SetFurniture(s: string)
      modifies this
      ensures State() == old(State()).(furniture := s)
    {
      furniture := s;
    }

    /** `onChange` of the prompt text area (line 134). */
    method SetPrompt(s: string)
      modifies this
      ensures State() == old(State()).(prompt := s)
    {
      prompt := s;
    }

    /** The part of `handleSubmit` before the request (lines 24-41). */
    method BeginSubmit() returns (req: Option<Request>)
      modifies this
      ensures (State(), req) == Begin(old(State()))
      ensures old(prompt) == "" ==> req.None? && unchanged(this)
      ensures old(prompt) != "" ==> req.Some? && req.value.prompt == old(prompt)
      ensures old(prompt) != "" ==> loading && messages == old(messages) + [Pending(old(prompt))]
    {
      if prompt == "" {
        return None;
      }
      loading := true;
      messages := messages + [Pending(prompt)];
      req := Some(Request(length, breadth, aesthetic, furniture, prompt));
    }

    /** The continuation once the request settles (lines 45-66). */
    method FinishSubmit(outcome: Outcome)
      requires outcome.Success? ==> |messages| > 0
      modifies this
      ensures State() == Complete(old(State()), outcome)
      ensures !loading && prompt == "" && |messages| == |old(messages)|
      ensures outcome.Failure? ==> messages == old(messages)
    {
      ghost var before := State();
      if outcome.Success? {
        var suggestionArray := SuggestionArray(RawSuggestions(outcome.suggestions));
        var isNumbered := IsNumbered(suggestionArray);
        var updated := messages;
        var last := |updated| - 1;
        var entry := updated[last];
        entry := entry.(answer := Some(suggestionArray));
        entry := entry.(numbered := Some(isNumbered));
        entry := entry.(plot := PlotOf(outcome.plotBase64));
        assert entry == Answered(before.messages[last], outcome.suggestions, outcome.plotBase64);
        updated := updated[last := entry];
        messages := updated;
      }
      loading := false;
      prompt := "";
      assert messages == Complete(before, outcome).messages;
    }

    /** `handleSubmit` (lines 22-67), with the request settling as `outcome`. */
    method HandleSubmit(outcome: Outcome) returns (req: Option<Request>)
      modifies this
      ensures (State(), req) == Submit(old(State()), outcome)
      ensures req.Some? <==> old(prompt) != ""
    {
      req := BeginSubmit();
      if req.Some? {
        FinishSubmit(outcome);
      }
    }
  }
}
