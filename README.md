# AI Interior Designer: transcript and suggestion normalisation

This project models the `Home` page of the AI Interior Designer front end, in
`bot/frontend/src/app/page.tsx`. The page holds seven pieces of state:

- the room's length and breadth;
- the aesthetic and furniture preferences;
- the prompt;
- a `loading` flag;
- a transcript of `Message` entries.

`handleSubmit` turns a prompt into a transcript entry. It appends the entry while the
prompt is pending, posts the form to the design endpoint, and normalises the returned
suggestion text into a list. It also decides whether that list is numbered.

The project has four modules:

- `Wrappers`: the `Option` type, used for nullable and absent fields.
- `Suggestions`: the normalisation chain of lines 45-51, as pure functions:
  - `RawSuggestions` models `suggestions || ""`.
  - `Split` models `split(/\n|\. /)`.
  - `Trim` models `String.prototype.trim`, built from `TrimStart` and `TrimEnd` over
    ECMAScript's whitespace and line terminators.
  - `DropEmpty` models `filter(s => s.length > 0)`.
  - `SuggestionArray` models the whole chain.
  - `IsNumbered` models `/^[0-9]+\./.test(items[0] || "")`.

  Each of these is tied to an independent reference definition:
  - `Split` is the only decomposition into separator-free pieces that `Join` turns back
    into the text.
  - `Trim` is the only bordered text that the input frames with whitespace.
  - The greedy digit scan agrees with the regular expression's "some non-empty digit
    prefix followed by a period".
- `SuggestionExamples`: worked inputs. These are prose cut at ". ", an ordinal written
  without a space, and a blank reply.
- `Transcript`: the `Message` record, the page state `Page`, and one submission as
  functions.
  - `Begin` is the synchronous part up to the request.
  - `Complete` is the continuation once the request settles.
  - `Submit` is both together.
  - `Session` is a sequence of submissions. Before each one the user may have edited any
    of the five form fields; since each setter only replaces its field, the values at
    the moment of submission are all that matter.

  The class `Home` holds the same state in mutable fields. It has the five `onChange`
  setters and `BeginSubmit`, `FinishSubmit` and `HandleSubmit`, each proved equal to the
  corresponding function.

The request itself is not performed. What it settled with is an input of type `Outcome`:
either `Success(suggestions, plotBase64)` with the two response fields read by the page,
or `Failure`.

Three behaviours of the code are worth stating plainly, because a reader might expect
otherwise:

- **An ordinary numbered list is not numbered.** The split also cuts at ". ", so each
  "N. text" line becomes the two items "N" and "text". The first item, "N", has no
  period, so the list is not numbered (`NumberedLineIsSplit`, `NumberedLinesAreSplit`).
  A list is numbered only when its first item starts with one or more digits
  immediately followed by '.', for example "1.Add", "1." or "2.5 m rug"
  (`IsNumberedIff`).
- **A whitespace-only prompt is submitted.** Line 24 tests only `!prompt`, so only the
  empty string is rejected. A prompt of spaces appends an entry and issues a request
  like any other (`BeginAppendsPending`).
- **A failed request leaves its entry pending.** The catch block (lines 60-62) does not
  touch the transcript, so the new entry keeps no answer, no numbering and no plot
  (`FailureLeavesPending`).

## Model

| member | source | states |
|---|---|---|
| Suggestions.Split | bot/frontend/src/app/page.tsx:47 | Splitting always yields at least one piece, so the empty text gives one empty piece. |
| Suggestions.Separators | bot/frontend/src/app/page.tsx:47 | Every text the split consumes is "\n" or ". ". |
| Suggestions.SplitPiecesAreSeparatorFree | bot/frontend/src/app/page.tsx:47 | No piece contains a newline or ". ". The first piece is a prefix of the text. |
| Suggestions.SplitRoundTrip | bot/frontend/src/app/page.tsx:47 | Split loses nothing: there is one more piece than separator, and putting the separators back between the pieces rebuilds the text. |
| Suggestions.SplitUnique | bot/frontend/src/app/page.tsx:47 | Any decomposition of a text into separator-free pieces joined by "\n" or ". " is exactly the one split returns, separators included. |
| Suggestions.TrimStart | bot/frontend/src/app/page.tsx:48 | The result is a suffix of the input. It is empty or starts with a non-whitespace character. |
| Suggestions.TrimEnd | bot/frontend/src/app/page.tsx:48 | The result is a prefix of the input. It is empty or ends with a non-whitespace character. |
| Suggestions.TrimStartDropsWs | bot/frontend/src/app/page.tsx:48 | Every character that trimStart removes is whitespace. |
| Suggestions.TrimEndDropsWs | bot/frontend/src/app/page.tsx:48 | Every character that trimEnd removes is whitespace. |
| Suggestions.Trim | bot/frontend/src/app/page.tsx:48 | Definition of `s.trim()`: the result is no longer than the input and neither starts nor ends with whitespace. Characterised by `TrimFrames` and `TrimUnique`. |
| Suggestions.TrimFrames | bot/frontend/src/app/page.tsx:48 | The trimmed text neither starts nor ends with whitespace. The input is that text with only whitespace on either side. |
| Suggestions.TrimUnique | bot/frontend/src/app/page.tsx:48 | If a text is some bordered text with whitespace around it, trimming returns that text, and nothing else does. |
| Suggestions.TrimIdempotent | bot/frontend/src/app/page.tsx:48 | Trimming twice is the same as trimming once. |
| Suggestions.TrimKeepsSeparatorFree | bot/frontend/src/app/page.tsx:48 | Trimming a separator-free piece cannot create a newline or ". ". |
| Suggestions.TrimAll | bot/frontend/src/app/page.tsx:48 | Definition of `map(s => s.trim())`: one result per piece, each bordered and no longer than its piece. Characterised by `SuggestionsAreClean` and `SuggestionArrayIsFilteredPieces`. |
| Suggestions.DropEmpty | bot/frontend/src/app/page.tsx:49 | Definition of `filter(s => s.length > 0)`: the result is no longer than the input and holds only non-empty strings. Characterised by `DropEmptyMembers`, `DropEmptyAppend`, `DropEmptyKeepsAll` and `DropEmptyNothing`. |
| Suggestions.DropEmptyMembers | bot/frontend/src/app/page.tsx:49 | The filter never lengthens the list. An element survives exactly when it is in the input and non-empty. |
| Suggestions.DropEmptyAppend | bot/frontend/src/app/page.tsx:49 | Filtering a concatenation is the concatenation of the filtered parts, so survivors keep their order. |
| Suggestions.DropEmptyKeepsAll | bot/frontend/src/app/page.tsx:49 | A list without empty strings passes the filter unchanged. |
| Suggestions.DropEmptyNothing | bot/frontend/src/app/page.tsx:49 | Nothing survives exactly when every element is empty. |
| Suggestions.RawSuggestions | bot/frontend/src/app/page.tsx:45 | Definition of the fallback `response.data.suggestions` to "": a present non-empty field is used as is, and an absent field reads as "". Characterised by `AbsentSuggestionsYieldNothing`. |
| Suggestions.SuggestionArray | bot/frontend/src/app/page.tsx:46-49 | Definition of `suggestionArray`: there are no more items than split pieces, and every item is non-empty. Characterised by `SuggestionsAreClean`, `SuggestionArrayIsFilteredPieces`, `NothingSurvivesIff` and `CleanDecompositionSurvives`. |
| Suggestions.SuggestionsAreClean | bot/frontend/src/app/page.tsx:45-49 | Every suggestion is non-empty and already trimmed, and contains neither a newline nor ". ". |
| Suggestions.SuggestionArrayIsFilteredPieces | bot/frontend/src/app/page.tsx:46-49 | There are no more suggestions than split pieces. Each suggestion is the trim of some piece. |
| Suggestions.BlankPiecesAreWhitespace | bot/frontend/src/app/page.tsx:47 | A text of only whitespace, newlines and ". " splits into whitespace-only pieces. |
| Suggestions.NothingSurvivesIff | bot/frontend/src/app/page.tsx:46-49 | The list is empty if and only if every split piece is whitespace only. |
| Suggestions.CleanPiecesSurvive | bot/frontend/src/app/page.tsx:46-49 | If every piece is already non-empty and bordered, the suggestions are exactly the pieces. |
| Suggestions.CleanDecompositionSurvives | bot/frontend/src/app/page.tsx:46-49 | Clean separator-free pieces joined by separators normalise back to exactly those pieces. |
| Suggestions.DigitRun | bot/frontend/src/app/page.tsx:51 | The result is the length of the longest all-digit prefix: every character before it is a digit, and the character at it is not. |
| Suggestions.MatchesOrdinal | bot/frontend/src/app/page.tsx:51 | Definition of `/^[0-9]+\./` on one text, as a greedy digit scan. A match has at least two characters and starts with a digit. Characterised by `MatchesOrdinalIff`. |
| Suggestions.MatchesOrdinalIff | bot/frontend/src/app/page.tsx:51 | The greedy scan accepts a text if and only if some non-empty digit prefix is followed by '.'. That is the meaning of /^[0-9]+\./. |
| Suggestions.IsNumbered | bot/frontend/src/app/page.tsx:51 | Definition of `isNumbered`, testing the first item, or "" when there is none. A numbered list is non-empty and its first item starts with a digit. Characterised by `IsNumberedIff`. |
| Suggestions.IsNumberedIff | bot/frontend/src/app/page.tsx:51 | The list is numbered if and only if it has a first item and that item starts with digits followed by '.'. An empty list is matched as "" and is not numbered. |
| Suggestions.BlankTextYieldsNothing | bot/frontend/src/app/page.tsx:45-51 | Text of only whitespace, newlines and ". " gives no suggestions and an unnumbered list. |
| Suggestions.AbsentSuggestionsYieldNothing | bot/frontend/src/app/page.tsx:45-51 | A missing or empty suggestions field gives no suggestions and an unnumbered list. |
| Suggestions.NumberedLineIsSplit | bot/frontend/src/app/page.tsx:46-51 | An "N. text" line becomes the two items "N" and "text", and the list is not numbered. |
| Suggestions.NumberedLinesAreSplit | bot/frontend/src/app/page.tsx:46-51 | Two "N. text" lines joined by a newline become four items, and the list is not numbered. |
| SuggestionExamples.ProseExample | bot/frontend/src/app/page.tsx:46-51 | "Add a rug. Move the sofa." gives ["Add a rug", "Move the sofa."], not numbered. |
| SuggestionExamples.TightOrdinalExample | bot/frontend/src/app/page.tsx:46-51 | "1.Add" gives ["1.Add"], which is numbered. |
| SuggestionExamples.BlankExample | bot/frontend/src/app/page.tsx:45-51 | "  \n  \n" gives no suggestions, not numbered. |
| Transcript.Pending | bot/frontend/src/app/page.tsx:29 | Definition of the entry appended on submission: its question is the prompt, it has no answer, and it is well formed. |
| Transcript.PlotOf | bot/frontend/src/app/page.tsx:57 | Definition of the fallback from `plot_base64` to null: there is a plot exactly when a non-empty payload was sent, and it is that payload. |
| Transcript.Answered | bot/frontend/src/app/page.tsx:54-57 | Definition of the update to the last entry: the question is kept, an answer is present, the numbering is computed from that answer, and a plot is never empty. Characterised by `SuccessAnswersLast` and `NewEntryWellFormed`. |
| Transcript.Begin | bot/frontend/src/app/page.tsx:24-30 | Definition of the part before the request: a request is issued exactly when the prompt is non-empty, and then one entry is added and `loading` is set. Characterised by `EmptyPromptIsNoOp` and `BeginAppendsPending`. |
| Transcript.Complete | bot/frontend/src/app/page.tsx:53-66 | Definition of the continuation: the transcript keeps its length, the form fields are unchanged, and `loading` and the prompt are cleared. Characterised by `CompleteTouchesOnlyLast`. |
| Transcript.Submit | bot/frontend/src/app/page.tsx:22-67 | Definition of a whole `handleSubmit`: a request is issued exactly when the prompt is non-empty, the transcript grows by one entry exactly then, and `loading` stays set only if it was set and nothing was submitted. Characterised by `SubmitAppendsOneEntry`, `FailureLeavesPending` and `SuccessAnswersLast`. |
| Transcript.EmptyPromptIsNoOp | bot/frontend/src/app/page.tsx:24 | An empty prompt changes no state and issues no request. |
| Transcript.BeginAppendsPending | bot/frontend/src/app/page.tsx:24-41 | Any non-empty prompt, whitespace included, does four things. It issues a request with the form values. It appends exactly one entry with that question and no answer, numbering or plot. It keeps the earlier entries. It sets `loading`. |
| Transcript.CompleteTouchesOnlyLast | bot/frontend/src/app/page.tsx:53-66 | Completion keeps the length of the transcript, every entry but the last, and the last entry's question. It always clears `loading` and the prompt. A failure leaves the transcript unchanged. |
| Transcript.SubmitAppendsOneEntry | bot/frontend/src/app/page.tsx:22-67 | A submitted prompt ends as exactly one new entry at the end, with that question. Earlier entries and the form fields are unchanged. `loading` is off and the prompt is cleared. The request carries the form values. |
| Transcript.FailureLeavesPending | bot/frontend/src/app/page.tsx:60-66 | After a failed request the new entry stays pending. |
| Transcript.SuccessAnswersLast | bot/frontend/src/app/page.tsx:45-59 | After a success the new entry keeps its question and holds the normalised suggestions, all non-empty and trimmed, together with their numbering. It has a plot exactly when a non-empty plot was sent, and then that plot. |
| Transcript.StepKeepsHistory | bot/frontend/src/app/page.tsx:22-67 | One submission never changes earlier entries. It adds a question exactly when the prompt is non-empty. Afterwards nothing is loading unless nothing was submitted. |
| Transcript.Session | bot/frontend/src/app/page.tsx:22-67 | Definition of a run of submissions, each preceded by any edits to the five form fields: the transcript never shrinks, and nothing is loading at the end unless something was loading at the start. Characterised by `SessionAppendOnly`, `SessionQuestions`, `SessionSettles` and `SessionKeepsWellFormed`. |
| Transcript.SessionAppendOnly | bot/frontend/src/app/page.tsx:27-30 | Over any session the transcript only grows, by one entry per non-empty prompt, and its existing entries are kept. |
| Transcript.SessionQuestions | bot/frontend/src/app/page.tsx:27-30 | The questions of the transcript are the old questions followed by the submitted prompts, in order. |
| Transcript.SessionSettles | bot/frontend/src/app/page.tsx:63-66 | Once a session's submissions have settled nothing is loading, and after any submission the prompt is empty. |
| Transcript.NewEntryWellFormed | bot/frontend/src/app/page.tsx:6-11 | The entry a submission appends is well formed, whatever the request settled with. |
| Transcript.StepKeepsWellFormed | bot/frontend/src/app/page.tsx:6-11 | One submission keeps every entry well formed. |
| Transcript.SessionKeepsWellFormed | bot/frontend/src/app/page.tsx:6-11 | Every transcript reachable by form edits and submissions is well formed: an entry has a numbering exactly when it has an answer, and that numbering is computed from the answer's items. The items are non-empty and trimmed, and a plot is never empty. |
| Transcript.Home.constructor | bot/frontend/src/app/page.tsx:14-20 | The initial state is length and breadth "5", all text fields empty, not loading, and no messages. |
| Transcript.Home.SetLength | bot/frontend/src/app/page.tsx:91 | Only the length changes, to the typed text. |
| Transcript.Home.SetBreadth | bot/frontend/src/app/page.tsx:106 | Only the breadth changes, to the typed text. |
| Transcript.Home.SetAesthetic | bot/frontend/src/app/page.tsx:116 | Only the aesthetic preference changes. |
| Transcript.Home.SetFurniture | bot/frontend/src/app/page.tsx:125 | Only the furniture preference changes. |
| Transcript.Home.SetPrompt | bot/frontend/src/app/page.tsx:134 | Only the prompt changes. |
| Transcript.Home.BeginSubmit | bot/frontend/src/app/page.tsx:24-41 | The new state and request are those of `Begin`. An empty prompt changes nothing and issues no request. Otherwise it issues a request for the prompt, sets `loading`, and appends a pending entry. |
| Transcript.Home.FinishSubmit | bot/frontend/src/app/page.tsx:45-66 | The new state is that of `Complete`. `loading` is off, the prompt is empty, and the transcript keeps its length. A failure leaves the transcript unchanged. |
| Transcript.Home.HandleSubmit | bot/frontend/src/app/page.tsx:22-67 | The new state and request are those of `Submit`. A request is issued exactly when the prompt was non-empty. |

## Left out

- The POST to the design endpoint (lines 33-43) is not performed. Its result is the
  `Outcome` parameter. Network errors, non-success statuses and exceptions thrown while
  reading the response all become `Failure`.
- Transcript.BeginAppendsPending: the request carries length and breadth as the typed
  strings. `parseFloat` (lines 36-37) is floating-point parsing and is not modelled.
  The same holds for `Transcript.Home.BeginSubmit`.
- `console.error` and `alert` on failure (lines 61-62) are user-visible side effects
  with no effect on state, so they are left out. So is `e.preventDefault()` (line 23).
- Rendering (lines 69 onward) is left out: the disabled submit button, the ordered or
  unordered list, and the inline image. The root layout is not part of this model.
- Response fields are `Option<string>`. A truthy non-string `suggestions` value has no
  `split` and makes the code throw, and a non-string `plot_base64` is stored as is.
  Neither case is modelled.
- Asynchrony is left out. Each submission settles before the next starts (`Session`).
  A second submission while `loading` is set is not modelled, and neither are React's
  batching and its functional `setMessages` updaters.
- Lines 54-57 copy the array shallowly and assign into the last entry object, which is
  shared with the previous state. The model replaces that entry by value, so the
  aliasing is not captured.
- The regular expressions are modelled by their meaning on strings of characters. The
  split separators are "\n" and ". ", and the numbering test is digits followed by '.'.
  JavaScript strings are UTF-16 code units; every character `trim` strips is a single
  code unit, so nothing here depends on the difference.
- The numbered example with two "N. text" lines is proved for every digit string and
  every clean text (`NumberedLinesAreSplit`) rather than for one literal reply.
