# Question-and-answer forum views: a Dafny model

The repository is the browser front end of a question-and-answer forum. The
question/answer store behind it (`src/context/QAContext`) is not part of this
model. What the model covers is the logic that sits inside four view files:

- **Home page tag filter** (`src/pages/HomePage.jsx`). `handleTagFilter`
  toggles a tag in the list of selected tags: it removes every occurrence of
  a tag that is present and appends a tag that is absent. `clearFilters`
  empties the list. The filter bar and the empty-list message depend on the
  selection.
- **Ask-question form** (`src/pages/AskQuestionPage.jsx`). `isValid` checks
  the fields. `handleSubmit` returns at once on an invalid form. Otherwise it
  raises `isSubmitting`, passes `{title: title.trim(), content, tags}` to the
  store's `addQuestion`, navigates to `/question/<id>`, and lowers
  `isSubmitting` in a `finally`. The submit button is disabled while the form
  is invalid or a submit is running.
- **Answer card** (`src/components/AnswerCard.jsx`). `formatTime` gives
  "Just now", "Nh ago" or "Nd ago". The card has a three-way vote colour, an
  accept button and accepted markers. Its buttons forward to the store's
  `voteAnswer` and `acceptAnswer`.
- **Free-text search** (`src/context/ViewQuestionPage.jsx`, lines 9-12). It
  keeps the questions whose lower-cased title or body contains the
  lower-cased query.

Modules:

- `Text` (text.dfy): JavaScript's `trim` with the full ECMAScript white-space
  and line-terminator set, `toLowerCase` on ASCII letters, `includes`, and the
  decimal rendering of whole numbers.
- `Sequences` (sequences.dfy): `Array.prototype.filter` and its laws. These
  are membership, occurrence counts, order, idempotence, concatenation and
  duplicate-freedom.
- `HomePage`, `AskQuestionPage`, `AnswerCard` and `ViewQuestionPage`: one
  module per source file.
- `Wrappers` (wrappers.dfy): `Option`.

How the model is built:

- Handlers that replace React state are class methods. `HomePage.TagFilterState`
  holds `selected`. `AskQuestionPage.AskQuestionState` holds the form fields
  and `isSubmitting`. Each method's postcondition ties the new state to a pure
  function, and the properties are proved about that function.
- The store's `addQuestion` is a parameter, a function from the request to
  `Returned(id)` or `Threw`. `handleSubmit` returns the steps it takes, in
  order, as a sequence of `Effect`s: state updates, the `addQuestion` call
  and the navigation.
- The clock is a parameter. `formatTime` takes `now` and `createdAt` as whole
  milliseconds.

## Model

| member | source | states |
|---|---|---|
| `Text.TrimStart` | src/pages/AskQuestionPage.jsx:16 | the result is a suffix of the input, everything cut off is white space, and the result does not start with white space |
| `Text.TrimEnd` | src/pages/AskQuestionPage.jsx:16 | the result is a prefix of the input, everything cut off is white space, and the result does not end with white space |
| `Text.Trim` | src/pages/AskQuestionPage.jsx:16 | `s.trim()` cuts the white space off both ends: the result is no longer than the input and, when non-empty, neither starts nor ends with white space |
| `Text.TrimSpec` | src/pages/AskQuestionPage.jsx:16 | `trim` leaves a slice of the input with white space, and only white space, cut off on both sides; the slice neither starts nor ends with white space |
| `Text.TrimEmptyIffBlank` | src/pages/AskQuestionPage.jsx:16 | `s.trim()` is empty iff every character of `s` is white space |
| `Text.TrimIdempotent` | src/pages/AskQuestionPage.jsx:27 | trimming the trimmed title again changes nothing |
| `Text.ToLower` | src/context/ViewQuestionPage.jsx:10-11 | lower-casing keeps the length and maps each character through the ASCII letter mapping |
| `Text.ToLowerIdempotent` | src/context/ViewQuestionPage.jsx:10-11 | lower-casing lower-case text changes nothing |
| `Text.Contains` | src/context/ViewQuestionPage.jsx:10-11 | `hay.includes(needle)` holds iff `needle` occurs as a contiguous slice of `hay`, so a contained needle is never longer than `hay` |
| `Text.ContainsEmpty` | src/context/ViewQuestionPage.jsx:10-11 | every string includes the empty string |
| `Text.NatToString` | src/components/AnswerCard.jsx:15-16 | the template-literal rendering of a whole number is non-empty, all digits, and starts with 0 only for 0 |
| `Text.DigitsValueOfNatToString` | src/components/AnswerCard.jsx:15-16 | reading the rendering back gives the number |
| `Text.NatToStringInjective` | src/components/AnswerCard.jsx:15-16 | different counts render as different text |
| `Sequences.Filter` | src/pages/HomePage.jsx:10 | `filter` keeps exactly the elements that pass the test and never grows the list |
| `Sequences.FilterIsSubsequence` | src/context/ViewQuestionPage.jsx:9 | filtering keeps the relative order of what it keeps |
| `Sequences.FilterCount` | src/pages/HomePage.jsx:10 | a kept value occurs as often as before; a rejected one does not occur |
| `Sequences.FilterIdempotent` | src/context/ViewQuestionPage.jsx:9 | filtering twice with the same test equals filtering once |
| `Sequences.FilterAllKept` | src/context/ViewQuestionPage.jsx:9 | a list whose every element passes is its own filtering |
| `Sequences.FilterAgreeing` | src/context/ViewQuestionPage.jsx:9-12 | tests that agree on the elements filter alike |
| `Sequences.FilterAppend` | src/pages/HomePage.jsx:10-12 | filtering distributes over appending |
| `Sequences.FilterNoDuplicates` | src/pages/HomePage.jsx:10 | filtering a duplicate-free list gives a duplicate-free list |
| `HomePage.Remove` | src/pages/HomePage.jsx:10 | no occurrence of the tag remains; every other tag keeps its membership |
| `HomePage.Toggle` | src/pages/HomePage.jsx:8-14 | a present tag is removed completely; an absent tag is appended at the end of the old list; no other tag changes membership |
| `HomePage.RemoveKeepsOthers` | src/pages/HomePage.jsx:10 | removal keeps the order and the multiplicity of every other tag |
| `HomePage.RemoveAbsent` | src/pages/HomePage.jsx:10 | removing an unselected tag changes nothing |
| `HomePage.ToggleTwiceAbsent` | src/pages/HomePage.jsx:8-14 | toggling an absent tag twice restores exactly the original list |
| `HomePage.ToggleTwicePresent` | src/pages/HomePage.jsx:8-14 | toggling a present tag twice restores membership, but the tag moves to the end |
| `HomePage.ToggleNoDuplicates` | src/pages/HomePage.jsx:9-13 | a duplicate-free selection stays duplicate-free |
| `HomePage.ToggleWithinAvailable` | src/pages/HomePage.jsx:40-43 | toggling a tag from the vocabulary keeps the selection inside the vocabulary |
| `HomePage.FilterBarView` | src/pages/HomePage.jsx:29-52 | "Clear all" is offered iff the selection is non-empty; each vocabulary tag has a button, styled as selected iff the tag is selected |
| `HomePage.QuestionList` | src/pages/HomePage.jsx:57-74 | "No questions found." iff there are no questions, with "Clear filters" iff a tag is selected; otherwise all questions, unfiltered and in order |
| `HomePage.TagFilterState.HandleTagFilter` | src/pages/HomePage.jsx:8-14 | the new selection is the toggle of the old; the tag's selected state flips |
| `HomePage.TagFilterState.ClearFilters` | src/pages/HomePage.jsx:16-18 | the selection is empty afterwards, whatever it was, so clearing twice equals clearing once |
| `HomePage.TagFilterState.constructor` | src/pages/HomePage.jsx:6 | the state starts with the given selection |
| `AskQuestionPage.IsValidMeans` | src/pages/AskQuestionPage.jsx:16 | the form is valid iff the title is not all white space, the content is not all white space, and there is a tag |
| `AskQuestionPage.BlankInvalid` | src/pages/AskQuestionPage.jsx:16 | a white-space-only title or content makes the form invalid, whatever the tags |
| `AskQuestionPage.IsValid` | src/pages/AskQuestionPage.jsx:16 | `isValid`: title and content non-empty once trimmed and at least one tag, so a valid form has a non-empty title, content and tag list |
| `AskQuestionPage.Request` | src/pages/AskQuestionPage.jsx:26-30 | the object handed to `addQuestion` keeps the content and tags as they are and carries the trimmed title, which is no longer than the typed one and empty iff the typed one is blank |
| `AskQuestionPage.QuestionPath` | src/pages/AskQuestionPage.jsx:32 | the navigation target is "/question/" followed by the returned id, which can be read back from the path |
| `AskQuestionPage.RequestRevalidates` | src/pages/AskQuestionPage.jsx:26-30 | the request of a valid form is valid again with its title already trimmed, so a store that re-validates accepts it |
| `AskQuestionPage.ValidSubmitEffects` | src/pages/AskQuestionPage.jsx:23-37 | a valid submit first raises `isSubmitting`, then calls `addQuestion` with the request, then navigates to `/question/<id>` only if a value came back, and always ends by lowering `isSubmitting` |
| `AskQuestionPage.ValidSubmitCallsOnce` | src/pages/AskQuestionPage.jsx:26-34 | `addQuestion` is called exactly once; navigation happens at most once, only after a return, and only to that id's path |
| `AskQuestionPage.SubmitEffects` | src/pages/AskQuestionPage.jsx:18-38 | an invalid form produces no step at all; a valid one calls `addQuestion` with the trimmed title, the untrimmed content and the unchanged tags |
| `AskQuestionPage.SubmitButtonView` | src/pages/AskQuestionPage.jsx:112-119 | the button is disabled iff the form is invalid or a submit is running, highlighted iff enabled, and reads "Publishing..." iff submitting |
| `AskQuestionPage.AskQuestionState.HandleSubmit` | src/pages/AskQuestionPage.jsx:18-38 | the steps taken are those of `SubmitEffects` on the form as it was; the form fields are unchanged; `isSubmitting` is false after a valid submit, whether or not `addQuestion` threw, and unchanged after an invalid one |
| `AskQuestionPage.AskQuestionState.constructor` | src/pages/AskQuestionPage.jsx:11-14 | the form starts empty with `isSubmitting` false |
| `AskQuestionPage.AskQuestionState.SetTitle` | src/pages/AskQuestionPage.jsx:60 | the title is replaced and nothing else changes |
| `AskQuestionPage.AskQuestionState.SetTags` | src/pages/AskQuestionPage.jsx:77 | the tags are replaced and nothing else changes |
| `AskQuestionPage.AskQuestionState.SetContent` | src/pages/AskQuestionPage.jsx:91 | the content is replaced and nothing else changes |
| `AnswerCard.Bucket` | src/components/AnswerCard.jsx:12-16 | "Just now" iff less than an hour has elapsed, including timestamps in the future; an hour count between 1 and 23, equal to the floor of the elapsed hours, iff 1 h ≤ elapsed < 24 h; otherwise a day count of at least 1, equal to the floor of the elapsed days |
| `AnswerCard.DaysInHours` | src/components/AnswerCard.jsx:12-16 | flooring to hours and then dividing by 24 gives the floor of the elapsed days |
| `AnswerCard.FormatTime` | src/components/AnswerCard.jsx:9-17 | the text is "Just now" below one hour, otherwise the decimal hour count followed by "h ago" below one day, otherwise the decimal day count followed by "d ago" |
| `AnswerCard.Render` | src/components/AnswerCard.jsx:14-16 | "Just now" for the first bucket; otherwise a run of decimal digits, then "h" or "d", then " ago" |
| `AnswerCard.ParseRender` | src/components/AnswerCard.jsx:14-16 | the text can be read back to the bucket and its count, so the three forms never coincide |
| `AnswerCard.FormatTimeDistinguishesBuckets` | src/components/AnswerCard.jsx:14-16 | two timestamps show the same text iff they fall into the same bucket with the same count |
| `AnswerCard.VoteTone` | src/components/AnswerCard.jsx:38 | green iff votes > 0, red iff votes < 0, gray iff votes = 0 |
| `AnswerCard.View` | src/components/AnswerCard.jsx:28-85 | the card is highlighted and shows the accepted marker and badge iff the answer is accepted; the accept button shows iff the viewer owns the question and the answer is not accepted; the button and the marker never show together |
| `AnswerCard.DefaultOwnerNeverOffersAccept` | src/components/AnswerCard.jsx:6 | with `isQuestionOwner` at its default of false, no accept button is shown |
| `AnswerCard.DirectionName` | src/components/AnswerCard.jsx:32-43 | the vote type passed is "up" for the up arrow and "down" for the down arrow |
| `AnswerCard.HandleVote` | src/components/AnswerCard.jsx:19-21 | `handleVote` makes a `voteAnswer` call on this card's question and answer, with vote type "up" iff the direction is up and "down" iff it is down |
| `AnswerCard.HandleAccept` | src/components/AnswerCard.jsx:23-25 | `handleAccept` makes an `acceptAnswer` call on this card's question and answer |
| `AnswerCard.Click` | src/components/AnswerCard.jsx:19-25 | each click makes exactly one store call, on this card's question and answer: `voteAnswer` with "up" or "down" for the arrows, `acceptAnswer` for the accept button |
| `ViewQuestionPage.FilteredQuestions` | src/context/ViewQuestionPage.jsx:9-12 | each kept question is one of the questions and matches; each matching question is kept; the result is no longer than the input |
| `ViewQuestionPage.Matches` | src/context/ViewQuestionPage.jsx:10-11 | the filter callback: lower(title) or lower(body) includes lower(query), so a matching query is no longer than the title or the body |
| `ViewQuestionPage.KeptIffMatches` | src/context/ViewQuestionPage.jsx:9-12 | a question is kept iff lower(title) or lower(body) contains lower(query), as often as it occurs |
| `ViewQuestionPage.FilteredIsSubsequence` | src/context/ViewQuestionPage.jsx:9 | the result keeps the original order of the questions |
| `ViewQuestionPage.EmptyQueryKeepsAll` | src/context/ViewQuestionPage.jsx:9-12 | an empty query keeps every question |
| `ViewQuestionPage.CaseInsensitiveQuery` | src/context/ViewQuestionPage.jsx:10-11 | queries that differ only in letter case give the same result |
| `ViewQuestionPage.LowerCaseQuery` | src/context/ViewQuestionPage.jsx:10-11 | a query gives the same result as its lower-case form |
| `ViewQuestionPage.FilterTwice` | src/context/ViewQuestionPage.jsx:9-12 | filtering the result again with the same query changes nothing |

## Left out

- `src/context/QAContext` is not part of this model. The code behind
  `addQuestion`, `voteAnswer`, `acceptAnswer`, `availableTags`, `questions`
  and `setSelectedTags` is not modelled. Vote arithmetic, accept exclusivity
  and vocabulary growth happen there. The views only call them, and the model
  records those calls.
- The home page does no tag filtering of its own. It renders `questions` as
  it gets them (src/pages/HomePage.jsx:71), and `HomePage.QuestionList` shows
  exactly that.
- `Text.ToLower`: lowers only the ASCII letters A-Z. JavaScript's
  `toLowerCase` also maps non-ASCII letters, so the search's case
  insensitivity is modelled for ASCII only.
- JavaScript strings are sequences of UTF-16 code units. The model uses
  Unicode scalar values (`char`). This makes no difference to `trim`, whose
  characters are all in the Basic Multilingual Plane.
- `AnswerCard.FormatTime`: works on whole milliseconds with exact floor
  division. The source parses `createdAt` with `new Date`, reads the clock,
  and divides in floating point. Three cases are not modelled:
  - An unparsable date gives NaN, which renders as "NaNd ago".
  - Floating-point rounding could only change the hour count for differences
    above about 2^32 hours.
  - Number rendering switches to exponent notation only from 10^21, which no
    date difference reaches.
- `AskQuestionPage.AskQuestionState.HandleSubmit`: `handleSubmit` is `async`
  but awaits nothing, and `addQuestion` is modelled as synchronous. The model
  also leaves out three steps: `e.preventDefault()`, the `console.log` and
  `console.error` calls, and a `navigate` that throws.
- React batches the two `setIsSubmitting` calls of one synchronous handler.
  The model records both updates in order and does not model rendering
  between them.
- The browser enforces `maxLength={200}` on the title input. It is not a check
  of the handler, and the title counter is presentation only.
- `ViewQuestionPage.Question`: the search reads `question.body`, but the ask
  form hands the store a `content` field. The store's code is not part of
  this model, so the model takes `body` to be a string. If the store keeps only `content`, then
  `question.body.toLowerCase()` would throw for every question whose title
  does not match.
- The rest of `src/context/ViewQuestionPage.jsx` is not modelled. It does not
  import `useState`, and it uses `handleTagFilter`, `clearFilters`, `question`
  and `Navigate` without defining them. `const user = "Rutang"` makes the
  `!user` branch dead, and `filteredQuestions` is never used.
- `AskQuestionPage.IsValid` is modelled on the form's fields, not on what the
  page lets a user type. The page passes `content=` to `RichTextEditor`
  (src/pages/AskQuestionPage.jsx:89-93), whose props are `data`, `isReadOnly`
  and `onChange`; `isReadOnly` defaults to true and disables the editor
  (src/components/RichTextEditor.jsx:677, 771). As written, the content field
  cannot be filled in through the page, so `isValid` does not become true
  there. The model does not depend on this editor wiring.
- Not modelled, because they hold no logic of their own:
  - `src/components/RichTextEditor.jsx`, which only configures an external
    editor.
  - `src/components/LoginModal.jsx` and `src/components/SignUpModal.jsx`,
    whose submit is a timer with no validation.
  - `src/components/Navbar.jsx`, `src/App.jsx` and `src/main.jsx`, which only
    render, route and start the application.
- CSS classes beyond the listed choices and the JSX layout are presentation
  only. The model keeps the three-way and yes/no choices the views make.
