# nologicalthoughts: the Home page's state machine, in Dafny

The page `client/src/pages/Home.tsx` lets a user write short anonymous
"thoughts", post them, and browse and like them in a newest-first feed. All of
its behaviour lives in one React component, `Home`, and one helper,
`formatTimeAgo`. This project models both and proves what they promise.

- `text.dfy`, module `Text`: JavaScript's `String.prototype.trim`. It uses the
  full ECMAScript whitespace and line-terminator table. It comes with a
  characterisation: the text splits into a whitespace prefix, the trimmed core
  and a whitespace suffix, and the trimmed text is idempotent.
- `time_ago.dfy`, module `TimeAgo`: `formatTimeAgo`, written exactly as the
  page computes it, with floors of seconds, then minutes, then hours. Times are
  integer milliseconds, and "now" is a parameter. A reference definition
  `Classify` takes single floors of the elapsed seconds. The postcondition of
  `FormatTimeAgo` states that the two agree. Labels are rendered with JavaScript's decimal numerals, and a
  label's text determines the label.
- `home_state.dfy`, module `HomeState`: the component's state as a value.
  - The state holds the draft, the thoughts, the posting flag, the tab, the
    liked ids, and the post timers scheduled but not yet fired.
  - Each handler is a transition. `Step` runs one user event or timer event,
    and `Run` runs a sequence of them.
  - The invariant holds that ids are unique, that no like count is negative,
    that every liked thought counts at least one like, that stored texts are
    trimmed, non-empty and at most 280 characters, and that at most one timer
    is in flight, exactly while the flag is up.
  - With the corrected timer callback (see "## Findings"), the invariant is
    proved to hold from the page's load through every admissible sequence of
    events.
  - With the callback as written, `StepAsWritten` and `RunAsWritten` run the
    page. They keep every part of the invariant except the like counts
    (`WellFormed`), together with the fact that the list a pending timer
    captured differs from the current list only in like counts
    (`InvariantAsWritten`). Only the like counts depend on the correction.
- `home.dfy`, module `HomePage`: class `Home`. Its fields are the five
  `useState` variables and the scheduled timers. Each handler is a method that
  updates the fields in place. Each method states its new state field by
  field. Each method except `FireTimerAsWritten` states that it equals `Step`
  of its old state. `FireTimerAsWritten` equals `HomeState.FireTimerAsWritten`
  of its old state. No method requires `Valid()`, so the object also takes
  events after the callback as written has broken the like counts. Each method
  keeps `Valid()` (the full invariant) when it held before, except
  `FireTimerAsWritten`. Each method except `FireTimer` keeps
  `ValidAsWritten()` when it held before.

The 600 ms `setTimeout` of `handlePost` is split in two. `Post` is the button
press, which runs the handler body before the timer. `FireTimerAsWritten` is the
timer's callback as the page has it, and `FireTimer` is the corrected callback
(see "## Findings"). The callback's clock reading and its `Date.now()` id are
parameters. The invariant results assume that the id is fresh.

The model follows the code in two places where a reader might expect
otherwise:
- A like of an id that no thought has still toggles the liked set. The list
  stays unchanged.
- The post button's guard checks only that the trimmed draft is non-empty and
  that no post is in flight. The 280-character limit comes from the textarea's
  `maxLength`, not from a check at posting time.

## Model

| member | source | states |
|---|---|---|
| `Text.Trim` | client/src/pages/Home.tsx:42 | the trimmed draft is no longer than the draft, is empty exactly when the draft is all whitespace, and otherwise starts and ends with a non-whitespace character |
| `Text.TrimSplits` | client/src/pages/Home.tsx:42 | `trim` removes only whitespace: the draft is a whitespace prefix, the trimmed text, and a whitespace suffix |
| `Text.TrimUnique` | client/src/pages/Home.tsx:42 | any split into a whitespace prefix, a core that neither starts nor ends with whitespace, and a whitespace suffix has the trimmed text as its core |
| `Text.TrimIdempotent` | client/src/pages/Home.tsx:42 | trimming an already trimmed text changes nothing |
| `TimeAgo.DecimalString` | client/src/pages/Home.tsx:22 | the numeral in a label is a non-empty string of digits with no leading zero |
| `TimeAgo.DecimalRoundTrip` | client/src/pages/Home.tsx:22 | reading back the numeral of n gives n |
| `TimeAgo.Classify` | client/src/pages/Home.tsx:18-26 | exactly one unit applies for each elapsed time; minutes lie in 1..59, hours in 1..23 and days are at least 1, each the floor of the elapsed seconds over its unit |
| `TimeAgo.ChainedFloors` | client/src/pages/Home.tsx:21-25 | the chained floors equal single floors: (s/60)/60 = s/3600 and (s/3600)/24 = s/86400, negative s included |
| `TimeAgo.FormatTimeAgo` | client/src/pages/Home.tsx:18-26 | `formatTimeAgo` with its chained floors, as written; its result is exactly the rendering of the label the single-floor reference `Classify` chooses for the elapsed whole seconds |
| `TimeAgo.RenderInjective` | client/src/pages/Home.tsx:20-25 | two different labels never render to the same text |
| `TimeAgo.JustNowIff` | client/src/pages/Home.tsx:19-20 | the label is "just now" if and only if fewer than 60 whole seconds have elapsed, which includes timestamps in the future |
| `TimeAgo.FormatTimeAgoCases` | client/src/pages/Home.tsx:21-25 | for each range of elapsed seconds, the unit shown and its number, with the number in 1..59 minutes, 1..23 hours, or at least 1 day |
| `TimeAgo.FormatTimeAgoExamples` | client/src/pages/Home.tsx:18-26 | 30 s, 90 s, 3700 s and 90000 s ago give "just now", "1m ago", "1h ago" and "1d ago" |
| `HomeState.Toggle` | client/src/pages/Home.tsx:54-63 | the liked id leaves the set if it was in it and joins it otherwise; every other id keeps its membership |
| `HomeState.AdjustLikes` | client/src/pages/Home.tsx:64-66 | the list keeps its length, order, ids, texts and times; thoughts with the id gain one like (newly liked) or lose one (un-liked); every other thought is unchanged |
| `HomeState.LikeTwiceRestores` | client/src/pages/Home.tsx:53-67 | liking the same id twice in a row restores the liked set and every like count |
| `HomeState.LikeUnknownId` | client/src/pages/Home.tsx:53-67 | liking an id that no thought has leaves the list unchanged but still toggles the set |
| `HomeState.BlankDraftIsNoOp` | client/src/pages/Home.tsx:36 | with a whitespace-only draft the post button is disabled, and neither the handler nor a press changes any of the state |
| `HomeState.PostThenFire` | client/src/pages/Home.tsx:35-51 | after an enabled press and its timer: the list is the new thought (trimmed draft, no likes, fresh id, the time) followed by the old list in its order; the draft is empty, the flag is down, the feed is shown, and the liked set is unchanged |
| `HomeState.PostedContentValid` | client/src/pages/Home.tsx:165 | a draft within the 280-character limit that trims to something yields a post of 1..280 characters that is already trimmed |
| `HomeState.Seed` | client/src/pages/Home.tsx:12-16 | the three seed thoughts have distinct ids, non-negative likes, and are at least five minutes older than the page's load |
| `HomeState.SeedContentsValid` | client/src/pages/Home.tsx:13-15 | every seed text is non-empty, at most 280 characters and already trimmed |
| `HomeState.Initial` | client/src/pages/Home.tsx:29-33 | the state the page starts in (empty draft, seed list, flag down, Write tab, nothing liked, no timer) satisfies the invariant |
| `HomeState.HandlePost` | client/src/pages/Home.tsx:35-38 | the bare handler: a whitespace-only draft changes nothing. Otherwise the flag goes up and one timer is appended, holding the trimmed draft and the current list. The list, the draft, the liked set and the tab are untouched until the timer fires. `PostedContentValid` and `PressPostPreservesInvariant` state what the timer carries |
| `HomeState.PressPost` | client/src/pages/Home.tsx:172-175 | the button press: it changes nothing while a post is in flight or the draft is blank. A timer is added exactly when the button is enabled. Otherwise it is `HandlePost`. `BlankDraftIsNoOp` and `PressPostPreservesInvariant` state what it keeps |
| `HomeState.FireTimer` | client/src/pages/Home.tsx:39-50 | the corrected callback: the pending text, with no likes, the given id and time, heads the current list. The draft is cleared, the flag lowered, the feed shown, the timer removed, and the liked set kept. `FireTimerPreservesInvariant` and `PostThenFire` state what it keeps |
| `HomeState.Like` | client/src/pages/Home.tsx:53-67 | `handleLike`: the id's membership flips and other ids keep theirs. Every thought with the id gains one like if it was not liked and loses one if it was. Every other thought, and the draft, flag, tab and timers, are unchanged. `LikeTwiceRestores` and `LikePreservesInvariant` relate it to the rest |
| `HomeState.PressPostPreservesInvariant` | client/src/pages/Home.tsx:35-38 | a press of the post button keeps the invariant; at most one post is in flight, exactly while the flag is up |
| `HomeState.FireTimerPreservesInvariant` | client/src/pages/Home.tsx:39-50 | with the corrected callback, publishing with a fresh id keeps ids unique, counts consistent and contents valid |
| `HomeState.LikePreservesInvariant` | client/src/pages/Home.tsx:53-67 | a like toggle keeps every count non-negative and every liked thought at one like or more |
| `HomeState.FireTimerAsWritten` | client/src/pages/Home.tsx:39-50 | the timer's callback as written (it prepends to the list captured at the press); it agrees with the corrected `FireTimer` whenever the list did not change during the window, and leaves the liked set alone |
| `HomeState.StepPreservesInvariant` | client/src/pages/Home.tsx:29-67 | with the corrected callback, every event (draft edit, prompt, tab switch, post press, timer, like) keeps the invariant |
| `HomeState.RunPreservesInvariant` | client/src/pages/Home.tsx:29-67 | with the corrected callback, any admissible sequence of events keeps the invariant |
| `HomeState.ReachableInvariant` | client/src/pages/Home.tsx:28-67 | with the corrected callback, every state reachable from the page's load satisfies the invariant |
| `HomeState.PostThenFireAsWritten` | client/src/pages/Home.tsx:35-50 | from an idle page, a press followed by its timer gives the same state with the callback as written as with the corrected one |
| `HomeState.PrependToSameButLikes` | client/src/pages/Home.tsx:46 | a post with a new id, placed before a list whose ids and texts are those of the current list, keeps the ids unique and the texts valid |
| `HomeState.PressPostKeepsInvariantAsWritten` | client/src/pages/Home.tsx:35-38 | a press keeps `InvariantAsWritten`: the new timer captures the current list itself |
| `HomeState.LikeKeepsInvariantAsWritten` | client/src/pages/Home.tsx:53-67 | a like keeps `InvariantAsWritten`: ids and texts stay the same, so the captured list still matches the current one |
| `HomeState.FireTimerAsWrittenKeepsInvariantAsWritten` | client/src/pages/Home.tsx:39-50 | the callback as written, with an id no thought has, keeps ids unique, texts valid and the flag tied to the timers |
| `HomeState.StepAsWrittenKeepsInvariantAsWritten` | client/src/pages/Home.tsx:29-67 | every event of the page as written keeps `InvariantAsWritten` |
| `HomeState.RunAsWrittenKeepsInvariantAsWritten` | client/src/pages/Home.tsx:29-67 | every admissible run of the page as written keeps `InvariantAsWritten` |
| `HomeState.ReachableInvariantAsWritten` | client/src/pages/Home.tsx:28-67 | every state the page as written reaches from its load has unique ids, trimmed texts of 1..280 characters, a draft within 280 characters, and at most one timer in flight, exactly while the flag is up |
| `HomeState.StaleSnapshotBreaksLikes` | client/src/pages/Home.tsx:46 | with the callback as written, a like made on the Feed tab while a post is in flight is lost, its id stays liked, and a second like takes the count to -1 |
| `HomeState.FireTimerKeepsLikes` | client/src/pages/Home.tsx:46 | with the corrected callback, the list after the new post is the current list, likes included, and the liked set is unchanged |
| `HomePage.Home.constructor` | client/src/pages/Home.tsx:29-33 | the page starts with an empty draft, the seed list, the flag down, the Write tab, no likes and no timers, and satisfies both invariants |
| `HomePage.Home.EditDraft` | client/src/pages/Home.tsx:162 | the draft becomes the text; nothing else changes; both invariants are kept when they held |
| `HomePage.Home.FillPrompt` | client/src/pages/Home.tsx:205 | the draft becomes the prompt followed by a space; nothing else changes; both invariants are kept when they held |
| `HomePage.Home.SwitchTab` | client/src/pages/Home.tsx:111-123 | only the active tab changes; both invariants are kept when they held |
| `HomePage.Home.Post` | client/src/pages/Home.tsx:35-38 | accepted exactly when the button is enabled (trimmed draft non-empty, no post in flight, line 175); then the flag goes up and a timer holding the trimmed draft is scheduled; otherwise nothing changes; both invariants are kept when they held |
| `HomePage.Home.FireTimer` | client/src/pages/Home.tsx:39-50 | the corrected callback: the pending post heads the list with no likes, the draft is cleared, the flag is lowered and the feed is shown; with a fresh id, the invariant is kept when it held |
| `HomePage.Home.FireTimerAsWritten` | client/src/pages/Home.tsx:39-50 | the callback as written: the pending post heads the list captured when Post was pressed, the draft is cleared, the flag lowered and the feed shown; the liked set is unchanged, so the like counts may break; with a fresh id, `ValidAsWritten()` is kept when it held |
| `HomePage.Home.HandleLike` | client/src/pages/Home.tsx:53-67 | the id's membership flips, other ids keep theirs, and the counts follow `AdjustLikes`; both invariants are kept when they held, and it takes a like after the as-written callback broke the counts |

## Findings

| source | as written | input that shows it | evidently intended | confidence | as-written member | corrected member |
|---|---|---|---|---|---|---|
| client/src/pages/Home.tsx:46 | the timer's callback prepends the new post to `thoughts` as captured when Post was pressed | press Post on "hi" with one thought (id "1", 0 likes), switch to the Feed tab and like "1" before 600 ms pass, then let the timer fire: "1" shows 0 likes but stays liked; liking it again shows -1 | prepend to the current list (`setThoughts(prev => [newThought, ...prev])`), so the like survives and counts never go negative | medium; not executed | `HomeState.FireTimerAsWritten`, `HomePage.Home.FireTimerAsWritten`, `HomeState.StaleSnapshotBreaksLikes` | `HomeState.FireTimer`, `HomeState.FireTimerPreservesInvariant` |

`HomeState.Step` and the full invariant's proofs use the corrected callback.
`HomeState.StepAsWritten` uses the callback as written, and its proofs keep
everything but the like counts. The class `HomePage.Home` has both callbacks:
`FireTimer` is the corrected callback, and `FireTimerAsWritten` is the page's
callback, which keeps only `ValidAsWritten()`.

## Left out

- Rendering is not modelled. This covers the JSX, CSS classes, the counter's
  colour above 250 characters (line 169), the framer-motion animations and the
  lucide icons. They are presentation only.
- The clock, the 600 ms delay and `Date.now().toString()` are not modelled.
  The current time is a parameter of `FireTimer`, and so is the new post's id.
  The id must be `Fresh`, because a millisecond clock reading does not
  guarantee uniqueness.
- HomePage.Home.FireTimer: it models the corrected callback, which prepends to
  the current list. The page's callback (line 46) prepends to the list captured
  at the press; that is `HomePage.Home.FireTimerAsWritten`, which does not keep
  the invariant.
- HomeState.StepPreservesInvariant: the timer event is the corrected callback.
  With the callback as written the like counts can break, as
  `HomeState.StaleSnapshotBreaksLikes` shows. The rest of the invariant holds
  for the page as written (`HomeState.StepAsWrittenKeepsInvariantAsWritten`).
- HomeState.RunPreservesInvariant: the like counts stay consistent only for
  runs with the corrected callback. The rest of the invariant holds for the page
  as written (`HomeState.RunAsWrittenKeepsInvariantAsWritten`).
- HomeState.ReachableInvariant: the like counts stay consistent only with the
  corrected callback. With the callback as written a reachable state can show a
  like count of -1. Everything else holds (`HomeState.ReachableInvariantAsWritten`).
- A like of an id that no listed thought has is allowed. On the page the like
  buttons exist only for listed thoughts (lines 223 and 242). The model accepts
  that event too, and it only toggles the set. So the invariant does not say that
  every liked id belongs to a thought, and `Fresh` asks that a new post's id is
  not in the liked set.
- Events are not gated by the active tab. On the page, the textarea, prompts
  and post button exist only on the Write tab (lines 139-213), and the like
  buttons only on the Feed tab (lines 214-256). `HomeState.Enabled` allows
  every event on either tab, so the invariant is proved for a superset of the
  page's runs.
- React's batching and scheduling are not modelled. Every state update is an
  immediate, sequential assignment.
- HomePage.Home.EditDraft: it requires the text to be at most 280 characters.
  The textarea's `maxLength` (line 165) enforces that limit in the browser, not
  the handler.
- HomePage.Home.Post: it models the button press, not the bare handler. The
  disabled button (line 175) is what prevents a second timer while one is in
  flight. The bare handler is `HomeState.HandlePost`, which does not check
  the flag.
- The draft is cleared when the timer fires, even if the user edited it during
  the window. This is modelled as written and not treated as a finding.
- Lengths count Unicode scalar values, while JavaScript counts UTF-16 code
  units. A draft containing characters outside the Basic Multilingual Plane is
  limited differently.
- TimeAgo.FormatTimeAgo: it uses exact integer floors. JavaScript divides in
  floating point before flooring. The two can differ only for elapsed times
  beyond about 4·10^15 ms. `Invalid Date` (NaN) is not modelled.
- TimeAgo.DecimalString: it gives plain digits. JavaScript switches to
  exponent notation from 10^21, which `Date`'s range cannot reach.
- Like counts are unbounded integers. JavaScript numbers lose precision above
  2^53.
