# Priority score app — a verified model of its rules

The app keeps a deck of tasks in the browser, turns each task into a
priority score and shows the tasks as a ranking. This project models the
rules behind that, in Dafny, and proves what they promise:

- the score calculator and the deadline classifier of `lib/taskLogic.ts`
  (module `TaskLogic`);
- the score and colour band a task card shows, from `components/TaskCard.tsx`
  (module `TaskCard`);
- the deck page `app/page.tsx` (module `Home`). It is a class `HomePage`
  whose fields are the component state and the browser storage. Its methods
  are the handlers: add, edit and remove a task, pick a mode, toggle the
  theme, and go to the ranking;
- the ranking page `app/result/page.tsx` (module `ResultPage`). It reads the
  stored tasks and settings, keeps the titled tasks and sorts them by score,
  highest first and stable. It also covers the spicy-mode message, the mode
  styling, the deadline line and the two-digit rank label;
- the sort endpoint `app/api/score/route.ts` (module `ScoreRoute`): an
  in-place stable insertion sort of an `array` of `{name, score}` entries,
  largest score first, and `POST`, which returns that same array;
- the JavaScript built-ins these rely on. `JsString` covers `trim`,
  `String(n)`, `padStart` and `x || default`. `JsArray` covers `filter`,
  `some` and the stable `sort` with a comparator `(a, b) => key(b) - key(a)`.
  `TaskTypes` holds the task record, the "has a title" test and
  localStorage.

Scores are exact integers. The weights 0.5/0.8/0.2 are kept in tenths. The
score `Math.round(e*we + r*wr)` is `floor((10*e*we + 10*r*wr + 5) / 10)`.
`TaskLogic.ScoreIsMathRound` proves that this is `Math.round` of the real
weighted sum. The ranking page calls `calculateScore(task, mode)`, which
does not match the calculator's three-argument signature. So the ranking is
stated for any score function `(Task, string) -> int`. The sort is a
left-to-right insertion fold, `JsArray.SortDesc`.
`JsArray.StableSortIsSortDesc` proves that any sorted, stable rearrangement
is exactly that fold. So `SortDesc` is *the* stable descending sort that
ECMAScript requires of `Array.prototype.sort`.

## Model

| member | source | states |
|---|---|---|
| TaskLogic.WeightTenths | lib/taskLogic.ts:11-21 | the weight pair of each mode sums to one whole; balance weighs both equally, emotion favours emotion, reality favours reality |
| TaskLogic.CalculateScore | lib/taskLogic.ts:6-25 | the score is the weighted sum rounded to the nearest integer, halves up (10·score ≤ 10·sum + 5 < 10·score + 10) |
| TaskLogic.MathRound | lib/taskLogic.ts:24 | `Math.round` of a real: n ≤ x + 1/2 < n + 1 |
| TaskLogic.ScoreIsMathRound | lib/taskLogic.ts:12-24 | the integer score equals `Math.round(emotion*eWeight + reality*rWeight)` with the weights 0.5/0.8/0.2 as reals |
| TaskLogic.EqualInputsScore | lib/taskLogic.ts:12-24 | equal emotion and reality x score exactly x in every mode |
| TaskLogic.ScoreBetweenInputs | lib/taskLogic.ts:12-24 | the score lies between the smaller and the larger input |
| TaskLogic.ScoreIsPercentage | lib/taskLogic.ts:24 | inputs in [0, 100] give a score in [0, 100] |
| TaskLogic.ScoreMonotone | lib/taskLogic.ts:24 | raising emotion or reality never lowers the score |
| TaskLogic.EmotionMirrorsReality | lib/taskLogic.ts:15-21 | emotion mode on (e, r) scores as reality mode on (r, e) |
| TaskLogic.DaysLeftLabel | lib/taskLogic.ts:39-40 | the countdown label is "あと", the decimal digits of the day count with no leading zero (which read back as that count), then "日", with at least one digit |
| TaskLogic.GetDeadlineStatus | lib/taskLogic.ts:27-41 | no deadline gives ("", "#888", not urgent); otherwise urgent exactly for a day difference ≤ 3, red exactly for ≤ 0, "期限切れ" when overdue, "今日まで" on the day, the countdown label from one day on; amber exactly for 1 to 3 days, green exactly beyond 3 days or for an unparseable date, which is labelled "あとNaN日" and is neither urgent nor red |
| TaskCard.CardScore | components/TaskCard.tsx:14 | the card's score of percentage inputs is a percentage, usable as a bar width; equal inputs show that value |
| TaskCard.ScoreColor | components/TaskCard.tsx:17-21 | red exactly from 70, amber exactly in [40, 70), green exactly below 40 |
| TaskCard.ColorMonotone | components/TaskCard.tsx:17-21 | a higher score never gets a less pressing colour band |
| TaskTypes.ModeName | app/types/task.ts:6 | every appraisal mode is stored as a non-empty string |
| TaskTypes.HasTitle | app/result/page.tsx:31 | a titled task has a non-empty title |
| TaskTypes.HasTitleIffTrimmed | app/page.tsx:82 | the title test holds exactly when `t.title.trim()` is non-empty |
| TaskTypes.TitledTasks | app/result/page.tsx:31 | only titled tasks are kept; the length is unchanged exactly when every task is titled; the result is empty exactly when no task is titled |
| TaskTypes.TitledTasksCounts | app/result/page.tsx:31 | the kept tasks come from the input, and each titled task is kept exactly as often as it occurs |
| TaskTypes.BoolJson | app/page.tsx:103 | `JSON.stringify` of a boolean is "true" exactly for true |
| JsString.OrElse | app/result/page.tsx:24 | the `or` default is the string when it is truthy, the fallback otherwise |
| JsString.TextStart | app/page.tsx:62 | where `trim()` starts cutting: only whitespace before that position, and a non-whitespace character at it unless it is the end |
| JsString.TextEnd | app/page.tsx:62 | where `trim()` stops cutting: only whitespace from that position on, and a non-whitespace character just before it unless nothing is left |
| JsString.Trim | app/page.tsx:62 | `trim()` returns the slice of s that starts where the leading whitespace ends and has only whitespace behind it, and it starts and ends with a non-whitespace character |
| JsString.TrimEmptyIffBlank | app/page.tsx:62 | `s.trim() === ""` holds exactly when every character of s is whitespace |
| JsString.NatToString | app/result/page.tsx:219 | `String(n)` is at least one decimal digit with no leading zero |
| JsString.DecimalRoundTrip | app/result/page.tsx:219 | reading `String(n)` back as a decimal gives n |
| JsString.PadStart | app/result/page.tsx:219 | `padStart` keeps s as the suffix, fills the front with the fill character, and is as long as the longer of s and the width |
| JsString.LeadingZerosIgnored | app/result/page.tsx:219 | leading zeros do not change the value of a digit string |
| JsArray.Filter | app/result/page.tsx:31 | `filter` keeps only elements that pass, all drawn from the input, and is no longer than it |
| JsArray.FilterKeeps | app/result/page.tsx:31 | every element that passes is kept |
| JsArray.FilterCount | app/result/page.tsx:31 | an element that passes is kept as often as it occurs |
| JsArray.FilterSubMultiset | app/result/page.tsx:31 | the filtered list is a sub-multiset of the input |
| JsArray.FilterAppend | app/result/page.tsx:31 | filtering a concatenation is concatenating the filtered parts, in order |
| JsArray.FilterKeepsAll | app/result/page.tsx:31 | a filter every element passes returns its input |
| JsArray.FilterFullLength | app/result/page.tsx:31 | a filter that keeps the length kept every element |
| JsArray.FilterIdempotent | app/result/page.tsx:31 | filtering twice by the same test is filtering once |
| JsArray.AnyMatch | app/result/page.tsx:52 | `some` holds exactly when some element passes |
| JsArray.InsertBack | app/result/page.tsx:32 | one insertion step of the sort grows the list by exactly one element |
| JsArray.SortDesc | app/result/page.tsx:32 | `sort((a, b) => key(b) - key(a))` keeps the length; the lemmas below prove that it is sorted, a permutation and stable |
| JsArray.InsertBackPermutation | app/result/page.tsx:32 | one insertion step adds the element and loses nothing |
| JsArray.InsertBackAt | app/api/score/route.ts:8 | an insertion step places the element right behind the last key not below its own |
| JsArray.SortDescSorted | app/result/page.tsx:32 | the sort's result has non-increasing keys |
| JsArray.SortDescPermutation | app/result/page.tsx:32 | the sort's result is a permutation of its input |
| JsArray.SortDescStable | app/result/page.tsx:32 | elements with equal keys keep their input order |
| JsArray.SortDescIsStableSort | app/api/score/route.ts:8 | the sort is a stable descending sort and a permutation |
| JsArray.StableSortIsSortDesc | app/api/score/route.ts:8 | every sorted, stable rearrangement of the input is exactly the sort's result, so the stable sort is unique |
| JsArray.ConstantKeyKeepsOrder | app/result/page.tsx:32 | when all keys are equal the sort leaves the list as it was |
| ResultPage.RankTasks | app/result/page.tsx:30-32 | the ranking is a permutation of the titled stored tasks, with non-increasing scores and ties in stored order |
| ResultPage.RankedAreTheTitled | app/result/page.tsx:30-32 | every ranked task has a title, and every titled stored task is ranked |
| ResultPage.RankTitledTasks | app/result/page.tsx:31 | ranking tasks that were already filtered gives the same ranking |
| ResultPage.LoadResult | app/result/page.tsx:18-35 | nothing on the server; otherwise the stored mode (default "normal"), dark exactly when "true" is stored, the stored language (default "ja"), and the ranking of the stored tasks (none when nothing is stored) |
| ResultPage.LoadsWhatDeckSaved | app/page.tsx:100-103 | what the deck stores before navigating loads back as the ranking of its titled tasks under the chosen mode and theme |
| ResultPage.HasExtremeTask | app/result/page.tsx:52 | holds exactly when some task scores at least 200 |
| ResultPage.ExtremeIffTopTask | app/result/page.tsx:52 | on a ranked list this is decided by the first task alone |
| ResultPage.CalculatorScoresNeverExtreme | app/result/page.tsx:52 | when tasks are scored by the calculator from emotion and reality in [0, 100], no task reaches 200, so the spicy check never holds |
| ResultPage.ShowsSpicyMessage | app/result/page.tsx:149 | the message shows exactly in spicy mode with a task scoring at least 200 |
| ResultPage.GetModeStyles | app/result/page.tsx:75-93 | "sweet" and "spicy" each get their own colour and label in the page language, and every other mode string gets the normal colour and label |
| ResultPage.GetDeadlineInfo | app/result/page.tsx:97-104 | urgent exactly for a deadline due in 0 to 3 days; the text is the dated line, or "no deadline" in the page's language |
| ResultPage.UrgencyRulesDiffer | app/result/page.tsx:103 | given one shared day difference, the ranking's urgency rule and `getDeadlineStatus`'s disagree exactly on overdue deadlines |
| ResultPage.RankLabel | app/result/page.tsx:219 | the label has at least two digits and reads as index + 1; below 10 it is "0" then the digit, from 10 on it is the plain number |
| Home.WithField | app/page.tsx:52 | each field takes the edit's value when the edit names it, and stays as it was otherwise |
| Home.WithFieldIdempotent | app/page.tsx:52 | applying the same edit twice is applying it once |
| Home.UpdateWhere | app/page.tsx:51-53 | same length; tasks with the id get the edit, the others stay as they were |
| Home.UpdateMissingId | app/page.tsx:51-53 | an id no task has changes nothing |
| Home.UpdateIdempotent | app/page.tsx:51-53 | repeating any edit changes nothing more |
| Home.FindById | app/page.tsx:58 | `find` is absent exactly when no task has the id, and otherwise is the first task with it |
| Home.WithoutId | app/page.tsx:66 | no task with the id is left, every other task stays exactly as often as it was, and nothing changes when the id is absent |
| Home.WithoutIdAppend | app/page.tsx:66 | removing from a concatenation removes from each part in place, so the remaining tasks keep their order |
| Home.NewTask | app/page.tsx:34-42 | a new task has no title yet |
| Home.SaveForResult | app/page.tsx:101-103 | the three writes store the titled tasks, the mode's name (never empty) and the theme as "true" exactly when dark, and leave the language key alone |
| Home.GoDecision | app/page.tsx:82-95 | stop exactly when no task is titled; ask exactly when there are titled and untitled tasks; declined exactly when asked and refused; proceed exactly when some task is titled and the user did not refuse |
| Home.HomePage.constructor | app/page.tsx:12-17 | the first render: no tasks, dark theme, normal mode, not analysing |
| Home.HomePage.SetTasks | hooks/useLocalStorage.ts:30-36 | the state and the stored "tasks" key both become the new list; nothing else changes |
| Home.HomePage.AddTask | app/page.tsx:33-44 | a new blank task goes in front of the others and is stored |
| Home.HomePage.UpdateTask | app/page.tsx:46-54 | the list becomes the edited list and is stored |
| Home.HomePage.RemoveTask | app/page.tsx:57-77 | unknown id: nothing changes; a blank-titled task goes without a question; a titled one is asked about and goes only when confirmed |
| Home.HomePage.SetAppraisalMode | app/page.tsx:328 | only the mode changes |
| Home.HomePage.ToggleDarkMode | app/page.tsx:190 | only the theme flips |
| Home.HomePage.GoToResult | app/page.tsx:80-108 | the outcome follows the go decision; when it proceeds, the titled tasks, the mode and the theme are stored and the analysing overlay and navigation start; otherwise nothing changes; the deck's own list never changes |
| ScoreRoute.InsertNext | app/api/score/route.ts:8 | one step of the in-place sort moves `a[i]` forward past strictly smaller scores, as the insertion fold does, and leaves the rest of the array alone |
| ScoreRoute.SortByScore | app/api/score/route.ts:8 | the array, sorted in place, becomes the stable descending sort of its old contents: a permutation with non-increasing scores, ties in input order |
| ScoreRoute.Post | app/api/score/route.ts:3-11 | with no task list the answer is a new empty array; otherwise `sorted` is the request's own array, now sorted |

## Left out

- JSON parsing and serialising are not modelled. Storage holds parsed values, and the route gets its array already parsed. A stored value that does not parse, or a "tasks" entry that is stored but empty, is not modelled.
- The storage hook's first load (`useEffect` plus `requestAnimationFrame`) is not modelled. The deck starts from its initial state, and only the hook's write-through on every update is modelled.
- `uuid()`, today's date, `new Date()` and the clock are parameters. So are the answers of `window.confirm`. The `alert` text is not modelled: the outcome `NoValidTasks` stands for it.
- The 1.5 s delay and `router.push` in `handleGoToResult` are not modelled. Navigation is the flag `navigatedToResult`.
- JSX, theme objects, i18n strings other than the ones the rules return, `components/ModeSelector.tsx` and `app/layout.tsx` are UI and are not modelled.
- The `createdAt` field of the task type is not modelled. No rule reads it.
- TaskLogic.CalculateScore: emotion and reality are integers. Fractional inputs and NaN are not modelled.
- TaskLogic.GetDeadlineStatus: takes the day difference (`Math.ceil` of the time difference in days, or NaN for an unparseable date) as a parameter. The `Date` arithmetic that yields it is not modelled.
- ResultPage.GetDeadlineInfo: takes its day difference as a parameter. The page counts from the current instant (app/result/page.tsx:99-101), while `getDeadlineStatus` counts from today's local midnight (lib/taskLogic.ts:30-35). So for one deadline the two day counts can differ by one, and the two rules can then also disagree next to the three-day limit. The model does not relate the two counts.
- ResultPage.RankTasks: the score is a parameter. The page's call `calculateScore(task, mode)` does not match the calculator's signature, and what it yields at run time (NaN) is not modelled.
- TaskCard.CardScore: the card reads `task.emotion` and `task.reality`, fields the task type does not have. The card is modelled on the calculator's own inputs.
- ScoreRoute.Post: scores are integers. Non-numeric or NaN scores, which make the comparator inconsistent, are not modelled. A truthy `tasks` value that is not an array is not modelled.
- ScoreRoute.SortByScore: the engine's own sorting algorithm is not modelled. Any stable descending sort gives the same result (`JsArray.StableSortIsSortDesc`), so an insertion sort stands in for it.
- The language stored under "appLang" is a string, not a closed type. A value other than "ja" is treated as English, as the page does.
- `getDeadlineStatus` is imported by components/TaskCard.tsx but never called there, and neither app/page.tsx nor app/result/page.tsx calls it, so no screen uses it. Its rule also treats an overdue deadline as urgent, and the ranking's rule does not. Both are modelled as written. `ResultPage.UrgencyRulesDiffer` compares them on one shared day difference only.
