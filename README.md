# Wizard-house quiz engine, modelled in Dafny

The quiz widget asks five fixed questions. Each answer scores one point for one of four houses: Gryffindor, Hufflepuff, Ravenclaw or Slytherin. When the last question is answered, the widget shows a top house of the scores as they stood before that last click. This project models the engine inside the `Quiz` component (`mini-app/components/quiz.tsx`):

- the question bank;
- the shuffle that runs once on mount and reorders each question's answers with a Fisher-Yates pass over a copied array;
- the per-house score record and the history of chosen houses;
- the index of the current question;
- the three-tier tie-break that picks the result;
- `retake`;
- the choice of what to render.

Modules, one per part of the component:

- `QuizData` (`quiz_data.dfy`): the `House`, `Answer` and `Question` types, the order in which the score record lists its keys, and the five-question bank.
- `Shuffle` (`shuffle.dfy`): the `shuffle` helper. It is a method that copies the answers into a fresh array and runs the swap loop on it. The method is proved equal to the specification function `FisherYates`. The file also holds lemmas about that function and the `questions.map(...)` step that builds the shuffled bank.
- `Scores` (`scores.dfy`): the score record, as four fields (one per house), and the history it tallies.
- `TieBreak` (`tie_break.dfy`): the maximum score, the top houses in record order, and the resolution.
- `QuizSession` (`session.dfy`): the component's state as the class `Session`. Its mutable fields are `current`, `scores`, `selected`, `showResult`, `house` and `shuffled`. Its methods are the mount effect (`Shuffle`), `handleAnswer` (`HandleAnswer`) and `retake` (`Retake`). `View` is the render-time lookup of `shuffled[current]`.

Randomness becomes explicit input:

- The call `Math.floor(Math.random() * (i + 1))` in the shuffle loop becomes draw `i` of a sequence `js`, with `js[i] <= i`. The loop never draws for `i == 0`, so that entry is forced to 0.
- The random fallback index `Math.floor(Math.random() * topHouses.length)` becomes a parameter `pick < |TopHouses(scores)|` of `HandleAnswer`.

Behaviour of the code worth noting:

- **Stale snapshot at resolution.** `handleAnswer` schedules the score increment and the history append (lines 112-116). It then resolves using the `scores` and `selected` values its closure captured, which do not include this click (lines 122 and 132). `HandleAnswer` therefore stores `Bump(old(scores), ans.house)` and `old(selected) + [ans.house]`, but resolves with `Resolve(old(scores), old(selected), pick)`. Two consequences:
  - The "last answer" used by the second tier is the previous click's house.
  - With a one-question bank the history is empty, so the second tier never applies.

  `TieBreak.ResolveWithinOneOfFinalMax` shows that the shown house is at most one point below the stored maximum. `TieBreak.StaleSnapshotExample` and `QuizSession.LastClickAfterFourWayTie` show that the point can matter: the answers Gryffindor, Hufflepuff, Ravenclaw, Slytherin, Gryffindor end with Gryffindor alone on top, yet the result is Slytherin. The comment on line 131 ("use answer from question 5") shows that the final answer was meant to decide the tie; on the stored record Gryffindor would win here.
- **Retake keeps the shuffle.** `retake` (lines 145-156) resets everything except `shuffled`, which only the mount effect sets (lines 94-109). `Retake` has `shuffled == old(shuffled)` in its contract.
- **No answer check.** `handleAnswer` does not check that the answer belongs to the current question. `HandleAnswer` takes any `Answer` and does not check either.
- **Nothing to show before the shuffle.** Before the shuffle has run (and for an empty bank) the component renders nothing (line 158). `View` returns `Blank` in that case.

Invariant the session keeps (`Session.Valid`):

- the scores are exactly the counts of the history;
- a result is shown exactly when a house is set;
- the shuffled bank is either empty or the bank with each question's answers permuted;
- while a question is shown, `current == |selected| < |shuffled|`;
- once the result is shown, `|selected| == |shuffled| == current + 1`.

## Model

| member | source | states |
|---|---|---|
| `QuizData.Rank` | mini-app/components/quiz.tsx:81-86 | each house has a position in the record's key order Gryffindor, Hufflepuff, Ravenclaw, Slytherin, and that order lists it there |
| `QuizData.BankOffersEachHouseOnce` | mini-app/components/quiz.tsx:20-66 | the bank has five questions, each with four answers, one per house, listed in record order |
| `Shuffle.Steps` | mini-app/components/quiz.tsx:97-100 | the definition of the loop's steps i down to 1 (step k swaps k with draw k); it keeps the length, and `StepsPermute`, `StepsKeepAbove`, `StepsReadDrawsUpTo`, `StepsReach` and `StepsInjective` prove its properties |
| `Shuffle.FisherYates` | mini-app/components/quiz.tsx:96-101 | the definition of the whole shuffle, steps length-1 down to 1; it keeps the length, and `FisherYatesPermutes`, `FisherYatesReachesEveryOrder` and `FisherYatesInjective` prove its properties |
| `Shuffle.SwapAt` | mini-app/components/quiz.tsx:99 | the destructuring swap exchanges positions i and j and keeps every other position |
| `Shuffle.SwapPermutes` | mini-app/components/quiz.tsx:99 | a swap keeps the multiset of elements |
| `Shuffle.ShuffleAnswers` | mini-app/components/quiz.tsx:95-102 | the loop over the copied array returns `FisherYates(arr, js)`, a sequence of the same length and multiset as the input; the input is a value and stays unchanged |
| `Shuffle.StepsPermute` | mini-app/components/quiz.tsx:97-100 | the swap steps from any i down to 1 keep length and multiset |
| `Shuffle.FisherYatesPermutes` | mini-app/components/quiz.tsx:97-100 | the whole shuffle returns a permutation of its input |
| `Shuffle.StepsKeepAbove` | mini-app/components/quiz.tsx:97-100 | steps i..1 never change a position above i, so step k fixes position k for good |
| `Shuffle.StepsReadDrawsUpTo` | mini-app/components/quiz.tsx:97-98 | steps i..1 depend only on the draws at positions 0..i |
| `Shuffle.StepsReach` | mini-app/components/quiz.tsx:97-100 | for any rearrangement t of s that agrees with s above i, some valid draws make steps i..1 turn s into t |
| `Shuffle.FisherYatesReachesEveryOrder` | mini-app/components/quiz.tsx:97-100 | every permutation of the answers is the result for some valid draws |
| `Shuffle.StepsInjective` | mini-app/components/quiz.tsx:97-100 | on distinct elements, the result of steps i..1 determines the draws at 1..i |
| `Shuffle.FisherYatesInjective` | mini-app/components/quiz.tsx:97-100 | on pairwise distinct answers, different draws give different orders; with `FisherYatesReachesEveryOrder`, draws and orders of distinct answers correspond one to one |
| `Shuffle.ShuffledBank` | mini-app/components/quiz.tsx:103-108 | the definition of the shuffled bank, each question's answers shuffled by its own draws; it keeps the bank's length, and `ShuffledBankKeepsQuestions`, `ShuffledBankReachesEveryOrder` and `ShuffledBankInjective` prove its properties |
| `Shuffle.ShuffledBankKeepsQuestions` | mini-app/components/quiz.tsx:103-108 | the shuffled bank has the bank's length and question order; each question keeps its prompt and the multiset of its answers |
| `Shuffle.ShuffledBankReachesEveryOrder` | mini-app/components/quiz.tsx:103-108 | every per-question reordering of the answers is the shuffled bank for some valid draws |
| `Shuffle.BankAnswersDistinct` | mini-app/components/quiz.tsx:20-66 | no two answers of a bank question are equal, since each scores for a different house |
| `Shuffle.ShuffledBankInjective` | mini-app/components/quiz.tsx:103-108 | on a bank whose questions have distinct answers, equal shuffled banks come from equal draws |
| `Shuffle.QuestionsShuffleOneToOne` | mini-app/components/quiz.tsx:20-66 | for the fixed bank, different draws give different shuffled banks; with `ShuffledBankReachesEveryOrder`, draws and shuffled banks correspond one to one |
| `Shuffle.ShuffleQuestions` | mini-app/components/quiz.tsx:103-108 | mapping the shuffle over the bank yields `ShuffledBank(bank, draws)`, which keeps the bank's questions |
| `Scores.Score` | mini-app/components/quiz.tsx:81-86 | the definition of `scores[h]`, the field of the record for house h, on which every score property below is stated |
| `Scores.Count` | mini-app/components/quiz.tsx:112-116 | the definition of how often a house occurs in the history, at most the history's length; `CountAppend` and `CountsAddUp` prove its properties |
| `Scores.Bump` | mini-app/components/quiz.tsx:112-115 | the chosen house's score goes up by exactly one and the other three stay as they were |
| `Scores.CountAppend` | mini-app/components/quiz.tsx:116 | appending a house to the history counts that house once more and no other |
| `Scores.ZeroTalliesEmpty` | mini-app/components/quiz.tsx:81-87 | the all-zero record tallies the empty history |
| `Scores.BumpKeepsTally` | mini-app/components/quiz.tsx:112-116 | incrementing a house while appending it to the history keeps the record a tally of the history |
| `Scores.CountsAddUp` | mini-app/components/quiz.tsx:116 | the four house counts of a history add up to its length |
| `Scores.TallySum` | mini-app/components/quiz.tsx:112-116 | a record that tallies a history sums to the history's length |
| `TieBreak.MaxScore` | mini-app/components/quiz.tsx:122 | the maximum is at least every house's score and is some house's score |
| `TieBreak.WithScore` | mini-app/components/quiz.tsx:123-125 | the definition of the filter over a list of houses, no longer than its input; `WithScoreMembers` and `WithScoreOrdered` prove its properties |
| `TieBreak.TopHouses` | mini-app/components/quiz.tsx:123-125 | the definition of `topHouses`, the filter over the record's keys in key order, at most four houses; `TopHousesMembers`, `TopHousesShape`, `TopHousesUnfold` and `SingleTopHouse` prove its properties |
| `TieBreak.WithScoreMembers` | mini-app/components/quiz.tsx:123-125 | the filter keeps a house exactly when it appears in the input and has the wanted score |
| `TieBreak.WithScoreOrdered` | mini-app/components/quiz.tsx:123-125 | the filter keeps the input's order, so houses in key order stay in key order without repeats |
| `TieBreak.TopHousesMembers` | mini-app/components/quiz.tsx:123-125 | a house is a top house exactly when its score equals the maximum |
| `TieBreak.TopHousesShape` | mini-app/components/quiz.tsx:122-125 | there is at least one top house, and the top houses are in record order without repeats |
| `TieBreak.TopHousesUnfold` | mini-app/components/quiz.tsx:123-125 | the top houses are the houses at the maximum, listed Gryffindor, Hufflepuff, Ravenclaw, Slytherin |
| `TieBreak.SingleTopHouse` | mini-app/components/quiz.tsx:128-129 | the top houses are exactly `[h]` if and only if h beats every other house |
| `TieBreak.Last` | mini-app/components/quiz.tsx:132 | `selected[selected.length - 1]`: present exactly when the history is not empty, and then an entry of the history; absent (`undefined`, matching no house) otherwise |
| `TieBreak.Resolve` | mini-app/components/quiz.tsx:127-139 | the resolved house is one of the top houses |
| `TieBreak.ResolveHasMaxScore` | mini-app/components/quiz.tsx:122-139 | the resolved house has the maximum score in every tier, random fallback included |
| `TieBreak.ResolveUniqueMax` | mini-app/components/quiz.tsx:128-129 | a house that beats all others is the result whatever the history and the random pick |
| `TieBreak.ResolveTieFavoursLast` | mini-app/components/quiz.tsx:130-134 | in a tie, the last entry of the history wins when it has the maximum score |
| `TieBreak.ResolveTieFallback` | mini-app/components/quiz.tsx:135-138 | in a tie with an empty history, or a last entry below the maximum, the result is the top house at the random index |
| `TieBreak.ResolveWithinOneOfFinalMax` | mini-app/components/quiz.tsx:112-141 | resolving on the pre-click record leaves the result at most one point below the maximum of the record that is stored |
| `TieBreak.StaleSnapshotExample` | mini-app/components/quiz.tsx:112-141 | after Gryffindor, Hufflepuff, Ravenclaw, Slytherin, a final Gryffindor leaves Gryffindor alone on top of the stored record, yet every pick resolves the pre-click tie to Slytherin |
| `QuizSession.Session.Valid` | mini-app/components/quiz.tsx:80-156 | the definition of the invariant the constructor and the three handlers keep: the scores tally the history, a result is shown exactly when a house is set, the shuffled bank is empty or the bank reordered per question, and the index follows the history |
| `QuizSession.Session.constructor` | mini-app/components/quiz.tsx:80-92 | initial state: index 0, all scores 0, empty history, no result, no house, empty shuffled bank; the invariant holds |
| `QuizSession.Session.Shuffle` | mini-app/components/quiz.tsx:94-109 | the mount effect stores `ShuffledBank(bank, draws)`, changes no other field and keeps the invariant |
| `QuizSession.Session.HandleAnswer` | mini-app/components/quiz.tsx:111-143 | the stored score of the answer's house goes up by one; its house is appended to the history; the index advances without a result if a question remains, otherwise it stays put and the result becomes `Resolve` of the pre-click scores and history; the shuffle is untouched; the invariant is kept |
| `QuizSession.Session.Retake` | mini-app/components/quiz.tsx:145-156 | index 0, all scores 0, empty history, no result, no house; the shuffled bank is kept unchanged |
| `QuizSession.Session.View` | mini-app/components/quiz.tsx:158-179 | nothing is rendered exactly when the bank is not shuffled; the result is rendered exactly when it is set; otherwise the question shown is `shuffled[current]` with `current < |shuffled|`, and it has the bank's prompt and answers at that index |
| `QuizSession.Session.ScoresSumToAnswers` | mini-app/components/quiz.tsx:112-116 | in every reachable state the four scores add up to the number of answers given |
| `QuizSession.LastClickAfterFourWayTie` | mini-app/components/quiz.tsx:111-141 | from the history Gryffindor, Hufflepuff, Ravenclaw, Slytherin, a final Gryffindor click stores Gryffindor alone on top and shows Slytherin |

## Left out

- Rendering: the JSX, the `Button` and `Share` components, CSS classes, the image path built with `house.toLowerCase()`, and the share message (lines 160-191). These are presentation and foreign components.
- `houseDescriptions` (lines 68-77). It is static display text with nothing to verify.
- `mini-app/app/page.tsx` is not part of this model. It only lays out the page and re-exports metadata.
- Uniformity of the shuffle and of the random fallback pick. `Math.random` and `Math.floor` are floating-point probability and are replaced by explicit draws with range preconditions. The deterministic half of uniformity is proved: on answers that are pairwise distinct, draws and orders correspond one to one (`FisherYatesReachesEveryOrder`, `FisherYatesInjective`). The fixed bank's answers are distinct (`BankAnswersDistinct`), so for it draws and shuffled banks correspond one to one (`ShuffledBankReachesEveryOrder`, `QuestionsShuffleOneToOne`).
- React scheduling. Deferred state updates and the effect's dependency list are modelled only through their observable effect: each click applies its updates once, the resolution reads the pre-click snapshot, and the shuffle runs when `Shuffle` is called.
