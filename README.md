# Memory-match game: a Dafny model of the game logic

This project models the game logic of a browser memory-match ("concentration")
game with three levels (1, 285 and 28285). All of that logic lives in
`components/Game.tsx`. The model covers:

- **Deck construction** (`deck.dfy`, module `Deck`): `getCards` samples
  `columns * rows / 2` images from the level's pool without replacement,
  doubles them into pairs, shuffles them with `fisherYatesShuffle`, and deals
  them face down. `Math.random` is replaced by injected choices:
  - `picks[k]` is the index spliced out of the remaining pool at draw `k`;
  - `swaps[i]` is the index swapped with `i` at the shuffle step for `i`.
- **Cards** (`cards.dfy`, module `Cards`): the `CardProps` record, counting
  cards by match state ('normal', 'duty', 'cleared'), and the whole-deck
  `cards.map(...)` updates that the transitions apply.
- **Levels and the title screen** (`levels.dfy`, module `Levels`): the
  `levelConfigs` table, the unlock rule for level 28285, and the `Game`
  component's `level` / `clearedLevel` state as a class.
- **The rules of a round** (`rules.dfy`, module `Rules`): the game states, the
  status message, the score, and the invariant of the board. The invariant
  says:
  - what face and clickability every card has in each state;
  - which positions are picked;
  - that cleared cards come in disjoint pairs with equal images;
  - that `moveCount` counts the completed attempts.

  One lemma per transition shows that the transition keeps this invariant.
- **The round** (`round.dfy`, module `Round`): the `GameCore` component as a
  class with the source's state fields. Its methods:
  - `Step` is one run of the `useEffect` switch;
  - `Tick` is the countdown's timeout firing;
  - `Click(i)` is `onCardClicked` on the card at position `i`.

  Every method keeps `Valid()`. Ghost fields record the dealt images, the
  picked positions, the matched pairs, the number of missed attempts and the
  audio cues played.

Each handler is modelled as one atomic update of the round's fields. Clock
readings (`Date.now`) are parameters of `Tick` and `Step`.

The code differs from the written design in a few places, and the model
follows the code:
- **A pool with too few images.** The code does not fail: `splice` on an
  exhausted pool yields `undefined`, so those draws deal pairs of cards
  without an image. `frontImage` is therefore `Option<Image>`; see
  `DealShortPool`.
- **Par values.** The score's par values are fixed at 8 moves and 16 seconds
  for every level.
- **Rounding.** The score is not rounded.
- **Level 28285.** It is unlocked by the *last* cleared level, not the highest
  one.
- **Best scores.** Nothing in this code persists best scores.

## Model

| member | source | states |
|---|---|---|
| Cards.WithStateMembers | components/Game.tsx:173 | `filter(c => c.state === st)` keeps a card exactly when it is in the deck and in state `st` |
| Cards.CountPartition | components/Game.tsx:270-276 | every card is in exactly one of the states normal, duty and cleared: the three counts add up to the deck size |
| Cards.DutyPair | components/Game.tsx:173-174 | when exactly the cards at two distinct positions are 'duty', the filtered list has two entries whose images differ exactly when the images at those positions differ |
| Cards.EnableFaceDown | components/Game.tsx:164 | images and per-state counts are unchanged; every card is selectable exactly when it is face down |
| Cards.Reveal | components/Game.tsx:205-214 | images are unchanged; turning a 'normal' card moves one card from the normal count to the duty count |
| Cards.ShowMismatch | components/Game.tsx:176 | images and all per-state counts are unchanged |
| Cards.ClearDuty | components/Game.tsx:180 | images are unchanged; no 'duty' card remains; the cleared count grows by the former duty count; the normal count is unchanged |
| Cards.ResetDuty | components/Game.tsx:217 | images are unchanged; no 'duty' card remains; the duty cards rejoin the normal count; the cleared count is unchanged |
| Levels.LevelConfigOf | components/Game.tsx:114-130 | every grid holds an even number of cells, i.e. a whole number of pairs, and at least four pairs |
| Levels.IsLevel28285Unlocked | components/Game.tsx:36 | `(clearedLevel ?? 0) >= 285` holds exactly when the cleared level is 285 or 28285 |
| Levels.Game.constructor | components/Game.tsx:16-17 | the title screen starts with no level in play and none cleared |
| Levels.Game.SelectLevel | components/Game.tsx:35-60 | a level button starts that level, except that the 28285 button does nothing while that level is locked |
| Levels.Game.OnCleared | components/Game.tsx:19-21 | the cleared level becomes the level just played (overwritten, not a maximum) and the title screen returns |
| Deck.SwapPermutes | components/Game.tsx:87 | a swap only reorders the array |
| Deck.ShuffleDown | components/Game.tsx:85-88 | the shuffle steps from a given index down keep the length |
| Deck.ShuffleDownPermutes | components/Game.tsx:85-88 | the shuffle steps from a given index down are a permutation, for every choice of `j` in `[0, i]` |
| Deck.ShuffledPermutes | components/Game.tsx:84-90 | the whole shuffle has the same length and the same multiset of elements |
| Deck.FisherYatesShuffle | components/Game.tsx:84-90 | the loop leaves the array equal to the specification `Shuffled` of its old contents, and a permutation of them |
| Deck.Without | components/Game.tsx:96 | `splice(index, 1)` leaves one element fewer, drawn from the pool; in a pool without repeats the removed image is gone |
| Deck.Sample | components/Game.tsx:93-97 | one draw per pick; a draw yields an image exactly while the pool is not exhausted, and that image is from the pool |
| Deck.PicksAfterDraw | components/Game.tsx:95-96 | after a draw the remaining index choices fit the remaining pool |
| Deck.SampleDistinct | components/Game.tsx:93-97 | with a pool without repeats, at least as large as the number of draws, no image is drawn twice |
| Deck.SampleImages | components/Game.tsx:93-97 | the splicing loop over a working copy of the pool computes `Sample` |
| Deck.GetCards | components/Game.tsx:92-106 | exactly `columns * rows` cards, all face down, not selectable and 'normal', equal to `Deal` of the injected choices |
| Deck.DealDoubles | components/Game.tsx:99-105 | the dealt images are the drawn images, each exactly twice as a multiset |
| Deck.DealPairs | components/Game.tsx:92-106 | with a pool without repeats and large enough, every card shows an image of the pool, and every image on the table occurs on exactly two cards |
| Deck.DealShortPool | components/Game.tsx:94-96 | with a pool smaller than the number of draws there is no failure: exactly twice the shortfall of cards have no image |
| Rules.ScoreStrictlyDecreases | components/Game.tsx:195 | the score strictly decreases when the move count or the elapsed time grows and neither shrinks |
| Rules.GetMessage | components/Game.tsx:256-267 | the status line is empty exactly in `count-down` and `selected` |
| Rules.NoneNormal | components/Game.tsx:181 | `cards.every(c => c.state !== 'normal')` holds exactly when the normal count is zero |
| Rules.PairsKept | components/Game.tsx:164-217 | an update that keeps every image and every cleared card keeps the matched pairs |
| Rules.PairsExtended | components/Game.tsx:180 | clearing two uncleared cards with equal images adds them as a new disjoint pair |
| Rules.DealtBoardFits | components/Game.tsx:141-142 | a fresh deal is a valid board in `init` |
| Rules.OpenBoardFits | components/Game.tsx:163-168 | after the last tick every card is face down, 'normal' and selectable, and the board is valid in `select1` |
| Rules.FirstPickFits | components/Game.tsx:205-208 | a selectable card in `select1` is face down and 'normal'; revealing it gives a valid `select2` board with that card the one duty card |
| Rules.SecondPickFits | components/Game.tsx:210-214 | a selectable card in `select2` is 'normal' and not the first pick; revealing it gives a valid `selected` board with one more move |
| Rules.EvaluationSeesPicks | components/Game.tsx:172-174 | in `selected` the duty filter has two entries, and its image test compares exactly the two picked cards' images |
| Rules.MissFits | components/Game.tsx:174-177 | a miss gives a valid `failed` board, with the same picks and one more missed attempt |
| Rules.MatchFits | components/Game.tsx:178-187 | a match adds the picked pair to the cleared pairs and gives a valid board in `result` if no card was 'normal', otherwise in `select1` |
| Rules.AcknowledgeFits | components/Game.tsx:216-219 | the click after a miss gives a valid `select1` board with no picks |
| Round.GameCore.constructor | components/Game.tsx:140-148 | a new round is valid, in `init`, with the dealt cards, no countdown, no clock readings, no result and no moves |
| Round.GameCore.Tick | components/Game.tsx:159-170 | counts 3, 2, 1 down; the tick at 1 clears the countdown, makes every card face down and selectable, records the start time and enters `select1`; outside the countdown nothing changes |
| Round.GameCore.Step | components/Game.tsx:153-201 | `init` starts the countdown at 3; `selected` evaluates the pair; `result` finishes the round; every other state is left unchanged; the move count never changes |
| Round.GameCore.Start | components/Game.tsx:155-158 | `init` sets the countdown to 3 and enters `count-down` |
| Round.GameCore.Evaluate | components/Game.tsx:172-188 | two duty cards with different images give `failed` with `ShowMismatch`; otherwise `ClearDuty`, and `result` exactly when no card was 'normal', else `select1` |
| Round.GameCore.Miss | components/Game.tsx:174-177 | `failed`, both picked cards selectable, the miss cue played, moves unchanged |
| Round.GameCore.Match | components/Game.tsx:178-187 | duty cards cleared, the match cue played, `result` exactly when no card was 'normal', else `select1` |
| Round.GameCore.Finish | components/Game.tsx:189-198 | the end time is taken once and kept on a re-run, the clock stops, and the result holds the moves, the elapsed time and its score |
| Round.GameCore.Click | components/Game.tsx:203-222 | a click on a non-selectable card, or in any state but `select1`, `select2` and `failed`, changes nothing; otherwise the pick, second pick or reset below |
| Round.GameCore.FirstPick | components/Game.tsx:205-209 | exactly the clicked card turns face up, unselectable and 'duty'; `select2`; moves unchanged |
| Round.GameCore.SecondPick | components/Game.tsx:210-215 | the same for the second card, the move count grows by exactly 1, `selected` |
| Round.GameCore.Acknowledge | components/Game.tsx:216-220 | every picked card is back face down, selectable and 'normal' with its image; `select1`; moves unchanged |
| Round.FinishedRoundMoves | components/Game.tsx:210-214 | a finished round took at least one move per pair, and exactly one per pair exactly when no attempt missed |
| Round.CanAlwaysClick | components/Game.tsx:203-222 | in `select1`, `select2` and `failed` some card can be clicked, so the round never gets stuck |

Two further members are scenario methods without a contract:
- `Levels.RelockScenario`: clearing level 285 unlocks level 28285, and clearing
  level 1 afterwards locks it again.
- `Round.CountDownScenario`: from a new round, `init` and three ticks open the
  board.

## Left out

- Rendering is not modelled: JSX layout, CSS class names (including each level's
  `className`), the `Card` and `Time` components, and `gsap`. They are
  presentation only.
- Audio playback (`useSound`) is a foreign call. It is recorded only as the
  ghost log `cues`.
- Timers and clocks:
  - `setTimeout` scheduling is replaced by the explicit `Tick` event.
  - `Date.now` readings are the `now` parameters.
  - `requestAnimationFrame` and the `getUTCHours/...` time string are not
    modelled; the result records the elapsed milliseconds instead.
- Rules.Score: computed in `real` arithmetic. JavaScript's floating-point
  result is not reproduced bit for bit.
- React state batching and stale closures are not modelled: each handler is one
  atomic update. The `isAllCleared` test reads the cards from before the
  update, as the code does; this gives the same answer, because 'duty' cards
  are not 'normal'.
- A click is delivered as the card's position. The code finds the clicked card
  by object identity (`c === card`); every card is a distinct object, so that
  selects exactly one position. The `disabled` attribute of a card's button
  (line 283) becomes the `isSelectable` test in `Click`.
- The `Math.random` distribution is not modelled. All index choices allowed by
  `ValidPicks` and `ValidSwaps` are covered.
- Deck.FisherYatesShuffle: an empty array returns before the loop. The code's
  loop does not run either, so the result is the same.
- Best-score persistence, the "return to menu" timer cleanup and the
  InsufficientImages failure of the written design are not in this code.
- `pages/index.tsx` (page metadata and `getStaticProps`) is not part of this
  model.
- `components/imageSources.ts` (a directory listing) is not part of this model.
  The image pools are parameters.
