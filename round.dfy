/** One round of the memory-match game: the `GameCore` component of
    components/Game.tsx (lines 132-267) as a state machine.

    - `Step` is one run of the effect that reacts to a new `state`
      (lines 153-201): `init` starts the countdown, `selected` evaluates the two
      picked cards, `result` records the end time and the score.
    - `Tick` is the countdown's one-second timeout firing (lines 160-170).
    - `Click` is `onCardClicked` on the card at a given position (lines 203-222).

    Each handler is one atomic update. Clock readings are parameters; the
    audio cues are recorded in a ghost log. */
module Round {
  import opened Cards
  import opened Levels
  import opened Deck
  import opened Rules

  class GameCore {
    const level: Level
    var state: GameState
    var cards: seq<Card>
    var countDown: Option<int>
    var isPlaying: bool
    var startedAt: Option<int>
    var endedAt: Option<int>
    var moveCount: nat
    var result: Option<RoundResult>

    /** The images as dealt. */
    ghost const deck: seq<Option<Image>>
    /** The positions picked in the current attempt, in click order. */
    ghost var picked: seq<nat>
    /** The matched position pairs, in the order they were cleared. */
    ghost var pairs: seq<(nat, nat)>
    /** Completed attempts that missed. */
    ghost var misses: nat
    /** The audio cues played so far. */
    ghost var cues: seq<Cue>

    /** The invariant of every reachable state of a round; the dealt images
        never change. */
    ghost predicate Valid()
      reads this
    {
      Images(cards) == deck &&
      BoardFits(state, cards, picked, pairs, misses, moveCount) &&
      TimingFits(state, countDown, isPlaying, startedAt, endedAt, moveCount, result)
    }

    /* The transition lemmas of `Rules`, read on the fields of a valid round. */

    lemma OpenKeeps()
      requires Valid() && state == CountDown
      ensures BoardFits(Select1, EnableFaceDown(cards), picked, pairs, misses, moveCount)
      ensures var r := EnableFaceDown(cards);
              forall k :: 0 <= k < |r| ==> !r[k].isFront && r[k].isSelectable && r[k].state == Normal
    {
      OpenBoardFits(cards, picked, pairs, misses, moveCount);
    }

    lemma FirstPickKeeps(i: nat)
      requires Valid() && state == Select1 && i < |cards| && cards[i].isSelectable
      ensures BoardFits(Select2, Reveal(cards, i), [i], pairs, misses, moveCount)
    {
      FirstPickFits(cards, picked, pairs, misses, moveCount, i);
    }

    lemma SecondPickKeeps(i: nat)
      requires Valid() && state == Select2 && i < |cards| && cards[i].isSelectable
      ensures BoardFits(Selected, Reveal(cards, i), picked + [i], pairs, misses, moveCount + 1)
    {
      SecondPickFits(cards, picked, pairs, misses, moveCount, i);
    }

    lemma EvaluationKeeps()
      requires Valid() && state == Selected
      ensures var d := WithState(cards, Duty);
              |d| == 2 &&
              (d[0].frontImage != d[1].frontImage <==> cards[picked[0]].frontImage != cards[picked[1]].frontImage)
    {
      EvaluationSeesPicks(cards, picked, pairs, misses, moveCount);
    }

    lemma MissKeeps()
      requires Valid() && state == Selected
      ensures BoardFits(Failed, ShowMismatch(cards), picked, pairs, misses + 1, moveCount)
    {
      MissFits(cards, picked, pairs, misses, moveCount);
    }

    lemma MatchKeeps()
      requires Valid() && state == Selected
      requires cards[picked[0]].frontImage == cards[picked[1]].frontImage
      ensures BoardFits(if NoneNormal(cards) then Result else Select1, ClearDuty(cards), [],
                        pairs + [(picked[0], picked[1])], misses, moveCount)
    {
      MatchFits(cards, picked, pairs, misses, moveCount);
    }

    lemma AcknowledgeKeeps()
      requires Valid() && state == Failed
      ensures BoardFits(Select1, ResetDuty(cards), [], pairs, misses, moveCount)
      ensures forall k :: k in picked ==> k < |cards| && cards[k].state == Duty
    {
      AcknowledgeFits(cards, picked, pairs, misses, moveCount);
    }

    /** A new round deals its cards with `getCards` for the level's pool and
        grid and waits in `init`. */
    constructor (level: Level, images: LevelImages, picks: seq<nat>, swaps: seq<nat>)
      requires |picks| == PairCount(LevelConfigOf(level))
      requires ValidPicks(ImagesFor(images, level), picks) && ValidSwaps(swaps, 2 * |picks|)
      ensures Valid()
      ensures this.level == level && state == Init && moveCount == 0
      ensures cards == Deal(ImagesFor(images, level), picks, swaps)
      ensures countDown == None && startedAt == None && endedAt == None && result == None && !isPlaying
    {
      var dealt := GetCards(ImagesFor(images, level), LevelConfigOf(level), picks, swaps);
      DealtBoardFits(dealt);
      this.level := level;
      state := Init;
      cards := dealt;
      countDown := None;
      isPlaying := false;
      startedAt := None;
      endedAt := None;
      moveCount := 0;
      result := None;
      deck := Images(dealt);
      picked := [];
      pairs := [];
      misses := 0;
      cues := [];
    }

    /** The countdown's timeout: counts 3, 2, 1 down; the tick at 1 ends the
        countdown, lets every face-down card be clicked, starts the clock and
        asks for the first card. There is no timeout outside the countdown. */
    method Tick(now: int)
      requires Valid()
      modifies this
      ensures Valid()
      ensures moveCount == old(moveCount) && endedAt == old(endedAt) && result == old(result)
      ensures old(state) != CountDown ==>
                state == old(state) && cards == old(cards) && countDown == old(countDown) &&
                startedAt == old(startedAt) && isPlaying == old(isPlaying)
      ensures old(state) == CountDown && old(countDown).value > 1 ==>
                state == CountDown && cards == old(cards) && countDown == Some(old(countDown).value - 1) &&
                startedAt == old(startedAt) && isPlaying == old(isPlaying)
      ensures old(state) == CountDown && old(countDown).value <= 1 ==>
                state == Select1 && cards == EnableFaceDown(old(cards)) && countDown == None &&
                startedAt == Some(now) && isPlaying &&
                forall k :: 0 <= k < |cards| ==> !cards[k].isFront && cards[k].isSelectable && cards[k].state == Normal
    {
      if state == CountDown {
        if countDown.Some? && countDown.value > 1 {
          countDown := Some(countDown.value - 1);
        } else {
          OpenKeeps();
          cards := EnableFaceDown(cards);
          countDown := None;
          startedAt := Some(now);
          isPlaying := true;
          state := Select1;
        }
      }
    }

    /** The effect run for the current state. `now` is the clock reading
        used if the round has just ended. */
    method Step(now: int)
      requires Valid()
      modifies this
      ensures Valid()
      ensures moveCount == old(moveCount)
      ensures old(state) == Init ==>
                state == CountDown && countDown == Some(3) && cards == old(cards) &&
                startedAt == old(startedAt) && endedAt == old(endedAt) && result == old(result)
      ensures old(state) == Selected ==>
                countDown == old(countDown) && startedAt == old(startedAt) &&
                endedAt == old(endedAt) && result == old(result) &&
                var d := WithState(old(cards), Duty);
                if |d| == 2 && d[0].frontImage != d[1].frontImage
                then state == Failed && cards == ShowMismatch(old(cards))
                else cards == ClearDuty(old(cards)) &&
                     (state == Result <==> NoneNormal(old(cards))) &&
                     (state == Result || state == Select1)
      ensures old(state) == Result ==>
                state == Result && cards == old(cards) && !isPlaying && startedAt == old(startedAt) &&
                endedAt == Some(if old(endedAt).Some? then old(endedAt).value else now) &&
                result == Some(RoundResult(moveCount, endedAt.value - startedAt.value,
                                           Score(moveCount, endedAt.value - startedAt.value)))
      ensures old(state) in {CountDown, Select1, Select2, Failed} ==>
                state == old(state) && cards == old(cards) && countDown == old(countDown) &&
                startedAt == old(startedAt) && endedAt == old(endedAt) && result == old(result)
    {
      match state {
        case Init =>
          Start();
        case Selected =>
          Evaluate();
        case Result =>
          Finish(now);
        case _ =>
      }
    }

    /** The `init` case: the countdown starts at 3. */
    method Start()
      requires Valid() && state == Init
      modifies this
      ensures Valid()
      ensures state == CountDown && countDown == Some(3) && cards == old(cards) && moveCount == old(moveCount)
      ensures startedAt == old(startedAt) && endedAt == old(endedAt) && result == old(result)
      ensures isPlaying == old(isPlaying)
    {
      assert BoardFits(CountDown, cards, picked, pairs, misses, moveCount);
      countDown := Some(3);
      state := CountDown;
    }

    /** The `selected` case: two different images are a miss, shown until
        the next click; otherwise the duty cards are cleared, and the round
        ends if no card was left in play. */
    method Evaluate()
      requires Valid() && state == Selected
      modifies this
      ensures Valid()
      ensures moveCount == old(moveCount) && countDown == old(countDown) && startedAt == old(startedAt)
      ensures endedAt == old(endedAt) && result == old(result) && isPlaying == old(isPlaying)
      ensures var d := WithState(old(cards), Duty);
              if |d| == 2 && d[0].frontImage != d[1].frontImage
              then state == Failed && cards == ShowMismatch(old(cards))
              else cards == ClearDuty(old(cards)) &&
                   (state == Result <==> NoneNormal(old(cards))) &&
                   (state == Result || state == Select1)
      ensures cues == old(cues) + [if state == Failed then Nan else Okkei]
    {
      var duty := WithState(cards, Duty);
      EvaluationKeeps();
      if |duty| == 2 && duty[0].frontImage != duty[1].frontImage {
        Miss();
      } else {
        Match();
      }
    }

    /** Two different images: both picked cards stay face up and become
        clickable until the acknowledging click. */
    method Miss()
      requires Valid() && state == Selected
      requires cards[picked[0]].frontImage != cards[picked[1]].frontImage
      modifies this
      ensures Valid()
      ensures state == Failed && cards == ShowMismatch(old(cards)) && moveCount == old(moveCount)
      ensures cues == old(cues) + [Nan]
      ensures countDown == old(countDown) && startedAt == old(startedAt)
      ensures endedAt == old(endedAt) && result == old(result) && isPlaying == old(isPlaying)
    {
      MissKeeps();
      cues := cues + [Nan];
      cards := ShowMismatch(cards);
      misses := misses + 1;
      state := Failed;
    }

    /** Equal images: the picked cards are cleared, and the round ends if no
        card was left in play (`isAllCleared` is read on the cards before they
        are cleared). */
    method Match()
      requires Valid() && state == Selected
      requires cards[picked[0]].frontImage == cards[picked[1]].frontImage
      modifies this
      ensures Valid()
      ensures cards == ClearDuty(old(cards)) && moveCount == old(moveCount)
      ensures state == (if NoneNormal(old(cards)) then Result else Select1)
      ensures cues == old(cues) + [Okkei]
      ensures countDown == old(countDown) && startedAt == old(startedAt)
      ensures endedAt == old(endedAt) && result == old(result) && isPlaying == old(isPlaying)
    {
      MatchKeeps();
      cues := cues + [Okkei];
      var i, j := picked[0], picked[1];
      var isAllCleared := NoneNormal(cards);
      cards := ClearDuty(cards);
      pairs := pairs + [(i, j)];
      picked := [];
      if isAllCleared {
        state := Result;
      } else {
        state := Select1;
      }
    }

    /** The `result` case: the end time is taken once (a second run keeps
        it), the clock stops and the result panel is filled in. */
    method Finish(now: int)
      requires Valid() && state == Result
      modifies this
      ensures Valid()
      ensures state == Result && cards == old(cards) && moveCount == old(moveCount)
      ensures countDown == old(countDown) && startedAt == old(startedAt) && !isPlaying
      ensures endedAt == Some(if old(endedAt).Some? then old(endedAt).value else now)
      ensures result == Some(RoundResult(moveCount, endedAt.value - startedAt.value,
                                         Score(moveCount, endedAt.value - startedAt.value)))
    {
      var end := if endedAt.Some? then endedAt.value else now;
      endedAt := Some(end);
      isPlaying := false;
      var elapsed := end - (if startedAt.Some? then startedAt.value else 0);
      result := Some(RoundResult(moveCount, elapsed, Score(moveCount, elapsed)));
    }

    /** `onCardClicked` on the card at `i`. A card that cannot be selected
        has its button disabled, so clicking it does nothing. */
    method Click(i: nat)
      requires Valid() && i < |cards|
      modifies this
      ensures Valid()
      ensures countDown == old(countDown) && startedAt == old(startedAt) && endedAt == old(endedAt)
      ensures isPlaying == old(isPlaying) && result == old(result)
      ensures !old(cards[i].isSelectable) || old(state) !in {Select1, Select2, Failed} ==>
                state == old(state) && cards == old(cards) && moveCount == old(moveCount)
      ensures old(cards[i].isSelectable) && old(state) == Select1 ==>
                state == Select2 && cards == Reveal(old(cards), i) && moveCount == old(moveCount)
      ensures old(cards[i].isSelectable) && old(state) == Select2 ==>
                state == Selected && cards == Reveal(old(cards), i) && moveCount == old(moveCount) + 1
      ensures old(cards[i].isSelectable) && old(state) == Failed ==>
                state == Select1 && cards == ResetDuty(old(cards)) && moveCount == old(moveCount) &&
                forall k :: k in old(picked) ==>
                  cards[k] == Card(old(cards[k].frontImage), false, true, Normal)
    {
      if !cards[i].isSelectable {
        return;
      }
      match state {
        case Select1 => FirstPick(i);
        case Select2 => SecondPick(i);
        case Failed => Acknowledge();
        case _ =>
      }
    }

    /** A first card is turned over. */
    method FirstPick(i: nat)
      requires Valid() && state == Select1 && i < |cards| && cards[i].isSelectable
      modifies this
      ensures Valid()
      ensures state == Select2 && cards == Reveal(old(cards), i) && moveCount == old(moveCount)
      ensures cues == old(cues) + [CardFlip]
      ensures countDown == old(countDown) && startedAt == old(startedAt) && endedAt == old(endedAt)
      ensures isPlaying == old(isPlaying) && result == old(result)
    {
      FirstPickKeeps(i);
      cards := Reveal(cards, i);
      cues := cues + [CardFlip];
      picked := [i];
      state := Select2;
    }

    /** A second card is turned over, completing a move. */
    method SecondPick(i: nat)
      requires Valid() && state == Select2 && i < |cards| && cards[i].isSelectable
      modifies this
      ensures Valid()
      ensures state == Selected && cards == Reveal(old(cards), i) && moveCount == old(moveCount) + 1
      ensures cues == old(cues) + [CardFlip]
      ensures countDown == old(countDown) && startedAt == old(startedAt) && endedAt == old(endedAt)
      ensures isPlaying == old(isPlaying) && result == old(result)
    {
      SecondPickKeeps(i);
      cards := Reveal(cards, i);
      cues := cues + [CardFlip];
      moveCount := moveCount + 1;
      picked := picked + [i];
      state := Selected;
    }

    /** The click after a miss turns both picked cards back face down. */
    method Acknowledge()
      requires Valid() && state == Failed
      modifies this
      ensures Valid()
      ensures state == Select1 && cards == ResetDuty(old(cards)) && moveCount == old(moveCount)
      ensures cues == old(cues) + [CardFlip]
      ensures countDown == old(countDown) && startedAt == old(startedAt) && endedAt == old(endedAt)
      ensures isPlaying == old(isPlaying) && result == old(result)
      ensures forall k :: k in old(picked) ==> cards[k] == Card(old(cards[k].frontImage), false, true, Normal)
    {
      AcknowledgeKeeps();
      cards := ResetDuty(cards);
      cues := cues + [CardFlip];
      picked := [];
      state := Select1;
    }
  }

  /** A finished round took at least one move per pair, and exactly one per
      pair when no attempt missed. */
  lemma FinishedRoundMoves(g: GameCore)
    requires g.Valid() && g.state == Result
    ensures 2 * g.moveCount >= |g.cards|
    ensures 2 * g.moveCount == |g.cards| <==> g.misses == 0
  {
    CountAll(g.cards, Cleared);
  }

  /** A round waiting for a click always has a card that can be clicked. */
  lemma CanAlwaysClick(g: GameCore)
    requires g.Valid() && g.state in {Select1, Select2, Failed}
    ensures exists k :: 0 <= k < |g.cards| && g.cards[k].isSelectable
  {
    var cards := g.cards;
    if g.state == Failed {
      assert CardFits(Failed, cards[g.picked[0]]);
    } else {
      CountZero(cards, Normal);
      var k :| 0 <= k < |cards| && cards[k].state == Normal;
      assert CardFits(g.state, cards[k]);
    }
  }

  /** From a new round: `init` starts the countdown at 3, and the third tick
      opens the board with every card face down and clickable. */
  method CountDownScenario(level: Level, images: LevelImages, picks: seq<nat>, swaps: seq<nat>, t0: int)
    requires |picks| == PairCount(LevelConfigOf(level))
    requires ValidPicks(ImagesFor(images, level), picks) && ValidSwaps(swaps, 2 * |picks|)
  {
    var g := new GameCore(level, images, picks, swaps);
    g.Step(t0);
    assert g.state == CountDown && g.countDown == Some(3);
    g.Tick(t0 + 1000);
    assert g.state == CountDown && g.countDown == Some(2);
    g.Step(t0 + 1000);
    g.Tick(t0 + 2000);
    assert g.state == CountDown && g.countDown == Some(1);
    g.Tick(t0 + 3000);
    assert g.state == Select1 && g.countDown == None && g.startedAt == Some(t0 + 3000);
    assert forall k :: 0 <= k < |g.cards| ==> !g.cards[k].isFront && g.cards[k].isSelectable;
    assert g.moveCount == 0;
  }
}
