/** The rules of a round as pure definitions (components/Game.tsx:132-267):
    its states, the status message, the score, the face and clickability of
    the cards in each state, the invariant of the board, and one lemma per
    transition showing that the transition keeps the invariant. */
module Rules {
  import opened Cards

  datatype GameState = Init | CountDown | Select1 | Select2 | Selected | Failed | Result

  /** `playCardFlip`, `playNan` (a miss) and `playOkkei` (a match). */
  datatype Cue = CardFlip | Nan | Okkei

  /** The result panel: moves, elapsed milliseconds (shown as a time string)
      and score. */
  datatype RoundResult = RoundResult(moveCount: nat, elapsedMs: int, score: real)

  /** The score of a round: 100 at 8 moves and 16 seconds, one point less per
      extra move and per extra 4 seconds (in `real` arithmetic). */
  function Score(moveCount: int, elapsedMs: int): real
  {
    100.0 - (moveCount - 4 * 2) as real - (elapsedMs as real / (1000.0 * 4.0) - 4.0)
  }

  /** More moves or more time never raise the score, and strictly lower it
      when either grows. */
  lemma ScoreStrictlyDecreases(moves1: int, elapsed1: int, moves2: int, elapsed2: int)
    requires moves1 <= moves2 && elapsed1 <= elapsed2
    requires moves1 < moves2 || elapsed1 < elapsed2
    ensures Score(moves2, elapsed2) < Score(moves1, elapsed1)
  {
  }

  /** `getMessage`: the status line; it is empty only while the countdown runs
      and while a pair is being evaluated. */
  function GetMessage(state: GameState): (message: string)
    ensures message == "" <==> state == CountDown || state == Selected
  {
    match state
    case Init => "初期化中..."
    case CountDown => ""
    case Select1 => "カードを選んでね👇"
    case Select2 => "一致するカードを選んでね👇"
    case Selected => ""
    case Failed => "残念！タップして次へ"
    case Result => "終わり🎉"
  }

  /** How many cards are picked ('duty') in each state. */
  function PickedCount(state: GameState): nat
  {
    match state
    case Select2 => 1
    case Selected => 2
    case Failed => 2
    case _ => 0
  }

  /** Before the countdown ends no card can be clicked. */
  predicate BeforePlay(state: GameState)
  {
    state == Init || state == CountDown
  }

  /** The face and clickability a card has in each state of the round. */
  predicate CardFits(state: GameState, c: Card)
  {
    match c.state
    case Normal => !c.isFront && (c.isSelectable <==> !BeforePlay(state))
    case Duty => c.isFront && (c.isSelectable <==> state == Failed)
    case Cleared => c.isFront && !c.isSelectable
  }

  /** No card is face down and in play any more
      (`cards.every(c => c.state !== 'normal')`). */
  function NoneNormal(cards: seq<Card>): (none: bool)
    ensures none <==> Count(cards, Normal) == 0
  {
    CountZero(cards, Normal);
    forall k | 0 <= k < |cards| :: cards[k].state != Normal
  }

  /** Every card has the face and clickability of its match state. */
  predicate CardsFit(state: GameState, cards: seq<Card>)
  {
    forall k :: 0 <= k < |cards| ==> CardFits(state, cards[k])
  }

  /** The picked positions are exactly the 'duty' cards, as many as the
      state says. */
  ghost predicate PickedFit(state: GameState, cards: seq<Card>, picked: seq<nat>)
  {
    |picked| == PickedCount(state) &&
    (forall a :: 0 <= a < |picked| ==> picked[a] < |cards|) &&
    (forall a, b :: 0 <= a < b < |picked| ==> picked[a] != picked[b]) &&
    (forall k :: 0 <= k < |cards| ==> (cards[k].state == Duty <==> k in picked)) &&
    Count(cards, Duty) == |picked|
  }

  /** Two different positions holding cleared cards with equal images. */
  ghost predicate ClearedPair(cards: seq<Card>, pair: (nat, nat))
  {
    pair.0 < |cards| && pair.1 < |cards| && pair.0 != pair.1 &&
    cards[pair.0].state == Cleared && cards[pair.1].state == Cleared &&
    cards[pair.0].frontImage == cards[pair.1].frontImage
  }

  /** Cleared cards come in pairs with equal images: `pairs` lists the
      matched position pairs, which are disjoint and cover every cleared card. */
  ghost predicate PairsFit(cards: seq<Card>, pairs: seq<(nat, nat)>)
  {
    (forall p :: 0 <= p < |pairs| ==> ClearedPair(cards, pairs[p])) &&
    (forall p, q :: 0 <= p < q < |pairs| ==>
       pairs[p].0 != pairs[q].0 && pairs[p].0 != pairs[q].1 &&
       pairs[p].1 != pairs[q].0 && pairs[p].1 != pairs[q].1) &&
    Count(cards, Cleared) == 2 * |pairs|
  }

  /** Moves count the completed attempts, the round ends only with every card
      cleared, and while picking some card is still in play. */
  ghost predicate ProgressFits(state: GameState, cards: seq<Card>, pairs: seq<(nat, nat)>,
                               misses: nat, moveCount: nat)
  {
    moveCount == |pairs| + misses + (if state == Selected then 1 else 0) &&
    (BeforePlay(state) ==> pairs == [] && misses == 0) &&
    (state == Result ==> forall k :: 0 <= k < |cards| ==> cards[k].state == Cleared) &&
    (state == Select1 || state == Select2 ==> Count(cards, Normal) > 0)
  }

  /** The invariant of the board in every reachable state of a round. */
  ghost predicate BoardFits(state: GameState, cards: seq<Card>, picked: seq<nat>, pairs: seq<(nat, nat)>,
                            misses: nat, moveCount: nat)
  {
    |cards| > 0 && |cards| % 2 == 0 &&
    CardsFit(state, cards) &&
    PickedFit(state, cards, picked) &&
    PairsFit(cards, pairs) &&
    ProgressFits(state, cards, pairs, misses, moveCount)
  }

  /** The countdown, the clock readings and the result panel in each state. */
  ghost predicate TimingFits(state: GameState, countDown: Option<int>, isPlaying: bool,
                             startedAt: Option<int>, endedAt: Option<int>, moveCount: nat,
                             result: Option<RoundResult>)
  {
    (state == Init ==> countDown == None) &&
    (state == CountDown ==> countDown.Some? && 1 <= countDown.value <= 3) &&
    (BeforePlay(state) ==> startedAt == None && !isPlaying) &&
    (!BeforePlay(state) ==> countDown == None && startedAt.Some? && (isPlaying <==> result == None)) &&
    (state != Result ==> endedAt == None && result == None) &&
    (endedAt.Some? <==> result.Some?) &&
    (result.Some? ==>
       startedAt.Some? && endedAt.Some? &&
       result.value == RoundResult(moveCount, endedAt.value - startedAt.value,
                                   Score(moveCount, endedAt.value - startedAt.value)))
  }

  /** A card update that keeps every image and every cleared card keeps the
      matched pairs. */
  lemma PairsKept(cards: seq<Card>, r: seq<Card>, pairs: seq<(nat, nat)>)
    requires PairsFit(cards, pairs) && |r| == |cards|
    requires forall k :: 0 <= k < |r| ==> r[k].frontImage == cards[k].frontImage
    requires forall k :: 0 <= k < |r| && cards[k].state == Cleared ==> r[k].state == Cleared
    requires Count(r, Cleared) == Count(cards, Cleared)
    ensures PairsFit(r, pairs)
  {
    forall p | 0 <= p < |pairs| ensures ClearedPair(r, pairs[p]) {
      assert ClearedPair(cards, pairs[p]);
    }
  }

  /** Clearing two equal-image cards that were not cleared adds them as a
      new pair. */
  lemma PairsExtended(cards: seq<Card>, r: seq<Card>, pairs: seq<(nat, nat)>, i: nat, j: nat)
    requires PairsFit(cards, pairs) && |r| == |cards|
    requires forall k :: 0 <= k < |r| ==> r[k].frontImage == cards[k].frontImage
    requires forall k :: 0 <= k < |r| && cards[k].state == Cleared ==> r[k].state == Cleared
    requires i < |cards| && j < |cards| && i != j
    requires cards[i].state != Cleared && cards[j].state != Cleared
    requires r[i].state == Cleared && r[j].state == Cleared
    requires cards[i].frontImage == cards[j].frontImage
    requires Count(r, Cleared) == Count(cards, Cleared) + 2
    ensures PairsFit(r, pairs + [(i, j)])
  {
    var ps := pairs + [(i, j)];
    forall p | 0 <= p < |ps| ensures ClearedPair(r, ps[p]) {
      if p < |pairs| {
        assert ps[p] == pairs[p];
        assert ClearedPair(cards, pairs[p]);
      }
    }
    forall p, q | 0 <= p < q < |ps|
      ensures ps[p].0 != ps[q].0 && ps[p].0 != ps[q].1 && ps[p].1 != ps[q].0 && ps[p].1 != ps[q].1
    {
      assert ps[p] == pairs[p];
      assert ClearedPair(cards, pairs[p]);
      if q < |pairs| {
        assert ps[q] == pairs[q];
      }
    }
  }

  /** A fresh deal (a positive, even number of face-down cards in play)
      is a board in `init`. */
  lemma DealtBoardFits(cards: seq<Card>)
    requires |cards| > 0 && |cards| % 2 == 0
    requires forall k :: 0 <= k < |cards| ==> !cards[k].isFront && !cards[k].isSelectable && cards[k].state == Normal
    ensures BoardFits(Init, cards, [], [], 0, 0)
  {
    CountAll(cards, Normal);
    CountPartition(cards);
  }

  /** The last countdown tick: every card is face down, in play and now
      clickable. */
  lemma OpenBoardFits(cards: seq<Card>, picked: seq<nat>, pairs: seq<(nat, nat)>,
                      misses: nat, moveCount: nat)
    requires BoardFits(CountDown, cards, picked, pairs, misses, moveCount)
    ensures var r := EnableFaceDown(cards);
            forall k :: 0 <= k < |r| ==> !r[k].isFront && r[k].isSelectable && r[k].state == Normal
    ensures BoardFits(Select1, EnableFaceDown(cards), picked, pairs, misses, moveCount)
  {
    CountZero(cards, Cleared);
    assert forall k :: 0 <= k < |cards| ==> cards[k].state == Normal;
    var r := EnableFaceDown(cards);
    assert forall k :: 0 <= k < |r| ==> r[k] == cards[k].(isSelectable := true);
    CountAll(r, Normal);
    assert CardsFit(Select1, r);
    assert PickedFit(Select1, r, picked);
  }

  /** First pick: the clicked card (necessarily face down) becomes the one
      'duty' card; an odd number of cards is then still in play. */
  lemma FirstPickFits(cards: seq<Card>, picked: seq<nat>, pairs: seq<(nat, nat)>,
                      misses: nat, moveCount: nat, i: nat)
    requires BoardFits(Select1, cards, picked, pairs, misses, moveCount)
    requires i < |cards| && cards[i].isSelectable
    ensures cards[i].state == Normal
    ensures BoardFits(Select2, Reveal(cards, i), [i], pairs, misses, moveCount)
  {
    assert CardFits(Select1, cards[i]);
    var r := Reveal(cards, i);
    assert forall k :: 0 <= k < |r| && k != i ==> r[k] == cards[k];
    assert CardsFit(Select2, r);
    assert PickedFit(Select2, r, [i]);
    PairsKept(cards, r, pairs);
    CountPartition(r);
  }

  /** Second pick: a different face-down card joins the first, and the move
      is counted. */
  lemma SecondPickFits(cards: seq<Card>, picked: seq<nat>, pairs: seq<(nat, nat)>,
                       misses: nat, moveCount: nat, i: nat)
    requires BoardFits(Select2, cards, picked, pairs, misses, moveCount)
    requires i < |cards| && cards[i].isSelectable
    ensures cards[i].state == Normal && i !in picked
    ensures BoardFits(Selected, Reveal(cards, i), picked + [i], pairs, misses, moveCount + 1)
  {
    assert CardFits(Select2, cards[i]);
    var r := Reveal(cards, i);
    assert forall k :: 0 <= k < |r| && k != i ==> r[k] == cards[k];
    assert CardsFit(Selected, r);
    assert PickedFit(Selected, r, picked + [i]);
    PairsKept(cards, r, pairs);
  }

  /** In `selected` the duty filter holds the two picked cards, so the
      evaluation's test compares the two picked images. */
  lemma EvaluationSeesPicks(cards: seq<Card>, picked: seq<nat>, pairs: seq<(nat, nat)>,
                            misses: nat, moveCount: nat)
    requires BoardFits(Selected, cards, picked, pairs, misses, moveCount)
    ensures var d := WithState(cards, Duty);
            |d| == 2 &&
            (d[0].frontImage != d[1].frontImage <==> cards[picked[0]].frontImage != cards[picked[1]].frontImage)
  {
    var i, j := picked[0], picked[1];
    assert picked == [i, j];
    assert forall k :: 0 <= k < |cards| && cards[k].state == Duty ==> k == i || k == j;
    DutyPair(cards, i, j);
  }

  /** A miss: both picked cards stay face up and become clickable. */
  lemma MissFits(cards: seq<Card>, picked: seq<nat>, pairs: seq<(nat, nat)>,
                 misses: nat, moveCount: nat)
    requires BoardFits(Selected, cards, picked, pairs, misses, moveCount)
    ensures BoardFits(Failed, ShowMismatch(cards), picked, pairs, misses + 1, moveCount)
  {
    var r := ShowMismatch(cards);
    assert forall k :: 0 <= k < |r| ==>
      r[k] == if cards[k].state == Duty then cards[k].(isSelectable := true) else cards[k];
    assert CardsFit(Failed, r);
    assert PickedFit(Failed, r, picked);
    PairsKept(cards, r, pairs);
  }

  /** A match: the two picked cards are cleared as a pair; the round ends
      exactly when no card was left in play. */
  lemma MatchFits(cards: seq<Card>, picked: seq<nat>, pairs: seq<(nat, nat)>,
                  misses: nat, moveCount: nat)
    requires BoardFits(Selected, cards, picked, pairs, misses, moveCount)
    requires cards[picked[0]].frontImage == cards[picked[1]].frontImage
    ensures var i, j := picked[0], picked[1];
            BoardFits(if NoneNormal(cards) then Result else Select1, ClearDuty(cards), [],
                      pairs + [(i, j)], misses, moveCount)
  {
    var i, j := picked[0], picked[1];
    assert i in picked && j in picked;
    var st := if NoneNormal(cards) then Result else Select1;
    var r := ClearDuty(cards);
    assert forall k :: 0 <= k < |r| ==>
      r[k] == if cards[k].state == Duty then cards[k].(state := Cleared) else cards[k];
    assert CardsFit(st, r);
    assert PickedFit(st, r, []);
    PairsExtended(cards, r, pairs, i, j);
    if st == Result {
      CountZero(cards, Normal);
    }
  }

  /** The acknowledging click after a miss: the picked cards go back face
      down and into play. */
  lemma AcknowledgeFits(cards: seq<Card>, picked: seq<nat>, pairs: seq<(nat, nat)>,
                        misses: nat, moveCount: nat)
    requires BoardFits(Failed, cards, picked, pairs, misses, moveCount)
    ensures BoardFits(Select1, ResetDuty(cards), [], pairs, misses, moveCount)
  {
    var r := ResetDuty(cards);
    assert forall k :: 0 <= k < |r| ==>
      r[k] == if cards[k].state == Duty then cards[k].(isFront := false, isSelectable := true, state := Normal)
              else cards[k];
    assert CardsFit(Select1, r);
    assert PickedFit(Select1, r, []);
    PairsKept(cards, r, pairs);
  }

}
