/** The cards of a memory-match round, how many of them are in each match
    state, and the whole-deck card updates that the round's transitions apply
    (components/Game.tsx: CardProps and the `cards.map(...)` expressions). */
module Cards {

  datatype Option<T> = None | Some(value: T)

  /** An image path; cards are compared by it. */
  type Image = string

  /** 'normal' (face down, in play), 'duty' (picked in the current attempt),
      'cleared' (matched). */
  datatype CardState = Normal | Duty | Cleared

  /** A card. `frontImage` is absent when the deck was dealt from a pool that
      ran out of images. */
  datatype Card = Card(frontImage: Option<Image>, isFront: bool, isSelectable: bool, state: CardState)

  /** The image sequence of a deck, position by position. */
  function Images(cards: seq<Card>): (r: seq<Option<Image>>)
    ensures |r| == |cards|
  {
    seq(|cards|, k requires 0 <= k < |cards| => cards[k].frontImage)
  }

  /** The cards in state `st`, in deck order (`cards.filter(c => c.state === st)`). */
  function WithState(cards: seq<Card>, st: CardState): (r: seq<Card>)
    ensures |r| <= |cards|
  {
    if cards == [] then []
    else (if cards[0].state == st then [cards[0]] else []) + WithState(cards[1..], st)
  }

  /** The filter keeps exactly the cards in state `st`. */
  lemma {:induction false} WithStateMembers(cards: seq<Card>, st: CardState, c: Card)
    ensures c in WithState(cards, st) <==> c in cards && c.state == st
  {
    if cards != [] {
      WithStateMembers(cards[1..], st, c);
      assert cards == [cards[0]] + cards[1..];
    }
  }

  /** How many cards are in state `st`. */
  function Count(cards: seq<Card>, st: CardState): nat
  {
    |WithState(cards, st)|
  }

  /** One step of the count. */
  lemma CountCons(cards: seq<Card>, st: CardState)
    requires cards != []
    ensures Count(cards, st) == (if cards[0].state == st then 1 else 0) + Count(cards[1..], st)
  {
  }

  /** Every card is in exactly one of the three states. */
  lemma {:induction false} CountPartition(cards: seq<Card>)
    ensures Count(cards, Normal) + Count(cards, Duty) + Count(cards, Cleared) == |cards|
  {
    if cards != [] {
      CountPartition(cards[1..]);
    }
  }

  /** All cards in state `st` means the count of `st` is the deck size. */
  lemma {:induction false} CountAll(cards: seq<Card>, st: CardState)
    requires forall k :: 0 <= k < |cards| ==> cards[k].state == st
    ensures Count(cards, st) == |cards|
  {
    if cards != [] {
      CountAll(cards[1..], st);
    }
  }

  /** A state has count zero exactly when no card is in it. */
  lemma CountZero(cards: seq<Card>, st: CardState)
    ensures Count(cards, st) == 0 <==> forall k :: 0 <= k < |cards| ==> cards[k].state != st
  {
    var d := WithState(cards, st);
    if Count(cards, st) == 0 {
      forall k | 0 <= k < |cards| ensures cards[k].state != st {
        WithStateMembers(cards, st, cards[k]);
      }
    } else {
      WithStateMembers(cards, st, d[0]);
    }
  }

  /** Counts depend only on the states, position by position. */
  lemma {:induction false} CountSameStates(a: seq<Card>, b: seq<Card>)
    requires |a| == |b|
    requires forall k :: 0 <= k < |a| ==> a[k].state == b[k].state
    ensures forall st :: Count(a, st) == Count(b, st)
  {
    if a != [] {
      CountSameStates(a[1..], b[1..]);
      forall st ensures Count(a, st) == Count(b, st) {
        CountCons(a, st);
        CountCons(b, st);
      }
    }
  }

  /** Moving every card in state `from` to state `to` (and touching no other
      state) empties `from` and adds its count to `to`. */
  lemma {:induction false} CountRelabel(a: seq<Card>, b: seq<Card>, from: CardState, to: CardState)
    requires from != to && |a| == |b|
    requires forall k :: 0 <= k < |a| ==> b[k].state == (if a[k].state == from then to else a[k].state)
    ensures Count(b, from) == 0
    ensures Count(b, to) == Count(a, to) + Count(a, from)
    ensures forall st :: st != from && st != to ==> Count(b, st) == Count(a, st)
  {
    if a != [] {
      CountRelabel(a[1..], b[1..], from, to);
      CountCons(b, from);
      CountCons(a, from);
      CountCons(b, to);
      CountCons(a, to);
      forall st | st != from && st != to ensures Count(b, st) == Count(a, st) {
        CountCons(a, st);
        CountCons(b, st);
      }
    }
  }

  /** Replacing one card changes the counts of its old and new state only. */
  lemma {:induction false} CountUpdate(a: seq<Card>, i: nat, c: Card, st: CardState)
    requires i < |a|
    ensures Count(a[i := c], st) ==
            Count(a, st) - (if a[i].state == st then 1 else 0) + (if c.state == st then 1 else 0)
  {
    if i == 0 {
      assert a[i := c][1..] == a[1..];
    } else {
      assert a[i := c][1..] == a[1..][i - 1 := c];
      CountUpdate(a[1..], i - 1, c, st);
    }
  }

  /** If the duty cards are exactly those at two distinct positions `i` and `j`,
      the filtered duty list has two entries, and its two images differ exactly
      when the images at `i` and `j` differ. */
  lemma DutyPair(cards: seq<Card>, i: nat, j: nat)
    requires i < |cards| && j < |cards| && i != j
    requires cards[i].state == Duty && cards[j].state == Duty
    requires forall k :: 0 <= k < |cards| && cards[k].state == Duty ==> k == i || k == j
    requires Count(cards, Duty) == 2
    ensures |WithState(cards, Duty)| == 2
    ensures var d := WithState(cards, Duty);
            d[0].frontImage != d[1].frontImage <==> cards[i].frontImage != cards[j].frontImage
  {
    var d := WithState(cards, Duty);
    WithStateMembers(cards, Duty, d[0]);
    WithStateMembers(cards, Duty, d[1]);
    WithStateMembers(cards, Duty, cards[i]);
    WithStateMembers(cards, Duty, cards[j]);
    assert d[0] == cards[i] || d[0] == cards[j];
    assert d[1] == cards[i] || d[1] == cards[j];
  }

  /** End of the countdown: every card becomes selectable exactly when it is
      face down (`isSelectable: !c.isFront`). */
  function EnableFaceDown(cards: seq<Card>): (r: seq<Card>)
    ensures Images(r) == Images(cards)
    ensures forall st :: Count(r, st) == Count(cards, st)
    ensures forall k :: 0 <= k < |r| ==> (r[k].isSelectable <==> !r[k].isFront)
  {
    var r := seq(|cards|, k requires 0 <= k < |cards| => cards[k].(isSelectable := !cards[k].isFront));
    CountSameStates(cards, r);
    r
  }

  /** A click turns the card at `i` face up, unselectable and 'duty'. */
  function Reveal(cards: seq<Card>, i: nat): (r: seq<Card>)
    requires i < |cards|
    ensures Images(r) == Images(cards)
    ensures cards[i].state == Normal ==>
              Count(r, Duty) == Count(cards, Duty) + 1 &&
              Count(r, Normal) == Count(cards, Normal) - 1 &&
              Count(r, Cleared) == Count(cards, Cleared)
  {
    var r := cards[i := cards[i].(isFront := true, isSelectable := false, state := Duty)];
    CountUpdate(cards, i, r[i], Duty);
    CountUpdate(cards, i, r[i], Normal);
    CountUpdate(cards, i, r[i], Cleared);
    r
  }

  /** A mismatch: the two duty cards become selectable, still face up and 'duty'. */
  function ShowMismatch(cards: seq<Card>): (r: seq<Card>)
    ensures Images(r) == Images(cards)
    ensures forall st :: Count(r, st) == Count(cards, st)
  {
    var r := seq(|cards|, k requires 0 <= k < |cards| =>
                   if cards[k].state == Duty then cards[k].(isSelectable := true) else cards[k]);
    CountSameStates(cards, r);
    r
  }

  /** A match: every duty card becomes 'cleared' and keeps its face and flags. */
  function ClearDuty(cards: seq<Card>): (r: seq<Card>)
    ensures Images(r) == Images(cards)
    ensures Count(r, Duty) == 0
    ensures Count(r, Cleared) == Count(cards, Cleared) + Count(cards, Duty)
    ensures Count(r, Normal) == Count(cards, Normal)
  {
    var r := seq(|cards|, k requires 0 <= k < |cards| =>
                   if cards[k].state == Duty then cards[k].(state := Cleared) else cards[k]);
    CountRelabel(cards, r, Duty, Cleared);
    r
  }

  /** The acknowledging click after a mismatch: every duty card goes back face
      down, selectable and 'normal'. */
  function ResetDuty(cards: seq<Card>): (r: seq<Card>)
    ensures Images(r) == Images(cards)
    ensures Count(r, Duty) == 0
    ensures Count(r, Normal) == Count(cards, Normal) + Count(cards, Duty)
    ensures Count(r, Cleared) == Count(cards, Cleared)
  {
    var r := seq(|cards|, k requires 0 <= k < |cards| =>
                   if cards[k].state == Duty
                   then cards[k].(isFront := false, isSelectable := true, state := Normal)
                   else cards[k]);
    CountRelabel(cards, r, Duty, Normal);
    r
  }
}
