/** The skills and projects filters. Both work the same way: clicking a
    category button makes it the only active one and shows exactly the cards
    of that category ("all" shows every card). The skills buttons carry
    their category in `data-category`, the project buttons in `data-filter`;
    the cards of both carry theirs in `data-category`. */
module CategoryFilter {
  import opened PageState

  /** A category button: its category attribute, which may be missing, and
      its `active` class. */
  datatype FilterButton = FilterButton(category: Option<string>, active: bool)

  /** A card: its `data-category`, which may be missing, and its inline
      `display` and `animation` styles. */
  datatype Card = Card(category: Option<string>, display: string, animation: string)

  const Reveal := "slideInUp 0.5s ease forwards"

  /** Whether the button's category selects a card. Two missing attributes
      compare equal, so a button without a category selects the cards
      without one. */
  predicate Selects(filter: Option<string>, card: Option<string>): (r: bool)
    ensures filter == Some("all") ==> r
    ensures filter != Some("all") ==> (r <==> card == filter)
  {
    filter == Some("all") || card == filter
  }

  /** The cards after a click on a button of category `filter`. */
  function Filtered(cards: seq<Card>, filter: Option<string>): (r: seq<Card>)
    ensures |r| == |cards|
    ensures forall k | 0 <= k < |r| :: r[k].category == cards[k].category
  {
    seq(|cards|, k requires 0 <= k < |cards| =>
      if Selects(filter, cards[k].category) then cards[k].(display := "block", animation := Reveal)
      else cards[k].(display := "none"))
  }

  /** The buttons after a click on button `b`: it is the one and only
      active button. */
  function Activated(buttons: seq<FilterButton>, b: nat): (r: seq<FilterButton>)
    requires b < |buttons|
    ensures |r| == |buttons|
    ensures forall k | 0 <= k < |r| :: r[k].category == buttons[k].category
    ensures forall k | 0 <= k < |r| :: r[k].active <==> k == b
  {
    seq(|buttons|, k requires 0 <= k < |buttons| => buttons[k].(active := k == b))
  }

  /** A card is displayed after a click exactly when the button selects it;
      a displayed card replays the reveal animation, and a hidden one keeps
      the animation it had. */
  lemma ShownIffSelected(cards: seq<Card>, filter: Option<string>, k: nat)
    requires k < |cards|
    ensures Filtered(cards, filter)[k].display == "block" <==> Selects(filter, cards[k].category)
    ensures Filtered(cards, filter)[k].display == "none" <==> !Selects(filter, cards[k].category)
    ensures Selects(filter, cards[k].category) ==> Filtered(cards, filter)[k].animation == Reveal
    ensures !Selects(filter, cards[k].category) ==> Filtered(cards, filter)[k].animation == cards[k].animation
  {
  }

  /** Clicking the same button twice leaves the cards as one click did. */
  lemma FilterIdempotent(cards: seq<Card>, filter: Option<string>)
    ensures Filtered(Filtered(cards, filter), filter) == Filtered(cards, filter)
  {
  }

  /** Which cards are displayed depends only on the last button clicked. */
  lemma LastClickDecides(cards: seq<Card>, first: Option<string>, second: Option<string>, k: nat)
    requires k < |cards|
    ensures Filtered(Filtered(cards, first), second)[k].display == Filtered(cards, second)[k].display
  {
  }

  /** One filter: its buttons and the cards they filter. */
  class FilterGroup {
    var buttons: seq<FilterButton>
    var cards: seq<Card>

    constructor (buttons: seq<FilterButton>, cards: seq<Card>)
      ensures this.buttons == buttons && this.cards == cards
    {
      this.buttons := buttons;
      this.cards := cards;
    }

    /** The click handler of button `b`. */
    method Click(b: nat)
      requires b < |buttons|
      modifies this
      ensures buttons == Activated(old(buttons), b)
      ensures cards == Filtered(old(cards), old(buttons)[b].category)
    {
      var i := 0;
      ghost var before := buttons;
      while i < |buttons|
        invariant 0 <= i <= |buttons| == |before|
        invariant forall k | 0 <= k < i :: buttons[k] == before[k].(active := false)
        invariant forall k | i <= k < |buttons| :: buttons[k] == before[k]
        invariant cards == old(cards)
      {
        buttons := buttons[i := buttons[i].(active := false)];
        i := i + 1;
      }
      buttons := buttons[b := buttons[b].(active := true)];
      assert buttons == Activated(before, b);
      var filter := buttons[b].category;
      var j := 0;
      while j < |cards|
        invariant 0 <= j <= |cards| == |old(cards)|
        invariant forall k | 0 <= k < j :: cards[k] == Filtered(old(cards), filter)[k]
        invariant forall k | j <= k < |cards| :: cards[k] == old(cards)[k]
        invariant buttons == Activated(before, b)
      {
        var card := cards[j];
        if filter == Some("all") || card.category == filter {
          card := card.(display := "block", animation := Reveal);
        } else {
          card := card.(display := "none");
        }
        cards := cards[j := card];
        j := j + 1;
      }
      assert cards == Filtered(old(cards), filter);
    }
  }
}
