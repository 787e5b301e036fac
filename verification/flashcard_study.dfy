/** The study page (`FlashcardStudy.jsx`): the cards of one document, the index of
    the card shown, and whether it is flipped to its answer. */
module FlashcardStudy {
  import opened Common
  import opened FlashcardModel
  import FlashcardRoutes

  /** A card as the page holds it: its identifier and its record. */
  datatype Shown = Shown(id: Id, card: Card)

  datatype Study = Study(cards: seq<Shown>, index: nat, flipped: bool)

  /** The index points at a card, or is 0 when there is none. */
  predicate Valid(s: Study) {
    if s.cards == [] then s.index == 0 else s.index < |s.cards|
  }

  /** After the fetch: the first card, question side up. */
  function Start(cards: seq<Shown>): (s: Study)
    ensures Valid(s) && s.cards == cards && s.index == 0 && !s.flipped
  {
    Study(cards, 0, false)
  }

  datatype View = NoFlashcards | Current(shown: Shown, flipped: bool)

  /** An empty list shows the "No flashcards found" state; otherwise the current card. */
  function ViewOf(s: Study): (v: View)
    requires Valid(s)
    ensures v.NoFlashcards? <==> s.cards == []
    ensures v.Current? ==> v.shown == s.cards[s.index] && v.flipped == s.flipped
  {
    if s.cards == [] then NoFlashcards else Current(s.cards[s.index], s.flipped)
  }

  /** `handleNext`: forward one card, question side up; nothing at the last card. */
  function Next(s: Study): (s': Study)
    requires Valid(s)
    ensures Valid(s') && s'.cards == s.cards
    ensures s.index + 1 < |s.cards| ==> s'.index == s.index + 1 && !s'.flipped
    ensures s.index + 1 >= |s.cards| ==> s' == s
  {
    if s.index < |s.cards| - 1 then s.(index := s.index + 1, flipped := false) else s
  }

  /** `handlePrevious`: back one card, question side up; nothing at the first card. */
  function Previous(s: Study): (s': Study)
    requires Valid(s)
    ensures Valid(s') && s'.cards == s.cards
    ensures s.index > 0 ==> s'.index == s.index - 1 && !s'.flipped
    ensures s.index == 0 ==> s' == s
  {
    if s.index > 0 then s.(index := s.index - 1, flipped := false) else s
  }

  /** `handleFlip` */
  function Flip(s: Study): (s': Study)
    ensures s'.flipped != s.flipped
    ensures s'.cards == s.cards && s'.index == s.index
  {
    s.(flipped := !s.flipped)
  }

  lemma FlipTwice(s: Study)
    ensures Flip(Flip(s)) == s
  {
  }

  /** Forward then back returns to the same card, question side up. */
  lemma NextThenPrevious(s: Study)
    requires Valid(s) && s.index + 1 < |s.cards|
    ensures Previous(Next(s)) == s.(flipped := false)
  {
  }

  /** `toggleFavorite`: once the request has succeeded, the current card's flag is
      negated; a failed request changes nothing. */
  function ToggleFavorite(s: Study, succeeded: bool): (s': Study)
    requires Valid(s) && s.cards != []
    ensures Valid(s') && s'.index == s.index && s'.flipped == s.flipped && |s'.cards| == |s.cards|
    ensures !succeeded ==> s' == s
    ensures succeeded ==> s'.cards[s.index].card.isFavorite != s.cards[s.index].card.isFavorite
    ensures succeeded ==> s'.cards[s.index] == s.cards[s.index].(card := s.cards[s.index].card.(isFavorite := !s.cards[s.index].card.isFavorite))
    ensures forall i :: 0 <= i < |s.cards| && i != s.index ==> s'.cards[i] == s.cards[i]
  {
    if !succeeded then s
    else
      var c := s.cards[s.index];
      s.(cards := s.cards[s.index := c.(card := c.card.(isFavorite := !c.card.isFavorite))])
  }

  /** The page shows the server's records. */
  predicate Mirrors(s: Study, store: FlashcardRoutes.Store) {
    forall i :: 0 <= i < |s.cards| ==> s.cards[i].id in store && store[s.cards[i].id] == s.cards[i].card
  }

  /** The page's toggle and the server's toggle keep the page in step with the store,
      as long as every card is shown once. */
  lemma ToggleKeepsMirror(s: Study, store: FlashcardRoutes.Store, user: Id)
    requires Valid(s) && s.cards != [] && Mirrors(s, store)
    requires forall i, j :: 0 <= i < j < |s.cards| ==> s.cards[i].id != s.cards[j].id
    requires s.cards[s.index].card.userId == user
    ensures FlashcardRoutes.ToggleFavorite(store, user, s.cards[s.index].id).Ok?
    ensures Mirrors(ToggleFavorite(s, true), FlashcardRoutes.ToggleFavorite(store, user, s.cards[s.index].id).value)
  {
    var s' := ToggleFavorite(s, true);
    var store' := FlashcardRoutes.ToggleFavorite(store, user, s.cards[s.index].id).value;
    forall i | 0 <= i < |s'.cards|
      ensures s'.cards[i].id in store' && store'[s'.cards[i].id] == s'.cards[i].card
    {
      if i != s.index {
        assert s.cards[i].id != s.cards[s.index].id;
      }
    }
  }
}
