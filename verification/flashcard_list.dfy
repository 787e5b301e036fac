/** The flashcard overview (`FlashcardList.jsx`): the endpoint chosen by the filter,
    the grouping of the returned cards by document, and the edit request. */
module FlashcardList {
  import opened Common
  import opened FlashcardModel
  import FlashcardRoutes

  /** The populated `documentId`: `{ _id, originalName }`, or `null` once the document is gone. */
  datatype DocRef = DocRef(id: Id, originalName: string)

  /** A card as the list receives it. */
  datatype Listed = Listed(id: Id, doc: Option<DocRef>, card: Card)

  /** `card.documentId?._id || 'unknown'` */
  datatype Key = DocKey(id: Id) | Unknown

  const UnknownName: string := "Unknown Document"

  /** The group key of a card: its document's id, or `Unknown` once the document is gone. */
  function KeyOf(c: Listed): (k: Key)
    ensures k == Unknown <==> c.doc.None?
    ensures c.doc.Some? ==> k == DocKey(c.doc.value.id)
  {
    if c.doc.None? then Unknown else DocKey(c.doc.value.id)
  }

  /** `card.documentId?.originalName || 'Unknown Document'` */
  function NameOf(c: Listed): (name: string)
    ensures name != []
    ensures c.doc.None? || c.doc.value.originalName == [] ==> name == UnknownName
    ensures c.doc.Some? && c.doc.value.originalName != [] ==> name == c.doc.value.originalName
  {
    if c.doc.None? || c.doc.value.originalName == [] then UnknownName else c.doc.value.originalName
  }

  // ---------------------------------------------------------------------------
  // Grouping

  /** One entry of the `grouped` object, in the order its key was first seen. */
  datatype Group = Group(key: Key, name: string, cards: seq<Listed>)

  /** The cards with key `k`, in response order. */
  function WithKey(cards: seq<Listed>, k: Key): (r: seq<Listed>)
    ensures |r| <= |cards|
    ensures forall i :: 0 <= i < |r| ==> KeyOf(r[i]) == k
  {
    if cards == [] then []
    else
      var n := |cards| - 1;
      WithKey(cards[..n], k) + (if KeyOf(cards[n]) == k then [cards[n]] else [])
  }

  predicate HasKey(cards: seq<Listed>, k: Key) {
    exists j :: 0 <= j < |cards| && KeyOf(cards[j]) == k
  }

  predicate HasGroup(groups: seq<Group>, k: Key) {
    exists i :: 0 <= i < |groups| && groups[i].key == k
  }

  predicate DistinctKeys(groups: seq<Group>) {
    forall i, j :: 0 <= i < j < |groups| ==> groups[i].key != groups[j].key
  }

  /** The position of the group with key `k`. */
  function Find(groups: seq<Group>, k: Key): (r: Option<nat>)
    ensures r.None? <==> !HasGroup(groups, k)
    ensures r.Some? ==> r.value < |groups| && groups[r.value].key == k
  {
    if groups == [] then None
    else if groups[0].key == k then Some(0)
    else match Find(groups[1..], k)
      case None =>
        assert !HasGroup(groups, k) by {
          forall i | 0 <= i < |groups| ensures groups[i].key != k {
            if i > 0 { assert groups[1..][i - 1] == groups[i]; }
          }
        }
        None
      case Some(i) => Some(i + 1)
  }

  /** One step of the `reduce`: append to the card's group, opening it if new. */
  function Add(groups: seq<Group>, c: Listed): (r: seq<Group>)
  {
    match Find(groups, KeyOf(c))
    case Some(i) => groups[i := groups[i].(cards := groups[i].cards + [c])]
    case None => groups + [Group(KeyOf(c), NameOf(c), [c])]
  }

  /** The position of the first card with key `k`, or `|cards|` when there is none. */
  function FirstIndex(cards: seq<Listed>, k: Key): (r: nat)
    ensures r <= |cards|
    ensures r < |cards| <==> HasKey(cards, k)
    ensures r < |cards| ==> KeyOf(cards[r]) == k
    ensures forall j :: 0 <= j < r ==> KeyOf(cards[j]) != k
  {
    if cards == [] then 0
    else
      var n := |cards| - 1;
      var p := FirstIndex(cards[..n], k);
      KeysStep(cards, k);
      assert forall j :: 0 <= j < n ==> cards[..n][j] == cards[j];
      if p < n then p else if KeyOf(cards[n]) == k then n else |cards|
  }

  /** The groups come in the order their keys first appear among the cards, as the
      keys of an object do when none of them is an array index. */
  ghost predicate FirstSeenOrder(cards: seq<Listed>, groups: seq<Group>) {
    forall i, j :: 0 <= i < j < |groups| ==> FirstIndex(cards, groups[i].key) < FirstIndex(cards, groups[j].key)
  }

  /** `groups` is the grouping of `cards`: one group per key present, in first-appearance
      order, holding exactly the cards with that key in response order, named after its
      first card. */
  ghost predicate GroupsOf(cards: seq<Listed>, groups: seq<Group>) {
    && DistinctKeys(groups)
    && FirstSeenOrder(cards, groups)
    && (forall k :: HasGroup(groups, k) <==> HasKey(cards, k))
    && (forall i :: 0 <= i < |groups| ==>
          && groups[i].cards == WithKey(cards, groups[i].key)
          && groups[i].cards != []
          && groups[i].name == NameOf(groups[i].cards[0]))
  }

  /** `response.data.reduce(...)` */
  function GroupByDocument(cards: seq<Listed>): (groups: seq<Group>)
    ensures GroupsOf(cards, groups)
  {
    if cards == [] then []
    else
      var n := |cards| - 1;
      var gs := GroupByDocument(cards[..n]);
      AddStep(cards, gs);
      Add(gs, cards[n])
  }

  /** Adding the last card to the grouping of the others groups all of them. */
  lemma AddStep(cards: seq<Listed>, gs: seq<Group>)
    requires cards != [] && GroupsOf(cards[..|cards| - 1], gs)
    ensures GroupsOf(cards, Add(gs, cards[|cards| - 1]))
  {
    var c := cards[|cards| - 1];
    match Find(gs, KeyOf(c))
    case Some(i) => AddExisting(cards, gs, i);
    case None => AddNew(cards, gs);
  }

  lemma WithKeyStep(cards: seq<Listed>, k: Key)
    requires cards != []
    ensures WithKey(cards, k) == WithKey(cards[..|cards| - 1], k)
                                 + (if KeyOf(cards[|cards| - 1]) == k then [cards[|cards| - 1]] else [])
  {
  }

  lemma KeysStep(cards: seq<Listed>, k: Key)
    requires cards != []
    ensures HasKey(cards, k) <==> HasKey(cards[..|cards| - 1], k) || KeyOf(cards[|cards| - 1]) == k
  {
    var n := |cards| - 1;
    var prefix := cards[..n];
    if HasKey(prefix, k) {
      var j :| 0 <= j < n && KeyOf(prefix[j]) == k;
      assert cards[j] == prefix[j];
    }
    if HasKey(cards, k) && KeyOf(cards[n]) != k {
      var j :| 0 <= j < |cards| && KeyOf(cards[j]) == k;
      assert prefix[j] == cards[j];
    }
  }

  lemma AddExisting(cards: seq<Listed>, gs: seq<Group>, i: nat)
    requires cards != [] && GroupsOf(cards[..|cards| - 1], gs)
    requires i < |gs| && gs[i].key == KeyOf(cards[|cards| - 1])
    ensures GroupsOf(cards, gs[i := gs[i].(cards := gs[i].cards + [cards[|cards| - 1]])])
  {
    var c := cards[|cards| - 1];
    var r := gs[i := gs[i].(cards := gs[i].cards + [c])];
    assert forall j :: 0 <= j < |r| ==> r[j].key == gs[j].key;
    assert DistinctKeys(r);
    OrderKept(cards, gs, r);
    ExistingKeys(cards, gs, i);
    ExistingContents(cards, gs, i);
  }

  /** Appending to an existing group keeps the set of keys that of the cards. */
  lemma ExistingKeys(cards: seq<Listed>, gs: seq<Group>, i: nat)
    requires cards != [] && GroupsOf(cards[..|cards| - 1], gs)
    requires i < |gs| && gs[i].key == KeyOf(cards[|cards| - 1])
    ensures var r := gs[i := gs[i].(cards := gs[i].cards + [cards[|cards| - 1]])];
            forall k :: HasGroup(r, k) <==> HasKey(cards, k)
  {
    var c := cards[|cards| - 1];
    var r := gs[i := gs[i].(cards := gs[i].cards + [c])];
    forall k ensures HasGroup(r, k) <==> HasKey(cards, k) {
      KeysStep(cards, k);
      if HasGroup(gs, k) {
        var j :| 0 <= j < |gs| && gs[j].key == k;
        assert r[j].key == k;
      }
      if HasGroup(r, k) {
        var j :| 0 <= j < |r| && r[j].key == k;
        assert gs[j].key == k;
      }
    }
  }

  /** Appending to an existing group keeps every group's cards and name right. */
  lemma ExistingContents(cards: seq<Listed>, gs: seq<Group>, i: nat)
    requires cards != [] && GroupsOf(cards[..|cards| - 1], gs)
    requires i < |gs| && gs[i].key == KeyOf(cards[|cards| - 1])
    ensures var r := gs[i := gs[i].(cards := gs[i].cards + [cards[|cards| - 1]])];
            forall j :: 0 <= j < |r| ==>
              r[j].cards == WithKey(cards, r[j].key) && r[j].cards != [] && r[j].name == NameOf(r[j].cards[0])
  {
    var c := cards[|cards| - 1];
    var r := gs[i := gs[i].(cards := gs[i].cards + [c])];
    forall j | 0 <= j < |r|
      ensures r[j].cards == WithKey(cards, r[j].key) && r[j].cards != [] && r[j].name == NameOf(r[j].cards[0])
    {
      WithKeyStep(cards, r[j].key);
      if j == i {
        assert r[j].cards[0] == gs[i].cards[0];
      } else {
        assert r[j] == gs[j];
        assert gs[j].key != KeyOf(c);
      }
    }
  }

  lemma AddNew(cards: seq<Listed>, gs: seq<Group>)
    requires cards != [] && GroupsOf(cards[..|cards| - 1], gs)
    requires !HasGroup(gs, KeyOf(cards[|cards| - 1]))
    ensures GroupsOf(cards, gs + [Group(KeyOf(cards[|cards| - 1]), NameOf(cards[|cards| - 1]), [cards[|cards| - 1]])])
  {
    var prefix := cards[..|cards| - 1];
    var c := cards[|cards| - 1];
    var r := gs + [Group(KeyOf(c), NameOf(c), [c])];
    assert DistinctKeys(r) by {
      forall j | 0 <= j < |gs| ensures r[j].key != KeyOf(c) {
        assert r[j] == gs[j];
      }
    }
    OrderExtended(cards, gs);
    forall k ensures HasGroup(r, k) <==> HasKey(cards, k) {
      KeysStep(cards, k);
      if HasGroup(gs, k) {
        var j :| 0 <= j < |gs| && gs[j].key == k;
        assert r[j].key == k;
      }
      if KeyOf(c) == k {
        assert r[|gs|].key == k;
      }
      if HasGroup(r, k) {
        var j :| 0 <= j < |r| && r[j].key == k;
        if j < |gs| { assert gs[j].key == k; }
      }
    }
    forall j | 0 <= j < |r|
      ensures r[j].cards == WithKey(cards, r[j].key) && r[j].cards != [] && r[j].name == NameOf(r[j].cards[0])
    {
      WithKeyStep(cards, r[j].key);
      if j < |gs| {
        assert r[j] == gs[j];
        assert gs[j].key != KeyOf(c);
      } else {
        assert WithKey(prefix, KeyOf(c)) == [] by {
          if WithKey(prefix, KeyOf(c)) != [] {
            NonEmptyFilterHasKey(prefix, KeyOf(c));
          }
        }
      }
    }
  }

  /** A group's key was already seen among the earlier cards, so appending a card
      does not move its first appearance. */
  lemma SeenKeyKept(cards: seq<Listed>, gs: seq<Group>, j: nat)
    requires cards != [] && GroupsOf(cards[..|cards| - 1], gs) && j < |gs|
    ensures FirstIndex(cards, gs[j].key) == FirstIndex(cards[..|cards| - 1], gs[j].key) < |cards| - 1
  {
    assert HasGroup(gs, gs[j].key);
  }

  /** Regrouping that keeps every key in place keeps the first-appearance order. */
  lemma OrderKept(cards: seq<Listed>, gs: seq<Group>, r: seq<Group>)
    requires cards != [] && GroupsOf(cards[..|cards| - 1], gs)
    requires |r| == |gs| && forall j :: 0 <= j < |r| ==> r[j].key == gs[j].key
    ensures FirstSeenOrder(cards, r)
  {
    forall j | 0 <= j < |gs| ensures FirstIndex(cards, r[j].key) == FirstIndex(cards[..|cards| - 1], gs[j].key) {
      SeenKeyKept(cards, gs, j);
    }
  }

  /** A group opened for a new key goes after every earlier group. */
  lemma OrderExtended(cards: seq<Listed>, gs: seq<Group>)
    requires cards != [] && GroupsOf(cards[..|cards| - 1], gs)
    requires !HasGroup(gs, KeyOf(cards[|cards| - 1]))
    ensures FirstSeenOrder(cards, gs + [Group(KeyOf(cards[|cards| - 1]), NameOf(cards[|cards| - 1]), [cards[|cards| - 1]])])
  {
    var n := |cards| - 1;
    var r := gs + [Group(KeyOf(cards[n]), NameOf(cards[n]), [cards[n]])];
    forall j | 0 <= j < |gs| ensures FirstIndex(cards, r[j].key) < n {
      SeenKeyKept(cards, gs, j);
    }
    KeysStep(cards, KeyOf(cards[n]));
    assert FirstIndex(cards, r[|gs|].key) == n;
  }

  lemma {:induction false} NonEmptyFilterHasKey(cards: seq<Listed>, k: Key)
    requires WithKey(cards, k) != []
    ensures HasKey(cards, k)
  {
    var n := |cards| - 1;
    if KeyOf(cards[n]) != k {
      NonEmptyFilterHasKey(cards[..n], k);
      var j :| 0 <= j < n && KeyOf(cards[..n][j]) == k;
      assert cards[j] == cards[..n][j];
    }
  }

  /** The number of cards over all groups. */
  function TotalSize(groups: seq<Group>): nat {
    if groups == [] then 0 else TotalSize(groups[..|groups| - 1]) + |groups[|groups| - 1].cards|
  }

  lemma {:induction false} TotalSizeUpdate(groups: seq<Group>, i: nat, g: Group)
    requires i < |groups|
    ensures TotalSize(groups[i := g]) + |groups[i].cards| == TotalSize(groups) + |g.cards|
  {
    var n := |groups| - 1;
    var r := groups[i := g];
    if i < n {
      TotalSizeUpdate(groups[..n], i, g);
      assert r[..n] == groups[..n][i := g];
    } else {
      assert r[..n] == groups[..n];
    }
  }

  /** Grouping loses and duplicates nothing: the group sizes add up to the number of cards. */
  lemma {:induction false} GroupSizesSum(cards: seq<Listed>)
    ensures TotalSize(GroupByDocument(cards)) == |cards|
  {
    if cards != [] {
      var n := |cards| - 1;
      var gs := GroupByDocument(cards[..n]);
      GroupSizesSum(cards[..n]);
      var c := cards[n];
      match Find(gs, KeyOf(c))
      case Some(i) =>
        TotalSizeUpdate(gs, i, gs[i].(cards := gs[i].cards + [c]));
      case None =>
        var r := gs + [Group(KeyOf(c), NameOf(c), [c])];
        assert r[..|r| - 1] == gs;
    }
  }

  // ---------------------------------------------------------------------------
  // Endpoint and edit

  /** `filter === 'favorites' ? '/flashcards/favorites' : '/flashcards'` */
  function Endpoint(filter: string): (path: string)
    ensures path == "/flashcards/favorites" <==> filter == "favorites"
    ensures path != "/flashcards/favorites" ==> path == "/flashcards"
  {
    if filter == "favorites" then "/flashcards/favorites" else "/flashcards"
  }

  /** The records the chosen endpoint serves. */
  function Served(filter: string, store: FlashcardRoutes.Store, user: Id): (r: FlashcardRoutes.Store)
    ensures forall k :: k in r ==> FlashcardRoutes.Owns(store, k, user) && r[k] == store[k]
    ensures filter == "favorites" ==> forall k :: k in r ==> r[k].isFavorite
    ensures filter == "favorites" ==> forall k :: FlashcardRoutes.Owns(store, k, user) && store[k].isFavorite ==> k in r
    ensures filter != "favorites" ==> forall k :: FlashcardRoutes.Owns(store, k, user) ==> k in r
  {
    if Endpoint(filter) == "/flashcards/favorites" then FlashcardRoutes.Favorites(store, user)
    else FlashcardRoutes.ForUser(store, user)
  }

  /** The modal's data: the document it was opened with and the trimmed texts. */
  datatype Form = Form(documentId: Option<Id>, question: string, answer: string)

  /** `handleEditFlashcard`: only `question` and `answer` are sent, so an edit never
      moves a card to another document or touches its favourite flag. */
  function Edit(store: FlashcardRoutes.Store, user: Id, id: Id, form: Form): (r: Result<FlashcardRoutes.Store, Failure>)
    ensures r.Ok? <==> FlashcardRoutes.Owns(store, id, user)
    ensures r.Ok? ==> id in r.value && r.value[id].documentId == store[id].documentId
                      && r.value[id].isFavorite == store[id].isFavorite
                      && r.value[id].question == Trim(form.question) && r.value[id].answer == Trim(form.answer)
  {
    FlashcardRoutes.Update(store, user, id, Some(form.question), Some(form.answer))
  }
}
