/** `routes/flashcards.js` over a store `map<Id, Card>`: bulk save of generated
    cards, manual creation, owner-filtered listing, update, favourite toggle and
    deletion. Identifiers for new records are supplied by the caller. */
module FlashcardRoutes {
  import opened Common
  import opened Json
  import opened FlashcardModel
  import Documents

  type Store = map<Id, Card>

  const InvalidRequest: Failure := Failure(400, "Invalid request data")
  const FieldsRequired: Failure := Failure(400, "Document, question, and answer are required")
  const DocumentNotFound: Failure := Failure(404, "Document not found or access denied")
  const CardNotFound: Failure := Failure(404, "Flashcard not found")
  const ServerError: Failure := Failure(500, "Server error")

  /** `Flashcard.findOne({ _id: id, userId })` */
  predicate Owns(store: Store, id: Id, user: Id) {
    id in store && store[id].userId == user
  }

  /** Every identifier in use lies below `next`. */
  predicate Below(store: Store, next: Id) {
    forall k :: k in store ==> k < next
  }

  // ---------------------------------------------------------------------------
  // Bulk save

  /** The question and answer of one posted card, when both are strings; a null
      element makes `fc.question` throw and a missing field fails the schema. */
  function TextFields(v: JsonValue): (r: Option<(string, string)>)
    ensures r.Some? <==> v.JObj? && "question" in v.fields && "answer" in v.fields
                         && v.fields["question"].JStr? && v.fields["answer"].JStr?
    ensures r.Some? ==> r.value == (v.fields["question"].s, v.fields["answer"].s)
  {
    if v.JObj? && "question" in v.fields && "answer" in v.fields
       && v.fields["question"].JStr? && v.fields["answer"].JStr?
    then Some((v.fields["question"].s, v.fields["answer"].s))
    else None
  }

  /** The `flashcards.map(...)` step: one record per element, in order; the whole
      insertion fails if any element is unusable. */
  function BuildCards(items: seq<JsonValue>, user: Id, documentId: Id, now: int): (r: Option<seq<Card>>)
    ensures r.Some? <==> forall i :: 0 <= i < |items| ==> TextFields(items[i]).Some?
    ensures r.Some? ==> |r.value| == |items|
    ensures r.Some? ==> forall i :: 0 <= i < |items| ==>
                          r.value[i] == NewCard(user, documentId, TextFields(items[i]).value.0,
                                                TextFields(items[i]).value.1, now)
  {
    if items == [] then Some([])
    else
      var n := |items| - 1;
      match BuildCards(items[..n], user, documentId, now)
      case None => None
      case Some(cards) =>
        match TextFields(items[n])
        case None => None
        case Some(qa) => Some(cards + [NewCard(user, documentId, qa.0, qa.1, now)])
  }

  /** The store with `cards` inserted at `next`, `next + 1`, ... */
  function InsertFrom(store: Store, next: Id, cards: seq<Card>): (r: Store)
    requires Below(store, next)
    ensures forall k :: k in r <==> k in store || next <= k < next + |cards|
    ensures forall k :: k in store ==> r[k] == store[k]
    ensures forall i :: 0 <= i < |cards| ==> r[next + i] == cards[i]
    ensures Below(r, next + |cards|)
  {
    if cards == [] then store
    else
      var n := |cards| - 1;
      var r := InsertFrom(store, next, cards[..n]);
      r[next + n := cards[n]]
  }

  /** `POST /`: the body is checked, then the document's ownership, then every
      card is created with the caller, the document, the posted texts and no favourite. */
  function SaveAll(store: Store, next: Id, docs: map<Id, Documents.Document>, user: Id,
                   documentId: Option<Id>, flashcards: Option<JsonValue>, now: int)
    : (r: Result<(Store, seq<Card>), Failure>)
    requires Below(store, next)
    ensures documentId.None? || flashcards.None? || !flashcards.value.JArr? ==> r == Err(InvalidRequest)
    ensures r == Err(DocumentNotFound) <==> documentId.Some? && flashcards.Some? && flashcards.value.JArr?
                                            && Documents.FindOwned(docs, documentId.value, user).None?
    ensures documentId.Some? && flashcards.Some? && flashcards.value.JArr?
            && Documents.FindOwned(docs, documentId.value, user).Some? ==>
              (r.Ok? <==> forall i :: 0 <= i < |flashcards.value.items| ==> TextFields(flashcards.value.items[i]).Some?)
    ensures r.Ok? ==> var (store', cards) := r.value;
                      && |cards| == |flashcards.value.items|
                      && (forall i :: 0 <= i < |cards| ==>
                            && cards[i].userId == user && cards[i].documentId == documentId.value
                            && !cards[i].isFavorite
                            && TextFields(flashcards.value.items[i]) == Some((cards[i].question, cards[i].answer)))
                      && store' == InsertFrom(store, next, cards)
    ensures r.Err? && r.error.status == 500 ==>
              exists i :: 0 <= i < |flashcards.value.items| && TextFields(flashcards.value.items[i]).None?
    ensures && documentId.Some? && flashcards.Some? && flashcards.value.JArr?
            && Documents.FindOwned(docs, documentId.value, user).Some? && r.Err?
            ==> r == Err(ServerError)
  {
    if documentId.None? || flashcards.None? || !flashcards.value.JArr? then Err(InvalidRequest)
    else if Documents.FindOwned(docs, documentId.value, user).None? then Err(DocumentNotFound)
    else match BuildCards(flashcards.value.items, user, documentId.value, now)
      case None => Err(ServerError)
      case Some(cards) => Ok((InsertFrom(store, next, cards), cards))
  }

  // ---------------------------------------------------------------------------
  // Manual creation and update

  /** A body field is truthy: present and not the empty string. */
  predicate Given(field: Option<string>) {
    field.Some? && field.value != []
  }

  /** `POST /create`: all three fields truthy, the document the caller's, texts trimmed. */
  function Create(store: Store, docs: map<Id, Documents.Document>, user: Id, documentId: Option<Id>,
                  question: Option<string>, answer: Option<string>, newId: Id, now: int)
    : (r: Result<(Store, Card), Failure>)
    requires newId !in store
    ensures !(documentId.Some? && Given(question) && Given(answer)) ==> r == Err(FieldsRequired)
    ensures r.Ok? <==> documentId.Some? && Given(question) && Given(answer)
                       && Documents.FindOwned(docs, documentId.value, user).Some?
    ensures r.Err? && r.error != FieldsRequired ==> r.error == DocumentNotFound
    ensures && documentId.Some? && Given(question) && Given(answer)
            && Documents.FindOwned(docs, documentId.value, user).None?
            ==> r == Err(DocumentNotFound)
    ensures r.Ok? ==> var (store', card) := r.value;
                      && store' == store[newId := card]
                      && card.userId == user && card.documentId == documentId.value && !card.isFavorite
                      && card.question == Trim(question.value) && card.answer == Trim(answer.value)
  {
    if !(documentId.Some? && Given(question) && Given(answer)) then Err(FieldsRequired)
    else if Documents.FindOwned(docs, documentId.value, user).None? then Err(DocumentNotFound)
    else
      var card := NewCard(user, documentId.value, Trim(question.value), Trim(answer.value), now);
      Ok((store[newId := card], card))
  }

  /** `PUT /:id`: a field that is present (not `undefined`) replaces the stored one,
      trimmed; nothing else about the card or the store changes. */
  function Update(store: Store, user: Id, id: Id, question: Option<string>, answer: Option<string>)
    : (r: Result<Store, Failure>)
    ensures r.Ok? <==> Owns(store, id, user)
    ensures r.Err? ==> r.error == CardNotFound
    ensures r.Ok? ==> r.value.Keys == store.Keys
    ensures r.Ok? ==> var c, c' := store[id], r.value[id];
                      && (forall k :: k in store && k != id ==> r.value[k] == store[k])
                      && c'.userId == c.userId && c'.documentId == c.documentId
                      && c'.isFavorite == c.isFavorite && c'.createdAt == c.createdAt
                      && (question.None? ==> c'.question == c.question)
                      && (question.Some? ==> c'.question == Trim(question.value))
                      && (answer.None? ==> c'.answer == c.answer)
                      && (answer.Some? ==> c'.answer == Trim(answer.value))
  {
    if !Owns(store, id, user) then Err(CardNotFound)
    else
      var c := store[id];
      var c' := c.(question := if question.Some? then Trim(question.value) else c.question,
                   answer := if answer.Some? then Trim(answer.value) else c.answer);
      Ok(store[id := c'])
  }

  /** Applying the same update twice is applying it once: trimmed text is already trimmed. */
  lemma {:induction false} UpdateIdempotent(store: Store, user: Id, id: Id, question: Option<string>, answer: Option<string>)
    requires Update(store, user, id, question, answer).Ok?
    ensures var s1 := Update(store, user, id, question, answer).value;
            Update(s1, user, id, question, answer) == Ok(s1)
  {
    var s1 := Update(store, user, id, question, answer).value;
    if question.Some? { TrimTwice(question.value); }
    if answer.Some? { TrimTwice(answer.value); }
    var s2 := Update(s1, user, id, question, answer).value;
    assert s2[id] == s1[id];
    assert s2 == s1;
  }

  lemma TrimTwice(s: string)
    ensures Trim(Trim(s)) == Trim(s)
  {
    var t := Trim(s);
    var r := Trim(t);
    var a :| TrimmedAt(t, a, r);
    if t != [] {
      assert a == 0;
      assert a + |r| == |t|;
    }
  }

  // ---------------------------------------------------------------------------
  // Favourites

  /** `PUT /:id/favorite`: negates the flag of the caller's card and nothing else. */
  function ToggleFavorite(store: Store, user: Id, id: Id): (r: Result<Store, Failure>)
    ensures r.Ok? <==> Owns(store, id, user)
    ensures r.Err? ==> r.error == CardNotFound
    ensures r.Ok? ==> r.value == store[id := store[id].(isFavorite := !store[id].isFavorite)]
  {
    if !Owns(store, id, user) then Err(CardNotFound)
    else Ok(store[id := store[id].(isFavorite := !store[id].isFavorite)])
  }

  /** Toggling twice restores the store. */
  lemma ToggleTwice(store: Store, user: Id, id: Id)
    requires Owns(store, id, user)
    ensures ToggleFavorite(ToggleFavorite(store, user, id).value, user, id) == Ok(store)
  {
    var s1 := ToggleFavorite(store, user, id).value;
    var s2 := ToggleFavorite(s1, user, id).value;
    assert s2[id] == store[id];
    assert s2 == store;
  }

  /** `GET /favorites`: the caller's cards with the flag set. */
  function Favorites(store: Store, user: Id): (r: Store)
    ensures forall k :: k in r <==> Owns(store, k, user) && store[k].isFavorite
    ensures forall k :: k in r ==> k in store && r[k] == store[k]
  {
    map k | k in store && store[k].userId == user && store[k].isFavorite :: store[k]
  }

  /** A toggle moves exactly the toggled card into or out of the favourites. */
  lemma ToggleMovesFavorite(store: Store, user: Id, id: Id)
    requires Owns(store, id, user)
    ensures var s1 := ToggleFavorite(store, user, id).value;
            && (id in Favorites(s1, user) <==> id !in Favorites(store, user))
            && (forall k :: k != id ==> (k in Favorites(s1, user) <==> k in Favorites(store, user)))
  {
  }

  // ---------------------------------------------------------------------------
  // Listing and deletion

  /** `GET /`: the caller's cards. */
  function ForUser(store: Store, user: Id): (r: Store)
    ensures forall k :: k in r <==> Owns(store, k, user)
    ensures forall k :: k in r ==> k in store && r[k] == store[k]
  {
    map k | k in store && store[k].userId == user :: store[k]
  }

  /** `GET /document/:documentId`: the caller's cards of one document. */
  function ForDocument(store: Store, user: Id, documentId: Id): (r: Store)
    ensures forall k :: k in r <==> Owns(store, k, user) && store[k].documentId == documentId
    ensures forall k :: k in r ==> k in store && r[k] == store[k]
  {
    map k | k in store && store[k].userId == user && store[k].documentId == documentId :: store[k]
  }

  /** `DELETE /:id`: removes exactly that card, and only its owner may. */
  function Delete(store: Store, user: Id, id: Id): (r: Result<Store, Failure>)
    ensures r.Ok? <==> Owns(store, id, user)
    ensures r.Err? ==> r.error == CardNotFound
    ensures r.Ok? ==> r.value.Keys == store.Keys - {id}
    ensures r.Ok? ==> forall k :: k in r.value ==> r.value[k] == store[k]
  {
    if Owns(store, id, user) then Ok(store - {id}) else Err(CardNotFound)
  }

  /** `DELETE /document/:documentId`: removes exactly the caller's cards of that document. */
  function DeleteForDocument(store: Store, user: Id, documentId: Id): (r: Store)
    ensures forall k :: k in r <==> k in store && !(store[k].userId == user && store[k].documentId == documentId)
    ensures forall k :: k in r ==> k in store && r[k] == store[k]
  {
    map k | k in store && !(store[k].userId == user && store[k].documentId == documentId) :: store[k]
  }

  /** After deleting a document's cards the caller has none left for it, and every
      other user keeps all of theirs. */
  lemma DeleteForDocumentClears(store: Store, user: Id, documentId: Id, other: Id)
    requires other != user
    ensures ForDocument(DeleteForDocument(store, user, documentId), user, documentId) == map[]
    ensures ForUser(DeleteForDocument(store, user, documentId), other) == ForUser(store, other)
  {
    var r := DeleteForDocument(store, user, documentId);
    assert ForDocument(r, user, documentId).Keys == {};
  }
}
