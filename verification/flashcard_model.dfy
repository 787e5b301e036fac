/** The flashcard record (`models/Flashcard.js`): owner, document, question and
    answer texts, the favourite flag (default off) and the creation time. */
module FlashcardModel {
  import opened Common

  datatype Card = Card(userId: Id, documentId: Id, question: string, answer: string,
                       isFavorite: bool, createdAt: int)

  /** `new Flashcard({ userId, documentId, question, answer, isFavorite: false })`,
      stamped with the creation time by the `createdAt` default. */
  function NewCard(userId: Id, documentId: Id, question: string, answer: string, now: int): (c: Card)
    ensures c.userId == userId && c.documentId == documentId
    ensures c.question == question && c.answer == answer
    ensures !c.isFavorite && c.createdAt == now
  {
    Card(userId, documentId, question, answer, false, now)
  }
}
