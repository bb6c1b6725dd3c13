/**
  The decisions of two request handlers in app.py, over the result of the call each
  one makes: `get_case` answers with the first document of a vector-store lookup or
  with a 404, and `send_case_query` answers with a fixed message when the case has no
  saved chat history, and otherwise forwards the query to the resumed chat.
 */
module Handlers {
  import opened Wrappers

  /** A JSON response with one key, and its HTTP status. */
  datatype JsonResponse = JsonResponse(status: nat, key: string, value: string)

  /** What `collection.get(ids=[case_id])` returns, reduced to its `documents` entry (`None`: absent or null). */
  datatype GetResult = GetResult(documents: Option<seq<string>>)

  const NotFoundMessage: string := "Case not found"
  const NoHistoryMessage: string := "No history found."

  /** `get_case`: the first document, or "Case not found" with 404 when there is none. */
  function GetCase(results: GetResult): (resp: JsonResponse)
    ensures resp.status == 404 <==> results.documents.None? || results.documents.value == []
    ensures resp.status == 404 ==> resp.key == "error" && resp.value == NotFoundMessage
    ensures resp.status != 404 ==>
      resp.status == 200 && resp.key == "document" && resp.value == results.documents.value[0]
  {
    if results.documents.Some? && results.documents.value != [] then
      JsonResponse(200, "document", results.documents.value[0])
    else
      JsonResponse(404, "error", NotFoundMessage)
  }

  /** A vector store holding one document per case id: `get` by one id finds that document or nothing. */
  function CollectionGet(store: map<string, string>, id: string): GetResult
  {
    GetResult(Some(if id in store then [store[id]] else []))
  }

  /** Over such a store, `/case/<id>` answers 404 exactly for an id that is not stored, and otherwise its document. */
  lemma GetCaseFromStore(store: map<string, string>, id: string)
    ensures GetCase(CollectionGet(store, id)).status == 404 <==> id !in store
    ensures id in store ==> GetCase(CollectionGet(store, id)).value == store[id]
  {
  }

  /** The reply to a query and the query sent to the model, if one was. */
  datatype ChatTurn = ChatTurn(response: string, sent: Option<string>)

  /**
    `send_case_query(case_id, query)`. `histories` holds the chat histories saved on
    disk by case id (`load_case_chat` finds none for a missing file); `reply` stands for
    the model answering `query` in a chat resumed from a history.
   */
  function SendCaseQuery<H>(histories: map<string, H>, caseId: string, query: string,
                            reply: (H, string) -> string): (turn: ChatTurn)
    ensures turn.sent.None? <==> caseId !in histories
    ensures caseId !in histories ==> turn.response == NoHistoryMessage
    ensures caseId in histories ==>
      turn.sent == Some(query) && turn.response == reply(histories[caseId], query)
  {
    if caseId !in histories then ChatTurn(NoHistoryMessage, None)
    else ChatTurn(reply(histories[caseId], query), Some(query))
  }
}
