/** What travels between the phone and the server (TsunagiApi.kt, schemas.py). */
module Wire {
  import opened Wrappers
  import opened Identity

  /** One entry of a batch as it reaches the server. `id` is what survives of the id field
      and `content` what survives of the others; either can fail to parse on its own. */
  datatype Payload = Payload(id: Option<Id>, content: Option<Sms>)

  datatype Upload = Upload(id: Id, sms: Sms)

  datatype ResultStatus = Created | Duplicate | Rejected

  datatype MessageResult = MessageResult(index: int, id: Option<Id>, status: ResultStatus, error: Option<string>)

  datatype BatchResponse =
    BatchResponse(accepted: nat, created: nat, duplicates: nat, rejected: nat, results: Option<seq<MessageResult>>)

  /** How one upload call ends for the phone: a 200, any other HTTP status, or no answer. */
  datatype Answer =
    | Accepted(response: BatchResponse)
    | HttpError(code: int)
    | NetworkError
}
