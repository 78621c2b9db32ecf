/**
 * What a middleware does with a request: hand it on (`next()`) or answer it
 * with an error status and message (`sendError(res, message, _, status)`).
 */
module Http {
  datatype Reply = Reply(status: nat, message: string)

  datatype Gate = Next | Refuse(reply: Reply)
}
