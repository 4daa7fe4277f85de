/** The responses handlers send: a status code and a JSON body. */
module Http {
  import opened Base
  import opened Crypto
  import opened Records
  import opened UserModel
  import opened Paging

  /** One entry of express-validator's `errors.array()`: the path, the
      message of the failed rule and the value that failed it (`None` when the
      path was not sent, which the JSON leaves out). The `type` and `location`
      keys are "field" and "body" in every entry and are not stored. */
  datatype FieldError = FieldError(path: string, msg: string, value: Option<string>)

  /** The JSON bodies the API sends. */
  datatype Body =
    | NoContent                                    // `res.status(204).end()`
    | ErrorBody(error: string)                     // `{ error }`
    | ErrBody(err: string)                         // `{ err }`
    | ErrorsBody(errors: seq<FieldError>)          // `{ errors }`
    | TokenBody(token: Jwt)                        // `{ token }`
    | ItemBody(itemId: Id, item: Item)
    | ItemsBody(items: Page<(Id, Item)>)           // `{ items, currentPage, totalPages, totalCount }`
    | UserBody(userId: Id, user: User)
    | UsersBody(users: Page<(Id, User)>)           // `{ users, currentPage, totalPages, totalCount }`
    | SignedUpBody(newId: Id, created: User)       // `{ user }`
    | OrderBody(orderId: Id, order: Order)
    | OrdersBody(orders: seq<(Id, Order)>)

  datatype Response = Response(status: nat, body: Body)
}
