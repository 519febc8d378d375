/**
 * The responses the handlers write: a status code and the JSON body, with
 * one constructor per shape of body the handlers produce.
 */
module Http {
  import opened Common
  import opened Schema
  import opened DebtModel

  /** The user object of an authentication response: no password. */
  datatype UserView = UserView(id: nat, email: string, name: Option<string>)

  datatype Body =
    | Message(message: string)
    | Failure(message: string, error: string)
    | WithDebt(message: string, debt: Debt)
    | WithDebts(message: string, debts: seq<Debt>)
    | WithAggregations(message: string, aggregations: Aggregations)
    | WithUser(message: string, user: UserView, token: string)

  datatype Response = Response(status: nat, body: Body)
}
