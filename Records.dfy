/**
 * The record shapes the store keeps and the service exchanges
 * (internal/model/user.go and internal/dto/user.go). Database-generated
 * columns (the transaction's internal ID, timestamps) are not modelled.
 */
module Records {

  /** A users row: the balance is kept as decimal text, as the source stores it. */
  datatype User = User(id: nat, balance: string)

  /** A transactions row. The amount is the request's text, unchanged. */
  datatype Transaction = Transaction(
    userId: nat,
    transactionId: string,
    amount: string,
    state: string,
    sourceType: string)

  /** The decoded request body; a field missing from the JSON decodes as "". */
  datatype TransactionRequest = TransactionRequest(state: string, amount: string, transactionId: string)

  /** The body of a successful balance query. */
  datatype BalanceResponse = BalanceResponse(userId: nat, balance: string)
}
