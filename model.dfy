/**
  The records read from and written to the JSON files. Every field the
  transformation reads is a string; a balance stays the decimal text it was
  given, and an expiry date the text it was given or its conversion.
 */
module Model {
  import opened Wrappers

  /** One card of an input file. */
  datatype Card = Card(
    productName: string,
    cardNumber: string,
    accountNumber: string,
    balance: string,
    expireDate: string)

  /** A card as listed under its product: the account and product it was grouped by are dropped. */
  datatype CardDetail = CardDetail(cardNumber: string, balance: string, expireDate: string)

  /** The cards of one account that share a product name, with their balances added up. */
  datatype Product = Product(name: string, totalBalance: string, details: seq<CardDetail>)

  /** The products of one account. */
  datatype Account = Account(accountNumber: string, products: seq<Product>)

  /** A result document: the number of accounts and the accounts. */
  datatype OutputFile = OutputFile(accountTotal: int, accounts: seq<Account>)

  /**
    An input document. `cards` is None where the document has no card list
    (a JSON null or a missing key); `cardTotal` is read but never checked.
   */
  datatype InputFile = InputFile(cardTotal: int, cards: Option<seq<Card>>)
}
