/**
  `transformData`: cards are grouped by account number and, within an
  account, by product name; each product gets the exact decimal sum of its
  cards' balances and the cards' details sorted by card number; the accounts
  are sorted by account number. A balance that is not a decimal number makes
  the whole transformation throw NumberFormatException.

  Products are built in the order in which their names first occur among the
  account's cards. Java collects them from a HashMap, whose order is not
  specified, so `Conforms` speaks of an account's products only up to order.
 */
module Transformation {
  import opened Wrappers
  import opened Strings
  import opened Grouping
  import opened BigDecimals
  import opened BuddhistDates
  import opened Model

  /** The only exception `transformData` throws on well-formed records. */
  datatype TransformError = NumberFormatError

  function AccountKey(c: Card): string { c.accountNumber }
  function ProductKey(c: Card): string { c.productName }
  function DetailKey(d: CardDetail): string { d.cardNumber }
  function AccountNumberKey(a: Account): string { a.accountNumber }

  /** The detail of one card: its number and balance as given, its expiry date converted. */
  function ToDetail(c: Card): CardDetail {
    CardDetail(c.cardNumber, c.balance, ConvertDate(c.expireDate))
  }

  function Details(cards: seq<Card>): (r: seq<CardDetail>)
    ensures |r| == |cards|
    ensures forall i :: 0 <= i < |cards| ==> r[i] == ToDetail(cards[i])
  {
    if cards == [] then [] else [ToDetail(cards[0])] + Details(cards[1..])
  }

  lemma DetailsOfTwo(x: Card, y: Card)
    ensures Details([x, y]) == [ToDetail(x), ToDetail(y)]
  {
    assert [x, y][1..] == [y];
  }

  /** Every card's balance is a decimal number. */
  predicate BalancesParse(cards: seq<Card>) {
    forall c :: c in cards ==> Parse(c.balance).Some?
  }

  /**
    `new BigDecimal(balance)` for each card in turn: all the decimals, or
    None as soon as one constructor throws.
   */
  function ParseBalances(cards: seq<Card>): (r: Option<seq<Decimal>>)
    ensures r.Some? <==> BalancesParse(cards)
    ensures r.Some? ==> |r.value| == |cards|
    ensures r.Some? ==> forall i :: 0 <= i < |cards| ==> Parse(cards[i].balance) == Some(r.value[i])
  {
    if cards == [] then Some([])
    else
      var rest := ParseBalances(cards[1..]);
      assert forall c :: c in cards <==> c == cards[0] || c in cards[1..];
      match Parse(cards[0].balance)
      case None => None
      case Some(d) => if rest.None? then None else Some([d] + rest.value)
  }

  /** One product: the sum of the bucket's balances and its details sorted by card number. */
  function BuildProduct(name: string, bucket: seq<Card>): (r: Option<Product>)
    ensures r.Some? <==> BalancesParse(bucket)
    ensures r.Some? ==> r.value.name == name
  {
    match ParseBalances(bucket)
    case None => None
    case Some(balances) =>
      Some(Product(name, ToPlainString(Sum(balances)), SortByKey(Details(bucket), DetailKey)))
  }

  /** The product named `name` built from the cards of `cards` bearing that name. */
  function ProductFor(name: string, cards: seq<Card>): Option<Product> {
    BuildProduct(name, WithKey(cards, ProductKey, name))
  }

  /** The products named `names`, each built from the cards of `cards` bearing that name. */
  function BuildProducts(names: seq<string>, cards: seq<Card>): (r: Option<seq<Product>>)
    ensures r.Some? <==> forall i :: 0 <= i < |names| ==> ProductFor(names[i], cards).Some?
    ensures r.Some? ==> |r.value| == |names|
    ensures r.Some? ==> forall i :: 0 <= i < |names| ==> ProductFor(names[i], cards) == Some(r.value[i])
  {
    CollectAll(names, name => ProductFor(name, cards))
  }

  /** One account: a product for each distinct product name among its cards. */
  function BuildAccount(number: string, bucket: seq<Card>): (r: Option<Account>)
    ensures r.Some? ==> r.value.accountNumber == number
    ensures r.Some? ==> ProductNames(r.value.products) == DistinctKeys(bucket, ProductKey)
  {
    match BuildProducts(DistinctKeys(bucket, ProductKey), bucket)
    case None => None
    case Some(products) => Some(Account(number, products))
  }

  /** The account numbered `number` built from the cards of `cards` bearing that number. */
  function AccountFor(number: string, cards: seq<Card>): Option<Account> {
    BuildAccount(number, WithKey(cards, AccountKey, number))
  }

  /** The accounts numbered `numbers`, each built from the cards of `cards` bearing that number. */
  function BuildAccounts(numbers: seq<string>, cards: seq<Card>): (r: Option<seq<Account>>)
    ensures r.Some? <==> forall i :: 0 <= i < |numbers| ==> AccountFor(numbers[i], cards).Some?
    ensures r.Some? ==> |r.value| == |numbers|
    ensures r.Some? ==> forall i :: 0 <= i < |numbers| ==> AccountFor(numbers[i], cards) == Some(r.value[i])
  {
    CollectAll(numbers, number => AccountFor(number, cards))
  }

  /** `transformData(cards)`: the result document, or the NumberFormatException it throws. */
  function Transform(cards: seq<Card>): (r: Result<OutputFile, TransformError>)
    ensures r.Success? ==> r.value.accountTotal == |r.value.accounts|
  {
    match BuildAccounts(DistinctKeys(cards, AccountKey), cards)
    case None => Failure(NumberFormatError)
    case Some(accounts) =>
      var sorted := SortByKey(accounts, AccountNumberKey);
      Success(OutputFile(|sorted|, sorted))
  }

  // ---------------------------------------------------------------------------
  // What a result document must satisfy.

  function ProductNames(products: seq<Product>): (r: seq<string>)
    ensures |r| == |products| && forall i :: 0 <= i < |products| ==> r[i] == products[i].name
  {
    if products == [] then [] else [products[0].name] + ProductNames(products[1..])
  }

  function AccountNumbers(accounts: seq<Account>): (r: seq<string>)
    ensures |r| == |accounts| && forall i :: 0 <= i < |accounts| ==> r[i] == accounts[i].accountNumber
  {
    if accounts == [] then [] else [accounts[0].accountNumber] + AccountNumbers(accounts[1..])
  }

  /**
    A product built from `bucket`: its details are the bucket's details
    (card number and balance as given, expiry date converted), sorted by card
    number, cards with the same number in bucket order; its total is written
    with digits, a sign and a point only, never an exponent, and reads back
    as a decimal whose value is the exact sum of the balances and whose scale
    is the largest of theirs (at least 0).
   */
  ghost predicate ProductConforms(p: Product, bucket: seq<Card>) {
    && multiset(p.details) == multiset(Details(bucket))
    && SortedByKey(p.details, DetailKey)
    && (forall k :: WithKey(p.details, DetailKey, k) == WithKey(Details(bucket), DetailKey, k))
    && ParseBalances(bucket).Some?
    && (forall i :: 0 <= i < |p.totalBalance| ==> IsDigit(p.totalBalance[i]) || p.totalBalance[i] == '-' || p.totalBalance[i] == '.')
    && Parse(p.totalBalance).Some?
    && Value(Parse(p.totalBalance).value) == ValueSum(ParseBalances(bucket).value)
    && Parse(p.totalBalance).value.scale == MaxScale(ParseBalances(bucket).value)
  }

  /**
    An account built from `bucket`: one product per distinct product name of
    the bucket, each built from the bucket's cards of that name.
   */
  ghost predicate AccountConforms(a: Account, bucket: seq<Card>) {
    && (forall i, j :: 0 <= i < j < |a.products| ==> a.products[i].name != a.products[j].name)
    && (forall p :: p in a.products ==> WithKey(bucket, ProductKey, p.name) != [])
    && (forall c :: c in bucket ==> c.productName in ProductNames(a.products))
    && (forall p :: p in a.products ==> ProductConforms(p, WithKey(bucket, ProductKey, p.name)))
  }

  /**
    A result document for `cards`: as many accounts as it says, strictly
    ascending by account number, one per distinct account number of the
    cards, each built from the cards of that number.
   */
  ghost predicate Conforms(cards: seq<Card>, out: OutputFile) {
    && out.accountTotal == |out.accounts|
    && StrictlyAscending(out.accounts, AccountNumberKey)
    && (forall a :: a in out.accounts ==> WithKey(cards, AccountKey, a.accountNumber) != [])
    && (forall c :: c in cards ==> c.accountNumber in AccountNumbers(out.accounts))
    && (forall a :: a in out.accounts ==> AccountConforms(a, WithKey(cards, AccountKey, a.accountNumber)))
  }

  // ---------------------------------------------------------------------------
  // What transformData promises.

  /** A product can be built exactly when every balance of its bucket parses, and then it conforms. */
  lemma BuildProductConforms(name: string, bucket: seq<Card>)
    ensures BuildProduct(name, bucket).Some? <==> BalancesParse(bucket)
    ensures BuildProduct(name, bucket).Some? ==> ProductConforms(BuildProduct(name, bucket).value, bucket)
  {
    if BuildProduct(name, bucket).Some? {
      var p := BuildProduct(name, bucket).value;
      var balances := ParseBalances(bucket).value;
      var details := Details(bucket);
      forall k ensures WithKey(p.details, DetailKey, k) == WithKey(details, DetailKey, k) {
        SortByKeyStable(details, DetailKey, k);
      }
      MaxScaleBounds(balances);
      PlainStringRoundTrip(Sum(balances));
    }
  }

  /** Each card of a bucket lies in the product bucket of its own product name. */
  lemma CardInProductBucket(bucket: seq<Card>, c: Card)
    requires c in bucket
    ensures c.productName in DistinctKeys(bucket, ProductKey)
    ensures c in WithKey(bucket, ProductKey, c.productName)
  {
    assert ProductKey(c) == c.productName;
  }

  /** An account can be built exactly when every balance of its bucket parses. */
  lemma BuildAccountSucceeds(number: string, bucket: seq<Card>)
    ensures BuildAccount(number, bucket).Some? <==> BalancesParse(bucket)
  {
    var names := DistinctKeys(bucket, ProductKey);
    var products := BuildProducts(names, bucket);
    assert BuildAccount(number, bucket).Some? <==> products.Some?;
    if BalancesParse(bucket) {
      forall i | 0 <= i < |names| ensures BuildProduct(names[i], WithKey(bucket, ProductKey, names[i])).Some? {
        var b := WithKey(bucket, ProductKey, names[i]);
        assert forall c :: c in b ==> c in bucket;
      }
      assert products.Some?;
    } else {
      var c :| c in bucket && Parse(c.balance).None?;
      CardInProductBucket(bucket, c);
      var i :| 0 <= i < |names| && names[i] == c.productName;
      assert !BalancesParse(WithKey(bucket, ProductKey, names[i]));
      assert products.None?;
    }
  }

  /** The products of a built account carry the distinct product names of its bucket, in order. */
  lemma BuiltProductNames(number: string, bucket: seq<Card>)
    requires BuildAccount(number, bucket).Some?
    ensures var a, names := BuildAccount(number, bucket).value, DistinctKeys(bucket, ProductKey);
      |a.products| == |names| &&
      forall i :: 0 <= i < |names| ==>
        a.products[i].name == names[i] &&
        BuildProduct(names[i], WithKey(bucket, ProductKey, names[i])) == Some(a.products[i])
  {
  }

  lemma BuiltProductsFromBucket(number: string, bucket: seq<Card>)
    requires BuildAccount(number, bucket).Some?
    ensures var a := BuildAccount(number, bucket).value;
      forall p :: p in a.products ==> WithKey(bucket, ProductKey, p.name) != []
  {
    var a := BuildAccount(number, bucket).value;
    var names := DistinctKeys(bucket, ProductKey);
    BuiltProductNames(number, bucket);
    forall p | p in a.products ensures WithKey(bucket, ProductKey, p.name) != [] {
      var i :| 0 <= i < |a.products| && a.products[i] == p;
      assert names[i] in names;
      var c :| c in bucket && ProductKey(c) == names[i];
      assert c in WithKey(bucket, ProductKey, p.name);
    }
  }

  lemma BucketHasBuiltProducts(number: string, bucket: seq<Card>)
    requires BuildAccount(number, bucket).Some?
    ensures var a := BuildAccount(number, bucket).value;
      forall c :: c in bucket ==> c.productName in ProductNames(a.products)
  {
    var a := BuildAccount(number, bucket).value;
    BuiltProductNames(number, bucket);
    assert ProductNames(a.products) == DistinctKeys(bucket, ProductKey);
    forall c | c in bucket ensures c.productName in ProductNames(a.products) {
      CardInProductBucket(bucket, c);
    }
  }

  lemma BuiltProductsConform(number: string, bucket: seq<Card>)
    requires BuildAccount(number, bucket).Some?
    ensures var a := BuildAccount(number, bucket).value;
      forall p :: p in a.products ==> ProductConforms(p, WithKey(bucket, ProductKey, p.name))
  {
    var a := BuildAccount(number, bucket).value;
    var names := DistinctKeys(bucket, ProductKey);
    BuiltProductNames(number, bucket);
    forall p | p in a.products ensures ProductConforms(p, WithKey(bucket, ProductKey, p.name)) {
      var i :| 0 <= i < |a.products| && a.products[i] == p;
      BuildProductConforms(names[i], WithKey(bucket, ProductKey, names[i]));
    }
  }

  /** A built account conforms to its bucket. */
  lemma BuildAccountConforms(number: string, bucket: seq<Card>)
    requires BuildAccount(number, bucket).Some?
    ensures AccountConforms(BuildAccount(number, bucket).value, bucket)
  {
    BuiltProductNames(number, bucket);
    BuiltProductsFromBucket(number, bucket);
    BucketHasBuiltProducts(number, bucket);
    BuiltProductsConform(number, bucket);
  }

  /** Each card lies in the account bucket of its own account number. */
  lemma CardInAccountBucket(cards: seq<Card>, c: Card)
    requires c in cards
    ensures c.accountNumber in DistinctKeys(cards, AccountKey)
    ensures c in WithKey(cards, AccountKey, c.accountNumber)
  {
    assert AccountKey(c) == c.accountNumber;
  }

  /**
    `transformData` throws NumberFormatException exactly when some card's
    balance is not a decimal number; otherwise it returns a document.
   */
  lemma TransformFailsIff(cards: seq<Card>)
    ensures Transform(cards).Failure? <==> exists c :: c in cards && Parse(c.balance).None?
  {
    var numbers := DistinctKeys(cards, AccountKey);
    var accounts := BuildAccounts(numbers, cards);
    assert Transform(cards).Failure? <==> accounts.None?;
    if BalancesParse(cards) {
      forall i | 0 <= i < |numbers| ensures BuildAccount(numbers[i], WithKey(cards, AccountKey, numbers[i])).Some? {
        var b := WithKey(cards, AccountKey, numbers[i]);
        assert forall c :: c in b ==> c in cards;
        BuildAccountSucceeds(numbers[i], b);
      }
      assert accounts.Some?;
    } else {
      var c :| c in cards && Parse(c.balance).None?;
      CardInAccountBucket(cards, c);
      var i :| 0 <= i < |numbers| && numbers[i] == c.accountNumber;
      BuildAccountSucceeds(numbers[i], WithKey(cards, AccountKey, numbers[i]));
      assert accounts.None?;
    }
  }

  /** `a` is the account built from the cards numbered `k`. */
  predicate BuiltFor(cards: seq<Card>, k: string, a: Account) {
    a.accountNumber == k && BuildAccount(k, WithKey(cards, AccountKey, k)) == Some(a)
  }

  /**
    The accounts of a document are the built accounts, reordered: each is
    built from the cards of one of the distinct account numbers.
   */
  lemma OutputAccountsBuilt(cards: seq<Card>, a: Account)
    requires Transform(cards).Success? && a in Transform(cards).value.accounts
    ensures exists k :: k in DistinctKeys(cards, AccountKey) && BuiltFor(cards, k, a)
  {
    var numbers := DistinctKeys(cards, AccountKey);
    var accounts := BuildAccounts(numbers, cards).value;
    var sorted := SortByKey(accounts, AccountNumberKey);
    assert Transform(cards).value.accounts == sorted;
    assert a in multiset(sorted);
    assert a in accounts;
    var i :| 0 <= i < |accounts| && accounts[i] == a;
    assert AccountFor(numbers[i], cards) == Some(a);
    assert BuiltFor(cards, numbers[i], a);
  }

  lemma OutputAccountsAscending(cards: seq<Card>)
    requires Transform(cards).Success?
    ensures StrictlyAscending(Transform(cards).value.accounts, AccountNumberKey)
  {
    var numbers := DistinctKeys(cards, AccountKey);
    var accounts := BuildAccounts(numbers, cards).value;
    forall i | 0 <= i < |accounts| ensures AccountNumberKey(accounts[i]) == numbers[i] {
      assert AccountFor(numbers[i], cards) == Some(accounts[i]);
    }
    SortByKeyStrict(accounts, AccountNumberKey);
    assert Transform(cards).value.accounts == SortByKey(accounts, AccountNumberKey);
  }

  /** Reordering accounts keeps every account number listed. */
  lemma PermutedAccountNumbers(sorted: seq<Account>, accounts: seq<Account>)
    requires multiset(sorted) == multiset(accounts)
    ensures forall i :: 0 <= i < |accounts| ==> accounts[i].accountNumber in AccountNumbers(sorted)
  {
    forall i | 0 <= i < |accounts| ensures accounts[i].accountNumber in AccountNumbers(sorted) {
      assert accounts[i] in multiset(accounts);
      var j :| 0 <= j < |sorted| && sorted[j] == accounts[i];
      assert AccountNumbers(sorted)[j] == accounts[i].accountNumber;
    }
  }

  /** Every account built for a distinct account number is listed in the document. */
  lemma BuiltAccountsListed(cards: seq<Card>)
    requires Transform(cards).Success?
    ensures forall k :: k in DistinctKeys(cards, AccountKey) ==> k in AccountNumbers(Transform(cards).value.accounts)
  {
    var numbers := DistinctKeys(cards, AccountKey);
    var accounts := BuildAccounts(numbers, cards).value;
    var sorted := SortByKey(accounts, AccountNumberKey);
    assert Transform(cards).value.accounts == sorted;
    PermutedAccountNumbers(sorted, accounts);
    forall k | k in numbers ensures k in AccountNumbers(sorted) {
      var i :| 0 <= i < |numbers| && numbers[i] == k;
      assert accounts[i].accountNumber == k;
    }
  }

  lemma CardsHaveOutputAccounts(cards: seq<Card>)
    requires Transform(cards).Success?
    ensures forall c :: c in cards ==> c.accountNumber in AccountNumbers(Transform(cards).value.accounts)
  {
    BuiltAccountsListed(cards);
    forall c | c in cards ensures c.accountNumber in AccountNumbers(Transform(cards).value.accounts) {
      CardInAccountBucket(cards, c);
    }
  }

  /** Every document `transformData` returns conforms to its cards. */
  lemma TransformConforms(cards: seq<Card>)
    requires Transform(cards).Success?
    ensures Conforms(cards, Transform(cards).value)
  {
    var out := Transform(cards).value;
    OutputAccountsAscending(cards);
    CardsHaveOutputAccounts(cards);
    forall a | a in out.accounts
      ensures WithKey(cards, AccountKey, a.accountNumber) != []
      ensures AccountConforms(a, WithKey(cards, AccountKey, a.accountNumber))
    {
      OutputAccountsBuilt(cards, a);
      var k :| k in DistinctKeys(cards, AccountKey) && BuiltFor(cards, k, a);
      var c :| c in cards && AccountKey(c) == k;
      assert c in WithKey(cards, AccountKey, a.accountNumber);
      BuildAccountConforms(k, WithKey(cards, AccountKey, k));
    }
  }

  /** A card whose balance is "not-a-number" makes the transformation throw. */
  lemma TransformInvalidBalance()
    ensures Transform([Card("p1", "c1", "123", "not-a-number", "01012560")]).Failure?
  {
    var c := Card("p1", "c1", "123", "not-a-number", "01012560");
    ParseNotANumberFails();
    TransformFailsIff([c]);
    assert c in [c];
  }

  /** The accounts built for two account numbers carry those numbers, in that order. */
  lemma BuiltTwoAccounts(cards: seq<Card>, a: string, b: string)
    requires BuildAccounts([a, b], cards).Some?
    ensures var accounts := BuildAccounts([a, b], cards).value;
      |accounts| == 2 && accounts[0].accountNumber == a && accounts[1].accountNumber == b
  {
    var accounts := BuildAccounts([a, b], cards).value;
    assert AccountFor(a, cards) == Some(accounts[0]);
    assert AccountFor(b, cards) == Some(accounts[1]);
  }

  /** Sorting two accounts by number lists the smaller number first. */
  lemma SortTwoAccounts(accounts: seq<Account>)
    requires |accounts| == 2
    ensures var a, b := accounts[0].accountNumber, accounts[1].accountNumber;
      AccountNumbers(SortByKey(accounts, AccountNumberKey)) == if LexLess(b, a) then [b, a] else [a, b]
  {
    var x, y := accounts[0], accounts[1];
    assert accounts == [x, y];
    SortByKeyOfTwo(x, y, AccountNumberKey);
    if LexLess(y.accountNumber, x.accountNumber) {
      AccountNumbersOfTwo(y, x);
    } else {
      AccountNumbersOfTwo(x, y);
    }
  }

  lemma AccountNumbersOfTwo(x: Account, y: Account)
    ensures AccountNumbers([x, y]) == [x.accountNumber, y.accountNumber]
  {
    assert [x, y][1..] == [y];
  }

  /**
    Cards of exactly two account numbers give a document of two accounts,
    listed in ascending order of account number whatever the order of the
    cards.
   */
  lemma TransformTwoAccounts(cards: seq<Card>, a: string, b: string)
    requires BalancesParse(cards)
    requires DistinctKeys(cards, AccountKey) == [a, b]
    ensures Transform(cards).Success?
    ensures AccountNumbers(Transform(cards).value.accounts) == if LexLess(b, a) then [b, a] else [a, b]
  {
    TransformFailsIff(cards);
    BuiltTwoAccounts(cards, a, b);
    SortTwoAccounts(BuildAccounts([a, b], cards).value);
  }

  /** A product whose balances all parse: their total as plain text and their sorted details. */
  lemma BuiltProduct(name: string, bucket: seq<Card>)
    requires BalancesParse(bucket)
    ensures BuildProduct(name, bucket) ==
      Some(Product(name, ToPlainString(Sum(ParseBalances(bucket).value)), SortByKey(Details(bucket), DetailKey)))
  {
  }

  /** An account whose cards share one product name holds that one product. */
  lemma BuiltSingleProductAccount(number: string, bucket: seq<Card>, name: string)
    requires BalancesParse(bucket)
    requires DistinctKeys(bucket, ProductKey) == [name]
    ensures BuildAccount(number, bucket) == Some(Account(number, [BuildProduct(name, bucket).value]))
  {
    SingleDistinctKey(bucket, ProductKey, name);
    WithKeyAll(bucket, ProductKey, name);
    BuiltProduct(name, bucket);
    var products := BuildProducts([name], bucket);
    assert ProductFor(name, bucket).Some?;
    assert products.value == [products.value[0]];
  }

  /** Cards of one account number give a document holding just that account. */
  lemma TransformSingleAccount(cards: seq<Card>, number: string)
    requires DistinctKeys(cards, AccountKey) == [number]
    requires BuildAccount(number, cards).Some?
    ensures Transform(cards) == Success(OutputFile(1, [BuildAccount(number, cards).value]))
  {
    SingleDistinctKey(cards, AccountKey, number);
    WithKeyAll(cards, AccountKey, number);
    var accounts := BuildAccounts([number], cards);
    assert AccountFor(number, cards).Some?;
    assert accounts.value == [accounts.value[0]];
    assert [accounts.value[0]][..0] == [];
  }

  /**
    Cards of one account number and one product name give a document of one
    account holding one product: the exact total of the balances, and the
    cards' details sorted by card number.
   */
  lemma TransformOneProduct(cards: seq<Card>, number: string, name: string)
    requires BalancesParse(cards)
    requires DistinctKeys(cards, AccountKey) == [number] && DistinctKeys(cards, ProductKey) == [name]
    ensures Transform(cards) == Success(OutputFile(1, [Account(number, [
      Product(name, ToPlainString(Sum(ParseBalances(cards).value)), SortByKey(Details(cards), DetailKey))])]))
  {
    BuiltProduct(name, cards);
    BuiltSingleProductAccount(number, cards, name);
    TransformSingleAccount(cards, number);
  }

  /**
    Two cards of two accounts, given with the larger account number first:
    the document has two accounts, in ascending order of account number.
   */
  lemma ScenarioAccountsSorted()
    ensures var r := Transform([Card("p1", "c1", "22222", "10", "01012560"), Card("p2", "c2", "11111", "20", "01012560")]);
      && r.Success?
      && r.value.accountTotal == 2
      && AccountNumbers(r.value.accounts) == ["11111", "22222"]
  {
    var cards := [Card("p1", "c1", "22222", "10", "01012560"), Card("p2", "c2", "11111", "20", "01012560")];
    AccountsScenarioBalances(cards);
    AccountsScenarioKeys(cards);
    TransformTwoAccounts(cards, "22222", "11111");
  }

  lemma AccountsScenarioBalances(cards: seq<Card>)
    requires cards == [Card("p1", "c1", "22222", "10", "01012560"), Card("p2", "c2", "11111", "20", "01012560")]
    ensures BalancesParse(cards)
  {
    ParseWhole("10");
    ParseWhole("20");
  }

  lemma AccountsScenarioKeys(cards: seq<Card>)
    requires cards == [Card("p1", "c1", "22222", "10", "01012560"), Card("p2", "c2", "11111", "20", "01012560")]
    ensures DistinctKeys(cards, AccountKey) == ["22222", "11111"]
    ensures LexLess("11111", "22222")
  {
    DistinctKeysOfTwo(cards[0], cards[1], AccountKey);
  }

  /**
    Two cards of one account and one product, given with the larger card
    number first: the product lists their details in ascending order of card
    number.
   */
  lemma ScenarioDetailsSorted()
    ensures var c2, c1 := Card("debit-card", "222222", "123", "100", "01012560"), Card("debit-card", "111111", "123", "100", "01012560");
      var r := Transform([c2, c1]);
      && r.Success?
      && |r.value.accounts| == 1
      && |r.value.accounts[0].products| == 1
      && r.value.accounts[0].products[0].details == [ToDetail(c1), ToDetail(c2)]
  {
    var c2, c1 := Card("debit-card", "222222", "123", "100", "01012560"), Card("debit-card", "111111", "123", "100", "01012560");
    ParseWhole("100");
    DistinctKeysOfTwo(c2, c1, AccountKey);
    DistinctKeysOfTwo(c2, c1, ProductKey);
    TransformOneProduct([c2, c1], "123", "debit-card");
    DetailsOfTwo(c2, c1);
    assert LexLess("111111", "222222");
    SortByKeyOfTwo(ToDetail(c2), ToDetail(c1), DetailKey);
  }

  /** No cards give a document with no accounts. */
  lemma TransformEmpty()
    ensures Transform([]) == Success(OutputFile(0, []))
  {
  }

  // ---------------------------------------------------------------------------
  // Each card lands in exactly one product of exactly one account.

  /** The number of details listed under `products`. */
  function ProductDetailCount(products: seq<Product>): nat {
    if products == [] then 0 else |products[0].details| + ProductDetailCount(products[1..])
  }

  /** The number of details listed in a document. */
  function DetailCount(accounts: seq<Account>): nat {
    if accounts == [] then 0 else ProductDetailCount(accounts[0].products) + DetailCount(accounts[1..])
  }

  lemma {:induction false} ProductDetailCountByName(products: seq<Product>, bucket: seq<Card>)
    requires forall p :: p in products ==> |p.details| == |WithKey(bucket, ProductKey, p.name)|
    ensures ProductDetailCount(products) == GroupSizes(ProductNames(products), bucket, ProductKey)
  {
    if products != [] {
      assert ProductNames(products)[1..] == ProductNames(products[1..]);
      ProductDetailCountByName(products[1..], bucket);
    }
  }

  lemma ConformingDetailSizes(a: Account, bucket: seq<Card>)
    requires AccountConforms(a, bucket)
    ensures forall p :: p in a.products ==> |p.details| == |WithKey(bucket, ProductKey, p.name)|
  {
    forall p | p in a.products ensures |p.details| == |WithKey(bucket, ProductKey, p.name)| {
      var b := WithKey(bucket, ProductKey, p.name);
      assert ProductConforms(p, b);
      assert multiset(p.details) == multiset(Details(b));
      assert |p.details| == |multiset(p.details)|;
    }
  }

  lemma ConformingNamesDistinct(a: Account, bucket: seq<Card>)
    requires AccountConforms(a, bucket)
    ensures forall i, j :: 0 <= i < j < |a.products| ==> ProductNames(a.products)[i] != ProductNames(a.products)[j]
    ensures forall c :: c in bucket ==> ProductKey(c) in ProductNames(a.products)
  {
  }

  /** An account lists as many details as its bucket holds cards. */
  lemma AccountDetailCount(a: Account, bucket: seq<Card>)
    requires AccountConforms(a, bucket)
    ensures ProductDetailCount(a.products) == |bucket|
  {
    ConformingDetailSizes(a, bucket);
    ProductDetailCountByName(a.products, bucket);
    ConformingNamesDistinct(a, bucket);
    GroupSizesPartition(ProductNames(a.products), bucket, ProductKey);
  }

  lemma {:induction false} DetailCountByNumber(accounts: seq<Account>, cards: seq<Card>)
    requires forall a :: a in accounts ==> ProductDetailCount(a.products) == |WithKey(cards, AccountKey, a.accountNumber)|
    ensures DetailCount(accounts) == GroupSizes(AccountNumbers(accounts), cards, AccountKey)
  {
    if accounts != [] {
      assert AccountNumbers(accounts)[1..] == AccountNumbers(accounts[1..]);
      DetailCountByNumber(accounts[1..], cards);
    }
  }

  /**
    A conforming document lists exactly as many card details as there are
    cards: grouping neither drops nor repeats a card.
   */
  lemma ConformsCountsCards(cards: seq<Card>, out: OutputFile)
    requires Conforms(cards, out)
    ensures DetailCount(out.accounts) == |cards|
  {
    forall a | a in out.accounts
      ensures ProductDetailCount(a.products) == |WithKey(cards, AccountKey, a.accountNumber)|
    {
      AccountDetailCount(a, WithKey(cards, AccountKey, a.accountNumber));
    }
    DetailCountByNumber(out.accounts, cards);
    var numbers := AccountNumbers(out.accounts);
    forall i, j | 0 <= i < j < |numbers| ensures numbers[i] != numbers[j] {
      LexLessIrreflexive(numbers[i]);
    }
    assert forall c :: c in cards ==> AccountKey(c) in numbers;
    GroupSizesPartition(numbers, cards, AccountKey);
  }

  /** The account at `i` and its product at `j` are the ones of `c`'s account number and product name. */
  ghost predicate Holds(out: OutputFile, i: int, j: int, c: Card) {
    && 0 <= i < |out.accounts| && 0 <= j < |out.accounts[i].products|
    && out.accounts[i].accountNumber == c.accountNumber
    && out.accounts[i].products[j].name == c.productName
  }

  /** A card of a product's bucket has its detail listed under a conforming product. */
  lemma ConformingProductListsCard(p: Product, bucket: seq<Card>, c: Card)
    requires ProductConforms(p, bucket) && c in bucket
    ensures ToDetail(c) in p.details
  {
    var k :| 0 <= k < |bucket| && bucket[k] == c;
    assert Details(bucket)[k] == ToDetail(c);
    assert ToDetail(c) in multiset(Details(bucket));
    assert ToDetail(c) in multiset(p.details);
  }

  /** A conforming account lists the detail of each card of its bucket under the card's product name. */
  lemma ConformingAccountListsCard(a: Account, bucket: seq<Card>, c: Card)
    requires AccountConforms(a, bucket) && c in bucket
    ensures exists j :: 0 <= j < |a.products| && a.products[j].name == c.productName && ToDetail(c) in a.products[j].details
  {
    var j :| 0 <= j < |a.products| && ProductNames(a.products)[j] == c.productName;
    var p := a.products[j];
    assert p in a.products;
    var b := WithKey(bucket, ProductKey, p.name);
    assert c in b;
    ConformingProductListsCard(p, b, c);
  }

  /** In a conforming document each card has a place that lists its detail. */
  lemma CardPlaced(cards: seq<Card>, out: OutputFile, c: Card)
    requires Conforms(cards, out) && c in cards
    ensures exists i, j :: Holds(out, i, j, c) && ToDetail(c) in out.accounts[i].products[j].details
  {
    var i :| 0 <= i < |out.accounts| && AccountNumbers(out.accounts)[i] == c.accountNumber;
    var a := out.accounts[i];
    assert a in out.accounts;
    var bucket := WithKey(cards, AccountKey, a.accountNumber);
    assert c in bucket;
    ConformingAccountListsCard(a, bucket, c);
    var j :| 0 <= j < |a.products| && a.products[j].name == c.productName && ToDetail(c) in a.products[j].details;
    assert Holds(out, i, j, c);
  }

  /** In a conforming document a card has at most one place. */
  lemma CardPlaceUnique(cards: seq<Card>, out: OutputFile, c: Card)
    requires Conforms(cards, out)
    ensures forall i, j, i', j' :: Holds(out, i, j, c) && Holds(out, i', j', c) ==> i == i' && j == j'
  {
    forall i, j, i', j' | Holds(out, i, j, c) && Holds(out, i', j', c) ensures i == i' && j == j' {
      LexLessIrreflexive(c.accountNumber);
      var a := out.accounts[i];
      assert a in out.accounts;
      assert AccountConforms(a, WithKey(cards, AccountKey, a.accountNumber));
    }
  }

  /**
    In a conforming document each card has exactly one place: one account
    with its account number, in it one product with its product name, and
    that product lists the card's detail.
   */
  lemma CardPlacedOnce(cards: seq<Card>, out: OutputFile, c: Card)
    requires Conforms(cards, out) && c in cards
    ensures exists i, j :: Holds(out, i, j, c) && ToDetail(c) in out.accounts[i].products[j].details
    ensures forall i, j, i', j' :: Holds(out, i, j, c) && Holds(out, i', j', c) ==> i == i' && j == j'
  {
    CardPlaced(cards, out, c);
    CardPlaceUnique(cards, out, c);
  }
}
