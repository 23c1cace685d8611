# rearrange-data in Dafny

A model of `DataProcessor`, the part of rearrange-data that turns card records into account
documents. An input document holds a list of cards. Each card has a product name, a card
number, an account number, a balance written as decimal text, and an expiry date written
`ddMMyyyy` in the Buddhist era.

`transformData` groups the cards by account number, then by product name. Each product gets
the exact `BigDecimal` sum of its balances, printed with `toPlainString`. It also gets its
cards' details, sorted by card number, with each expiry date converted to the ISO date
543 years earlier. The accounts come out sorted by account number.

Around the transformation:

- `findInputFiles` picks the regular files of the input directory whose lower-cased name ends
  in `.json`.
- Mode 2 aggregates the cards of all input files into one `aggregated-result_<time>.json`.
- Any other mode writes one result document per input file, under the input file's name.

Modules, one per concern of the source:

- `Wrappers`: `Option` and `Result`.
- `Strings`: decimal digits, and the order `String.compareTo` gives.
- `Grouping`: the steps of the stream pipeline. These are the records of one key as
  `groupingBy` collects them, the distinct keys, a `map` whose step may throw, and the stable
  sort `sorted(Comparator.comparing(...))`.
- `BigDecimals`: the `BigDecimal(String)` constructor, `add`, `ZERO` and `toPlainString`.
  Values are exact rationals.
- `BuddhistDates`: `convertDate`. This covers strict `ddMMyyyy` parsing with the SMART
  resolver, `minusYears(543)`, and printing with `yyyy-MM-dd`.
- `Model`: the records (`Card`, `CardDetail`, `Product`, `Account`, `OutputFile`,
  `InputFile`).
- `Transformation`: `transformData`, and `Conforms`, the property every result document has.
- `DataProcessor`: `processFiles`, the two modes and `findInputFiles`.

The two loops of the source are methods with loop invariants:

- `DataProcessor.ProcessAggregateMode` is proved against `AllCards`.
- `DataProcessor.ProcessPerFileMode` is proved against `PerFileWrites`.

The model follows the code, including where it behaves in ways one might not expect:

- A day past the end of its month is not refused. Java's SMART resolver moves it to the
  month's last day, so "31042568" becomes "2025-04-30".
- 29 February is checked against the leap-year rule on the Buddhist year number as written.
- A malformed balance throws a plain `NumberFormatException` that does not name the record.
- A JSON `null` document makes `getCards()` throw a `NullPointerException`. In aggregate mode
  this is not caught, so the run ends without writing. In per-file mode only that file's
  task ends.

## Model

| member | source | states |
|---|---|---|
| Strings.LexLessCharacterization | src/main/java/org/example/DataProcessor.java:161 | the order used for card and account numbers is `String.compareTo`: either a proper prefix, or the first differing character decides |
| Strings.LexLessTotal | src/main/java/org/example/DataProcessor.java:171 | any two different strings are ordered one way or the other |
| Strings.LexLessTransitive | src/main/java/org/example/DataProcessor.java:171 | the order is transitive |
| Strings.LexLessAsymmetric | src/main/java/org/example/DataProcessor.java:171 | the order is asymmetric (and, by `LexLessIrreflexive`, irreflexive) |
| Grouping.WithKey | src/main/java/org/example/DataProcessor.java:130-131 | the group of a key holds exactly the records with that key, and never more records than the input |
| Grouping.WithKeyAppend | src/main/java/org/example/DataProcessor.java:130-131 | grouping keeps encounter order: the group of a concatenation is the concatenation of the groups |
| Grouping.DistinctKeys | src/main/java/org/example/DataProcessor.java:140-141 | the keys of the groups: no key twice, and a key is listed exactly when some record has it |
| Grouping.DistinctKeysOfTwo | src/main/java/org/example/DataProcessor.java:130-131 | two records give one group when their keys agree, and two groups otherwise (listing them first-seen first is the model's choice) |
| Grouping.CollectAll | src/main/java/org/example/DataProcessor.java:144-166 | a stream `map` whose step may throw gives all the results, in order, exactly when no step throws |
| Grouping.SortByKey | src/main/java/org/example/DataProcessor.java:155-162 | the sort returns a permutation of its input, ordered by key |
| Grouping.SortByKeyStable | src/main/java/org/example/DataProcessor.java:161 | the sort is stable: records with equal keys keep their input order |
| Grouping.SortByKeyStrict | src/main/java/org/example/DataProcessor.java:170-172 | records with distinct keys come out strictly ascending |
| Grouping.SortByKeyOfTwo | src/main/java/org/example/DataProcessor.java:161 | sorting two records swaps them exactly when the second key is smaller |
| Grouping.GroupSizesPartition | src/main/java/org/example/DataProcessor.java:130-131 | the groups of a complete list of distinct keys hold as many records as the input |
| BigDecimals.Add | src/main/java/org/example/DataProcessor.java:152 | `add` is exact, and its scale is the larger of the two scales |
| BigDecimals.Sum | src/main/java/org/example/DataProcessor.java:150-152 | the fold from `ZERO` has the exact sum as its value, and the largest scale among the terms and 0 as its scale |
| BigDecimals.Parse | src/main/java/org/example/DataProcessor.java:151 | `new BigDecimal(balance)`: an accepted balance has a scale that fits in an `int`, as a larger exponent throws; the accepted forms and their values are stated by the lemmas below |
| BigDecimals.ToPlainString | src/main/java/org/example/DataProcessor.java:164 | `toPlainString` writes only digits, a minus sign and a point, never an exponent; `PlainStringRoundTrip` reads it back |
| BigDecimals.PlainStringRoundTrip | src/main/java/org/example/DataProcessor.java:164 | a total printed by `toPlainString` reads back as the same decimal, value and scale |
| BigDecimals.ParseWhole | src/main/java/org/example/DataProcessor.java:151 | digits alone parse to their value with scale 0 |
| BigDecimals.ParsePointed | src/main/java/org/example/DataProcessor.java:151 | digits, a point and digits parse to the digits read together, with the number of fraction digits as scale |
| BigDecimals.ParseRejectsLeadingLetter | src/main/java/org/example/DataProcessor.java:151 | text starting with anything but a digit, a point or a sign throws NumberFormatException |
| BigDecimals.MalformedBalances | src/main/java/org/example/DataProcessor.java:151 | empty text, a lone sign or point, letters, two points and an empty exponent all throw |
| BigDecimals.ParseNotANumberFails | src/test/java/DataProcessorTest.java:160 | the balance "not-a-number" throws |
| BigDecimals.OtherAcceptedForms | src/main/java/org/example/DataProcessor.java:151 | signs, a bare point and exponents are accepted; the exponent shifts the scale ("1E+3" has scale -3) |
| BigDecimals.ScenarioDebitTotal | src/test/java/DataProcessorTest.java:71 | "55.24" plus "999.89" is printed "1055.13" |
| BigDecimals.ScenarioPrepaidTotal | src/test/java/DataProcessorTest.java:82 | a single "150.00" sums to "150.00": its scale of 2 survives the fold from `ZERO` |
| BuddhistDates.ParseBuddhistDate | src/main/java/org/example/DataProcessor.java:184 | a parsed date is a real calendar date, with a year between 1 and 999999999 |
| BuddhistDates.MinusYears | src/main/java/org/example/DataProcessor.java:186 | `minusYears` keeps the month, subtracts the years, and keeps the day unless that month is shorter in the new year, then takes its last day |
| BuddhistDates.ConvertDate | src/main/java/org/example/DataProcessor.java:188-191 | text that does not parse is returned unchanged |
| BuddhistDates.ConvertDateFallbackIff | src/main/java/org/example/DataProcessor.java:182-192 | the input comes back unchanged exactly when it does not parse |
| BuddhistDates.ConvertDateDigits | src/main/java/org/example/DataProcessor.java:182-192 | an eight-digit date valid in both eras, in Christian years 1..9999, becomes "yyyy-MM-dd" with the input's month and day and the year less 543 |
| BuddhistDates.ConvertKnownDate | src/main/java/org/example/DataProcessor.java:182-192 | an eight-digit Buddhist date in years 544..10542 becomes the year less 543 with the same month, and the day moved to the last day of the month when the Buddhist or the Christian month is shorter |
| BuddhistDates.FormatIsoDate | src/main/java/org/example/DataProcessor.java:187 | for any year, "yyyy-MM-dd" ends in a hyphen, the month field, a hyphen and the day field, where `FieldText` is the month or day |
| BuddhistDates.FieldText | src/main/java/org/example/DataProcessor.java:187 | the "MM" and "dd" fields are exactly two digits that read back as the month or day |
| BuddhistDates.FormatFourDigitYear | src/main/java/org/example/DataProcessor.java:187 | a date in the years 1..9999 prints as four year digits, two month digits and two day digits |
| BuddhistDates.ScenarioDates | src/test/java/DataProcessorTest.java:74-85 | "01092568", "01052569" and "01032569" become "2025-09-01", "2026-05-01" and "2026-03-01" |
| BuddhistDates.ConvertThirtyFirstOfApril | src/main/java/org/example/DataProcessor.java:184 | "31042568" is clamped to 30 April rather than refused |
| BuddhistDates.ConvertLeapDayOf2567 | src/main/java/org/example/DataProcessor.java:184-186 | 29 February 2567 becomes "2024-02-28", because the year as written is not leap |
| BuddhistDates.ConvertLeapDayOf2568 | src/main/java/org/example/DataProcessor.java:186 | 29 February 2568 becomes "2025-02-28": `minusYears` clamps into the non-leap year |
| BuddhistDates.FieldOutOfRangeFalls | src/main/java/org/example/DataProcessor.java:184-190 | eight digits with a day outside 1..31, a month outside 1..12 or year 0 come back unchanged |
| BuddhistDates.ConvertDateFallbacks | src/main/java/org/example/DataProcessor.java:188-191 | days 0 and 32, month 13, year 0, a short year, letters and empty text all come back unchanged |
| Transformation.Details | src/main/java/org/example/DataProcessor.java:155-160 | one detail per card, in order: number and balance as given, expiry date converted |
| Transformation.ParseBalances | src/main/java/org/example/DataProcessor.java:151 | every balance is parsed, in order, or the step throws when any balance is malformed |
| Transformation.BuildProduct | src/main/java/org/example/DataProcessor.java:146-164 | a product is built, under its own name, exactly when all its balances parse |
| Transformation.BuildProductConforms | src/main/java/org/example/DataProcessor.java:146-164 | a built product's details are its cards' details, sorted by card number and stable; its total reads back as the exact sum, with the largest scale |
| Transformation.BuildProducts | src/main/java/org/example/DataProcessor.java:144-166 | one product per name, in the order of the names, each built from the cards of that name, or a throw when any product throws |
| Transformation.BuildAccountSucceeds | src/main/java/org/example/DataProcessor.java:136-168 | an account is built exactly when all its balances parse |
| Transformation.BuildAccount | src/main/java/org/example/DataProcessor.java:136-168 | a built account has the given number, and its products are named by the distinct product names of its cards |
| Transformation.BuildAccountConforms | src/main/java/org/example/DataProcessor.java:136-168 | a built account has one product per product name: names are distinct, every card is covered, and each product conforms |
| Transformation.BuildAccounts | src/main/java/org/example/DataProcessor.java:133-169 | an account for each number, in order, or a throw when any account throws |
| Transformation.Transform | src/main/java/org/example/DataProcessor.java:174 | `accountTotal` is the number of accounts |
| Transformation.TransformFailsIff | src/main/java/org/example/DataProcessor.java:128-175 | `transformData` throws NumberFormatException exactly when some card's balance is malformed |
| Transformation.TransformConforms | src/main/java/org/example/DataProcessor.java:128-175 | every document `transformData` returns conforms to its cards |
| Transformation.OutputAccountsAscending | src/main/java/org/example/DataProcessor.java:170-172 | the accounts are strictly ascending by account number |
| Transformation.OutputAccountsBuilt | src/main/java/org/example/DataProcessor.java:133-172 | each listed account is the one built from the cards of one of the account numbers |
| Transformation.BuiltAccountsListed | src/main/java/org/example/DataProcessor.java:133-172 | every account number of the cards has its account in the document |
| Transformation.CardsHaveOutputAccounts | src/main/java/org/example/DataProcessor.java:130-172 | every card's account number is listed |
| Transformation.ConformsCountsCards | src/main/java/org/example/DataProcessor.java:128-175 | a conforming document lists exactly as many details as there are cards |
| Transformation.CardPlacedOnce | src/main/java/org/example/DataProcessor.java:128-175 | each card has exactly one place: one account with its number, one product with its name, and the card's detail is listed there |
| Transformation.TransformEmpty | src/test/java/DataProcessorTest.java:88-97 | no cards give `accountTotal` 0 and no accounts |
| Transformation.TransformInvalidBalance | src/test/java/DataProcessorTest.java:155-172 | a card with balance "not-a-number" makes the transformation throw |
| Transformation.TransformTwoAccounts | src/main/java/org/example/DataProcessor.java:170-172 | cards of two account numbers give two accounts in ascending order, whatever the order of the cards |
| Transformation.TransformOneProduct | src/main/java/org/example/DataProcessor.java:128-175 | cards of one account and one product give exactly one account holding one product: the printed exact total, and the details sorted by card number |
| Transformation.ScenarioAccountsSorted | src/test/java/DataProcessorTest.java:99-125 | accounts "22222" and "11111", given in that order, come out as two accounts "11111", "22222" |
| Transformation.ScenarioDetailsSorted | src/test/java/DataProcessorTest.java:127-153 | cards "222222" and "111111" of one product come out as the details of "111111", then "222222" |
| DataProcessor.SelectMode | src/main/java/org/example/DataProcessor.java:55-59 | mode 2 aggregates, and every other mode processes files one by one |
| DataProcessor.InputEntries | src/main/java/org/example/DataProcessor.java:196-199 | an entry is kept exactly when it is a regular file whose lower-cased name ends in ".json"; a one-entry listing keeps its entry exactly when it is an input file |
| DataProcessor.InputEntriesAppend | src/main/java/org/example/DataProcessor.java:196-199 | filtering keeps listing order: the input files of two runs of entries are the first run's, then the second's |
| DataProcessor.InputEntriesCount | src/main/java/org/example/DataProcessor.java:196-199 | each input file is kept exactly as many times as it is listed, and every other entry is dropped |
| DataProcessor.FindInputFiles | src/main/java/org/example/DataProcessor.java:194-204 | no files when the directory cannot be listed; otherwise its input files, in listing order, each as often as listed |
| DataProcessor.JsonNames | src/main/java/org/example/DataProcessor.java:198 | "cards.json", "CARDS.JSON" and ".json" are input names; "cards.json.bak", "json" and "cards.jsn" are not |
| DataProcessor.IsJsonName | src/main/java/org/example/DataProcessor.java:198 | the lower-cased name ends in ".json" exactly when its last five characters lower-case, one by one, to '.', 'j', 's', 'o', 'n' |
| DataProcessor.JsonNameByCharacters | src/main/java/org/example/DataProcessor.java:198 | a name of five characters or more is an input name exactly when it ends in '.' and four characters that lower-case to "json" |
| DataProcessor.AllCardsMembership | src/main/java/org/example/DataProcessor.java:93-102 | a card is aggregated exactly when some readable file with a card list holds it |
| DataProcessor.AllCardsEmpty | src/main/java/org/example/DataProcessor.java:93-102 | `AllCards`, the cards collected file after file, is empty exactly when no file contributes a card, and holds at least as many cards as any one file |
| DataProcessor.AllCardsAppend | src/main/java/org/example/DataProcessor.java:93-102 | aggregation keeps file order: the cards of two runs of files are the first run's, then the second's |
| DataProcessor.ProcessAggregateMode | src/main/java/org/example/DataProcessor.java:89-121 | a null document or a malformed balance ends the run unwritten; no cards writes nothing; otherwise the transformed cards of all files are written as `aggregated-result_<time>.json` |
| DataProcessor.AggregateConforms | src/main/java/org/example/DataProcessor.java:104-116 | the aggregated document conforms to all the cards, and lists the account of every card of every file |
| DataProcessor.ProcessPerFileMode | src/main/java/org/example/DataProcessor.java:65-84 | the writes are those of `PerFileWrites`: each file's own document under its own name, in file order |
| DataProcessor.PerFileWritesSpec | src/main/java/org/example/DataProcessor.java:69-82 | every write is the document of one input file under that file's name, and every file that yields a document is written |
| DataProcessor.FileResultSucceeds | src/main/java/org/example/DataProcessor.java:71-80 | a file yields a document exactly when it is read, has a card list, and all its balances parse; the document is the one `transformData` returns for its cards |
| DataProcessor.FileResult | src/main/java/org/example/DataProcessor.java:71-80 | a file yields a document only when it reads as a document with a card list, and that document has `accountTotal` equal to its number of accounts |
| DataProcessor.PerFileWrites | src/main/java/org/example/DataProcessor.java:69-82 | never more writes than files; `PerFileWritesAppend` gives the order and the one write per file, and `PerFileWritesSpec` which files write what |
| DataProcessor.PerFileWritesAppend | src/main/java/org/example/DataProcessor.java:68-82 | the writes of two runs of files are the first run's, then the second's, and a single file writes exactly its own result: at most one document, under its own name, only when it yields one |
| DataProcessor.WriteOf | src/main/java/org/example/DataProcessor.java:71-80 | one file writes at most one document, under its own name, and writes one exactly when it yields a document |
| DataProcessor.ProcessFiles | src/main/java/org/example/DataProcessor.java:48-60 | no input files does nothing; otherwise mode 2 runs the aggregation with its outcomes, and any other mode runs the per-file writes |

## Left out

- Concurrency: per-file mode submits each file to a fixed thread pool. The model processes
  the files in listing order; the order in which the writes happen is not modelled.
- DataProcessor.ProcessPerFileMode: the model assumes a positive thread count and that every
  submitted task finishes within `shutdownExecutor`'s 60-second wait. With a thread count of
  0 or less, `Executors.newFixedThreadPool` throws before any file is submitted and nothing is
  written. When the wait runs out, or the waiting thread is interrupted, `shutdownNow` drops
  the tasks still queued, and their files are neither read nor written. Timing is not part of
  the model, so `ProcessPerFileMode` and `ProcessFiles` promise every write of
  `PerFileWrites`.
- DataProcessor.ProcessFiles: per-file mode carries the same two assumptions as
  `ProcessPerFileMode`.
- JSON reading and writing with Jackson are left out. Reading a file is a parameter: an
  IOException, a null document, or the decoded `InputFile`. Writing is the model's result,
  and a failed write, which is only logged, is not modelled.
- The clock: the timestamp in the aggregated file name is a parameter.
- Logging to standard output and standard error is left out, because it does not affect what
  is written.
- `Main.java` (the watch loop) and `ConfigParser.java` are not part of this model. The
  configured mode is a parameter.
- Null fields inside a card, and null cards in a list, are not modelled: every field is a
  string.
- Non-ASCII decimal digits, which the `BigDecimal` constructor also accepts, are not
  modelled. Only '0'..'9' count as digits there, as they do for the date pattern.
- Characters are compared as Unicode code points. Java compares UTF-16 code units, which
  order differently only for characters outside the Basic Multilingual Plane.
- `toLowerCase()` in `findInputFiles` is modelled for ASCII letters only.
- Transformation.Transform: products are built in the order their names first occur. Java
  collects them from a `HashMap`, whose order is unspecified, so `Conforms` speaks of an
  account's products only up to order.
- BuddhistDates.ConvertDateDigits: this covers Christian years 1..9999, the four-digit years.
  Two ranges of years are modelled by `YearText`, but no lemma states their year field.
  For those years, `FormatIsoDate` and `FieldText` state only the month and day fields.
  - Years of five or more digits are printed with a leading '+'.
  - Buddhist years 1..543 become Christian year 0 or earlier, which "yyyy" prints as the year
    of era, 1 - year. So "01010543" becomes "0001-01-01", and "01010001" becomes
    "0543-01-01".
