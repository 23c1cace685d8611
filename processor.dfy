/**
  The orchestration around `transformData`: the input files are the regular
  files of the input directory whose lower-cased name ends in ".json"; the
  configured mode 2 aggregates the cards of all of them into one result
  document, and any other mode transforms each file on its own into a result
  document of the same name.

  The file system is a parameter: the directory listing and, for each entry,
  the outcome of reading and decoding it. What the processor writes is its
  result: the name and contents of each document it writes.
 */
module DataProcessor {
  import opened Wrappers
  import opened Strings
  import opened Model
  import opened Transformation
  import BigDecimals

  /**
    The outcome of `objectMapper.readValue` on one file: an IOException, a
    JSON `null` (a null document), or the decoded document.
   */
  datatype ReadResult = ReadFailed | ReadNull | ReadOk(input: InputFile)

  /** An entry of the input directory: its name, whether it is a regular file, and what reading it gives. */
  datatype DirEntry = DirEntry(name: string, isRegularFile: bool, read: ReadResult)

  /** The outcome of `Files.list` on the input directory. */
  datatype Listing = ListingFailed | Listed(entries: seq<DirEntry>)

  /** A document written to the output directory. */
  datatype Written = Written(name: string, doc: OutputFile)

  datatype Mode = PerFile | Aggregate

  /** `config.mode() == 2` chooses aggregation; every other value chooses one output per input. */
  function SelectMode(mode: int): (m: Mode)
    ensures m == Aggregate <==> mode == 2
    ensures m == PerFile <==> mode != 2
  {
    if mode == 2 then Aggregate else PerFile
  }

  // ---------------------------------------------------------------------------
  // findInputFiles

  const JsonSuffix: string := ".json"

  /**
    `name.toLowerCase().endsWith(".json")`, with ASCII lower-casing: the name
    ends in five characters that lower-case to ".json".
   */
  predicate IsJsonName(name: string)
    ensures IsJsonName(name) <==>
      |name| >= |JsonSuffix| && forall i :: 0 <= i < |JsonSuffix| ==> AsciiLower(name[|name| - |JsonSuffix| + i]) == JsonSuffix[i]
  {
    |name| >= |JsonSuffix| &&
    var tail := LowerCase(name)[|name| - |JsonSuffix|..];
    assert forall i :: 0 <= i < |JsonSuffix| ==> tail[i] == AsciiLower(name[|name| - |JsonSuffix| + i]);
    tail == JsonSuffix
  }

  predicate IsInputFile(e: DirEntry) {
    e.isRegularFile && IsJsonName(e.name)
  }

  /**
    The entries that are input files, in listing order: the stream `filter`
    keeps an entry as often as it is listed, and drops every other entry.
   */
  function InputEntries(entries: seq<DirEntry>): (r: seq<DirEntry>)
    ensures |r| <= |entries|
    ensures forall e :: e in r <==> e in entries && IsInputFile(e)
    ensures |entries| == 1 ==> r == if IsInputFile(entries[0]) then entries else []
  {
    if entries == [] then []
    else (if IsInputFile(entries[0]) then [entries[0]] else []) + InputEntries(entries[1..])
  }

  /** Each input file is kept as many times as it is listed, and every other entry is dropped. */
  lemma {:induction false} InputEntriesCount(entries: seq<DirEntry>, e: DirEntry)
    ensures multiset(InputEntries(entries))[e] == if IsInputFile(e) then multiset(entries)[e] else 0
  {
    if entries != [] {
      InputEntriesCount(entries[1..], e);
      assert entries == [entries[0]] + entries[1..];
    }
  }

  /**
    Filtering keeps listing order: the input files of two runs of entries
    are those of the first run, then those of the second.
   */
  lemma {:induction false} InputEntriesAppend(a: seq<DirEntry>, b: seq<DirEntry>)
    ensures InputEntries(a + b) == InputEntries(a) + InputEntries(b)
  {
    if a == [] {
      assert a + b == b;
    } else {
      assert (a + b)[1..] == a[1..] + b;
      InputEntriesAppend(a[1..], b);
    }
  }

  /** `findInputFiles()`: the input files of the listing, none when the directory cannot be listed. */
  function FindInputFiles(listing: Listing): (files: seq<DirEntry>)
    ensures listing.ListingFailed? ==> files == []
    ensures listing.Listed? ==> forall e :: e in files <==> e in listing.entries && IsInputFile(e)
    ensures listing.Listed? ==> files == InputEntries(listing.entries)
  {
    match listing
    case ListingFailed => []
    case Listed(entries) => InputEntries(entries)
  }

  lemma JsonNames()
    ensures IsJsonName("cards.json") && IsJsonName("CARDS.JSON") && IsJsonName(".json")
    ensures !IsJsonName("cards.json.bak") && !IsJsonName("json") && !IsJsonName("cards.jsn")
  {
    JsonNameByCharacters("cards.json");
    JsonNameByCharacters("CARDS.JSON");
    JsonNameByCharacters(".json");
    JsonNameByCharacters("cards.json.bak");
    JsonNameByCharacters("cards.jsn");
  }

  /** A name of five characters or more is an input name exactly when its last five lower-case to '.', 'j', 's', 'o', 'n'. */
  lemma JsonNameByCharacters(name: string)
    requires |name| >= |JsonSuffix|
    ensures var n := |name|;
      IsJsonName(name) <==>
        name[n - 5] == '.' && AsciiLower(name[n - 4]) == 'j' && AsciiLower(name[n - 3]) == 's' &&
        AsciiLower(name[n - 2]) == 'o' && AsciiLower(name[n - 1]) == 'n'
  {
    var n := |name|;
    assert JsonSuffix[0] == '.' && JsonSuffix[1] == 'j' && JsonSuffix[2] == 's' && JsonSuffix[3] == 'o' && JsonSuffix[4] == 'n';
    assert AsciiLower(name[n - 5]) == '.' <==> name[n - 5] == '.';
    if IsJsonName(name) {
      assert AsciiLower(name[n - 5 + 0]) == JsonSuffix[0];
      assert AsciiLower(name[n - 5 + 1]) == JsonSuffix[1];
      assert AsciiLower(name[n - 5 + 2]) == JsonSuffix[2];
      assert AsciiLower(name[n - 5 + 3]) == JsonSuffix[3];
      assert AsciiLower(name[n - 5 + 4]) == JsonSuffix[4];
    }
    if AsciiLower(name[n - 5]) == '.' && AsciiLower(name[n - 4]) == 'j' && AsciiLower(name[n - 3]) == 's' &&
       AsciiLower(name[n - 2]) == 'o' && AsciiLower(name[n - 1]) == 'n' {
      forall i | 0 <= i < |JsonSuffix| ensures AsciiLower(name[n - |JsonSuffix| + i]) == JsonSuffix[i] {
        assert i == 0 || i == 1 || i == 2 || i == 3 || i == 4;
      }
    }
  }

  // ---------------------------------------------------------------------------
  // processAggregateMode

  /** The cards an input file contributes to the aggregate: none when it is not a document or has no card list. */
  function CardsOf(e: DirEntry): seq<Card> {
    match e.read
    case ReadOk(input) => if input.cards.Some? then input.cards.value else []
    case _ => []
  }

  /**
    Some file reads as a null document: `getCards()` on it throws a
    NullPointerException, which is not an IOException and ends the
    aggregation run.
   */
  predicate HasNullDocument(files: seq<DirEntry>) {
    exists i :: 0 <= i < |files| && files[i].read.ReadNull?
  }

  /** The cards of all the files, file after file, each file's cards in their own order. */
  function AllCards(files: seq<DirEntry>): seq<Card> {
    if files == [] then [] else AllCards(files[..|files| - 1]) + CardsOf(files[|files| - 1])
  }

  /**
    Nothing is aggregated exactly when no file contributes a card, and the
    aggregate holds at least the cards of any one file.
   */
  lemma {:induction false} AllCardsEmpty(files: seq<DirEntry>)
    ensures AllCards(files) == [] <==> forall e :: e in files ==> CardsOf(e) == []
    ensures forall e :: e in files ==> |CardsOf(e)| <= |AllCards(files)|
  {
    if files != [] {
      var init, last := files[..|files| - 1], files[|files| - 1];
      AllCardsEmpty(init);
      assert AllCards(files) == AllCards(init) + CardsOf(last);
      forall e | e in files ensures e in init || e == last {
        var k :| 0 <= k < |files| && files[k] == e;
        if k < |init| {
          assert init[k] == e;
        }
      }
      assert last in files;
      forall e | e in init ensures e in files {
        var k :| 0 <= k < |init| && init[k] == e;
        assert files[k] == e;
      }
    }
  }

  /** A card is aggregated exactly when some readable file with a card list holds it. */
  lemma {:induction false} AllCardsMembership(files: seq<DirEntry>, c: Card)
    ensures c in AllCards(files) <==> exists e :: e in files && c in CardsOf(e)
  {
    if files != [] {
      var init, last := files[..|files| - 1], files[|files| - 1];
      AllCardsMembership(init, c);
      assert files == init + [last];
      if c in CardsOf(last) {
        assert last in files;
      }
      forall e | e in files && c in CardsOf(e) ensures c in AllCards(files) {
        if e != last {
          assert e in init;
        }
      }
    }
  }

  /** Aggregation concatenates: the cards of two runs of files are the cards of the first, then of the second. */
  lemma {:induction false} AllCardsAppend(a: seq<DirEntry>, b: seq<DirEntry>)
    ensures AllCards(a + b) == AllCards(a) + AllCards(b)
  {
    if b != [] {
      var init, last := b[..|b| - 1], b[|b| - 1];
      assert (a + b)[..|a + b| - 1] == a + init;
      AllCardsAppend(a, init);
    } else {
      assert a + b == a;
    }
  }

  /** What one aggregation run does. */
  datatype AggregateOutcome =
    | NothingToAggregate
    | AggregateFailed
    | AggregateWritten(written: Written)

  /** The name of the aggregated document for the time of the run. */
  function AggregateName(timestamp: string): string {
    "aggregated-result_" + timestamp + ".json"
  }

  /**
    `processAggregateMode`: the cards of every readable file that has a card
    list are collected in order; with no cards nothing is written; otherwise
    the collected cards are transformed. A null document, or the
    NumberFormatException of a malformed balance, ends the run before
    anything is written.
   */
  method ProcessAggregateMode(files: seq<DirEntry>, timestamp: string) returns (outcome: AggregateOutcome)
    ensures HasNullDocument(files) ==> outcome == AggregateFailed
    ensures !HasNullDocument(files) && AllCards(files) == [] ==> outcome == NothingToAggregate
    ensures !HasNullDocument(files) && AllCards(files) != [] && Transform(AllCards(files)).Failure? ==>
      outcome == AggregateFailed
    ensures !HasNullDocument(files) && AllCards(files) != [] && Transform(AllCards(files)).Success? ==>
      outcome == AggregateWritten(Written(AggregateName(timestamp), Transform(AllCards(files)).value))
  {
    var allCards: seq<Card> := [];
    var i := 0;
    while i < |files|
      invariant 0 <= i <= |files|
      invariant allCards == AllCards(files[..i])
      invariant forall j :: 0 <= j < i ==> !files[j].read.ReadNull?
    {
      match files[i].read {
        case ReadFailed =>
        case ReadNull =>
          return AggregateFailed;
        case ReadOk(input) =>
          if input.cards.Some? {
            allCards := allCards + input.cards.value;
          }
      }
      assert files[..i + 1][..i] == files[..i];
      i := i + 1;
    }
    assert files[..i] == files;
    if allCards == [] {
      return NothingToAggregate;
    }
    match Transform(allCards) {
      case Failure(_) => outcome := AggregateFailed;
      case Success(doc) => outcome := AggregateWritten(Written(AggregateName(timestamp), doc));
    }
  }

  /**
    The document an aggregation run writes holds every card of every readable
    file with a card list, grouped and summed as `transformData` promises.
   */
  lemma AggregateConforms(files: seq<DirEntry>)
    requires AllCards(files) != [] && Transform(AllCards(files)).Success?
    ensures Conforms(AllCards(files), Transform(AllCards(files)).value)
    ensures forall e, c :: e in files && c in CardsOf(e) ==> c.accountNumber in AccountNumbers(Transform(AllCards(files)).value.accounts)
  {
    TransformConforms(AllCards(files));
    forall e, c | e in files && c in CardsOf(e)
      ensures c.accountNumber in AccountNumbers(Transform(AllCards(files)).value.accounts)
    {
      AllCardsMembership(files, c);
    }
  }

  // ---------------------------------------------------------------------------
  // processParallelMode

  /**
    The document one input file gives on its own: none when it cannot be
    read, when it is a null document or has no card list (both throw
    NullPointerException inside the task) or when a balance is malformed.
   */
  function FileResult(e: DirEntry): (r: Option<OutputFile>)
    ensures r.Some? ==> e.read.ReadOk? && e.read.input.cards.Some?
    ensures r.Some? ==> r.value.accountTotal == |r.value.accounts|
  {
    match e.read
    case ReadFailed => None
    case ReadNull => None
    case ReadOk(input) =>
      match input.cards
      case None => None
      case Some(cards) =>
        match Transform(cards)
        case Failure(_) => None
        case Success(doc) => Some(doc)
  }

  /** The outputs of the items, item after item: `f` gives what one item yields. */
  function ConcatMap<T, U>(s: seq<T>, f: T -> seq<U>): seq<U> {
    if s == [] then [] else ConcatMap(s[..|s| - 1], f) + f(s[|s| - 1])
  }

  /** Yields concatenate: those of two runs of items are the first run's, then the second's. */
  lemma {:induction false} ConcatMapAppend<T, U>(a: seq<T>, b: seq<T>, f: T -> seq<U>)
    ensures ConcatMap(a + b, f) == ConcatMap(a, f) + ConcatMap(b, f)
  {
    if b == [] {
      assert a + b == a;
    } else {
      var init := b[..|b| - 1];
      assert (a + b)[..|a + b| - 1] == a + init;
      assert (a + b)[|a + b| - 1] == b[|b| - 1];
      ConcatMapAppend(a, init, f);
    }
  }

  /** When each item yields at most one output, there are at most as many outputs as items. */
  lemma {:induction false} ConcatMapLength<T, U>(s: seq<T>, f: T -> seq<U>)
    requires forall x :: |f(x)| <= 1
    ensures |ConcatMap(s, f)| <= |s|
  {
    if s != [] {
      ConcatMapLength(s[..|s| - 1], f);
    }
  }

  /** What one file writes: its document under its own name, or nothing. */
  function WriteOf(e: DirEntry): (r: seq<Written>)
    ensures |r| <= 1
    ensures r != [] <==> FileResult(e).Some?
    ensures r != [] ==> r[0].name == e.name
  {
    if FileResult(e).Some? then [Written(e.name, FileResult(e).value)] else []
  }

  /** The documents the files give, each under its input file's name, in file order. */
  function PerFileWrites(files: seq<DirEntry>): (r: seq<Written>)
    ensures |r| <= |files|
  {
    ConcatMapLength(files, WriteOf);
    ConcatMap(files, WriteOf)
  }

  /**
    The writes of two runs of files are those of the first run, then those
    of the second, and one file writes its own document once, or nothing.
    Together these fix the order of the writes and one write per file.
   */
  lemma PerFileWritesAppend(a: seq<DirEntry>, b: seq<DirEntry>)
    ensures PerFileWrites(a + b) == PerFileWrites(a) + PerFileWrites(b)
    ensures |b| == 1 ==> PerFileWrites(b) == WriteOf(b[0])
  {
    ConcatMapAppend(a, b, WriteOf);
    if |b| == 1 {
      assert b[..0] == [];
    }
  }

  /**
    `processParallelMode`: every file is transformed on its own and its
    document written under the file's own name; a file that cannot be read,
    is a null document, has no card list or holds a malformed balance writes
    nothing, and the other files are not affected.
   */
  method ProcessPerFileMode(files: seq<DirEntry>) returns (writes: seq<Written>)
    ensures writes == PerFileWrites(files)
  {
    writes := [];
    for i := 0 to |files|
      invariant writes == PerFileWrites(files[..i])
    {
      var e := files[i];
      ghost var before := writes;
      match e.read {
        case ReadFailed =>
        case ReadNull =>
        case ReadOk(input) =>
          if input.cards.Some? {
            var result := Transform(input.cards.value);
            if result.Success? {
              writes := writes + [Written(e.name, result.value)];
            }
          }
      }
      assert writes == before + WriteOf(e);
      assert files[..i + 1][..i] == files[..i];
    }
    assert files[..|files|] == files;
  }

  /**
    Per-file mode writes, for each file, the document `transformData` makes
    of that file's cards, under that file's name, and writes nothing else.
   */
  lemma {:induction false} PerFileWritesSpec(files: seq<DirEntry>)
    ensures forall w :: w in PerFileWrites(files) ==> exists e :: e in files && e.name == w.name && FileResult(e) == Some(w.doc)
    ensures forall e :: e in files && FileResult(e).Some? ==> Written(e.name, FileResult(e).value) in PerFileWrites(files)
  {
    if files != [] {
      var init, last := files[..|files| - 1], files[|files| - 1];
      PerFileWritesSpec(init);
      assert files == init + [last];
      forall w | w in PerFileWrites(files) ensures exists e :: e in files && e.name == w.name && FileResult(e) == Some(w.doc) {
        if w in PerFileWrites(init) {
          var e :| e in init && e.name == w.name && FileResult(e) == Some(w.doc);
          assert e in files;
        } else {
          assert last in files;
        }
      }
      forall e | e in files && FileResult(e).Some? ensures Written(e.name, FileResult(e).value) in PerFileWrites(files) {
        if e != last {
          assert e in init;
        }
      }
    }
  }

  /** A file writes a document exactly when it is readable, has a card list and all its balances parse. */
  lemma FileResultSucceeds(e: DirEntry)
    ensures FileResult(e).Some? <==>
      e.read.ReadOk? && e.read.input.cards.Some? &&
      forall c :: c in e.read.input.cards.value ==> BigDecimals.Parse(c.balance).Some?
    ensures FileResult(e).Some? ==> Transform(e.read.input.cards.value) == Success(FileResult(e).value)
  {
    if e.read.ReadOk? && e.read.input.cards.Some? {
      TransformFailsIff(e.read.input.cards.value);
    }
  }

  // ---------------------------------------------------------------------------
  // processFiles

  /** What one run of `processFiles` does. */
  datatype RunOutcome =
    | NoInputFiles
    | PerFileRun(writes: seq<Written>)
    | AggregateRun(outcome: AggregateOutcome)

  /**
    `processFiles`: with no input files nothing happens; otherwise the
    configured mode decides how the input files are processed.
   */
  method ProcessFiles(mode: int, listing: Listing, timestamp: string) returns (run: RunOutcome)
    ensures FindInputFiles(listing) == [] ==> run == NoInputFiles
    ensures FindInputFiles(listing) != [] && mode == 2 ==> run.AggregateRun?
    ensures FindInputFiles(listing) != [] && mode != 2 ==> run == PerFileRun(PerFileWrites(FindInputFiles(listing)))
    ensures run.AggregateRun? ==>
      var files := FindInputFiles(listing);
      var all := AllCards(files);
      && (HasNullDocument(files) ==> run.outcome == AggregateFailed)
      && (!HasNullDocument(files) && all == [] ==> run.outcome == NothingToAggregate)
      && (!HasNullDocument(files) && all != [] && Transform(all).Failure? ==> run.outcome == AggregateFailed)
      && (!HasNullDocument(files) && all != [] && Transform(all).Success? ==>
            run.outcome == AggregateWritten(Written(AggregateName(timestamp), Transform(all).value)))
  {
    var files := FindInputFiles(listing);
    if files == [] {
      return NoInputFiles;
    }
    match SelectMode(mode) {
      case Aggregate =>
        var outcome := ProcessAggregateMode(files, timestamp);
        run := AggregateRun(outcome);
      case PerFile =>
        var writes := ProcessPerFileMode(files);
        run := PerFileRun(writes);
    }
  }
}
