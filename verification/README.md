# price-handler in Dafny

A model of the ingestion and conflict-resolution core of price-handler. This is a Java service that receives FX price-feed messages and keeps the latest price per currency pair in memory. The model covers five parts:

- **The instrument whitelist** (`InstrumentName`): three currency pairs, each with a label. `valueOfLabel` is the exact, case-sensitive lookup and `contains` is the membership test.
- **The feed listener** (`PriceFeedListenerImpl`):
  - `onMessage` splits a message into lines, converts every line, and calls `updatePrices` once with all the prices.
  - If any line fails, it throws one fixed exception and nothing reaches the service.
  - `convertMessageToPrice` trims a line and splits it on commas, dropping the blanks around each comma. It then reads an `Integer` id, an optional instrument, a bid and an ask adjusted by the margins, and a verbatim timestamp.
- **The price service** (`PriceServiceImpl`):
  - the margin calculations;
  - the reads `getPrice`, `getPrices` and `clearPrices`;
  - `updatePrices`. It drops prices without a supported instrument, stable-sorts the rest ascending by id and keeps the first price per instrument (`distinctByKey`). Each kept price then overwrites the store iff the slot is empty or holds a strictly smaller id.
- **The repository** (`PriceRepositoryImpl`): a map from instrument to price, with lookup, list-all, unconditional upsert and clear.
- **The `Price` record.**

The parts of `java.lang.String` and `Integer` that the parser relies on are modelled too: `trim`, `split` with its trailing-empty rule, `String.join`, `Integer.valueOf` over 32-bit ints and `Integer.toString`.

Modules:
- `Wrappers`: `Option` and `Result`.
- `Instruments`, `Prices`, `Repository`.
- `Resolver`: the stream pipeline inside `updatePrices`.
- `Service`, `JavaStrings`, `FeedListener`.
- `Scenarios`: the repository's own test cases, replayed on the model.

**Which candidate wins.** The code keeps the **lowest** id per instrument within a batch, not the highest:
- the sort is ascending (line 86);
- `distinctByKey` keeps the first occurrence (line 87).

The Javadoc at `PriceServiceImpl.java:76-79` describes a descending sort. The integration test at `PriceServiceIntegrationTests.java:182-206` expects the newest price per instrument. That test's `assertThat(boolean)` calls carry no terminal assertion, so it cannot fail either way.

The model follows the code. `Resolver.ResolveKeepsLowest`, `Service.EmptySlotTakesLowest` and `Service.StaleCandidateMasksNewer` state this behaviour for all inputs. `Scenarios.SeveralCandidatesPerInstrument` replays the test: the store ends with ids 10, 20 and 30, where the test expects 30, 21 and 31.

## Model

Source paths are relative to the repository root.

| member | source | states |
|---|---|---|
| Instruments.FindByLabel | src/main/java/com/domain/pricehandler/model/InstrumentName.java:27-33 | the BY_LABEL lookup finds an instrument of the table whose label is exactly the name, and finds none when no instrument of the table carries it |
| Instruments.ValueOfLabel | src/main/java/com/domain/pricehandler/model/InstrumentName.java:40-42 | valueOfLabel yields instrument i iff the name is i's label, and is present iff the name is one of "EUR/USD", "EUR/JPY", "GBP/USD" |
| Instruments.Contains | src/main/java/com/domain/pricehandler/model/InstrumentName.java:49-51 | contains holds for every enum value and fails for the absent (null) instrument |
| Instruments.AllInstrumentsComplete | src/main/java/com/domain/pricehandler/model/InstrumentName.java:27-33 | values(), from which the lookup table and the EnumSet are built, lists every constant |
| Instruments.LabelInjective | src/main/java/com/domain/pricehandler/model/InstrumentName.java:12-14 | two instruments have the same label iff they are the same instrument |
| Instruments.LabelRoundTrip | src/main/java/com/domain/pricehandler/model/InstrumentName.java:27-30 | looking up an instrument's own label yields that instrument |
| Instruments.ValueOfLabelRoundTrip | src/main/java/com/domain/pricehandler/model/InstrumentName.java:40-42 | a name that resolves is exactly the resolved instrument's label |
| Instruments.ValueOfLabelIsExact | src/main/java/com/domain/pricehandler/model/InstrumentName.java:40-42 | lower-case, enum-constant, padded and empty spellings do not resolve |
| Instruments.ContainsOfLookup | src/main/java/com/domain/pricehandler/model/InstrumentName.java:49-51 | the instrument found for a name passes contains iff the name is a whitelisted label |
| Repository.GetByInstrumentName | src/main/java/com/domain/pricehandler/service/repository/PriceRepositoryImpl.java:28-32 | the lookup is present iff the key is stored, and is then the stored price, which carries that key when every entry is under its own instrument |
| Repository.Update | src/main/java/com/domain/pricehandler/service/repository/PriceRepositoryImpl.java:40-42 | update stores the price under its own instrument with no id comparison, leaves every other key's lookup unchanged, adds exactly that key, and keeps entries under their own instruments |
| Repository.Clear | src/main/java/com/domain/pricehandler/service/repository/PriceRepositoryImpl.java:44-46 | after clear every lookup is empty |
| Repository.ListedKeys | src/main/java/com/domain/pricehandler/service/repository/PriceRepositoryImpl.java:34-38 | the listing visits exactly the stored keys, each once |
| Repository.Get | src/main/java/com/domain/pricehandler/service/repository/PriceRepositoryImpl.java:34-38 | get is always present and lists one price per stored key |
| Repository.GetListsStore | src/main/java/com/domain/pricehandler/service/repository/PriceRepositoryImpl.java:34-38 | the list holds every stored price and only stored prices; with entries under their own instruments, no instrument is listed twice |
| Repository.LookupIsLastWrite | src/main/java/com/domain/pricehandler/service/repository/PriceRepositoryImpl.java:24-46 | after any sequence of update and clear calls, a lookup returns the last price written for that instrument since the last clear, or what was stored before when there was none |
| Repository.ClearEmptiesEverything | src/main/java/com/domain/pricehandler/service/repository/PriceRepositoryImpl.java:44-46 | after clear every lookup is empty and get yields the empty list |
| Service.CalculatePriceBid | src/main/java/com/domain/pricehandler/service/PriceServiceImpl.java:110-113 | a zero bid margin leaves a bid unchanged; for a positive feed bid the result exceeds it iff the margin is positive |
| Service.CalculatePriceAsk | src/main/java/com/domain/pricehandler/service/PriceServiceImpl.java:115-118 | the same for the ask and the ask margin |
| Service.MarginsIndependent | src/main/java/com/domain/pricehandler/service/PriceServiceImpl.java:110-118 | the bid depends on the bid margin only and the ask on the ask margin only |
| Service.GetPrice | src/main/java/com/domain/pricehandler/service/PriceServiceImpl.java:43-54 | getPrice is empty for an unrecognised label, is otherwise the repository lookup for the labelled instrument (empty when it is not stored), and returns only a price of the requested instrument |
| Service.GetPrices | src/main/java/com/domain/pricehandler/service/PriceServiceImpl.java:61-65 | getPrices yields one price per stored instrument |
| Service.GetPricesListsStore | src/main/java/com/domain/pricehandler/service/PriceServiceImpl.java:61-65 | getPrices yields every stored price and nothing else, without repeating an instrument |
| Service.ClearPrices | src/main/java/com/domain/pricehandler/service/PriceServiceImpl.java:98-100 | after clearPrices, getPrices is empty and getPrice is empty for every name |
| Service.Offer | src/main/java/com/domain/pricehandler/service/PriceServiceImpl.java:91-94 | one loop step writes the price iff its slot is empty or holds a strictly smaller id, touches no other instrument, and keeps entries under their own instruments |
| Service.OfferAll | src/main/java/com/domain/pricehandler/service/PriceServiceImpl.java:90-95 | the loop keeps every entry under its own instrument |
| Service.OfferAllPerInstrument | src/main/java/com/domain/pricehandler/service/PriceServiceImpl.java:90-95 | with one candidate per instrument, each instrument's entry after the loop is decided by its own candidate alone |
| Service.UpdatePrices | src/main/java/com/domain/pricehandler/service/PriceServiceImpl.java:83-96 | for each instrument, the lowest-id candidate of the batch replaces the stored entry iff the slot is empty or the stored id is strictly smaller; instruments without a candidate and the absent instrument keep their entry |
| Service.UpdatePricesWellFormed | src/main/java/com/domain/pricehandler/service/PriceServiceImpl.java:84-85 | prices without a supported instrument never reach the store, and entries stay under their own instruments |
| Service.UpdatePricesMonotone | src/main/java/com/domain/pricehandler/service/PriceServiceImpl.java:90-95 | no entry is removed and no stored id decreases |
| Service.UpdatePricesFrame | src/main/java/com/domain/pricehandler/service/PriceServiceImpl.java:90-95 | an instrument with no candidate in the batch keeps exactly its entry, or its absence |
| Service.UpdatePricesOrigin | src/main/java/com/domain/pricehandler/service/PriceServiceImpl.java:90-95 | whatever is stored afterwards was stored before, or is a candidate of the batch for that instrument |
| Service.StaleCandidateMasksNewer | src/main/java/com/domain/pricehandler/service/PriceServiceImpl.java:84-95 | one candidate not newer than the stored entry blocks the whole batch for its instrument, however new the other candidates are |
| Service.EmptySlotTakesLowest | src/main/java/com/domain/pricehandler/service/PriceServiceImpl.java:76-93 | contrary to the Javadoc, a batch for an empty slot never stores the newer of two candidates with different ids: it stores one with an id no higher than the older one's |
| Resolver.FirstWith | src/main/java/com/domain/pricehandler/service/PriceServiceImpl.java:68-73 | the price found for a key carries that key and sits at a position with no earlier price of that key (the first occurrence); none is found iff no member has the key |
| Resolver.Lowest | src/main/java/com/domain/pricehandler/service/PriceServiceImpl.java:84-88 | the reference choice for an instrument is a candidate for it with an id no higher than any other candidate's, and is absent iff there is no candidate |
| Resolver.LowestIsEarliest | src/main/java/com/domain/pricehandler/service/PriceServiceImpl.java:86-87 | on an id tie the reference choice is the earliest of the tied candidates in batch order |
| Resolver.LowestEarliestUnique | src/main/java/com/domain/pricehandler/service/PriceServiceImpl.java:86-87 | the lowest-id, earliest candidate of an instrument is a single position in the batch |
| Resolver.LowestOfStrictMinimum | src/main/java/com/domain/pricehandler/service/PriceServiceImpl.java:86-87 | a candidate with an id strictly below every other candidate's for its instrument is the one chosen, wherever it sits in the batch |
| Resolver.Supported | src/main/java/com/domain/pricehandler/service/PriceServiceImpl.java:85 | the filter keeps exactly the prices that have an instrument |
| Resolver.SupportedAppend | src/main/java/com/domain/pricehandler/service/PriceServiceImpl.java:85 | the filter keeps encounter order: filtering a concatenation concatenates the filtered parts |
| Resolver.SupportedSingle | src/main/java/com/domain/pricehandler/service/PriceServiceImpl.java:85 | a single price survives the filter iff it has an instrument |
| Resolver.LowestOfSupported | src/main/java/com/domain/pricehandler/service/PriceServiceImpl.java:85 | filtering out prices without an instrument does not change any instrument's choice |
| Resolver.InsertSorted | src/main/java/com/domain/pricehandler/service/PriceServiceImpl.java:86 | inserting into a list sorted by id keeps it sorted |
| Resolver.InsertPermutes | src/main/java/com/domain/pricehandler/service/PriceServiceImpl.java:86 | insertion adds exactly the inserted price to the multiset |
| Resolver.SortByIdSorted | src/main/java/com/domain/pricehandler/service/PriceServiceImpl.java:86 | the sort orders the prices by ascending id |
| Resolver.SortByIdPermutes | src/main/java/com/domain/pricehandler/service/PriceServiceImpl.java:86 | the sort is a permutation of its input |
| Resolver.FirstWithSorted | src/main/java/com/domain/pricehandler/service/PriceServiceImpl.java:86-87 | by stability and ascending order, the first price for an instrument after the sort is the lowest-id, earliest candidate before it |
| Resolver.DistinctByInstrument | src/main/java/com/domain/pricehandler/service/PriceServiceImpl.java:68-73 | distinctByKey passes no instrument twice, passes only prices whose key was unseen, and for every unseen key passes exactly the first price with that key (no earlier price of the list carries it) |
| Resolver.Resolve | src/main/java/com/domain/pricehandler/service/PriceServiceImpl.java:84-88 | the stream yields batch members with an instrument, at most one per instrument, and for each instrument its lowest-id candidate |
| Resolver.ResolveCoversBatch | src/main/java/com/domain/pricehandler/service/PriceServiceImpl.java:84-88 | an instrument appears in the resolved list iff the batch has a candidate for it |
| Resolver.ResolveKeepsLowest | src/main/java/com/domain/pricehandler/service/PriceServiceImpl.java:76-88 | every resolved price is the lowest-id candidate of its instrument, the earliest on a tie, not the highest-id one the Javadoc describes |
| JavaStrings.Trim | src/main/java/com/domain/pricehandler/service/messaging/PriceFeedListenerImpl.java:47 | trim leaves no character up to U+0020 at either end and leaves a string without one there unchanged |
| JavaStrings.TrimOfPadded | src/main/java/com/domain/pricehandler/service/messaging/PriceFeedListenerImpl.java:47 | trim returns exactly the text between a leading and a trailing run of characters up to U+0020, when that text starts and ends with a visible character |
| JavaStrings.TrimBlank | src/main/java/com/domain/pricehandler/service/messaging/PriceFeedListenerImpl.java:47 | a line of blanks and control characters trims to the empty string |
| JavaStrings.Strip | src/main/java/com/domain/pricehandler/service/messaging/PriceFeedListenerImpl.java:47 | removing the \s around a comma leaves no \s at either end and leaves a piece without one there unchanged |
| JavaStrings.StripOfPadded | src/main/java/com/domain/pricehandler/service/messaging/PriceFeedListenerImpl.java:47 | the blanks the pattern consumes around a comma are exactly the runs of \s on either side of a piece; the piece itself comes back whole |
| JavaStrings.StripEndsIsSlice | src/main/java/com/domain/pricehandler/service/messaging/PriceFeedListenerImpl.java:47 | what trim and the pattern leave is the contiguous slice of the input that starts right after its leading run of stripped characters and is followed only by stripped characters |
| JavaStrings.StripEndsOfPadded | src/main/java/com/domain/pricehandler/service/messaging/PriceFeedListenerImpl.java:47 | stripping a class from both ends returns exactly the stretch between the leading and trailing runs of that class, when the stretch's own ends are outside the class |
| JavaStrings.StripEndsRemovesOnly | src/main/java/com/domain/pricehandler/service/messaging/PriceFeedListenerImpl.java:47 | stripping only removes characters: one absent before is absent after |
| JavaStrings.StripLeadingSpace | src/main/java/com/domain/pricehandler/service/messaging/PriceFeedListenerImpl.java:47 | the blank after a comma is consumed by the pattern, so " x" reads back as x |
| JavaStrings.Pieces | src/main/java/com/domain/pricehandler/service/messaging/PriceFeedListenerImpl.java:26 | cutting at a separator gives pieces without that separator, and a single piece iff the separator does not occur |
| JavaStrings.JoinPieces | src/main/java/com/domain/pricehandler/service/messaging/PriceFeedListenerImpl.java:26 | joining the pieces with the separator rebuilds the string |
| JavaStrings.PiecesOfJoin | src/main/java/com/domain/pricehandler/service/messaging/PriceFeedListenerImpl.java:26 | cutting a join of separator-free pieces recovers the pieces |
| JavaStrings.Split | src/main/java/com/domain/pricehandler/service/messaging/PriceFeedListenerImpl.java:26 | split returns the whole string when the separator is absent; otherwise it is the list of all separator-delimited pieces with exactly its trailing empty pieces removed, so it ends in a non-empty piece and no piece holds the separator |
| JavaStrings.SplitDropsTrailingSeparator | src/main/java/com/domain/pricehandler/service/messaging/PriceFeedListenerImpl.java:26 | a trailing separator yields no empty last piece: splitting pieces joined with one extra empty piece gives the pieces back |
| JavaStrings.SplitOfJoin | src/main/java/com/domain/pricehandler/service/messaging/PriceFeedListenerImpl.java:26 | split undoes String.join when no piece holds the separator and the last piece is non-empty |
| JavaStrings.JoinAvoids | src/main/java/com/domain/pricehandler/service/messaging/PriceFeedListenerImpl.java:26 | joining adds only separators |
| JavaStrings.DropTrailingEmpty | src/main/java/com/domain/pricehandler/service/messaging/PriceFeedListenerImpl.java:47 | split's trailing-empty rule removes only empty pieces at the end, and what remains does not end in an empty piece |
| JavaStrings.ParseInt | src/main/java/com/domain/pricehandler/service/messaging/PriceFeedListenerImpl.java:51 | Integer.valueOf succeeds exactly on one or more digits, optionally after a '+' or '-', whose signed decimal value fits in 32 bits, and then yields that signed value |
| JavaStrings.ParseFormatInt | src/main/java/com/domain/pricehandler/service/messaging/PriceFeedListenerImpl.java:51 | every 32-bit int parses back from its decimal text |
| JavaStrings.ParseIntRejectsOverflow | src/main/java/com/domain/pricehandler/service/messaging/PriceFeedListenerImpl.java:51 | a digit string beyond the int range is rejected instead of wrapping |
| FeedListener.Lines | src/main/java/com/domain/pricehandler/service/messaging/PriceFeedListenerImpl.java:26 | no line holds a line separator, and a message without one is its own single line; otherwise the lines are the separator-delimited pieces with exactly the trailing empty ones removed, so the last line, if any, is not empty |
| FeedListener.LinesOfTrailingNewLine | src/main/java/com/domain/pricehandler/service/messaging/PriceFeedListenerImpl.java:26 | separator-free lines whose last one is non-empty, joined and followed by one extra line separator, split back into exactly those lines (no empty last line); the general rule for any message is the `Lines` contract |
| FeedListener.StripAll | src/main/java/com/domain/pricehandler/service/messaging/PriceFeedListenerImpl.java:47 | every piece loses the \s at its ends |
| FeedListener.Fields | src/main/java/com/domain/pricehandler/service/messaging/PriceFeedListenerImpl.java:47 | a trimmed line without a comma is its own single field; otherwise the fields are the stripped comma-delimited pieces with exactly the trailing empty ones removed, and the last field is not empty |
| FeedListener.FieldsHaveNoComma | src/main/java/com/domain/pricehandler/service/messaging/PriceFeedListenerImpl.java:47 | no field holds a comma |
| FeedListener.FieldsOfJoin | src/main/java/com/domain/pricehandler/service/messaging/PriceFeedListenerImpl.java:47 | a line written from comma-free fields reads back as those fields with the blanks around the commas removed |
| FeedListener.JoinIsTrimmed | src/main/java/com/domain/pricehandler/service/messaging/PriceFeedListenerImpl.java:47 | trim leaves a line alone when its first and last fields start and end with visible characters |
| FeedListener.CleanFieldIsStripped | src/main/java/com/domain/pricehandler/service/messaging/PriceFeedListenerImpl.java:47 | a field with no blank at either end is read back unchanged |
| FeedListener.CleanFieldsOfJoin | src/main/java/com/domain/pricehandler/service/messaging/PriceFeedListenerImpl.java:47 | a line written from clean fields reads back as exactly those fields |
| FeedListener.ConvertFields | src/main/java/com/domain/pricehandler/service/messaging/PriceFeedListenerImpl.java:49-61 | conversion succeeds iff there are at least five fields, an int id and decimal bid and ask; the price then carries the id, the labelled instrument or none for an unknown label, the margin-adjusted bid and ask, and field 4 verbatim |
| FeedListener.ConvertFieldsBuilds | src/main/java/com/domain/pricehandler/service/messaging/PriceFeedListenerImpl.java:49-61 | five fields whose numbers parse build the price from exactly those fields, with the margins applied |
| FeedListener.ConvertFieldsNeedsFive | src/main/java/com/domain/pricehandler/service/messaging/PriceFeedListenerImpl.java:59 | fewer than five fields always fail |
| FeedListener.ConvertFieldsFirstFive | src/main/java/com/domain/pricehandler/service/messaging/PriceFeedListenerImpl.java:51-59 | only the first five fields are read |
| FeedListener.ConvertMessageToPrice | src/main/java/com/domain/pricehandler/service/messaging/PriceFeedListenerImpl.java:46-62 | a line that converts has at least five fields, and the price's timestamp is its fifth field, which holds no comma |
| FeedListener.ConvertFieldsErrors | src/main/java/com/domain/pricehandler/service/messaging/PriceFeedListenerImpl.java:51-59 | the reported failure is the first missing field or unparsable number in the order id, label, bid, ask, timestamp: each of fields 0 to 4 is reported missing, and a bad id, bid or ask reported, exactly when every earlier read succeeded |
| FeedListener.ConvertEach | src/main/java/com/domain/pricehandler/service/messaging/PriceFeedListenerImpl.java:27-35 | the map step converts every line, in line order |
| FeedListener.Collect | src/main/java/com/domain/pricehandler/service/messaging/PriceFeedListenerImpl.java:27-36 | the collect succeeds iff every outcome succeeds, and then yields the values in order; otherwise it stops at the first failure |
| FeedListener.CollectAllSuccess | src/main/java/com/domain/pricehandler/service/messaging/PriceFeedListenerImpl.java:36 | outcomes that all succeed collect to exactly their values |
| FeedListener.CollectConverted | src/main/java/com/domain/pricehandler/service/messaging/PriceFeedListenerImpl.java:27-36 | lines that all convert collect to their prices in line order |
| FeedListener.CollectConvertedOutcome | src/main/java/com/domain/pricehandler/service/messaging/PriceFeedListenerImpl.java:27-36 | the collect either names a line that fails, or yields one price per line, each the conversion of its line |
| FeedListener.CollectConvertedFails | src/main/java/com/domain/pricehandler/service/messaging/PriceFeedListenerImpl.java:29-34 | one failing line makes the collect fail |
| FeedListener.OnMessage | src/main/java/com/domain/pricehandler/service/messaging/PriceFeedListenerImpl.java:25-38 | when onMessage throws, the exception message is the fixed conversion-failed text and the store is untouched |
| FeedListener.OnMessageThrowsIff | src/main/java/com/domain/pricehandler/service/messaging/PriceFeedListenerImpl.java:25-38 | onMessage throws iff some line fails to convert |
| FeedListener.OnMessageUpdates | src/main/java/com/domain/pricehandler/service/messaging/PriceFeedListenerImpl.java:25-38 | without an exception, the store is updatePrices applied once to one converted price per line, in line order |
| FeedListener.ConvertWrittenLine | src/main/java/com/domain/pricehandler/service/messaging/PriceFeedListenerImpl.java:46-62 | a line written from an int id, a label, two decimals and a timestamp converts to the price of exactly those values, margins applied |
| FeedListener.ExtraFieldsIgnored | src/main/java/com/domain/pricehandler/service/messaging/PriceFeedListenerImpl.java:47-59 | a line with more than five fields converts as its first five fields do |
| FeedListener.ConvertCleanLine | src/main/java/com/domain/pricehandler/service/messaging/PriceFeedListenerImpl.java:46-62 | a line written from clean fields converts exactly as those fields do |
| FeedListener.TooFewFieldsFail | src/main/java/com/domain/pricehandler/service/messaging/PriceFeedListenerImpl.java:59 | a written line with two to four fields fails |
| FeedListener.LinesAround | src/main/java/com/domain/pricehandler/service/messaging/PriceFeedListenerImpl.java:26 | a message written line by line splits back into those lines |
| FeedListener.BadLineRejectsMessage | src/main/java/com/domain/pricehandler/service/messaging/PriceFeedListenerImpl.java:25-38 | one failing line anywhere makes the whole message throw and leaves the store exactly as it was, whatever the other lines hold |
| FeedListener.GoodMessageUpdatesOnce | src/main/java/com/domain/pricehandler/service/messaging/PriceFeedListenerImpl.java:25-38 | when every line converts, the store becomes updatePrices of exactly those prices, in line order, with nothing thrown |
| FeedListener.SingleLineCollect | src/main/java/com/domain/pricehandler/service/messaging/PriceFeedListenerImpl.java:26-36 | a message without a line break collects to its one line's price, or fails at that line |
| FeedListener.SingleLineMessage | src/main/java/com/domain/pricehandler/service/messaging/PriceFeedListenerImpl.java:25-38 | a message without a line break stores its one line's price with nothing thrown, or throws the conversion-failed exception and leaves the store alone |
| Scenarios.FixtureContents | src/test/java/com/domain/pricehandler/service/PriceServiceIntegrationTests.java:53-108 | the fixture stores both initial prices and nothing for GBP/USD |
| Scenarios.GetPriceByLabel | src/main/java/com/domain/pricehandler/service/PriceServiceImpl.java:43-54 | each whitelisted label reads the slot of its own instrument |
| Scenarios.UnreadInstrumentIsEmpty | src/test/java/com/domain/pricehandler/service/PriceServiceIntegrationTests.java:115-123 | reading GBP/USD from the fixture is empty |
| Scenarios.NewerPriceReplaces | src/test/java/com/domain/pricehandler/service/PriceServiceIntegrationTests.java:125-140 | a newer EUR/USD price replaces the stored one |
| Scenarios.OlderPriceIgnored | src/test/java/com/domain/pricehandler/service/PriceServiceIntegrationTests.java:142-157 | an older EUR/USD price leaves the stored one |
| Scenarios.SlotAfterUpdate | src/main/java/com/domain/pricehandler/service/PriceServiceImpl.java:83-96 | reading an instrument by label after updatePrices gives the lowest candidate if it is newer than the stored entry, else the stored entry |
| Scenarios.OneCandidatePerInstrument | src/test/java/com/domain/pricehandler/service/PriceServiceIntegrationTests.java:159-180 | with one candidate per instrument, the newer EUR/USD and the new GBP/USD are stored and the older EUR/JPY is not |
| Scenarios.EurUsdOfSeveral | src/test/java/com/domain/pricehandler/service/PriceServiceIntegrationTests.java:185-191 | of the EUR/USD candidates 30 and 8, the pipeline keeps 8 |
| Scenarios.EurJpyOfSeveral | src/test/java/com/domain/pricehandler/service/PriceServiceIntegrationTests.java:185-191 | of the EUR/JPY candidates 19 and 21, the pipeline keeps 19 |
| Scenarios.GbpUsdOfSeveral | src/test/java/com/domain/pricehandler/service/PriceServiceIntegrationTests.java:185-191 | of the GBP/USD candidates 30 and 31, the pipeline keeps 30 |
| Scenarios.SeveralCandidatesPerInstrument | src/test/java/com/domain/pricehandler/service/PriceServiceIntegrationTests.java:182-206 | with several candidates per instrument, the store ends with ids 10, 20 and 30, not the 30, 21 and 31 the test expects |
| Scenarios.TestFieldsStrip | src/main/java/com/domain/pricehandler/service/messaging/PriceFeedListenerImpl.java:47 | each field of a test line, blanks included, reads back as the text it was written from |
| Scenarios.TestLineFields | src/main/java/com/domain/pricehandler/service/messaging/PriceFeedListenerImpl.java:47 | a line in the tests' layout splits back into its five fields, blanks removed |
| Scenarios.TestLineIsOneLine | src/main/java/com/domain/pricehandler/service/messaging/PriceFeedListenerImpl.java:26 | a line in the tests' layout is one non-empty line of a message |
| Scenarios.TestLineConverts | src/main/java/com/domain/pricehandler/service/messaging/PriceFeedListenerImpl.java:46-62 | a well-written test line whose decimals parse converts to the price of exactly its fields |
| Scenarios.TestLineBadBid | src/main/java/com/domain/pricehandler/service/messaging/PriceFeedListenerImpl.java:56 | a well-written test line whose bid does not parse fails on the bid |
| Scenarios.RowOneConverts | src/test/java/com/domain/pricehandler/service/PriceFeedListenerUnitTests.java:34-62 | the line "106, EUR/USD, 1.1000,1.2000,01-06-2020 12:01:01:001" converts to id 106, EUR/USD, the adjusted 1.1 and 1.2, and that timestamp |
| Scenarios.RowTwoConverts | src/test/java/com/domain/pricehandler/service/PriceFeedListenerUnitTests.java:64-103 | the second line converts to id 107, EUR/JPY, the adjusted 119.6 and 119.9, and its timestamp |
| Scenarios.OneLineMessage | src/main/java/com/domain/pricehandler/service/messaging/PriceFeedListenerImpl.java:25-38 | a message of one converting test line stores that price, with nothing thrown |
| Scenarios.TwoLineMessage | src/main/java/com/domain/pricehandler/service/messaging/PriceFeedListenerImpl.java:25-38 | a message of two converting test lines makes one update with both prices, in line order |
| Scenarios.FailingLineMessage | src/main/java/com/domain/pricehandler/service/messaging/PriceFeedListenerImpl.java:25-38 | a message whose one test line fails throws and leaves the store alone |
| Scenarios.OnePriceMessage | src/test/java/com/domain/pricehandler/service/PriceFeedListenerUnitTests.java:34-62 | the one-line message of the test leads to one updatePrices call with its one price |
| Scenarios.TwoPriceMessage | src/test/java/com/domain/pricehandler/service/PriceFeedListenerUnitTests.java:64-103 | the two-line message of the test leads to one updatePrices call with both prices, in line order |
| Scenarios.CorruptPriceMessage | src/test/java/com/domain/pricehandler/service/PriceFeedListenerUnitTests.java:105-117 | the "noPrice" bid fails the line, and the message throws the conversion-failed exception and stores nothing |

## Left out

- Concurrency: Reactor's `Mono` and `Flux` become `Option` and a sequence. The `ConcurrentHashMap` in `distinctByKey` is a sequential fold over a seen-set. The store is a plain map updated one call at a time, so the non-atomic check-then-set at `PriceServiceImpl.java:91-93` is not modelled.
- Margins: the `Double` margins and `new BigDecimal(1+margin)` are exact real arithmetic. The binary rounding of `1+margin` is not modelled.
- Service.CalculatePriceBid: the bid margin is always a finite number. In `PriceServiceImpl.java:29` it is a `Double` that stays null until configured, and it may be NaN or infinite. Then `1+bidMargin` or `new BigDecimal(double)` at line 112 throws, and every line fails with the conversion-failed exception of `PriceFeedListenerImpl.java:32-33`. Those failures are not modelled.
- Service.CalculatePriceAsk: the same for the ask margin (`PriceServiceImpl.java:32`, line 117).
- Bid and ask: these are the exact values of the `BigDecimal`s. Their scale is not tracked, so 1.1000 and 1.1 are equal.
- Decimal parsing: the `BigDecimal(String)` grammar is a parameter `string -> Option<real>`. The unit-test scenarios assume only that it reads their four decimals as written and rejects "noPrice" (`Scenarios.ReadsTestDecimals`).
- JavaStrings.ParseInt: accepts ASCII digits only. `Integer.valueOf` also accepts the other Unicode decimal digits.
- Strings are sequences of Dafny `char`, which are Unicode scalar values, while Java strings are UTF-16 code units. Surrogate pairs are not modelled.
- The line separator comes from `System.getProperty("line.separator")`. It is fixed to "\n".
- Logging, Spring configuration binding and the setters of the margins are not modelled. The margins are a parameter.
- `PriceController`, `PriceControllerException`, `PriceDto` and `PriceHandlerApplication` are not part of this model. They hold web routing, DTO mapping, HTTP error building and bootstrap code. The interfaces `PriceService`, `PriceRepository` and `PriceFeedListener` hold only signatures.
- A Java `Price` with null fields: the model always has an id, a bid, an ask and a timestamp, and only the instrument may be absent. The integration-test prices have no timestamp; the scenarios give them "".
- Repository.Get: lists the entries in a fixed instrument order. The `HashMap` iteration order is unspecified, so the order of the listing is not part of the contract.
- Scenarios.OnePriceMessage: the unit tests mock `PriceService`, with a margin of -0.001 in the stubbed bid. The scenarios run the real service with arbitrary margins, so they state what `updatePrices` receives and stores rather than the mock's stubbed values.
- Exceptions other than the conversion failure, for example a null message, are not modelled: every input is a string.
