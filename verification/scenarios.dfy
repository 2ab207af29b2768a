/**
 * The repository's own tests, replayed on the model: the fixture and the
 * cases of PriceServiceIntegrationTests, and the messages of
 * PriceFeedListenerUnitTests.
 */
module Scenarios {
  import opened Wrappers
  import opened Instruments
  import opened Prices
  import opened Repository
  import opened Resolver
  import opened Service
  import opened JavaStrings
  import opened FeedListener

  // ---------------------------------------------------------------------------
  // PriceServiceIntegrationTests: the prices of setUp (no timestamp is set there)

  const EurUsdInitial := Price(10, Some(EUR_USD), 105.0, 106.0, "")
  const EurUsdHigher := Price(30, Some(EUR_USD), 115.0, 116.0, "")
  const EurUsdLower := Price(8, Some(EUR_USD), 125.0, 126.0, "")
  const EurJpyInitial := Price(20, Some(EUR_JPY), 1050.0, 1060.0, "")
  const EurJpyHigher := Price(21, Some(EUR_JPY), 1051.0, 1061.0, "")
  const EurJpyLower := Price(19, Some(EUR_JPY), 1071.0, 1091.0, "")
  const GbpUsdNew := Price(30, Some(GBP_USD), 10051.0, 10061.0, "")
  const GbpUsdHigher := Price(31, Some(GBP_USD), 10181.0, 10191.0, "")

  /** The store after setUp: the two initial prices written into an empty store. */
  const Fixture: Store := UpdatePrices(map[], [EurUsdInitial, EurJpyInitial])

  /** setUp stores both initial prices and nothing for GBP/USD. */
  lemma FixtureContents()
    ensures GetByInstrumentName(Fixture, Some(EUR_USD)) == Some(EurUsdInitial)
    ensures GetByInstrumentName(Fixture, Some(EUR_JPY)) == Some(EurJpyInitial)
    ensures GetByInstrumentName(Fixture, Some(GBP_USD)) == None
    ensures GetByInstrumentName(Fixture, None) == None
  {
    var ps := [EurUsdInitial, EurJpyInitial];
    assert Lowest(ps, EUR_USD) == Some(EurUsdInitial);
    assert Lowest(ps, EUR_JPY) == Some(EurJpyInitial);
    assert Lowest(ps, GBP_USD) == None;
    assert GetByInstrumentName(Fixture, Some(EUR_USD)) == Expected(map[], ps, Some(EUR_USD));
    assert GetByInstrumentName(Fixture, Some(EUR_JPY)) == Expected(map[], ps, Some(EUR_JPY));
    assert GetByInstrumentName(Fixture, Some(GBP_USD)) == Expected(map[], ps, Some(GBP_USD));
    assert GetByInstrumentName(Fixture, None) == Expected(map[], ps, None);
  }

  /** Reading by label goes to the instrument the label names. */
  lemma GetPriceByLabel(s: Store)
    ensures GetPrice(s, "EUR/USD") == GetByInstrumentName(s, Some(EUR_USD))
    ensures GetPrice(s, "EUR/JPY") == GetByInstrumentName(s, Some(EUR_JPY))
    ensures GetPrice(s, "GBP/USD") == GetByInstrumentName(s, Some(GBP_USD))
  {
    assert Label(EUR_USD) == "EUR/USD";
    assert Label(EUR_JPY) == "EUR/JPY";
    assert Label(GBP_USD) == "GBP/USD";
  }

  /** givenPrices_whenGetPriceForUnreadInstrumentName_thenReturnEmpty (lines 115-123). */
  lemma UnreadInstrumentIsEmpty()
    ensures GetPrice(Fixture, "GBP/USD") == None
  {
    FixtureContents();
    GetPriceByLabel(Fixture);
  }

  /** givenPrices_whenUpdatePriceWithNewer_thenPriceUpdated (lines 125-140). */
  lemma NewerPriceReplaces()
    ensures GetPrice(UpdatePrices(Fixture, [EurUsdHigher]), "EUR/USD") == Some(EurUsdHigher)
  {
    var after := UpdatePrices(Fixture, [EurUsdHigher]);
    FixtureContents();
    assert Lowest([EurUsdHigher], EUR_USD) == Some(EurUsdHigher);
    assert GetByInstrumentName(after, Some(EUR_USD)) == Expected(Fixture, [EurUsdHigher], Some(EUR_USD));
    GetPriceByLabel(after);
  }

  /** givenPrices_whenUpdatePriceWithOlder_thenPriceNotUpdated (lines 142-157). */
  lemma OlderPriceIgnored()
    ensures GetPrice(UpdatePrices(Fixture, [EurUsdLower]), "EUR/USD") == Some(EurUsdInitial)
  {
    var after := UpdatePrices(Fixture, [EurUsdLower]);
    FixtureContents();
    StaleCandidateMasksNewer(Fixture, [EurUsdLower], EurUsdLower);
    GetPriceByLabel(after);
  }

  /** One instrument's slot after updatePrices, read back by its label. */
  lemma SlotAfterUpdate(s: Store, ps: seq<Price>, i: Instrument)
    ensures GetPrice(UpdatePrices(s, ps), Label(i)) == Decide(GetByInstrumentName(s, Some(i)), Lowest(ps, i))
  {
    var after := UpdatePrices(s, ps);
    assert GetByInstrumentName(after, Some(i)) == Expected(s, ps, Some(i));
  }

  /** The batch of lines 162-165: one candidate per instrument. */
  const OnePerInstrument := [EurUsdHigher, EurJpyLower, GbpUsdNew]

  lemma EurUsdOfOne()
    ensures Lowest(OnePerInstrument, EUR_USD) == Some(EurUsdHigher)
  {
    LowestOfStrictMinimum(OnePerInstrument, EUR_USD, EurUsdHigher);
  }

  lemma EurJpyOfOne()
    ensures Lowest(OnePerInstrument, EUR_JPY) == Some(EurJpyLower)
  {
    LowestOfStrictMinimum(OnePerInstrument, EUR_JPY, EurJpyLower);
  }

  lemma GbpUsdOfOne()
    ensures Lowest(OnePerInstrument, GBP_USD) == Some(GbpUsdNew)
  {
    LowestOfStrictMinimum(OnePerInstrument, GBP_USD, GbpUsdNew);
  }

  /**
   * givenPrices_whenUpdatePriceWithNewerOrOlderOnePerInstrumentName (lines
   * 159-180): the newer EUR/USD and the new GBP/USD are stored, the older
   * EUR/JPY is not.
   */
  lemma OneCandidatePerInstrument()
    ensures var after := UpdatePrices(Fixture, OnePerInstrument);
      && GetPrice(after, "EUR/USD") == Some(EurUsdHigher)
      && GetPrice(after, "EUR/JPY") == Some(EurJpyInitial)
      && GetPrice(after, "GBP/USD") == Some(GbpUsdNew)
  {
    FixtureContents();
    EurUsdOfOne();
    EurJpyOfOne();
    GbpUsdOfOne();
    SlotAfterUpdate(Fixture, OnePerInstrument, EUR_USD);
    SlotAfterUpdate(Fixture, OnePerInstrument, EUR_JPY);
    SlotAfterUpdate(Fixture, OnePerInstrument, GBP_USD);
  }

  /** The batch of lines 185-191: an older and a newer candidate per instrument. */
  const SeveralPerInstrument := [EurUsdHigher, EurJpyLower, GbpUsdNew, EurUsdLower, GbpUsdHigher, EurJpyHigher]

  /** The candidate the pipeline keeps per instrument is the lowest id, not the newest. */
  lemma EurUsdOfSeveral()
    ensures Lowest(SeveralPerInstrument, EUR_USD) == Some(EurUsdLower)
  {
    LowestOfStrictMinimum(SeveralPerInstrument, EUR_USD, EurUsdLower);
  }

  lemma EurJpyOfSeveral()
    ensures Lowest(SeveralPerInstrument, EUR_JPY) == Some(EurJpyLower)
  {
    LowestOfStrictMinimum(SeveralPerInstrument, EUR_JPY, EurJpyLower);
  }

  lemma GbpUsdOfSeveral()
    ensures Lowest(SeveralPerInstrument, GBP_USD) == Some(GbpUsdNew)
  {
    LowestOfStrictMinimum(SeveralPerInstrument, GBP_USD, GbpUsdNew);
  }

  /**
   * givenPrices_whenUpdatePriceWithNewerOrOlderOnesPerInstrumentName (lines
   * 182-206). That test expects ids 30, 21 and 31, the newest candidate per
   * instrument; the code keeps the lowest id per instrument of the batch, so
   * the store ends with ids 10, 20 and 30: the stale 8 and 19 mask the newer
   * 30 and 21, and GBP/USD takes 30 rather than 31.
   */
  lemma SeveralCandidatesPerInstrument()
    ensures var after := UpdatePrices(Fixture, SeveralPerInstrument);
      && GetPrice(after, "EUR/USD") == Some(EurUsdInitial)
      && GetPrice(after, "EUR/JPY") == Some(EurJpyInitial)
      && GetPrice(after, "GBP/USD") == Some(GbpUsdNew)
  {
    FixtureContents();
    EurUsdOfSeveral();
    EurJpyOfSeveral();
    GbpUsdOfSeveral();
    SlotAfterUpdate(Fixture, SeveralPerInstrument, EUR_USD);
    SlotAfterUpdate(Fixture, SeveralPerInstrument, EUR_JPY);
    SlotAfterUpdate(Fixture, SeveralPerInstrument, GBP_USD);
  }

  // ---------------------------------------------------------------------------
  // PriceFeedListenerUnitTests

  /** One line of the unit tests, by its five fields as written. */
  datatype TestRow = TestRow(id: int, name: string, bidText: string, askText: string, timestamp: string)

  /**
   * The layout of the unit tests' lines: id, label, bid, ask and timestamp
   * joined by commas, with a blank after the first two commas, as in
   * "106, EUR/USD, 1.1000,1.2000,01-06-2020 12:01:01:001".
   */
  function TestFields(r: TestRow): seq<string>
  {
    [FormatInt(r.id), " " + r.name, " " + r.bidText, r.askText, r.timestamp]
  }

  function TestLine(r: TestRow): string
  {
    Join(TestFields(r), ',')
  }

  /** The fields once read back: the texts without the blanks. */
  function ReadFields(r: TestRow): seq<string>
  {
    [FormatInt(r.id), r.name, r.bidText, r.askText, r.timestamp]
  }

  /** A text that can stand as a field of a line: clean and free of line breaks. */
  predicate GoodText(t: string)
  {
    CleanField(t) && NewLine !in t
  }

  /** A row a feed producer can write: an int id and good texts. */
  predicate WellWritten(r: TestRow)
  {
    IntMin <= r.id <= IntMax && GoodText(r.name) && GoodText(r.bidText) && GoodText(r.askText) && GoodText(r.timestamp)
  }

  /** Each written field strips to the text it was written from. */
  lemma TestFieldsStrip(r: TestRow)
    requires WellWritten(r)
    ensures var fs, clean := TestFields(r), ReadFields(r);
      forall i :: 0 <= i < |fs| ==> Strip(fs[i]) == clean[i] && CleanField(clean[i])
  {
    var fs, clean := TestFields(r), ReadFields(r);
    FormatIntIsClean(r.id);
    CleanFieldIsStripped(FormatInt(r.id));
    StripLeadingSpace(r.name);
    StripLeadingSpace(r.bidText);
    CleanFieldIsStripped(r.askText);
    CleanFieldIsStripped(r.timestamp);
    forall i | 0 <= i < |fs|
      ensures Strip(fs[i]) == clean[i] && CleanField(clean[i])
    {
      if i == 0 {
      } else if i == 1 {
      } else if i == 2 {
      }
    }
  }

  /** No written field holds a comma or a line break. */
  lemma TestFieldsOneLine(r: TestRow)
    requires WellWritten(r)
    ensures var fs := TestFields(r);
      forall i :: 0 <= i < |fs| ==> ',' !in fs[i] && NewLine !in fs[i]
  {
    var fs := TestFields(r);
    FormatIntIsClean(r.id);
    forall i | 0 <= i < |fs|
      ensures ',' !in fs[i] && NewLine !in fs[i]
    {
      if i == 0 {
      } else if i == 1 {
        assert ',' !in " " + r.name && NewLine !in " " + r.name;
      } else if i == 2 {
        assert ',' !in " " + r.bidText && NewLine !in " " + r.bidText;
      }
    }
  }

  /** A line in that layout splits back into its five fields, blanks removed. */
  lemma TestLineFields(r: TestRow)
    requires WellWritten(r)
    ensures Fields(TestLine(r)) == ReadFields(r)
  {
    var fs := TestFields(r);
    TestFieldsStrip(r);
    TestFieldsOneLine(r);
    FormatIntIsClean(r.id);
    FieldsOfJoin(fs);
    StripAllIs(fs, ReadFields(r));
  }

  /** A line in that layout is one non-empty line of a message. */
  lemma TestLineIsOneLine(r: TestRow)
    requires WellWritten(r)
    ensures NewLine !in TestLine(r) && TestLine(r) != ""
  {
    var fs := TestFields(r);
    TestFieldsOneLine(r);
    FormatIntIsClean(r.id);
    JoinAvoids(fs, ',', NewLine);
    JoinEnds(fs, ',');
  }

  /** A well-written row whose decimals parse converts to the price of exactly its fields. */
  lemma TestLineConverts(m: Margins, parseDecimal: string -> Option<real>, r: TestRow, bid: real, ask: real)
    requires WellWritten(r)
    requires parseDecimal(r.bidText) == Some(bid) && parseDecimal(r.askText) == Some(ask)
    ensures ConvertMessageToPrice(m, parseDecimal, TestLine(r))
            == Success(Price(r.id, ValueOfLabel(r.name), CalculatePriceBid(m, bid), CalculatePriceAsk(m, ask), r.timestamp))
  {
    TestLineFields(r);
    ParseFormatInt(r.id);
    ConvertFieldsBuilds(m, parseDecimal, ReadFields(r));
  }

  /** A well-written row whose bid does not parse fails with the bid error. */
  lemma TestLineBadBid(m: Margins, parseDecimal: string -> Option<real>, r: TestRow)
    requires WellWritten(r)
    requires parseDecimal(r.bidText).None?
    ensures ConvertMessageToPrice(m, parseDecimal, TestLine(r)) == Failure(BadBid)
  {
    TestLineFields(r);
    ParseFormatInt(r.id);
    ConvertFieldsErrors(m, parseDecimal, ReadFields(r));
  }

  /**
   * The decimals of the unit tests as new BigDecimal(String) reads them;
   * "noPrice" is not a number.
   */
  predicate ReadsTestDecimals(parseDecimal: string -> Option<real>)
  {
    && parseDecimal("1.1000") == Some(1.1)
    && parseDecimal("1.2000") == Some(1.2)
    && parseDecimal("119.60") == Some(119.6)
    && parseDecimal("119.90") == Some(119.9)
    && parseDecimal("noPrice") == None
  }

  const RowOne := TestRow(106, "EUR/USD", "1.1000", "1.2000", "01-06-2020 12:01:01:001")
  const RowTwo := TestRow(107, "EUR/JPY", "119.60", "119.90", "01-06-2020 12:01:02:002")
  const CorruptRow := TestRow(106, "EUR/USD", "noPrice", "1.2000", "01-06-2020 12:01:01:001")

  // Each text of the unit tests is a good field.
  lemma EurUsdTextIsGood()
    ensures GoodText("EUR/USD")
  {
  }

  lemma EurJpyTextIsGood()
    ensures GoodText("EUR/JPY")
  {
  }

  lemma BidOneTextIsGood()
    ensures GoodText("1.1000")
  {
  }

  lemma AskOneTextIsGood()
    ensures GoodText("1.2000")
  {
  }

  lemma BidTwoTextIsGood()
    ensures GoodText("119.60")
  {
  }

  lemma AskTwoTextIsGood()
    ensures GoodText("119.90")
  {
  }

  lemma NoPriceTextIsGood()
    ensures GoodText("noPrice")
  {
  }

  lemma StampOneTextIsGood()
    ensures GoodText("01-06-2020 12:01:01:001")
  {
  }

  lemma StampTwoTextIsGood()
    ensures GoodText("01-06-2020 12:01:02:002")
  {
  }

  lemma RowOneWellWritten()
    ensures WellWritten(RowOne)
  {
    EurUsdTextIsGood();
    BidOneTextIsGood();
    AskOneTextIsGood();
    StampOneTextIsGood();
  }

  lemma RowTwoWellWritten()
    ensures WellWritten(RowTwo)
  {
    EurJpyTextIsGood();
    BidTwoTextIsGood();
    AskTwoTextIsGood();
    StampTwoTextIsGood();
  }

  lemma CorruptRowWellWritten()
    ensures WellWritten(CorruptRow)
  {
    EurUsdTextIsGood();
    NoPriceTextIsGood();
    AskOneTextIsGood();
    StampOneTextIsGood();
  }

  /** The prices the two good lines stand for, margins applied. */
  function PriceOne(m: Margins): Price
  {
    Price(106, Some(EUR_USD), CalculatePriceBid(m, 1.1), CalculatePriceAsk(m, 1.2), "01-06-2020 12:01:01:001")
  }

  function PriceTwo(m: Margins): Price
  {
    Price(107, Some(EUR_JPY), CalculatePriceBid(m, 119.6), CalculatePriceAsk(m, 119.9), "01-06-2020 12:01:02:002")
  }

  lemma RowOneConverts(m: Margins, parseDecimal: string -> Option<real>)
    requires ReadsTestDecimals(parseDecimal)
    ensures ConvertMessageToPrice(m, parseDecimal, TestLine(RowOne)) == Success(PriceOne(m))
  {
    RowOneWellWritten();
    TestLineConverts(m, parseDecimal, RowOne, 1.1, 1.2);
    LabelRoundTrip(EUR_USD);
  }

  lemma RowTwoConverts(m: Margins, parseDecimal: string -> Option<real>)
    requires ReadsTestDecimals(parseDecimal)
    ensures ConvertMessageToPrice(m, parseDecimal, TestLine(RowTwo)) == Success(PriceTwo(m))
  {
    RowTwoWellWritten();
    TestLineConverts(m, parseDecimal, RowTwo, 119.6, 119.9);
    LabelRoundTrip(EUR_JPY);
  }

  /** A message of one well-written line that converts stores that one price. */
  lemma OneLineMessage(m: Margins, parseDecimal: string -> Option<real>, s: Store, r: TestRow, p: Price)
    requires WellWritten(r)
    requires ConvertMessageToPrice(m, parseDecimal, TestLine(r)) == Success(p)
    ensures OnMessage(m, parseDecimal, s, TestLine(r)) == Delivery(UpdatePrices(s, [p]), None)
  {
    TestLineIsOneLine(r);
    SingleLineMessage(m, parseDecimal, s, TestLine(r));
  }

  /** Two single lines that convert, listed in order, convert pointwise. */
  lemma TwoLinesConvert(m: Margins, parseDecimal: string -> Option<real>,
                        l1: string, p1: Price, l2: string, p2: Price)
    requires NewLine !in l1 && NewLine !in l2
    requires ConvertMessageToPrice(m, parseDecimal, l1) == Success(p1)
    requires ConvertMessageToPrice(m, parseDecimal, l2) == Success(p2)
    ensures var lines, ps := [l1, l2], [p1, p2];
      forall k :: 0 <= k < |lines| ==>
        NewLine !in lines[k] && ConvertMessageToPrice(m, parseDecimal, lines[k]) == Success(ps[k])
  {
    var lines, ps := [l1, l2], [p1, p2];
    forall k | 0 <= k < |lines|
      ensures NewLine !in lines[k] && ConvertMessageToPrice(m, parseDecimal, lines[k]) == Success(ps[k])
    {
      if k == 0 {
      }
    }
  }

  /** A message of two well-written lines that convert stores both prices in one update. */
  lemma TwoLineMessage(m: Margins, parseDecimal: string -> Option<real>, s: Store,
                       r1: TestRow, p1: Price, r2: TestRow, p2: Price)
    requires WellWritten(r1) && WellWritten(r2)
    requires ConvertMessageToPrice(m, parseDecimal, TestLine(r1)) == Success(p1)
    requires ConvertMessageToPrice(m, parseDecimal, TestLine(r2)) == Success(p2)
    ensures OnMessage(m, parseDecimal, s, Join([TestLine(r1), TestLine(r2)], NewLine))
            == Delivery(UpdatePrices(s, [p1, p2]), None)
  {
    TestLineIsOneLine(r1);
    TestLineIsOneLine(r2);
    TwoLinesConvert(m, parseDecimal, TestLine(r1), p1, TestLine(r2), p2);
    GoodMessageUpdatesOnce(m, parseDecimal, s, [TestLine(r1), TestLine(r2)], [p1, p2]);
  }

  /** A message of one well-written line that fails throws and leaves the store alone. */
  lemma FailingLineMessage(m: Margins, parseDecimal: string -> Option<real>, s: Store, r: TestRow)
    requires WellWritten(r)
    requires ConvertMessageToPrice(m, parseDecimal, TestLine(r)).Failure?
    ensures OnMessage(m, parseDecimal, s, TestLine(r)) == Delivery(s, Some(ConversionFailed))
  {
    TestLineIsOneLine(r);
    SingleLineMessage(m, parseDecimal, s, TestLine(r));
  }

  /**
   * givenNoPrices_whenMessageWithOnePricePublished_UploadPrice (lines
   * 34-62): updatePrices receives exactly the one converted price. (The
   * test stubs the margin calculation; here it is the real one.)
   */
  lemma OnePriceMessage(m: Margins, parseDecimal: string -> Option<real>, s: Store)
    requires ReadsTestDecimals(parseDecimal)
    ensures OnMessage(m, parseDecimal, s, TestLine(RowOne)) == Delivery(UpdatePrices(s, [PriceOne(m)]), None)
  {
    RowOneWellWritten();
    RowOneConverts(m, parseDecimal);
    OneLineMessage(m, parseDecimal, s, RowOne, PriceOne(m));
  }

  /**
   * givenNoPrices_whenMessageWithManyPricesPublished_UploadPrices (lines
   * 64-103): one updatePrices call with both prices, in line order.
   */
  lemma TwoPriceMessage(m: Margins, parseDecimal: string -> Option<real>, s: Store)
    requires ReadsTestDecimals(parseDecimal)
    ensures OnMessage(m, parseDecimal, s, Join([TestLine(RowOne), TestLine(RowTwo)], NewLine))
            == Delivery(UpdatePrices(s, [PriceOne(m), PriceTwo(m)]), None)
  {
    RowOneWellWritten();
    RowTwoWellWritten();
    RowOneConverts(m, parseDecimal);
    RowTwoConverts(m, parseDecimal);
    TwoLineMessage(m, parseDecimal, s, RowOne, PriceOne(m), RowTwo, PriceTwo(m));
  }

  /**
   * givenNoPrices_whenMessageWithCorruptPricePublished_ThrowException (lines
   * 105-117): an unparsable bid throws the conversion-failed exception and
   * nothing is stored.
   */
  lemma CorruptPriceMessage(m: Margins, parseDecimal: string -> Option<real>, s: Store)
    requires ReadsTestDecimals(parseDecimal)
    ensures ConvertMessageToPrice(m, parseDecimal, TestLine(CorruptRow)) == Failure(BadBid)
    ensures OnMessage(m, parseDecimal, s, TestLine(CorruptRow)) == Delivery(s, Some(ConversionFailed))
  {
    CorruptRowWellWritten();
    TestLineBadBid(m, parseDecimal, CorruptRow);
    FailingLineMessage(m, parseDecimal, s, CorruptRow);
  }
}
