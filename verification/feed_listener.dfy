/**
 * PriceFeedListenerImpl: turns a feed message into prices, one per line,
 * and hands the whole list to updatePrices only if every line converts.
 */
module FeedListener {
  import opened Wrappers
  import opened Instruments
  import opened Prices
  import opened JavaStrings
  import opened Repository
  import opened Service

  /** The platform line separator, fixed to "\n". */
  const NewLine: char := '\n'

  /** The message of the RuntimeException thrown when any line fails to convert. */
  const ConversionFailed: string := "Message convertion failed due to incorrect message Format"

  /** message.split(newLine) */
  function Lines(message: string): (r: seq<string>)
    ensures forall k :: 0 <= k < |r| ==> NewLine !in r[k]
    ensures NewLine !in message ==> r == [message]
    ensures NewLine in message ==> |r| == 0 || r[|r| - 1] != ""
    ensures NewLine in message ==>
      var pieces := Pieces(message, NewLine);
      |r| <= |pieces| && r == pieces[..|r|] && forall j :: |r| <= j < |pieces| ==> pieces[j] == ""
  {
    Split(message, NewLine)
  }

  /**
   * Separator-free lines whose last one is non-empty, joined and followed by
   * one more line separator, split back into exactly those lines.
   */
  lemma LinesOfTrailingNewLine(ls: seq<string>)
    requires |ls| >= 1
    requires forall k :: 0 <= k < |ls| ==> NewLine !in ls[k]
    requires ls[|ls| - 1] != ""
    ensures Lines(Join(ls + [""], NewLine)) == ls
  {
    SplitDropsTrailingSeparator(ls, NewLine);
  }

  /** Strip applied to every piece. */
  function StripAll(ps: seq<string>): (r: seq<string>)
    ensures |r| == |ps|
    ensures forall i :: 0 <= i < |ps| ==> r[i] == Strip(ps[i])
  {
    if |ps| == 0 then [] else [Strip(ps[0])] + StripAll(ps[1..])
  }

  lemma StripAllIs(ps: seq<string>, stripped: seq<string>)
    requires |ps| == |stripped|
    requires forall i :: 0 <= i < |ps| ==> Strip(ps[i]) == stripped[i]
    ensures StripAll(ps) == stripped
  {
    var r := StripAll(ps);
    assert forall i :: 0 <= i < |ps| ==> r[i] == stripped[i];
  }

  /**
   * line.trim().split("\\s*,\\s*"): the trimmed line cut at each comma, the
   * whitespace the pattern consumes around a comma removed from the pieces
   * on either side. The trimmed line has no \s at either end, so this is
   * each comma-separated piece stripped of \s at both ends. As with any
   * split, a line without a comma is its own single field, and otherwise
   * trailing empty fields are dropped.
   */
  function Fields(line: string): (r: seq<string>)
    ensures ',' !in Trim(line) ==> r == [Trim(line)]
    ensures ',' in Trim(line) ==> |r| == 0 || r[|r| - 1] != ""
    ensures ',' in Trim(line) ==>
      var stripped := StripAll(Pieces(Trim(line), ','));
      |r| <= |stripped| && r == stripped[..|r|] && forall j :: |r| <= j < |stripped| ==> stripped[j] == ""
  {
    var t := Trim(line);
    var ps := Pieces(t, ',');
    if |ps| == 1 then [t] else DropTrailingEmpty(StripAll(ps))
  }

  /** No field holds a comma: the pattern consumes every comma it cuts at. */
  lemma FieldsHaveNoComma(line: string)
    ensures forall i :: 0 <= i < |Fields(line)| ==> ',' !in Fields(line)[i]
  {
    var t := Trim(line);
    var ps := Pieces(t, ',');
    if |ps| > 1 {
      var stripped := StripAll(ps);
      var r := DropTrailingEmpty(stripped);
      forall i | 0 <= i < |r| ensures ',' !in r[i] {
        assert r[i] == stripped[i] == Strip(ps[i]);
        StripEndsRemovesOnly(ps[i], RegexSpace, ',');
      }
    }
  }

  /** Why a line failed: the first exception convertMessageToPrice would raise. */
  datatype LineError =
    | MissingField(index: nat)   // ArrayIndexOutOfBoundsException on fields[index]
    | BadId                      // NumberFormatException from Integer.valueOf(fields[0])
    | BadBid                     // NumberFormatException from new BigDecimal(fields[2])
    | BadAsk                     // NumberFormatException from new BigDecimal(fields[3])

  /**
   * convertMessageToPrice once the line is split into fields. `parseDecimal`
   * is the BigDecimal(String) constructor, None where it throws. Fields are
   * consumed in the order the Java code reads them, so the error is the
   * first one encountered; an unrecognised label is not an error, it leaves
   * the instrument absent. A line converts iff it has at least five fields,
   * an int id and decimal bid and ask; the price then carries the id, the
   * instrument labelled by field 1 (absent for an unknown label), the
   * margin-adjusted bid and ask and field 4 verbatim.
   */
  function ConvertFields(m: Margins, parseDecimal: string -> Option<real>, fs: seq<string>)
    : (r: Result<Price, LineError>)
    ensures r.Success? <==>
      |fs| >= 5 && ParseInt(fs[0]).Some? && parseDecimal(fs[2]).Some? && parseDecimal(fs[3]).Some?
    ensures r.Success? ==>
      && r.value.id == ParseInt(fs[0]).value
      && IntMin <= r.value.id <= IntMax
      && (r.value.instrumentName.None? <==> fs[1] !in AllLabels)
      && (r.value.instrumentName.Some? ==> Label(r.value.instrumentName.value) == fs[1])
      && r.value.bid == CalculatePriceBid(m, parseDecimal(fs[2]).value)
      && r.value.ask == CalculatePriceAsk(m, parseDecimal(fs[3]).value)
      && r.value.timestamp == fs[4]
  {
    if |fs| < 1 then Failure(MissingField(0))
    else
      match ParseInt(fs[0])
      case None => Failure(BadId)
      case Some(id) =>
        if |fs| < 2 then Failure(MissingField(1))
        else
          var instrument := ValueOfLabel(fs[1]);
          if |fs| < 3 then Failure(MissingField(2))
          else
            match parseDecimal(fs[2])
            case None => Failure(BadBid)
            case Some(bid) =>
              if |fs| < 4 then Failure(MissingField(3))
              else
                match parseDecimal(fs[3])
                case None => Failure(BadAsk)
                case Some(ask) =>
                  if |fs| < 5 then Failure(MissingField(4))
                  else Success(Price(id, instrument, CalculatePriceBid(m, bid), CalculatePriceAsk(m, ask), fs[4]))
  }

  /** Five fields whose numbers parse build the price from exactly those fields. */
  lemma ConvertFieldsBuilds(m: Margins, parseDecimal: string -> Option<real>, fs: seq<string>)
    requires |fs| >= 5
    requires ParseInt(fs[0]).Some? && parseDecimal(fs[2]).Some? && parseDecimal(fs[3]).Some?
    ensures ConvertFields(m, parseDecimal, fs)
            == Success(Price(ParseInt(fs[0]).value, ValueOfLabel(fs[1]),
                             CalculatePriceBid(m, parseDecimal(fs[2]).value),
                             CalculatePriceAsk(m, parseDecimal(fs[3]).value), fs[4]))
  {
  }

  /** Fewer than five fields always fail: the timestamp, field 4, is read last. */
  lemma ConvertFieldsNeedsFive(m: Margins, parseDecimal: string -> Option<real>, fs: seq<string>)
    requires |fs| < 5
    ensures ConvertFields(m, parseDecimal, fs).Failure?
  {
  }

  /** Only the first five fields are read: any further fields change nothing. */
  lemma ConvertFieldsFirstFive(m: Margins, parseDecimal: string -> Option<real>, fs: seq<string>)
    requires |fs| >= 5
    ensures ConvertFields(m, parseDecimal, fs) == ConvertFields(m, parseDecimal, fs[..5])
  {
  }

  /** convertMessageToPrice: split the line, then convert its fields. */
  function ConvertMessageToPrice(m: Margins, parseDecimal: string -> Option<real>, line: string)
    : (r: Result<Price, LineError>)
    ensures r.Success? ==> |Fields(line)| >= 5 && r.value.timestamp == Fields(line)[4]
    ensures r.Success? ==> ',' !in r.value.timestamp
  {
    FieldsHaveNoComma(line);
    ConvertFields(m, parseDecimal, Fields(line))
  }

  /**
   * Which error a rejected line reports: the first missing field or
   * unparsable number in the order id, label, bid, ask, timestamp.
   */
  lemma ConvertFieldsErrors(m: Margins, parseDecimal: string -> Option<real>, fs: seq<string>)
    ensures var r := ConvertFields(m, parseDecimal, fs);
      && (|fs| == 0 ==> r == Failure(MissingField(0)))
      && (|fs| >= 1 && ParseInt(fs[0]).None? ==> r == Failure(BadId))
      && (|fs| == 1 && ParseInt(fs[0]).Some? ==> r == Failure(MissingField(1)))
      && (|fs| == 2 && ParseInt(fs[0]).Some? ==> r == Failure(MissingField(2)))
      && (|fs| >= 3 && ParseInt(fs[0]).Some? && parseDecimal(fs[2]).None? ==> r == Failure(BadBid))
      && (|fs| == 3 && ParseInt(fs[0]).Some? && parseDecimal(fs[2]).Some? ==> r == Failure(MissingField(3)))
      && (|fs| >= 4 && ParseInt(fs[0]).Some? && parseDecimal(fs[2]).Some? && parseDecimal(fs[3]).None? ==> r == Failure(BadAsk))
      && (|fs| == 4 && ParseInt(fs[0]).Some? && parseDecimal(fs[2]).Some? && parseDecimal(fs[3]).Some?
          ==> r == Failure(MissingField(4)))
  {
  }

  /** The stream's map step: every line's conversion outcome, in line order. */
  function ConvertEach(m: Margins, parseDecimal: string -> Option<real>, lines: seq<string>)
    : (r: seq<Result<Price, LineError>>)
    ensures |r| == |lines|
    ensures forall k :: 0 <= k < |lines| ==> r[k] == ConvertMessageToPrice(m, parseDecimal, lines[k])
  {
    if |lines| == 0 then [] else [ConvertMessageToPrice(m, parseDecimal, lines[0])] + ConvertEach(m, parseDecimal, lines[1..])
  }

  /**
   * The stream's collect step: all values in order, or, as soon as one
   * outcome is a failure, the index of that first failure (the exception
   * propagates out of the collect).
   */
  function Collect<T, E>(rs: seq<Result<T, E>>): (r: Result<seq<T>, nat>)
    ensures r.Success? <==> forall k :: 0 <= k < |rs| ==> rs[k].Success?
    ensures r.Success? ==> |r.value| == |rs| && forall k :: 0 <= k < |rs| ==> rs[k] == Success(r.value[k])
    ensures r.Failure? ==>
              && r.error < |rs|
              && rs[r.error].Failure?
              && forall k :: 0 <= k < r.error ==> rs[k].Success?
  {
    if |rs| == 0 then Success([])
    else if rs[0].Failure? then Failure(0)
    else
      var rest := Collect(rs[1..]);
      if rest.Failure? then Failure(rest.error + 1)
      else Success([rs[0].value] + rest.value)
  }

  lemma {:induction false} CollectAllSuccess<T, E>(rs: seq<Result<T, E>>, vs: seq<T>)
    requires |rs| == |vs|
    requires forall k :: 0 <= k < |rs| ==> rs[k] == Success(vs[k])
    ensures Collect(rs) == Success(vs)
  {
    if |rs| > 0 {
      var tail, values := rs[1..], vs[1..];
      assert forall k :: 0 <= k < |tail| ==> tail[k] == rs[k + 1] && values[k] == vs[k + 1];
      CollectAllSuccess(tail, values);
      assert rs[0] == Success(vs[0]);
      assert vs == [vs[0]] + values;
    }
  }

  lemma CollectConverted(m: Margins, parseDecimal: string -> Option<real>, lines: seq<string>, ps: seq<Price>)
    requires |ps| == |lines|
    requires forall k :: 0 <= k < |lines| ==> ConvertMessageToPrice(m, parseDecimal, lines[k]) == Success(ps[k])
    ensures Collect(ConvertEach(m, parseDecimal, lines)) == Success(ps)
  {
    var outcomes := ConvertEach(m, parseDecimal, lines);
    forall k | 0 <= k < |outcomes| ensures outcomes[k] == Success(ps[k]) {
      assert outcomes[k] == ConvertMessageToPrice(m, parseDecimal, lines[k]);
    }
    CollectAllSuccess(outcomes, ps);
  }

  /** Collect over the converted lines: the first failing line, or one price per line. */
  lemma CollectConvertedOutcome(m: Margins, parseDecimal: string -> Option<real>, lines: seq<string>)
    ensures var c := Collect(ConvertEach(m, parseDecimal, lines));
      && (c.Failure? ==> c.error < |lines| && ConvertMessageToPrice(m, parseDecimal, lines[c.error]).Failure?)
      && (c.Success? ==> |c.value| == |lines|)
      && (c.Success? ==>
            forall k :: 0 <= k < |lines| ==> ConvertMessageToPrice(m, parseDecimal, lines[k]) == Success(c.value[k]))
  {
  }

  /** One failing line makes the collect fail. */
  lemma CollectConvertedFails(m: Margins, parseDecimal: string -> Option<real>, lines: seq<string>, j: nat)
    requires j < |lines| && ConvertMessageToPrice(m, parseDecimal, lines[j]).Failure?
    ensures Collect(ConvertEach(m, parseDecimal, lines)).Failure?
  {
    var outcomes := ConvertEach(m, parseDecimal, lines);
    assert outcomes[j].Failure?;
  }

  /** The outcome of onMessage: the store afterwards, and the exception message if one was thrown. */
  datatype Delivery = Delivery(store: Store, thrown: Option<string>)

  /**
   * onMessage: updatePrices is called once, with one price per line in
   * line order, when every line converts; otherwise the fixed exception is
   * thrown and the store is left as it was.
   */
  function OnMessage(m: Margins, parseDecimal: string -> Option<real>, s: Store, message: string)
    : (r: Delivery)
    ensures r.thrown.Some? ==> r.thrown.value == ConversionFailed && r.store == s
  {
    match Collect(ConvertEach(m, parseDecimal, Lines(message)))
    case Failure(_) => Delivery(s, Some(ConversionFailed))
    case Success(ps) => Delivery(UpdatePrices(s, ps), None)
  }

  /** All-or-nothing: the message throws iff some line fails to convert. */
  lemma OnMessageThrowsIff(m: Margins, parseDecimal: string -> Option<real>, s: Store, message: string)
    ensures var lines := Lines(message);
      OnMessage(m, parseDecimal, s, message).thrown.Some? <==>
        exists k :: 0 <= k < |lines| && ConvertMessageToPrice(m, parseDecimal, lines[k]).Failure?
  {
    var lines := Lines(message);
    var c := Collect(ConvertEach(m, parseDecimal, lines));
    CollectConvertedOutcome(m, parseDecimal, lines);
    if c.Failure? {
      assert ConvertMessageToPrice(m, parseDecimal, lines[c.error]).Failure?;
    } else {
      forall k | 0 <= k < |lines| ensures ConvertMessageToPrice(m, parseDecimal, lines[k]).Success? {
        assert ConvertMessageToPrice(m, parseDecimal, lines[k]) == Success(c.value[k]);
      }
    }
  }

  /**
   * When nothing is thrown, the store is updatePrices applied to the
   * converted prices, one per line, in line order.
   */
  lemma OnMessageUpdates(m: Margins, parseDecimal: string -> Option<real>, s: Store, message: string)
    requires OnMessage(m, parseDecimal, s, message).thrown.None?
    ensures var lines := Lines(message);
      exists ps: seq<Price> ::
        && |ps| == |lines|
        && (forall k :: 0 <= k < |lines| ==> ConvertMessageToPrice(m, parseDecimal, lines[k]) == Success(ps[k]))
        && OnMessage(m, parseDecimal, s, message).store == UpdatePrices(s, ps)
  {
    var lines := Lines(message);
    var c := Collect(ConvertEach(m, parseDecimal, lines));
    CollectConvertedOutcome(m, parseDecimal, lines);
    var ps := c.value;
    assert OnMessage(m, parseDecimal, s, message).store == UpdatePrices(s, ps);
  }

  // ---------------------------------------------------------------------------
  // Lines written from fields

  /** A field as a feed producer writes it: non-empty, no comma, no blank at either end. */
  predicate CleanField(f: string)
  {
    |f| > 0 && ',' !in f && !IsTrimmable(f[0]) && !IsTrimmable(f[|f| - 1])
  }

  lemma CleanFieldIsStripped(f: string)
    requires CleanField(f)
    ensures Strip(f) == f
  {
    RegexSpaceIsTrimmable(f[0]);
    RegexSpaceIsTrimmable(f[|f| - 1]);
  }

  lemma {:induction false} JoinEnds(ps: seq<string>, c: char)
    requires |ps| >= 1
    requires forall i :: 0 <= i < |ps| ==> |ps[i]| > 0
    ensures |Join(ps, c)| > 0
    ensures Join(ps, c)[0] == ps[0][0]
    ensures Join(ps, c)[|Join(ps, c)| - 1] == ps[|ps| - 1][|ps[|ps| - 1]| - 1]
    decreases |ps|
  {
    if |ps| > 1 {
      JoinEnds(ps[1..], c);
    }
  }

  /**
   * Splitting a line recovers its fields, each with the \s around its
   * commas removed, when no field holds a comma, the line has no blank at
   * either end and no field is blank.
   */
  lemma FieldsOfJoin(fs: seq<string>)
    requires |fs| >= 2
    requires forall i :: 0 <= i < |fs| ==> ',' !in fs[i] && CleanField(Strip(fs[i]))
    requires |fs[0]| > 0 && !IsTrimmable(fs[0][0])
    requires |fs[|fs| - 1]| > 0 && !IsTrimmable(fs[|fs| - 1][|fs[|fs| - 1]| - 1])
    ensures Fields(Join(fs, ',')) == StripAll(fs)
  {
    var line := Join(fs, ',');
    forall i | 0 <= i < |fs|
      ensures |fs[i]| > 0
    {
      assert |Strip(fs[i])| <= |fs[i]|;
    }
    JoinIsTrimmed(fs);
    assert Trim(line) == line;
    PiecesOfJoin(fs, ',');
    assert Pieces(line, ',') == fs;
    var stripped := StripAll(fs);
    assert stripped[|fs| - 1] != "";
    assert DropTrailingEmpty(stripped) == stripped;
    assert Fields(line) == DropTrailingEmpty(stripped);
  }

  lemma JoinIsTrimmed(fs: seq<string>)
    requires |fs| >= 1
    requires forall i :: 0 <= i < |fs| ==> |fs[i]| > 0
    requires !IsTrimmable(fs[0][0])
    requires !IsTrimmable(fs[|fs| - 1][|fs[|fs| - 1]| - 1])
    ensures Trim(Join(fs, ',')) == Join(fs, ',')
  {
    JoinEnds(fs, ',');
  }

  /** The same for fields written without padding: the fields come back unchanged. */
  lemma CleanFieldsOfJoin(fs: seq<string>)
    requires |fs| >= 2
    requires forall i :: 0 <= i < |fs| ==> CleanField(fs[i])
    ensures Fields(Join(fs, ',')) == fs
  {
    StripAllClean(fs);
    FieldsOfJoin(fs);
  }

  lemma {:induction false} StripAllClean(fs: seq<string>)
    requires forall i :: 0 <= i < |fs| ==> CleanField(fs[i])
    ensures StripAll(fs) == fs
  {
    if |fs| > 0 {
      CleanFieldIsStripped(fs[0]);
      StripAllClean(fs[1..]);
      assert fs == [fs[0]] + fs[1..];
    }
  }

  /**
   * Parse correctness: a line written from an id, a label, two decimals
   * and a timestamp converts to the price carrying exactly those values,
   * margin-adjusted; an unknown label leaves the instrument absent.
   */
  lemma ConvertWrittenLine(m: Margins, parseDecimal: string -> Option<real>,
                           id: int, name: string, bidText: string, askText: string, timestamp: string,
                           bid: real, ask: real)
    requires IntMin <= id <= IntMax
    requires CleanField(name) && CleanField(bidText) && CleanField(askText) && CleanField(timestamp)
    requires parseDecimal(bidText) == Some(bid) && parseDecimal(askText) == Some(ask)
    ensures ConvertMessageToPrice(m, parseDecimal, Join([FormatInt(id), name, bidText, askText, timestamp], ','))
            == Success(Price(id, ValueOfLabel(name), CalculatePriceBid(m, bid), CalculatePriceAsk(m, ask), timestamp))
  {
    var fs := [FormatInt(id), name, bidText, askText, timestamp];
    FormatIntIsClean(id);
    ConvertCleanLine(m, parseDecimal, fs);
    ParseFormatInt(id);
    ConvertFieldsBuilds(m, parseDecimal, fs);
  }

  lemma FormatIntIsClean(n: int)
    ensures CleanField(FormatInt(n))
    ensures NewLine !in FormatInt(n)
  {
    var s := FormatInt(n);
    assert forall c :: c in s ==> c == '-' || IsDigit(c);
  }

  /** Fields after the fifth are ignored, not rejected. */
  lemma ExtraFieldsIgnored(m: Margins, parseDecimal: string -> Option<real>, fs: seq<string>)
    requires |fs| >= 5
    requires forall i :: 0 <= i < |fs| ==> CleanField(fs[i])
    ensures ConvertMessageToPrice(m, parseDecimal, Join(fs, ','))
            == ConvertMessageToPrice(m, parseDecimal, Join(fs[..5], ','))
  {
    var first := fs[..5];
    assert forall i :: 0 <= i < |first| ==> first[i] == fs[i];
    ConvertCleanLine(m, parseDecimal, fs);
    ConvertCleanLine(m, parseDecimal, first);
    ConvertFieldsFirstFive(m, parseDecimal, fs);
  }

  /** A line written from clean fields converts exactly as those fields do. */
  lemma ConvertCleanLine(m: Margins, parseDecimal: string -> Option<real>, fs: seq<string>)
    requires |fs| >= 2
    requires forall i :: 0 <= i < |fs| ==> CleanField(fs[i])
    ensures ConvertMessageToPrice(m, parseDecimal, Join(fs, ',')) == ConvertFields(m, parseDecimal, fs)
  {
    CleanFieldsOfJoin(fs);
  }

  /** A line with fewer than five fields always fails. */
  lemma TooFewFieldsFail(m: Margins, parseDecimal: string -> Option<real>, fs: seq<string>)
    requires 2 <= |fs| < 5
    requires forall i :: 0 <= i < |fs| ==> CleanField(fs[i])
    ensures ConvertMessageToPrice(m, parseDecimal, Join(fs, ',')).Failure?
  {
    ConvertCleanLine(m, parseDecimal, fs);
    ConvertFieldsNeedsFive(m, parseDecimal, fs);
  }

  /** Splitting a message written line by line recovers the lines around any one of them. */
  lemma LinesAround(before: seq<string>, line: string, after: seq<string>)
    requires forall k :: 0 <= k < |before| ==> NewLine !in before[k]
    requires forall k :: 0 <= k < |after| ==> NewLine !in after[k]
    requires NewLine !in line
    requires |after| == 0 ==> line != "" || |before| == 0
    requires |after| > 0 ==> after[|after| - 1] != ""
    ensures Lines(Join(before + [line] + after, NewLine)) == before + [line] + after
    ensures (before + [line] + after)[|before|] == line
  {
    var ls := before + [line] + after;
    NoNewLineAround(before, line, after);
    SplitOfJoin(ls, NewLine);
  }

  lemma NoNewLineAround(before: seq<string>, line: string, after: seq<string>)
    requires forall k :: 0 <= k < |before| ==> NewLine !in before[k]
    requires forall k :: 0 <= k < |after| ==> NewLine !in after[k]
    requires NewLine !in line
    ensures var ls := before + [line] + after;
      forall i :: 0 <= i < |ls| ==> NewLine !in ls[i]
    ensures |after| > 0 ==> (before + [line] + after)[|before| + |after|] == after[|after| - 1]
  {
    var ls := before + [line] + after;
    forall i | 0 <= i < |ls| ensures NewLine !in ls[i] {
      if i < |before| {
        assert ls[i] == before[i];
      } else if i > |before| {
        assert ls[i] == after[i - |before| - 1];
      }
    }
  }

  /**
   * All-or-nothing: one line that fails anywhere in a message makes the
   * whole message throw, and the store stays exactly as it was, whatever
   * the other lines hold.
   */
  lemma BadLineRejectsMessage(m: Margins, parseDecimal: string -> Option<real>, s: Store,
                              before: seq<string>, bad: string, after: seq<string>)
    requires forall k :: 0 <= k < |before| ==> NewLine !in before[k]
    requires forall k :: 0 <= k < |after| ==> NewLine !in after[k]
    requires NewLine !in bad
    requires |after| == 0 ==> bad != "" || |before| == 0
    requires |after| > 0 ==> after[|after| - 1] != ""
    requires ConvertMessageToPrice(m, parseDecimal, bad).Failure?
    ensures OnMessage(m, parseDecimal, s, Join(before + [bad] + after, NewLine)) == Delivery(s, Some(ConversionFailed))
  {
    var lines := before + [bad] + after;
    LinesAround(before, bad, after);
    CollectConvertedFails(m, parseDecimal, lines, |before|);
  }

  /**
   * When every line converts, the store afterwards is updatePrices applied
   * to exactly those prices, in line order.
   */
  lemma GoodMessageUpdatesOnce(m: Margins, parseDecimal: string -> Option<real>, s: Store,
                               lines: seq<string>, ps: seq<Price>)
    requires |lines| >= 1
    requires forall k :: 0 <= k < |lines| ==> NewLine !in lines[k]
    requires |lines| == 1 || lines[|lines| - 1] != ""
    requires |ps| == |lines|
    requires forall k :: 0 <= k < |lines| ==> ConvertMessageToPrice(m, parseDecimal, lines[k]) == Success(ps[k])
    ensures OnMessage(m, parseDecimal, s, Join(lines, NewLine)) == Delivery(UpdatePrices(s, ps), None)
  {
    SplitOfJoin(lines, NewLine);
    CollectConverted(m, parseDecimal, lines, ps);
  }

  /** Collecting a single outcome: its value, or a failure at index 0. */
  lemma CollectOne<T, E>(c: Result<T, E>)
    ensures Collect([c]) == if c.Success? then Success([c.value]) else Failure(0)
  {
    if c.Success? {
      CollectAllSuccess([c], [c.value]);
    }
  }

  /** A message without a line break converts as its one line does. */
  lemma SingleLineCollect(m: Margins, parseDecimal: string -> Option<real>, line: string)
    requires NewLine !in line
    ensures var c := ConvertMessageToPrice(m, parseDecimal, line);
      Collect(ConvertEach(m, parseDecimal, Lines(line))) ==
        if c.Success? then Success([c.value]) else Failure(0)
  {
    var c := ConvertMessageToPrice(m, parseDecimal, line);
    assert Lines(line) == [line];
    assert ConvertEach(m, parseDecimal, [line]) == [c];
    CollectOne(c);
  }

  /** A message without a line break is one line: it stores that line's price, or throws. */
  lemma SingleLineMessage(m: Margins, parseDecimal: string -> Option<real>, s: Store, line: string)
    requires NewLine !in line
    ensures var c := ConvertMessageToPrice(m, parseDecimal, line);
      OnMessage(m, parseDecimal, s, line) ==
        if c.Success? then Delivery(UpdatePrices(s, [c.value]), None) else Delivery(s, Some(ConversionFailed))
  {
    SingleLineCollect(m, parseDecimal, line);
  }
}
