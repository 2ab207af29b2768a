/** The whitelist of supported instruments (model/InstrumentName.java). */
module Instruments {
  import opened Wrappers

  /** The three supported currency pairs, in declaration order. */
  datatype Instrument = EUR_USD | EUR_JPY | GBP_USD

  /** The enum's values(), in declaration order. */
  const AllInstruments: seq<Instrument> := [EUR_USD, EUR_JPY, GBP_USD]

  /** The textual label each enum constant is constructed with. */
  function Label(i: Instrument): string
  {
    match i
    case EUR_USD => "EUR/USD"
    case EUR_JPY => "EUR/JPY"
    case GBP_USD => "GBP/USD"
  }

  /** The labels of the whitelist, as a set. */
  const AllLabels: set<string> := {"EUR/USD", "EUR/JPY", "GBP/USD"}

  /**
   * Lookup in the BY_LABEL table built by the static initialiser from values():
   * the instrument in `vs` whose label equals `name` exactly.
   */
  function FindByLabel(vs: seq<Instrument>, name: string): (r: Option<Instrument>)
    ensures r.Some? ==> r.value in vs && Label(r.value) == name
    ensures r.None? ==> forall i :: i in vs ==> Label(i) != name
  {
    if |vs| == 0 then None
    else if Label(vs[0]) == name then Some(vs[0])
    else FindByLabel(vs[1..], name)
  }

  /** valueOfLabel: the instrument labelled exactly `name`, or empty. */
  function ValueOfLabel(name: string): (r: Option<Instrument>)
    ensures forall i :: r == Some(i) <==> Label(i) == name
    ensures r.Some? <==> name in AllLabels
  {
    FindByLabel(AllInstruments, name)
  }

  /**
   * contains: membership in EnumSet.allOf(InstrumentName.class). A null
   * instrument (None) is not a member.
   */
  function Contains(i: Option<Instrument>): (r: bool)
    ensures r <==> i.Some?
  {
    match i
    case None => false
    case Some(v) => AllInstrumentsComplete(v); v in AllInstruments
  }

  /** values() lists every constant of the enum. */
  lemma AllInstrumentsComplete(i: Instrument)
    ensures i in AllInstruments
  {
    match i
    case EUR_USD => assert AllInstruments[0] == i;
    case EUR_JPY => assert AllInstruments[1] == i;
    case GBP_USD => assert AllInstruments[2] == i;
  }

  /** Labels are pairwise distinct, so labelling is injective. */
  lemma LabelInjective(i: Instrument, j: Instrument)
    ensures Label(i) == Label(j) <==> i == j
  {
  }

  /** Round trip: looking up an instrument's own name yields that instrument. */
  lemma LabelRoundTrip(i: Instrument)
    ensures ValueOfLabel(Label(i)) == Some(i)
  {
  }

  /** Round trip the other way: a name that resolves is that instrument's name. */
  lemma ValueOfLabelRoundTrip(name: string)
    ensures ValueOfLabel(name).Some? ==> Label(ValueOfLabel(name).value) == name
  {
  }

  /** The match is exact and case-sensitive: no variant spelling resolves. */
  lemma ValueOfLabelIsExact()
    ensures ValueOfLabel("eur/usd").None?
    ensures ValueOfLabel("EUR_USD").None?
    ensures ValueOfLabel(" EUR/USD").None?
    ensures ValueOfLabel("").None?
  {
  }

  /** An unrecognised name resolves to an instrument that contains rejects. */
  lemma ContainsOfLookup(name: string)
    ensures Contains(ValueOfLabel(name)) <==> name in AllLabels
  {
  }
}
