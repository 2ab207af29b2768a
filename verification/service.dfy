/**
 * PriceServiceImpl: margin application, reads of the store, and
 * updatePrices, which offers each resolved candidate to the store and
 * writes it only when it is newer than what is stored.
 */
module Service {
  import opened Wrappers
  import opened Instruments
  import opened Prices
  import opened Repository
  import opened Resolver

  /**
   * The commission margins read from configuration. The Java fields are
   * doubles; the model treats each as the exact rational it stands for.
   */
  datatype Margins = Margins(bidMargin: real, askMargin: real)

  /** calculatePriceBid: the feed bid scaled by (1 + bidMargin). */
  function CalculatePriceBid(m: Margins, feedBid: real): (r: real)
    ensures m.bidMargin == 0.0 ==> r == feedBid
    ensures feedBid > 0.0 ==> (r > feedBid <==> m.bidMargin > 0.0)
  {
    feedBid * (1.0 + m.bidMargin)
  }

  /** calculatePriceAsk: the feed ask scaled by (1 + askMargin). */
  function CalculatePriceAsk(m: Margins, feedAsk: real): (r: real)
    ensures m.askMargin == 0.0 ==> r == feedAsk
    ensures feedAsk > 0.0 ==> (r > feedAsk <==> m.askMargin > 0.0)
  {
    feedAsk * (1.0 + m.askMargin)
  }

  /** The bid depends on the bid margin only and the ask on the ask margin only. */
  lemma MarginsIndependent(m: Margins, m': Margins, x: real)
    ensures m.bidMargin == m'.bidMargin ==> CalculatePriceBid(m, x) == CalculatePriceBid(m', x)
    ensures m.askMargin == m'.askMargin ==> CalculatePriceAsk(m, x) == CalculatePriceAsk(m', x)
  {
  }

  /** getPrice: the stored price for the instrument labelled `name`, or empty. */
  function GetPrice(s: Store, name: string): (r: Option<Price>)
    ensures ValueOfLabel(name).None? ==> r.None?
    ensures forall i :: Label(i) == name ==> r == GetByInstrumentName(s, Some(i))
    ensures Keyed(s) && r.Some? ==>
              r.value.instrumentName.Some? && Label(r.value.instrumentName.value) == name
  {
    match ValueOfLabel(name)
    case None => None
    case Some(i) => GetByInstrumentName(s, Some(i))
  }

  /** getPrices: the repository's listing, or nothing when it returns empty. */
  function GetPrices(s: Store): (r: seq<Price>)
    ensures |r| == |s|
  {
    match Get(s)
    case Some(list) => list
    case None => []
  }

  /**
   * getPrices yields every stored price and nothing else; when each price
   * sits under its own instrument, no instrument appears twice.
   */
  lemma GetPricesListsStore(s: Store)
    ensures forall k :: k in s ==> s[k] in GetPrices(s)
    ensures forall p :: p in GetPrices(s) ==> exists k :: k in s && s[k] == p
    ensures Keyed(s) ==>
              forall i, j :: 0 <= i < j < |GetPrices(s)| ==>
                GetPrices(s)[i].instrumentName != GetPrices(s)[j].instrumentName
  {
    assert GetPrices(s) == Get(s).value;
    GetListsStore(s);
  }

  /** clearPrices: afterwards nothing can be read back. */
  function ClearPrices(): (r: Store)
    ensures GetPrices(r) == []
    ensures forall name :: GetPrice(r, name).None?
  {
    Clear()
  }

  // ---------------------------------------------------------------------------
  // updatePrices

  /**
   * The store-level decision for one instrument: the candidate `c` replaces
   * the current entry iff there is none or its id is strictly smaller.
   */
  function Decide(current: Option<Price>, c: Option<Price>): Option<Price>
  {
    match c
    case None => current
    case Some(p) => if current.None? || current.value.id < p.id then c else current
  }

  /** One iteration of the loop at lines 90-95: compare with the stored entry, then maybe update. */
  function Offer(s: Store, p: Price): (r: Store)
    ensures GetByInstrumentName(r, p.instrumentName) ==
              Decide(GetByInstrumentName(s, p.instrumentName), Some(p))
    ensures forall k :: k != p.instrumentName ==> GetByInstrumentName(r, k) == GetByInstrumentName(s, k)
    ensures Keyed(s) ==> Keyed(r)
  {
    var current := GetByInstrumentName(s, p.instrumentName);
    if current.None? || current.value.id < p.id then Update(s, p) else s
  }

  /** The loop at lines 90-95 over the resolved candidates, in order. */
  function OfferAll(s: Store, rs: seq<Price>): (r: Store)
    ensures Keyed(s) ==> Keyed(r)
    decreases |rs|
  {
    if |rs| == 0 then s else OfferAll(Offer(s, rs[0]), rs[1..])
  }

  /**
   * With at most one candidate per instrument, each instrument's entry after
   * the loop is decided by its own candidate alone.
   */
  lemma {:induction false} OfferAllPerInstrument(s: Store, rs: seq<Price>, k: Key)
    requires forall i, j :: 0 <= i < j < |rs| ==> rs[i].instrumentName != rs[j].instrumentName
    ensures GetByInstrumentName(OfferAll(s, rs), k) == Decide(GetByInstrumentName(s, k), FirstWith(rs, k))
    decreases |rs|
  {
    if |rs| > 0 {
      OfferAllPerInstrument(Offer(s, rs[0]), rs[1..], k);
      if rs[0].instrumentName == k {
        assert FirstWith(rs[1..], k) == None by {
          forall q | q in rs[1..] ensures q.instrumentName != k {
            var j :| 0 <= j < |rs[1..]| && rs[1..][j] == q;
            assert rs[j + 1] == q;
          }
        }
      }
    }
  }

  /**
   * What updatePrices leaves under `k`, stated per instrument: the lowest-id
   * candidate of the batch for `k` replaces the stored entry iff there is
   * none or it is strictly newer; `k` without a candidate keeps its entry.
   */
  function Expected(s: Store, ps: seq<Price>, k: Key): Option<Price>
  {
    match k
    case None => GetByInstrumentName(s, k)
    case Some(i) => Decide(GetByInstrumentName(s, k), Lowest(ps, i))
  }

  /** updatePrices (lines 83-96). */
  function UpdatePrices(s: Store, ps: seq<Price>): (r: Store)
    ensures forall k :: GetByInstrumentName(r, k) == Expected(s, ps, k)
    ensures Keyed(s) ==> Keyed(r)
  {
    var rs := Resolve(ps);
    forall k ensures GetByInstrumentName(OfferAll(s, rs), k) == Expected(s, ps, k) {
      OfferAllPerInstrument(s, rs, k);
    }
    OfferAll(s, rs)
  }

  /** The invariant of the store behind the service: entries under their own, supported, instrument. */
  ghost predicate WellFormed(s: Store)
  {
    Keyed(s) && None !in s
  }

  /** Prices with an unrecognised instrument never reach the store. */
  lemma UpdatePricesWellFormed(s: Store, ps: seq<Price>)
    requires WellFormed(s)
    ensures WellFormed(UpdatePrices(s, ps))
  {
    assert GetByInstrumentName(UpdatePrices(s, ps), None) == None;
  }

  /** Stored ids never decrease and no entry is ever removed. */
  lemma UpdatePricesMonotone(s: Store, ps: seq<Price>, k: Key)
    requires k in s
    ensures k in UpdatePrices(s, ps)
    ensures s[k].id <= UpdatePrices(s, ps)[k].id
  {
    assert GetByInstrumentName(UpdatePrices(s, ps), k) == Expected(s, ps, k);
  }

  /** An instrument with no candidate in the batch keeps exactly its entry (or its absence). */
  lemma UpdatePricesFrame(s: Store, ps: seq<Price>, k: Key)
    requires forall p :: p in ps ==> p.instrumentName != k
    ensures GetByInstrumentName(UpdatePrices(s, ps), k) == GetByInstrumentName(s, k)
  {
    assert GetByInstrumentName(UpdatePrices(s, ps), k) == Expected(s, ps, k);
  }

  /** Whatever is stored afterwards was stored before or is a candidate of this batch. */
  lemma UpdatePricesOrigin(s: Store, ps: seq<Price>, k: Key)
    requires k in UpdatePrices(s, ps)
    ensures (k in s && UpdatePrices(s, ps)[k] == s[k]) ||
            (UpdatePrices(s, ps)[k] in ps && UpdatePrices(s, ps)[k].instrumentName == k)
  {
    assert GetByInstrumentName(UpdatePrices(s, ps), k) == Expected(s, ps, k);
  }

  /**
   * The consequence of keeping the lowest id: a single candidate that is not
   * newer than the stored entry blocks the whole batch for that instrument,
   * however new its other candidates are.
   */
  lemma StaleCandidateMasksNewer(s: Store, ps: seq<Price>, stale: Price)
    requires stale in ps && stale.instrumentName in s
    requires stale.id <= s[stale.instrumentName].id
    ensures GetByInstrumentName(UpdatePrices(s, ps), stale.instrumentName) ==
              GetByInstrumentName(s, stale.instrumentName)
  {
    var k := stale.instrumentName;
    assert GetByInstrumentName(UpdatePrices(s, ps), k) == Expected(s, ps, k);
    if k.Some? {
      assert Lowest(ps, k.value).Some?;
    }
  }

  /**
   * The divergence, stated for all inputs: a batch for an empty slot stores
   * the candidate with the lowest id, so whenever two candidates differ in
   * id the newest one is not the one stored.
   */
  lemma EmptySlotTakesLowest(s: Store, ps: seq<Price>, newer: Price, older: Price)
    requires newer in ps && older in ps
    requires newer.instrumentName == older.instrumentName && newer.instrumentName.Some?
    requires newer.instrumentName !in s
    requires older.id < newer.id
    ensures newer.instrumentName in UpdatePrices(s, ps)
    ensures UpdatePrices(s, ps)[newer.instrumentName] != newer
    ensures UpdatePrices(s, ps)[newer.instrumentName].id <= older.id
  {
    var k := newer.instrumentName;
    assert GetByInstrumentName(UpdatePrices(s, ps), k) == Expected(s, ps, k);
  }
}
