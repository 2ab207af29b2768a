/**
 * The in-memory quote store (service/repository/PriceRepositoryImpl.java):
 * a HashMap from instrument to its latest price, with point lookup,
 * list-all, unconditional upsert and clear.
 */
module Repository {
  import opened Wrappers
  import opened Instruments
  import opened Prices

  /**
   * A map key. The Java map is a HashMap, which also admits the null key;
   * None stands for it. The service never writes under None (see
   * Service.UpdatePricesWellFormed), but the repository itself does not
   * forbid it.
   */
  type Key = Option<Instrument>

  type Store = map<Key, Price>

  /** Every possible key, in the fixed order the model lists entries in. */
  const AllKeys: seq<Key> := [None, Some(EUR_USD), Some(EUR_JPY), Some(GBP_USD)]

  /** The store a freshly constructed repository holds. */
  const Empty: Store := map[]

  /** Each stored price sits under its own instrument. */
  ghost predicate Keyed(s: Store)
  {
    forall k :: k in s ==> s[k].instrumentName == k
  }

  /** getByInstrumentName: the stored price for `k`, or empty. */
  function GetByInstrumentName(s: Store, k: Key): (r: Option<Price>)
    ensures r.Some? <==> k in s
    ensures r.Some? ==> r.value == s[k]
    ensures Keyed(s) && r.Some? ==> r.value.instrumentName == k
  {
    if k in s then Some(s[k]) else None
  }

  /** update: unconditionally stores `p` under its own instrument. */
  function Update(s: Store, p: Price): (r: Store)
    ensures GetByInstrumentName(r, p.instrumentName) == Some(p)
    ensures forall k :: k != p.instrumentName ==> GetByInstrumentName(r, k) == GetByInstrumentName(s, k)
    ensures r.Keys == s.Keys + {p.instrumentName}
    ensures Keyed(s) ==> Keyed(r)
  {
    s[p.instrumentName := p]
  }

  /** clear: the store with every entry removed. */
  function Clear(): (r: Store)
    ensures forall k :: GetByInstrumentName(r, k).None?
  {
    map[]
  }

  lemma AllKeysComplete(k: Key)
    ensures k in AllKeys
  {
    match k
    case None => assert AllKeys[0] == k;
    case Some(i) =>
      match i
      case EUR_USD => assert AllKeys[1] == k;
      case EUR_JPY => assert AllKeys[2] == k;
      case GBP_USD => assert AllKeys[3] == k;
  }

  /** The keys of `ks` that `s` holds, in the order of `ks`. */
  function StoredKeys(s: Store, ks: seq<Key>): (r: seq<Key>)
    ensures forall k :: k in r <==> k in ks && k in s
    ensures (forall i, j :: 0 <= i < j < |ks| ==> ks[i] != ks[j]) ==>
              forall i, j :: 0 <= i < j < |r| ==> r[i] != r[j]
  {
    if |ks| == 0 then []
    else
      var rest := StoredKeys(s, ks[1..]);
      assert forall k :: k in ks[1..] ==> k in ks;
      if ks[0] in s then [ks[0]] + rest else rest
  }

  /** A sequence without repetitions has as many elements as its set. */
  lemma {:induction false} DistinctCardinality(ks: seq<Key>)
    requires forall i, j :: 0 <= i < j < |ks| ==> ks[i] != ks[j]
    ensures |set k | k in ks| == |ks|
  {
    if |ks| > 0 {
      var rest := ks[1..];
      DistinctCardinality(rest);
      assert (set k | k in ks) == (set k | k in rest) + {ks[0]};
      assert ks[0] !in rest;
    }
  }

  /** Exactly the stored keys, each once, in the order of AllKeys. */
  function ListedKeys(s: Store): (ks: seq<Key>)
    ensures forall k :: k in ks <==> k in s
    ensures forall i, j :: 0 <= i < j < |ks| ==> ks[i] != ks[j]
    ensures |ks| == |s|
  {
    var ks := StoredKeys(s, AllKeys);
    assert s.Keys == set k | k in ks by {
      forall k | k in s ensures k in ks { AllKeysComplete(k); }
    }
    DistinctCardinality(ks);
    ks
  }

  /** The prices stored under `ks`, in the order of `ks`. */
  function ValuesAt(s: Store, ks: seq<Key>): (r: seq<Price>)
    requires forall k :: k in ks ==> k in s
    ensures |r| == |ks|
    ensures forall i :: 0 <= i < |ks| ==> r[i] == s[ks[i]]
  {
    if |ks| == 0 then [] else [s[ks[0]]] + ValuesAt(s, ks[1..])
  }

  /**
   * get: every stored price, one per stored key. The Java list follows the
   * HashMap's iteration order, which is unspecified; the model lists
   * entries in the order of AllKeys.
   */
  function Get(s: Store): (r: Option<seq<Price>>)
    ensures r.Some? && |r.value| == |s|
  {
    Some(ValuesAt(s, ListedKeys(s)))
  }

  /**
   * The listing holds every stored price and nothing else, and when each
   * price sits under its own instrument no instrument is listed twice.
   */
  lemma GetListsStore(s: Store)
    ensures forall k :: k in s ==> s[k] in Get(s).value
    ensures forall p :: p in Get(s).value ==> exists k :: k in s && s[k] == p
    ensures Keyed(s) ==>
              forall i, j :: 0 <= i < j < |Get(s).value| ==>
                Get(s).value[i].instrumentName != Get(s).value[j].instrumentName
  {
    var ks := ListedKeys(s);
    var ps := ValuesAt(s, ks);
    assert Get(s).value == ps;
    ListingCoversStore(s, ks, ps);
    ListingFromStore(s, ks, ps);
    ListingOnePerInstrument(s, ks, ps);
  }

  lemma ListingCoversStore(s: Store, ks: seq<Key>, ps: seq<Price>)
    requires forall k :: k in ks <==> k in s
    requires ps == ValuesAt(s, ks)
    ensures forall k :: k in s ==> s[k] in ps
  {
    forall k | k in s ensures s[k] in ps {
      var i :| 0 <= i < |ks| && ks[i] == k;
      assert ps[i] == s[k];
    }
  }

  lemma ListingFromStore(s: Store, ks: seq<Key>, ps: seq<Price>)
    requires forall k :: k in ks <==> k in s
    requires ps == ValuesAt(s, ks)
    ensures forall p :: p in ps ==> exists k :: k in s && s[k] == p
  {
    forall p | p in ps ensures exists k :: k in s && s[k] == p {
      var i :| 0 <= i < |ps| && ps[i] == p;
      assert ks[i] in s && s[ks[i]] == ps[i];
    }
  }

  lemma ListingOnePerInstrument(s: Store, ks: seq<Key>, ps: seq<Price>)
    requires forall k :: k in ks <==> k in s
    requires forall i, j :: 0 <= i < j < |ks| ==> ks[i] != ks[j]
    requires ps == ValuesAt(s, ks)
    ensures Keyed(s) ==> forall i, j :: 0 <= i < j < |ps| ==> ps[i].instrumentName != ps[j].instrumentName
  {
  }

  /** One call made on the repository. */
  datatype Op = Write(price: Price) | Reset

  /** The store after performing `ops` in order, starting from `s`. */
  function Replay(s: Store, ops: seq<Op>): Store
    decreases |ops|
  {
    if |ops| == 0 then s
    else
      var next := match ops[0] case Write(p) => Update(s, p) case Reset => Clear();
      Replay(next, ops[1..])
  }

  /**
   * The most recent price written under `k` in `ops`, looking back no further
   * than the latest Reset; `before` is what the store held before `ops`.
   */
  function LastWrite(ops: seq<Op>, k: Key, before: Option<Price>): Option<Price>
    decreases |ops|
  {
    if |ops| == 0 then before
    else
      match ops[|ops| - 1]
      case Reset => None
      case Write(p) => if p.instrumentName == k then Some(p) else LastWrite(ops[..|ops| - 1], k, before)
  }

  lemma {:induction false} ReplaySnoc(s: Store, ops: seq<Op>, op: Op)
    ensures Replay(s, ops + [op]) == Replay(Replay(s, ops), [op])
    decreases |ops|
  {
    if |ops| > 0 {
      var next := match ops[0] case Write(p) => Update(s, p) case Reset => Clear();
      assert (ops + [op])[1..] == ops[1..] + [op];
      ReplaySnoc(next, ops[1..], op);
    }
  }

  /**
   * A lookup returns the last price written for that instrument since the
   * repository was built or last cleared, and empty if there was none.
   */
  lemma {:induction false} LookupIsLastWrite(s: Store, ops: seq<Op>, k: Key)
    ensures GetByInstrumentName(Replay(s, ops), k) == LastWrite(ops, k, GetByInstrumentName(s, k))
    decreases |ops|
  {
    if |ops| > 0 {
      var init := ops[..|ops| - 1];
      var op := ops[|ops| - 1];
      assert ops == init + [op];
      ReplaySnoc(s, init, op);
      LookupIsLastWrite(s, init, k);
    }
  }

  /** After clear, no lookup finds anything and the listing is empty. */
  lemma ClearEmptiesEverything()
    ensures forall k :: GetByInstrumentName(Clear(), k).None?
    ensures Get(Clear()) == Some([])
  {
    assert |Clear()| == 0;
  }
}
