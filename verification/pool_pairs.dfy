/** The token pair of each pool of a batch, in two reads at most. */
module PoolPairs {
  import opened Prelude

  /** A public key, in the order of its bytes. */
  datatype Key = Key(bytes: nat)

  datatype Mints = Mints(a: Option<Key>, b: Option<Key>)

  /** An item on one pool, with the mints it carries itself, if it does. */
  datatype Item = Item(pool: Key, ownMints: Option<(Key, Key)>) {
    function Own(): Option<Mints> {
      match ownMints
      case Some((a, b)) => Some(Mints(Some(a), Some(b)))
      case None => None
    }
  }

  datatype EnrichedToken = EnrichedToken(mint: Option<Key>, metadata: Option<int>)

  const UNRESOLVED := EnrichedToken(None, None)

  datatype Pair = Pair(tokenA: EnrichedToken, tokenB: EnrichedToken)

  /** A repository's rows, or its failure. */
  datatype Lens<T> = Rows(rows: map<Key, T>) | Fails

  datatype Result<T> = Ok(value: T) | Err

  /** What a batch asked of its two lenses. */
  datatype Reads = Reads(pools: seq<seq<Key>>, mints: seq<seq<Key>>)

  // ---------------------------------------------------------------------
  // One item at a time
  // ---------------------------------------------------------------------

  function Side(mint: Option<Key>, metadata: map<Key, int>): EnrichedToken {
    EnrichedToken(mint, if mint.Some? && mint.value in metadata then Some(metadata[mint.value]) else None)
  }

  function PairOf(mints: Mints, metadata: map<Key, int>): Pair {
    Pair(Side(mints.a, metadata), Side(mints.b, metadata))
  }

  /** An item's mints: its own, else the catalog's. */
  function Looked(item: Item, catalog: map<Key, Mints>): Option<Mints> {
    if item.Own().Some? then item.Own()
    else if item.pool in catalog then Some(catalog[item.pool])
    else None
  }

  /** The pair of an item looked up by itself. */
  function PairByItself(item: Item, catalog: map<Key, Mints>, metadata: map<Key, int>): Pair {
    match Looked(item, catalog)
    case Some(mints) => PairOf(mints, metadata)
    case None => Pair(UNRESOLVED, UNRESOLVED)
  }

  /** The pair read from a batch. */
  function Paired(item: Item, pairs: map<Key, Pair>): Pair {
    if item.pool in pairs then pairs[item.pool] else Pair(UNRESOLVED, UNRESOLVED)
  }

  // ---------------------------------------------------------------------
  // A batch
  // ---------------------------------------------------------------------

  /** The mints the last item on a pool to carry any carries. */
  function LastOwn(items: seq<Item>, pool: Key): (r: Option<Mints>)
    ensures r.Some? ==>
              exists i :: 0 <= i < |items| && items[i].pool == pool && items[i].Own() == r && items[i].ownMints.Some?
    ensures r.None? ==> forall i :: 0 <= i < |items| && items[i].pool == pool ==> items[i].Own().None?
  {
    if items == [] then None
    else
      var last := items[|items| - 1];
      if last.pool == pool && last.Own().Some? then last.Own() else LastOwn(items[..|items| - 1], pool)
  }

  /** What a batch takes for a pool: the last of its items' mints, else the catalog's. */
  function BatchMints(items: seq<Item>, pool: Key, catalog: map<Key, Mints>): Option<Mints> {
    if LastOwn(items, pool).Some? then LastOwn(items, pool)
    else if pool in catalog then Some(catalog[pool])
    else None
  }

  predicate Sorted(keys: seq<Key>) {
    forall i, j :: 0 <= i < j < |keys| ==> keys[i].bytes < keys[j].bytes
  }

  /** A key put in its place, unless it is there. */
  method Insert(sorted: seq<Key>, key: Key) returns (r: seq<Key>)
    requires Sorted(sorted)
    ensures Sorted(r) && forall k :: k in r <==> k in sorted || k == key
  {
    var at := 0;
    while at < |sorted| && sorted[at].bytes < key.bytes
      invariant 0 <= at <= |sorted| && forall j :: 0 <= j < at ==> sorted[j].bytes < key.bytes
    {
      at := at + 1;
    }
    if at < |sorted| && sorted[at] == key {
      return sorted;
    }
    r := sorted[..at] + [key] + sorted[at..];
    InsertedAt(sorted, key, at, r);
  }

  lemma InsertedHolds(sorted: seq<Key>, key: Key, at: nat)
    requires at <= |sorted|
    ensures forall k :: k in sorted[..at] + [key] + sorted[at..] <==> k in sorted || k == key
  {
    var before, after := sorted[..at], sorted[at..];
    assert sorted == before + after;
  }

  lemma InsertedAt(sorted: seq<Key>, key: Key, at: nat, r: seq<Key>)
    requires Sorted(sorted) && at <= |sorted| && r == sorted[..at] + [key] + sorted[at..]
    requires forall j :: 0 <= j < at ==> sorted[j].bytes < key.bytes
    requires at < |sorted| ==> key.bytes < sorted[at].bytes
    ensures Sorted(r) && forall k :: k in r <==> k in sorted || k == key
  {
    InsertedHolds(sorted, key, at);
    forall i, j | 0 <= i < j < |r|
      ensures r[i].bytes < r[j].bytes
    {
      assert i < at ==> r[i] == sorted[i];
      assert i > at ==> r[i] == sorted[i - 1];
      assert j < at ==> r[j] == sorted[j];
      assert j > at ==> r[j] == sorted[j - 1];
    }
  }

  /** Sorted, each key once. */
  method SortDedup(keys: seq<Key>) returns (r: seq<Key>)
    ensures Sorted(r) && forall k :: k in r <==> k in keys
  {
    r := [];
    for i := 0 to |keys|
      invariant Sorted(r) && forall k :: k in r <==> k in keys[..i]
    {
      assert keys[..i + 1] == keys[..i] + [keys[i]];
      r := Insert(r, keys[i]);
    }
    assert keys[..|keys|] == keys;
  }

  function Select<T>(rows: map<Key, T>, keys: seq<Key>): map<Key, T> {
    map k | k in rows && k in keys :: rows[k]
  }

  /** A mint some pool's chosen pair needs. */
  ghost predicate IsWanted(mints: map<Key, Mints>, mint: Key) {
    exists p :: p in mints && (mints[p].a == Some(mint) || mints[p].b == Some(mint))
  }

  /** The mints of the pairs, unsorted. */
  method MintsOf(mints: map<Key, Mints>) returns (r: seq<Key>)
    ensures forall m :: m in r <==> IsWanted(mints, m)
  {
    r := [];
    var pools := mints.Keys;
    while pools != {}
      invariant pools <= mints.Keys
      invariant forall m :: m in r <==>
                            exists p :: p in mints && p !in pools && (mints[p].a == Some(m) || mints[p].b == Some(m))
      decreases pools
    {
      var pool :| pool in pools;
      r := r + Present(mints[pool].a) + Present(mints[pool].b);
      pools := pools - {pool};
    }
  }

  function Present(mint: Option<Key>): seq<Key> {
    if mint.Some? then [mint.value] else []
  }

  /** An item whose pool is looked up in the catalog. */
  ghost predicate IsUnknown(items: seq<Item>, pool: Key) {
    LastOwn(items, pool).None? && exists i :: 0 <= i < |items| && items[i].pool == pool
  }

  ghost predicate HoldsOwn(mints: map<Key, Mints>, items: seq<Item>) {
    forall p :: LastOwn(items, p) == if p in mints then Some(mints[p]) else None
  }

  lemma HoldsOneMore(mints: map<Key, Mints>, items: seq<Item>, item: Item)
    requires HoldsOwn(mints, items)
    ensures HoldsOwn(if item.Own().Some? then mints[item.pool := item.Own().value] else mints, items + [item])
  {
    assert (items + [item])[..|items|] == items;
    forall p
      ensures LastOwn(items + [item], p) == if item.pool == p && item.Own().Some? then item.Own() else LastOwn(items, p)
    {
    }
  }

  ghost predicate CarriesNone(items: seq<Item>, pool: Key) {
    exists i :: 0 <= i < |items| && items[i].pool == pool && items[i].Own().None?
  }

  lemma CarriesOneMore(items: seq<Item>, item: Item)
    ensures forall p :: CarriesNone(items + [item], p) <==>
              CarriesNone(items, p) || (item.pool == p && item.Own().None?)
  {
    var more := items + [item];
    assert more[|items|] == item;
    assert forall i :: 0 <= i < |items| ==> more[i] == items[i];
  }

  /** The mints the items carry, the last of a pool's staying; and the pools of those that carry none. */
  method OwnMints(items: seq<Item>) returns (mints: map<Key, Mints>, unknown: seq<Key>)
    ensures HoldsOwn(mints, items)
    ensures Sorted(unknown) && forall p :: p in unknown <==> IsUnknown(items, p)
  {
    mints := map[];
    var none: seq<Key> := [];
    for i := 0 to |items|
      invariant HoldsOwn(mints, items[..i])
      invariant forall p :: p in none <==> CarriesNone(items[..i], p)
    {
      hide HoldsOwn, CarriesNone;
      HoldsOneMore(mints, items[..i], items[i]);
      CarriesOneMore(items[..i], items[i]);
      assert items[..i + 1] == items[..i] + [items[i]];
      match items[i].Own()
      case Some(own) => mints := mints[items[i].pool := own];
      case None => none := none + [items[i].pool];
    }
    assert items[..|items|] == items;
    var kept := Retain(none, mints);
    unknown := SortDedup(kept);
    UnknownCarriesNone(items);
  }

  lemma UnknownCarriesNone(items: seq<Item>)
    ensures forall p :: IsUnknown(items, p) <==> CarriesNone(items, p) && LastOwn(items, p).None?
  {
  }

  /** The pools whose mints no item gave. */
  method Retain(pools: seq<Key>, mints: map<Key, Mints>) returns (kept: seq<Key>)
    ensures forall p :: p in kept <==> p in pools && p !in mints
  {
    kept := [];
    for i := 0 to |pools|
      invariant forall p :: p in kept <==> p in pools[..i] && p !in mints
    {
      assert pools[..i + 1] == pools[..i] + [pools[i]];
      if pools[i] !in mints {
        kept := kept + [pools[i]];
      }
    }
    assert pools[..|pools|] == pools;
  }

  ghost predicate Chosen(items: seq<Item>, catalog: map<Key, Mints>, mints: map<Key, Mints>) {
    && (forall i :: 0 <= i < |items| ==>
          BatchMints(items, items[i].pool, catalog) ==
          if items[i].pool in mints then Some(mints[items[i].pool]) else None)
    && (forall p :: p in mints ==> exists i :: 0 <= i < |items| && items[i].pool == p)
  }

  function RowsOf<T>(lens: Lens<T>): map<Key, T> {
    if lens.Rows? then lens.rows else map[]
  }

  lemma ChosenFromBoth(items: seq<Item>, catalog: map<Key, Mints>, own: map<Key, Mints>, unknown: seq<Key>,
                       mints: map<Key, Mints>)
    requires HoldsOwn(own, items) && forall p :: p in unknown <==> IsUnknown(items, p)
    requires mints == if unknown == [] then own else own + Select(catalog, unknown)
    ensures Chosen(items, catalog, mints)
  {
    forall i | 0 <= i < |items|
      ensures BatchMints(items, items[i].pool, catalog) ==
              if items[i].pool in mints then Some(mints[items[i].pool]) else None
    {
      var p := items[i].pool;
      assert LastOwn(items, p).None? <==> IsUnknown(items, p);
    }
    forall p | p in mints
      ensures exists i :: 0 <= i < |items| && items[i].pool == p
    {
      assert LastOwn(items, p).Some? || IsUnknown(items, p);
    }
  }

  /** A mint of the pair some item's pool is given. */
  ghost predicate IsNeeded(items: seq<Item>, catalog: map<Key, Mints>, mint: Key) {
    exists i :: 0 <= i < |items| && HasMint(BatchMints(items, items[i].pool, catalog), mint)
  }

  predicate HasMint(mints: Option<Mints>, mint: Key) {
    mints.Some? && (mints.value.a == Some(mint) || mints.value.b == Some(mint))
  }

  lemma WantedIsNeeded(items: seq<Item>, catalog: map<Key, Mints>, mints: map<Key, Mints>)
    requires Chosen(items, catalog, mints)
    ensures forall m :: IsWanted(mints, m) <==> IsNeeded(items, catalog, m)
  {
    hide BatchMints;
    forall m | IsWanted(mints, m)
      ensures IsNeeded(items, catalog, m)
    {
      var p :| p in mints && (mints[p].a == Some(m) || mints[p].b == Some(m));
      var i :| 0 <= i < |items| && items[i].pool == p;
      assert HasMint(BatchMints(items, items[i].pool, catalog), m);
    }
  }

  /**
   The pairs of a batch: each item's is its pool's, by one read of the catalog for the pools no item
   gives the mints of, and one of the metadata for the mints those pairs need.
   */
  method Of(items: seq<Item>, pools: Lens<Mints>, metadata: Lens<int>)
    returns (r: Result<map<Key, Pair>>, asked: Reads)
    ensures |asked.pools| <= 1 && |asked.mints| <= 1
    ensures asked.pools == [] <==> forall p :: !IsUnknown(items, p)
    ensures asked.pools != [] ==> Sorted(asked.pools[0]) && forall p :: p in asked.pools[0] <==> IsUnknown(items, p)
    ensures asked.mints != [] ==>
              asked.mints[0] != [] && Sorted(asked.mints[0])
              && forall m :: m in asked.mints[0] <==> IsNeeded(items, RowsOf(pools), m)
    ensures r.Ok? && asked.mints == [] ==> forall m :: !IsNeeded(items, RowsOf(pools), m)
    ensures r.Err? <==> (asked.pools != [] && pools.Fails?) || (asked.mints != [] && metadata.Fails?)
    ensures r.Ok? ==> forall i :: 0 <= i < |items| ==>
              Paired(items[i], r.value) == BatchPair(items, items[i].pool, RowsOf(pools), RowsOf(metadata))
  {
    var own, unknown := OwnMints(items);
    var mints := own;
    asked := Reads([], []);
    if unknown != [] {
      assert unknown[0] in unknown && IsUnknown(items, unknown[0]);
      asked := Reads([unknown], []);
      if pools.Fails? {
        return Err, asked;
      }
      mints := own + Select(pools.rows, unknown);
    }
    ChosenFromBoth(items, RowsOf(pools), own, unknown, mints);
    WantedIsNeeded(items, RowsOf(pools), mints);
    var all := MintsOf(mints);
    var wanted := SortDedup(all);
    var found := map[];
    if wanted != [] {
      asked := asked.(mints := [wanted]);
      if metadata.Fails? {
        return Err, asked;
      }
      found := Select(metadata.rows, wanted);
    }
    var pairs := map p | p in mints :: PairOf(mints[p], found);
    PairsAreTheBatch(items, RowsOf(pools), RowsOf(metadata), mints, wanted, found, pairs);
    r := Ok(pairs);
  }

  lemma PairsAreTheBatch(items: seq<Item>, catalog: map<Key, Mints>, metadata: map<Key, int>, mints: map<Key, Mints>,
                         wanted: seq<Key>, found: map<Key, int>, pairs: map<Key, Pair>)
    requires Chosen(items, catalog, mints) && forall m :: m in wanted <==> IsWanted(mints, m)
    requires found == if wanted == [] then map[] else Select(metadata, wanted)
    requires pairs == map p | p in mints :: PairOf(mints[p], found)
    ensures forall i :: 0 <= i < |items| ==>
              Paired(items[i], pairs) == BatchPair(items, items[i].pool, catalog, metadata)
  {
    hide BatchMints;
    forall i | 0 <= i < |items|
      ensures Paired(items[i], pairs) == BatchPair(items, items[i].pool, catalog, metadata)
    {
      var p := items[i].pool;
      if p in mints {
        assert mints[p].a.Some? ==> IsWanted(mints, mints[p].a.value) && mints[p].a.value in wanted;
        assert mints[p].b.Some? ==> IsWanted(mints, mints[p].b.value) && mints[p].b.value in wanted;
      }
    }
  }

  function BatchPair(items: seq<Item>, pool: Key, catalog: map<Key, Mints>, metadata: map<Key, int>): Pair {
    match BatchMints(items, pool, catalog)
    case Some(mints) => PairOf(mints, metadata)
    case None => Pair(UNRESOLVED, UNRESOLVED)
  }

  /** A side of a pair: its mint, and that mint's metadata if there is any. */
  predicate Shows(token: EnrichedToken, mint: Option<Key>, metadata: map<Key, int>) {
    && token.mint == mint
    && token.metadata == match mint
                         case Some(m) => (if m in metadata then Some(metadata[m]) else None)
                         case None => None
  }

  /** The `k`th item is the last on its pool to carry mints. */
  ghost predicate CarriesLast(items: seq<Item>, k: nat) {
    && k < |items| && items[k].ownMints.Some?
    && forall j :: k < j < |items| && items[j].pool == items[k].pool ==> items[j].ownMints.None?
  }

  lemma {:induction false} LastOwnIsTheLast(items: seq<Item>, k: nat)
    requires CarriesLast(items, k)
    ensures LastOwn(items, items[k].pool) ==
            Some(Mints(Some(items[k].ownMints.value.0), Some(items[k].ownMints.value.1)))
  {
    if k < |items| - 1 {
      LastOwnIsTheLast(items[..|items| - 1], k);
    }
  }

  /**
   The pair a batch gives a pool, from what was given and read: the mints of the last of its items to carry
   any, each on its side; else the catalog's; else none. Each side has its own mint's metadata.
   */
  lemma BatchPairShows(items: seq<Item>, pool: Key, catalog: map<Key, Mints>, metadata: map<Key, int>)
    ensures var pair := BatchPair(items, pool, catalog, metadata);
            && (forall k: nat :: CarriesLast(items, k) && items[k].pool == pool ==>
                  && Shows(pair.tokenA, Some(items[k].ownMints.value.0), metadata)
                  && Shows(pair.tokenB, Some(items[k].ownMints.value.1), metadata))
            && ((forall i :: 0 <= i < |items| && items[i].pool == pool ==> items[i].ownMints.None?) ==>
                  if pool in catalog
                  then Shows(pair.tokenA, catalog[pool].a, metadata) && Shows(pair.tokenB, catalog[pool].b, metadata)
                  else Shows(pair.tokenA, None, metadata) && Shows(pair.tokenB, None, metadata))
  {
    forall k: nat | CarriesLast(items, k) && items[k].pool == pool
      ensures LastOwn(items, pool) ==
              Some(Mints(Some(items[k].ownMints.value.0), Some(items[k].ownMints.value.1)))
    {
      LastOwnIsTheLast(items, k);
    }
    if forall i :: 0 <= i < |items| && items[i].pool == pool ==> items[i].ownMints.None? {
      assert LastOwn(items, pool).None?;
    }
    hide LastOwn, CarriesLast;
  }

  // ---------------------------------------------------------------------
  // A batch is its items
  // ---------------------------------------------------------------------

  /** Where an item carries mints, every item on its pool would be given the same by itself. */
  predicate PoolsAgree(items: seq<Item>, catalog: map<Key, Mints>) {
    forall i, j :: 0 <= i < |items| && 0 <= j < |items| && items[i].pool == items[j].pool && items[i].Own().Some? ==>
      MintsByItself(items[j], catalog) == items[i].Own().value
  }

  /** An item without a pair and one whose pool has no mints are shown alike. */
  function MintsByItself(item: Item, catalog: map<Key, Mints>): Mints {
    match Looked(item, catalog)
    case Some(mints) => mints
    case None => Mints(None, None)
  }

  /** A pair shows its mints. */
  lemma PairShowsItsMints(a: Mints, b: Mints, metadata: map<Key, int>)
    ensures PairOf(a, metadata) == PairOf(b, metadata) <==> a == b
  {
  }

  /** A batch gives every item the pair it would be given by itself, exactly when its pools agree. */
  lemma BatchIsItemByItem(items: seq<Item>, catalog: map<Key, Mints>, metadata: map<Key, int>)
    ensures PoolsAgree(items, catalog) <==>
            forall i :: 0 <= i < |items| ==>
              BatchPair(items, items[i].pool, catalog, metadata) == PairByItself(items[i], catalog, metadata)
  {
    forall i | 0 <= i < |items|
      ensures BatchPair(items, items[i].pool, catalog, metadata) ==
              PairOf(GivenMints(items, items[i].pool, catalog), metadata)
      ensures PairByItself(items[i], catalog, metadata) == PairOf(MintsByItself(items[i], catalog), metadata)
    {
    }
    forall i | 0 <= i < |items|
      ensures BatchPair(items, items[i].pool, catalog, metadata) == PairByItself(items[i], catalog, metadata) <==>
              GivenMints(items, items[i].pool, catalog) == MintsByItself(items[i], catalog)
    {
      PairShowsItsMints(GivenMints(items, items[i].pool, catalog), MintsByItself(items[i], catalog), metadata);
    }
    hide BatchPair, PairByItself;
    AgreeingPools(items, catalog);
  }

  /** Of two items on one pool that carry different mints, the last gives the pair of both. */
  lemma TheLastItemWins(pool: Key, first: (Key, Key), last: (Key, Key), catalog: map<Key, Mints>,
                        metadata: map<Key, int>)
    requires first != last
    ensures var items := [Item(pool, Some(first)), Item(pool, Some(last))];
            && BatchPair(items, pool, catalog, metadata) == PairByItself(items[1], catalog, metadata)
            && BatchPair(items, pool, catalog, metadata) != PairByItself(items[0], catalog, metadata)
            && !PoolsAgree(items, catalog)
  {
    var items := [Item(pool, Some(first)), Item(pool, Some(last))];
    assert MintsByItself(items[1], catalog) != items[0].Own().value;
  }

  function GivenMints(items: seq<Item>, pool: Key, catalog: map<Key, Mints>): Mints {
    match BatchMints(items, pool, catalog)
    case Some(mints) => mints
    case None => Mints(None, None)
  }

  lemma AgreeingPools(items: seq<Item>, catalog: map<Key, Mints>)
    ensures PoolsAgree(items, catalog) <==>
            forall i :: 0 <= i < |items| ==>
              GivenMints(items, items[i].pool, catalog) == MintsByItself(items[i], catalog)
  {
    hide LastOwn;
    if forall i :: 0 <= i < |items| ==> GivenMints(items, items[i].pool, catalog) == MintsByItself(items[i], catalog) {
      forall i, j | 0 <= i < |items| && 0 <= j < |items| && items[i].pool == items[j].pool && items[i].Own().Some?
        ensures MintsByItself(items[j], catalog) == items[i].Own().value
      {
        assert MintsByItself(items[i], catalog) == items[i].Own().value;
      }
    }
  }
}
