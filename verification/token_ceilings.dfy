/** Each token's highest price within the witness window: one statement, both halves on one snapshot. */
module TokenCeilings {
  import opened Prelude

  /** A tranche's prices of a pool's two tokens; a mint or a price may be missing. */
  datatype Quote = Quote(bucket: int, mintA: Option<int>, priceA: Option<real>, mintB: Option<int>,
                         priceB: Option<real>)

  /** The prices a quote gives, one a side. */
  function Priced(q: Quote): seq<(int, real)> {
    (if q.mintA.Some? && q.priceA.Some? then [(q.mintA.value, q.priceA.value)] else [])
    + (if q.mintB.Some? && q.priceB.Some? then [(q.mintB.value, q.priceB.value)] else [])
  }

  function PricesSince(quotes: seq<Quote>, since: int): seq<(int, real)> {
    if quotes == [] then []
    else (if quotes[0].bucket >= since then Priced(quotes[0]) else []) + PricesSince(quotes[1..], since)
  }

  /** `max(price) … GROUP BY mint`. */
  function Ceilings(prices: seq<(int, real)>): map<int, real> {
    if prices == [] then map[]
    else
      var rest, (mint, price) := Ceilings(prices[1..]), prices[0];
      rest[mint := if mint in rest && rest[mint] > price then rest[mint] else price]
  }

  function Witnessed(quotes: seq<Quote>, at: int, window: nat): map<int, real> {
    Ceilings(PricesSince(quotes, at - window))
  }

  class TokenPoolCeilings {
    var ceilings: map<int, real>

    /**
     The upsert writes the tokens witnessed that are new or have moved; the delete drops those no longer
     witnessed. Whatever the table held, it then holds what was witnessed.
     */
    method Refresh(quotes: seq<Quote>, at: int, window: nat)
      modifies this
      ensures ceilings == Witnessed(quotes, at, window)
    {
      var witnessed := Witnessed(quotes, at, window);
      var before := ceilings;
      var kept := map m | m in witnessed && (m !in before || before[m] != witnessed[m]) :: witnessed[m];
      var dropped := set m | m in before && m !in witnessed;
      ceilings := (before - dropped) + kept;
    }
  }

  /** A token is held to the highest price a quote of the window gave it, and only with one. */
  lemma {:induction false} CeilingIsTheHighest(prices: seq<(int, real)>)
    ensures forall p :: p in prices ==> p.0 in Ceilings(prices) && p.1 <= Ceilings(prices)[p.0]
    ensures forall m :: m in Ceilings(prices) ==> (m, Ceilings(prices)[m]) in prices
  {
    if prices != [] {
      CeilingIsTheHighest(prices[1..]);
      assert prices == [prices[0]] + prices[1..];
    }
  }

  lemma {:induction false} PricesAreOfTheWindow(quotes: seq<Quote>, since: int)
    ensures forall p :: p in PricesSince(quotes, since) <==>
              exists i :: 0 <= i < |quotes| && quotes[i].bucket >= since && p in Priced(quotes[i])
  {
    if quotes != [] {
      PricesAreOfTheWindow(quotes[1..], since);
      assert quotes == [quotes[0]] + quotes[1..];
    }
  }

  /** A quote gives a token a price, on either side. */
  predicate Gives(q: Quote, mint: int, price: real) {
    (q.mintA == Some(mint) && q.priceA == Some(price)) || (q.mintB == Some(mint) && q.priceB == Some(price))
  }

  /** Read from the quotes: every price of the window is under its token's ceiling, which one of them gave. */
  lemma WitnessedIsTheHighest(quotes: seq<Quote>, at: int, window: nat)
    ensures var w := Witnessed(quotes, at, window);
            && (forall i, m, x :: 0 <= i < |quotes| && quotes[i].bucket >= at - window && Gives(quotes[i], m, x) ==>
                  m in w && x <= w[m])
            && (forall m :: m in w ==>
                  exists i :: 0 <= i < |quotes| && quotes[i].bucket >= at - window && Gives(quotes[i], m, w[m]))
  {
    forall q, m, x
      ensures Gives(q, m, x) <==> (m, x) in Priced(q)
    {
    }
    hide Priced, Gives;
    var prices := PricesSince(quotes, at - window);
    PricesAreOfTheWindow(quotes, at - window);
    CeilingIsTheHighest(prices);
  }
}
