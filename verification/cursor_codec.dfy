/** The cursors of the API's lists: an object of named fields, as base64 over its JSON text. */
module CursorCodec {
  import opened Prelude
  import Base64Url

  type I64 = x: int | -0x8000_0000_0000_0000 <= x < 0x8000_0000_0000_0000
  type I32 = x: int | -0x8000_0000 <= x < 0x8000_0000
  type U16 = x: int | 0 <= x < 0x1_0000

  // ---------------------------------------------------------------------
  // What a field holds
  // ---------------------------------------------------------------------

  /**
   A string field. Instants, decimals, addresses and signatures each have a text that reads back to
   itself and to nothing of another kind.
   */
  datatype Text =
    | Plain(s: string)
    | Instant(at: int)
    | Amount(units: int)
    | Address(key: nat)
    | Signed(signature: nat)
    | Prefixed(prefix: string, key: nat)

  datatype Value = Null | Str(text: Text) | Num(n: int)

  datatype Field =
    | TriggeredAt | Id | LastHour | VolumeUsd | MintField | ScopeField | KindField | WindowField | AsOf
    | OrderField | AmountUsd | At | SignatureField | EventIndex | ProtocolField | FirstSeenAt | PoolField
    | FetchedAt | FromField | StartedAt | StatusField | StartsAt | CollectionField

  type Fields = map<Field, Value>

  // ---------------------------------------------------------------------
  // Cursors, and the lists they are taken in
  // ---------------------------------------------------------------------

  datatype Protocol = MeteoraDammV2 | MeteoraDlmm
  datatype Window = Hour | Day | Week | Month
  datatype MoveKind = Create | Add | Remove
  datatype MoveOrder = ByAmount | ByMoveTime
  datatype RunOrder = ByVolume | ByRunTime
  datatype Status = Upcoming | Open | Closed
  datatype Collection =
    | Swaps | LiquidityChanges | PoolCreations | PositionChanges | PositionFeeClaims | ProtocolFeeClaims
    | RewardClaims | RewardChanges | PoolChanges

  datatype Scope = All | OfProtocol(protocol: Protocol) | OfPool(pool: nat) | OfToken(mint: nat)

  datatype Cursor =
    | Signal(triggeredAt: int, id: I64)
    | TokenActivity(lastHour: int, volumeUsd: int, mint: nat)
    | LiquidityMove(moveScope: Scope, kind: Option<MoveKind>, window: Window, asOf: int, order: MoveOrder,
                    amountUsd: int, at: int, moveSignature: Text, moveIndex: I32)
    | Pool(poolScope: Scope, firstSeenAt: int, pool: nat)
    | Token(fetchedAt: int, mint: nat)
    | TokenPrice(mint: nat, from: int, fetchedAt: int)
    | Event(collection: Collection, scope: Scope, from: int, at: int, signature: nat, eventIndex: U16)
    | RotationRun(runScope: Scope, window: Window, asOf: int, runOrder: RunOrder, volumeUsd: int, startedAt: int,
                  pool: nat)
    | Announcement(status: Option<Status>, startsAt: int, id: I64)
    | Catalogue(protocol: Protocol)

  /** A decoder, with the parameters of the list it reads a cursor for. */
  datatype Decoder =
    | ForSignals
    | ForTokenActivity
    | ForMoves(moveScope: Scope, kind: Option<MoveKind>, order: MoveOrder)
    | ForPools(poolScope: Scope)
    | ForTokens
    | ForPrices(mint: nat)
    | ForEvents(collection: Collection, scope: Scope)
    | ForRuns(runScope: Scope, window: Window, runOrder: RunOrder)
    | ForAnnouncements(status: Option<Status>)
    | ForCatalogue

  /** The decoder of the list a cursor was taken in. */
  function ListOf(c: Cursor): Decoder {
    match c
    case Signal(_, _) => ForSignals
    case TokenActivity(_, _, _) => ForTokenActivity
    case LiquidityMove(scope, kind, _, _, order, _, _, _, _) => ForMoves(scope, kind, order)
    case Pool(scope, _, _) => ForPools(scope)
    case Token(_, _) => ForTokens
    case TokenPrice(mint, _, _) => ForPrices(mint)
    case Event(collection, scope, _, _, _, _) => ForEvents(collection, scope)
    case RotationRun(scope, window, _, order, _, _, _) => ForRuns(scope, window, order)
    case Announcement(status, _, _) => ForAnnouncements(status)
    case Catalogue(_) => ForCatalogue
  }

  // ---------------------------------------------------------------------
  // Tags
  // ---------------------------------------------------------------------

  function ProtocolTag(p: Protocol): string {
    if p == MeteoraDammV2 then "meteora_damm_v2" else "meteora_dlmm"
  }

  function ScopeTag(s: Scope): Text {
    match s
    case All => Plain("all")
    case OfProtocol(p) => Plain("protocol:" + ProtocolTag(p))
    case OfPool(pool) => Prefixed("pool:", pool)
    case OfToken(mint) => Prefixed("token:", mint)
  }

  function WindowTag(w: Window): string {
    match w
    case Hour => "1h"
    case Day => "24h"
    case Week => "7d"
    case Month => "30d"
  }

  function WindowOf(text: Text): Option<Window> {
    if text == Plain("1h") then Some(Hour)
    else if text == Plain("24h") then Some(Day)
    else if text == Plain("7d") then Some(Week)
    else if text == Plain("30d") then Some(Month)
    else None
  }

  function KindTag(k: MoveKind): string {
    match k
    case Create => "create"
    case Add => "add"
    case Remove => "remove"
  }

  function MoveOrderTag(o: MoveOrder): string {
    if o == ByAmount then "amount" else "at"
  }

  function RunOrderTag(o: RunOrder): string {
    if o == ByVolume then "volume" else "at"
  }

  function StatusTag(s: Status): string {
    match s
    case Upcoming => "upcoming"
    case Open => "open"
    case Closed => "closed"
  }

  function CollectionTag(c: Collection): string {
    match c
    case Swaps => "swaps"
    case LiquidityChanges => "liquidity-changes"
    case PoolCreations => "pool-creations"
    case PositionChanges => "position-changes"
    case PositionFeeClaims => "position-fee-claims"
    case ProtocolFeeClaims => "protocol-fee-claims"
    case RewardClaims => "reward-claims"
    case RewardChanges => "reward-changes"
    case PoolChanges => "pool-changes"
  }

  /** No two lists share their tags. */
  lemma TagsAreDistinct()
    ensures forall a, b :: ScopeTag(a) == ScopeTag(b) ==> a == b
    ensures forall a, b :: WindowTag(a) == WindowTag(b) ==> a == b
    ensures forall a, b :: KindTag(a) == KindTag(b) ==> a == b
    ensures forall a, b :: MoveOrderTag(a) == MoveOrderTag(b) ==> a == b
    ensures forall a, b :: RunOrderTag(a) == RunOrderTag(b) ==> a == b
    ensures forall a, b :: StatusTag(a) == StatusTag(b) ==> a == b
    ensures forall a, b :: ProtocolTag(a) == ProtocolTag(b) ==> a == b
  {
    assert |ProtocolTag(MeteoraDammV2)| != |ProtocolTag(MeteoraDlmm)|;
    assert forall p, q :: |"protocol:" + ProtocolTag(p)| == |"protocol:" + ProtocolTag(q)| ==> p == q;
    assert forall p :: |"protocol:" + ProtocolTag(p)| > |"all"|;
    assert forall w, v :: |WindowTag(w)| == |WindowTag(v)| && WindowTag(w)[0] == WindowTag(v)[0] ==> w == v;
  }

  lemma CollectionTagsAreDistinct(a: Collection, b: Collection)
    ensures CollectionTag(a) == CollectionTag(b) ==> a == b
  {
  }

  // ---------------------------------------------------------------------
  // The wires
  // ---------------------------------------------------------------------

  function Wire(c: Cursor): Fields {
    match c
    case Signal(triggeredAt, id) => map[TriggeredAt := Str(Instant(triggeredAt)), Id := Num(id)]
    case TokenActivity(lastHour, volume, mint) =>
      map[LastHour := Str(Instant(lastHour)), VolumeUsd := Str(Amount(volume)), MintField := Str(Address(mint))]
    case LiquidityMove(scope, kind, window, asOf, order, amount, at, signature, index) =>
      map[ScopeField := Str(ScopeTag(scope)), WindowField := Str(Plain(WindowTag(window))), AsOf := Str(Instant(asOf)),
          OrderField := Str(Plain(MoveOrderTag(order))), AmountUsd := Str(Amount(amount)), At := Str(Instant(at)),
          SignatureField := Str(signature), EventIndex := Num(index)]
      // Without a kind, the field is left out.
      + (if kind.Some? then map[KindField := Str(Plain(KindTag(kind.value)))] else map[])
    case Pool(scope, firstSeenAt, pool) =>
      map[ScopeField := Str(ScopeTag(scope)), FirstSeenAt := Str(Instant(firstSeenAt)), PoolField := Str(Address(pool))]
    case Token(fetchedAt, mint) => map[FetchedAt := Str(Instant(fetchedAt)), MintField := Str(Address(mint))]
    case TokenPrice(mint, from, fetchedAt) =>
      map[MintField := Str(Address(mint)), FromField := Str(Instant(from)), FetchedAt := Str(Instant(fetchedAt))]
    case Event(collection, scope, from, at, signature, index) =>
      map[CollectionField := Str(Plain(CollectionTag(collection))), ScopeField := Str(ScopeTag(scope)),
          FromField := Str(Instant(from)), At := Str(Instant(at)), SignatureField := Str(Signed(signature)),
          EventIndex := Num(index)]
    case RotationRun(scope, window, asOf, order, volume, startedAt, pool) =>
      map[ScopeField := Str(ScopeTag(scope)), WindowField := Str(Plain(WindowTag(window))), AsOf := Str(Instant(asOf)),
          OrderField := Str(Plain(RunOrderTag(order))), VolumeUsd := Str(Amount(volume)),
          StartedAt := Str(Instant(startedAt)), PoolField := Str(Address(pool))]
    case Announcement(status, startsAt, id) =>
      map[StatusField := if status.Some? then Str(Plain(StatusTag(status.value))) else Null,
          StartsAt := Str(Instant(startsAt)), Id := Num(id)]
    case Catalogue(protocol) => map[ProtocolField := Str(Plain(ProtocolTag(protocol)))]
  }

  /** The fields a decoder's object must have. */
  function Required(d: Decoder): set<Field> {
    match d
    case ForSignals => {TriggeredAt, Id}
    case ForTokenActivity => {LastHour, VolumeUsd, MintField}
    case ForMoves(_, _, _) => {ScopeField, WindowField, AsOf, OrderField, AmountUsd, At, SignatureField, EventIndex}
    case ForPools(_) => {ScopeField, FirstSeenAt, PoolField}
    case ForTokens => {FetchedAt, MintField}
    case ForPrices(_) => {MintField, FromField, FetchedAt}
    case ForEvents(_, _) => {CollectionField, ScopeField, FromField, At, SignatureField, EventIndex}
    case ForRuns(_, _, _) => {ScopeField, WindowField, AsOf, OrderField, VolumeUsd, StartedAt, PoolField}
    case ForAnnouncements(_) => {StartsAt, Id}
    case ForCatalogue => {ProtocolField}
  }

  /** The fields it may have: absent, an option is none. */
  function Optional(d: Decoder): set<Field> {
    match d
    case ForMoves(_, _, _) => {KindField}
    case ForAnnouncements(_) => {StatusField}
    case _ => {}
  }

  /** No field missing, none unknown. */
  predicate Shaped(d: Decoder, f: Fields) {
    Required(d) <= f.Keys <= Required(d) + Optional(d)
  }

  function TextIn(f: Fields, field: Field): Option<Text> {
    if field in f && f[field].Str? then Some(f[field].text) else None
  }

  /** An optional string: none when absent or `null`, malformed when it is not a string. */
  function OptionIn(f: Fields, field: Field): Option<Option<Text>> {
    if field !in f || f[field].Null? then Some(None)
    else if f[field].Str? then Some(Some(f[field].text))
    else None
  }

  function NumIn(f: Fields, field: Field, low: int, high: int): Option<int> {
    if field in f && f[field].Num? && low <= f[field].n < high then Some(f[field].n) else None
  }

  function InstantIn(f: Fields, field: Field): Option<int> {
    match TextIn(f, field)
    case Some(Instant(at)) => Some(at)
    case _ => None
  }

  function AmountIn(f: Fields, field: Field): Option<int> {
    match TextIn(f, field)
    case Some(Amount(units)) => Some(units)
    case _ => None
  }

  function AddressIn(f: Fields, field: Field): Option<nat> {
    match TextIn(f, field)
    case Some(Address(key)) => Some(key)
    case _ => None
  }

  function OptionalTag(tag: Option<string>): Option<Text> {
    match tag
    case Some(t) => Some(Plain(t))
    case None => None
  }

  function KindTagOf(kind: Option<MoveKind>): Option<string> {
    if kind.Some? then Some(KindTag(kind.value)) else None
  }

  function StatusTagOf(status: Option<Status>): Option<string> {
    if status.Some? then Some(StatusTag(status.value)) else None
  }

  /** What a decoder makes of an object: a cursor, or a refusal. */
  function Read(d: Decoder, f: Fields): Option<Cursor> {
    if !Shaped(d, f) then None
    else
      match d
      case ForSignals =>
        (match (InstantIn(f, TriggeredAt), NumIn(f, Id, -0x8000_0000_0000_0000, 0x8000_0000_0000_0000))
         case (Some(at), Some(id)) => Some(Signal(at, id))
         case _ => None)
      case ForTokenActivity =>
        (match (InstantIn(f, LastHour), AmountIn(f, VolumeUsd), AddressIn(f, MintField))
         case (Some(hour), Some(volume), Some(mint)) => Some(TokenActivity(hour, volume, mint))
         case _ => None)
      case ForMoves(scope, kind, order) => ReadMove(scope, kind, order, f)
      case ForPools(scope) =>
        if TextIn(f, ScopeField) != Some(ScopeTag(scope)) then None
        else (match (InstantIn(f, FirstSeenAt), AddressIn(f, PoolField))
              case (Some(at), Some(pool)) => Some(Pool(scope, at, pool))
              case _ => None)
      case ForTokens =>
        (match (InstantIn(f, FetchedAt), AddressIn(f, MintField))
         case (Some(at), Some(mint)) => Some(Token(at, mint))
         case _ => None)
      case ForPrices(mint) =>
        if TextIn(f, MintField) != Some(Address(mint)) then None
        else (match (InstantIn(f, FromField), InstantIn(f, FetchedAt))
              case (Some(from), Some(at)) => Some(TokenPrice(mint, from, at))
              case _ => None)
      case ForEvents(collection, scope) => ReadEvent(collection, scope, f)
      case ForRuns(scope, window, order) => ReadRun(scope, window, order, f)
      case ForAnnouncements(status) =>
        if OptionIn(f, StatusField) != Some(OptionalTag(StatusTagOf(status))) then None
        else (match (InstantIn(f, StartsAt), NumIn(f, Id, -0x8000_0000_0000_0000, 0x8000_0000_0000_0000))
              case (Some(at), Some(id)) => Some(Announcement(status, at, id))
              case _ => None)
      case ForCatalogue =>
        if TextIn(f, ProtocolField) == Some(Plain(ProtocolTag(MeteoraDammV2))) then Some(Catalogue(MeteoraDammV2))
        else if TextIn(f, ProtocolField) == Some(Plain(ProtocolTag(MeteoraDlmm))) then Some(Catalogue(MeteoraDlmm))
        else None
  }

  function ReadMove(scope: Scope, kind: Option<MoveKind>, order: MoveOrder, f: Fields): Option<Cursor> {
    if TextIn(f, ScopeField) != Some(ScopeTag(scope))
       || OptionIn(f, KindField) != Some(OptionalTag(KindTagOf(kind)))
    then None
    else if TextIn(f, OrderField) != Some(Plain(MoveOrderTag(order))) then None
    else
      var window := match TextIn(f, WindowField) case Some(t) => WindowOf(t) case None => None;
      match (window, InstantIn(f, AsOf), AmountIn(f, AmountUsd), InstantIn(f, At), TextIn(f, SignatureField),
             NumIn(f, EventIndex, -0x8000_0000, 0x8000_0000))
      case (Some(w), Some(asOf), Some(amount), Some(at), Some(signature), Some(index)) =>
        Some(LiquidityMove(scope, kind, w, asOf, order, amount, at, signature, index))
      case _ => None
  }

  function ReadEvent(collection: Collection, scope: Scope, f: Fields): Option<Cursor> {
    if TextIn(f, CollectionField) != Some(Plain(CollectionTag(collection)))
       || TextIn(f, ScopeField) != Some(ScopeTag(scope))
    then None
    else
      match (InstantIn(f, FromField), InstantIn(f, At), TextIn(f, SignatureField), NumIn(f, EventIndex, 0, 0x1_0000))
      case (Some(from), Some(at), Some(Signed(signature)), Some(index)) =>
        Some(Event(collection, scope, from, at, signature, index))
      case _ => None
  }

  function ReadRun(scope: Scope, window: Window, order: RunOrder, f: Fields): Option<Cursor> {
    if TextIn(f, ScopeField) != Some(ScopeTag(scope)) || TextIn(f, WindowField) != Some(Plain(WindowTag(window)))
       || TextIn(f, OrderField) != Some(Plain(RunOrderTag(order)))
    then None
    else
      match (InstantIn(f, AsOf), AmountIn(f, VolumeUsd), InstantIn(f, StartedAt), AddressIn(f, PoolField))
      case (Some(asOf), Some(volume), Some(at), Some(pool)) =>
        Some(RotationRun(scope, window, asOf, order, volume, at, pool))
      case _ => None
  }

  // ---------------------------------------------------------------------
  // A cursor is read by its own list's decoder, and by no other
  // ---------------------------------------------------------------------

  predicate SameKind(d: Decoder, e: Decoder) {
    match d
    case ForSignals => e.ForSignals?
    case ForTokenActivity => e.ForTokenActivity?
    case ForMoves(_, _, _) => e.ForMoves?
    case ForPools(_) => e.ForPools?
    case ForTokens => e.ForTokens?
    case ForPrices(_) => e.ForPrices?
    case ForEvents(_, _) => e.ForEvents?
    case ForRuns(_, _, _) => e.ForRuns?
    case ForAnnouncements(_) => e.ForAnnouncements?
    case ForCatalogue => e.ForCatalogue?
  }

  /** A field of a kind's object that tells it from every other's, a token's from all but a price's. */
  function Telling(d: Decoder): Field {
    match d
    case ForSignals => TriggeredAt
    case ForTokenActivity => LastHour
    case ForMoves(_, _, _) => AmountUsd
    case ForPools(_) => FirstSeenAt
    case ForTokens => FetchedAt
    case ForPrices(_) => FromField
    case ForEvents(_, _) => CollectionField
    case ForRuns(_, _, _) => StartedAt
    case ForAnnouncements(_) => StartsAt
    case ForCatalogue => ProtocolField
  }

  /** No two kinds' objects can be confused. */
  lemma ShapesAreDistinct(d: Decoder, e: Decoder)
    ensures SameKind(d, e) || !(Required(d) <= Required(e) + Optional(e)) || !(Required(e) <= Required(d) + Optional(d))
  {
    assert Telling(d) in Required(d) && Telling(e) in Required(e);
    assert SameKind(d, e) || Telling(d) !in Required(e) + Optional(e) || Telling(e) !in Required(d) + Optional(d);
  }

  lemma WireIsShaped(c: Cursor)
    ensures Shaped(ListOf(c), Wire(c))
  {
  }

  lemma ForeignIsRefused(c: Cursor, d: Decoder)
    requires !SameKind(d, ListOf(c))
    ensures Read(d, Wire(c)).None?
  {
    WireIsShaped(c);
    ShapesAreDistinct(d, ListOf(c));
  }

  lemma MoveReadsItsOwn(c: Cursor, d: Decoder)
    requires c.LiquidityMove? && d.ForMoves?
    ensures Read(d, Wire(c)) == if d == ListOf(c) then Some(c) else None
  {
    TagsAreDistinct();
    WireIsShaped(c);
    MoveFields(c);
    assert WindowOf(Plain(WindowTag(c.window))) == Some(c.window);
    hide Wire, ScopeTag, KindTag, MoveOrderTag, WindowTag, WindowOf, TextIn, OptionIn, InstantIn, AmountIn, NumIn;
  }

  lemma MoveFields(c: Cursor)
    requires c.LiquidityMove?
    ensures var f := Wire(c);
            && TextIn(f, ScopeField) == Some(ScopeTag(c.moveScope))
            && OptionIn(f, KindField) == Some(OptionalTag(KindTagOf(c.kind)))
            && TextIn(f, OrderField) == Some(Plain(MoveOrderTag(c.order)))
            && TextIn(f, WindowField) == Some(Plain(WindowTag(c.window)))
            && InstantIn(f, AsOf) == Some(c.asOf) && AmountIn(f, AmountUsd) == Some(c.amountUsd)
            && InstantIn(f, At) == Some(c.at) && TextIn(f, SignatureField) == Some(c.moveSignature)
            && NumIn(f, EventIndex, -0x8000_0000, 0x8000_0000) == Some(c.moveIndex)
  {
    hide ScopeTag, KindTag, MoveOrderTag, WindowTag;
  }

  lemma EventReadsItsOwn(c: Cursor, d: Decoder)
    requires c.Event? && d.ForEvents?
    ensures Read(d, Wire(c)) == if d == ListOf(c) then Some(c) else None
  {
    TagsAreDistinct();
    CollectionTagsAreDistinct(c.collection, d.collection);
    WireIsShaped(c);
    hide ScopeTag, CollectionTag;
  }

  lemma RunReadsItsOwn(c: Cursor, d: Decoder)
    requires c.RotationRun? && d.ForRuns?
    ensures Read(d, Wire(c)) == if d == ListOf(c) then Some(c) else None
  {
    TagsAreDistinct();
    WireIsShaped(c);
    hide ScopeTag, WindowTag, RunOrderTag;
  }

  /**
   A cursor is read back by the decoder of the list it was taken in, and refused by every other:
   another kind's, or the same with another parameter.
   */
  lemma ReadExactlyByItsList(c: Cursor, d: Decoder)
    ensures Read(d, Wire(c)) == if d == ListOf(c) then Some(c) else None
  {
    if !SameKind(d, ListOf(c)) {
      ForeignIsRefused(c, d);
    } else if c.LiquidityMove? {
      MoveReadsItsOwn(c, d);
    } else if c.Event? {
      EventReadsItsOwn(c, d);
    } else if c.RotationRun? {
      RunReadsItsOwn(c, d);
    } else {
      TagsAreDistinct();
      WireIsShaped(c);
      hide ScopeTag, StatusTag;
    }
  }

  // ---------------------------------------------------------------------
  // The blob
  // ---------------------------------------------------------------------

  /** How an object is written as bytes and read from them. */
  datatype Json = Json(write: Fields -> seq<int>, parse: seq<int> -> Option<Fields>)

  /** Every object is written as bytes, and read back from them. */
  ghost predicate Exact(json: Json) {
    forall f :: Base64Url.AreBytes(json.write(f)) && json.parse(json.write(f)) == Some(f)
  }

  ghost function EncodeCursor(json: Json, c: Cursor): string
    requires Exact(json)
  {
    Base64Url.Encode(json.write(Wire(c)))
  }

  function DecodeCursor(json: Json, d: Decoder, raw: string): Option<Cursor> {
    match Base64Url.Decode(raw)
    case None => None
    case Some(bytes) =>
      match json.parse(bytes)
      case None => None
      case Some(f) => Read(d, f)
  }

  /** From the URL: a cursor decodes to itself in its own list, and in no other. */
  lemma DecodesExactlyInItsList(json: Json, c: Cursor, d: Decoder)
    requires Exact(json)
    ensures DecodeCursor(json, d, EncodeCursor(json, c)) == if d == ListOf(c) then Some(c) else None
  {
    hide Wire, Read;
    Base64Url.DecodeUndoesEncode(json.write(Wire(c)));
    ReadExactlyByItsList(c, d);
  }
}
