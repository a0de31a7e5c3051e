/** The row-building loop of insert_event_data (kalshiapi.py): Kalshi event
    records become bet_description, bet_choice and price rows. The current
    maximum option_id and the current timestamp are inputs; the database
    writes that follow the loop are not modelled. */
module KalshiRows {

  import opened Wrappers
  import opened KalshiDates

  /** A key of a decoded JSON object: missing, present as null, or present. */
  datatype Json<T> = Absent | Null | Has(value: T)

  /** dict.get(key): None when the key is missing or null. */
  function Get<T>(f: Json<T>): (r: Option<T>)
    ensures r.Some? <==> f.Has?
    ensures f.Has? ==> r == Some(f.value)
  {
    match f
    case Has(v) => Some(v)
    case _ => None
  }

  /** dict.get(key, default): the default only when the key is missing; a
      null value stays None. */
  function GetOr<T>(f: Json<T>, default: T): (r: Option<T>)
    ensures f.Absent? ==> r == Some(default)
    ensures f.Null? ==> r.None?
    ensures f.Has? ==> r == Some(f.value)
  {
    match f
    case Absent => Some(default)
    case Null => None
    case Has(v) => Some(v)
  }

  /** Python truthiness of an optional string: present and non-empty. */
  predicate Truthy(x: Option<string>)
  {
    x.Some? && x.value != ""
  }

  /** The range of generated bet ids. */
  const BetIdRange: nat := 100000000

  /** The string the bet id hashes: f"{event_name}-{expiration_date}". */
  function RawKey(eventName: string, expirationDate: string): (k: string)
    ensures |k| == |eventName| + 1 + |expirationDate|
    ensures k[..|eventName|] == eventName && k[|eventName|] == '-' && k[|eventName| + 1..] == expirationDate
  {
    eventName + "-" + expirationDate
  }

  /** generate_unique_bet_id; `digest` stands for the MD5 digest read as an
      integer. Distinct events can still receive the same id. */
  function GenerateUniqueBetId(digest: string -> nat, eventName: string, expirationDate: string): (id: nat)
    ensures id < BetIdRange
  {
    digest(RawKey(eventName, expirationDate)) % BetIdRange
  }

  /** The fields of a market record that the loop reads. */
  datatype Market = Market(closeTime: Json<string>, subtitle: Json<string>,
                           yesBid: Json<int>, noBid: Json<int>, volume: Json<int>)

  /** The fields of an event record that the loop reads. */
  datatype Event = Event(title: Json<string>, markets: Json<seq<Market>>)

  /** The exceptions the loop can raise, which abort the whole call before
      anything is written: indexing a null markets field (TypeError) and
      indexing an empty markets list (IndexError). */
  datatype Crash = MarketsIsNull | NoFirstMarket

  datatype DescriptionRow = DescriptionRow(betId: nat, name: string, expirationDate: string,
                                           website: string, status: string, isArbitrage: string)

  datatype ChoiceRow = ChoiceRow(optionId: int, betId: nat, name: Option<string>, outcome: string)

  datatype PriceRow = PriceRow(optionId: int, timestamp: string, volume: Option<int>,
                               yesPrice: Option<int>, noPrice: Option<int>,
                               yesOdds: Option<int>, noOdds: Option<int>)

  /** The three value lists the loop fills. */
  datatype Rows = Rows(descriptions: seq<DescriptionRow>, choices: seq<ChoiceRow>, prices: seq<PriceRow>)

  const NoRows := Rows([], [], [])

  /** The name a market's choice row gets. */
  function Subtitle(m: Market): Option<string>
  {
    GetOr(m.subtitle, "Unknown Choice")
  }

  /** The price row recorded for a market under option id `id`. */
  function PriceOf(m: Market, id: int, now: string): PriceRow
  {
    PriceRow(id, now, GetOr(m.volume, 0), GetOr(m.yesBid, 0), GetOr(m.noBid, 0),
             GetOr(m.yesBid, 0), GetOr(m.noBid, 0))
  }

  /** The normalised expiration date of an event, read from its first market's
      close_time; a missing or empty close_time gives None without parsing. */
  function Expiration(e: Event): (r: Result<Option<string>, Crash>)
    ensures r.Err? <==> e.markets.Null? || e.markets == Has([])
    ensures r.Err? ==> r.error == if e.markets.Null? then MarketsIsNull else NoFirstMarket
    ensures r.Ok? ==> r.value == if e.markets.Absent? || !Truthy(Get(e.markets.value[0].closeTime)) then None
                                 else ParsedDate(e.markets.value[0].closeTime.value)
  {
    match e.markets
    case Null => Err(MarketsIsNull)
    case Absent => Ok(None)
    case Has(ms) =>
      if ms == [] then Err(NoFirstMarket)
      else
        var raw := Get(ms[0].closeTime);
        Ok(if Truthy(raw) then ParsedDate(raw.value) else None)
  }

  /** `event.get("markets", [])`. A null markets field never reaches the
      inner loop, since reading the expiration has already raised. */
  function MarketsOf(e: Event): seq<Market>
  {
    if e.markets.Has? then e.markets.value else []
  }

  /** The subtitles of `ms`. */
  ghost function SubtitlesOf(ms: seq<Market>): set<Option<string>>
  {
    if ms == [] then {} else SubtitlesOf(ms[..|ms| - 1]) + {Subtitle(ms[|ms| - 1])}
  }

  /** The markets of one event that the inner loop keeps: each market whose
      subtitle did not occur earlier in the same event. */
  ghost function KeptMarkets(ms: seq<Market>): seq<Market>
  {
    if ms == [] then []
    else
      var init := ms[..|ms| - 1];
      var m := ms[|ms| - 1];
      if Subtitle(m) in SubtitlesOf(init) then KeptMarkets(init) else KeptMarkets(init) + [m]
  }

  /** The choice rows for the kept markets of a bet, numbered from `firstId`. */
  ghost function ChoiceRows(betId: nat, kept: seq<Market>, firstId: int): seq<ChoiceRow>
  {
    seq(|kept|, k requires 0 <= k < |kept| => ChoiceRow(firstId + k, betId, Subtitle(kept[k]), "pending"))
  }

  /** The price rows for the kept markets, numbered from `firstId`. */
  ghost function PriceRows(kept: seq<Market>, firstId: int, now: string): seq<PriceRow>
  {
    seq(|kept|, k requires 0 <= k < |kept| => PriceOf(kept[k], firstId + k, now))
  }

  /** Keeping one more market appends one choice row and one price row, under
      the next option id. */
  lemma RowsSnoc(betId: nat, kept: seq<Market>, m: Market, firstId: int, now: string)
    ensures ChoiceRows(betId, kept + [m], firstId)
         == ChoiceRows(betId, kept, firstId) + [ChoiceRow(firstId + |kept|, betId, Subtitle(m), "pending")]
    ensures PriceRows(kept + [m], firstId, now) == PriceRows(kept, firstId, now) + [PriceOf(m, firstId + |kept|, now)]
  {
    assert forall k :: 0 <= k < |kept| ==> (kept + [m])[k] == kept[k];
  }

  /** The rows one event contributes when the counter stands at `nextId`. */
  ghost function EventRows(e: Event, nextId: int, now: string, digest: string -> nat): Result<Rows, Crash>
  {
    match Expiration(e)
    case Err(c) => Err(c)
    case Ok(expirationDate) =>
      var eventName := Get(e.title);
      if !Truthy(eventName) || expirationDate.None? then Ok(NoRows)
      else
        var betId := GenerateUniqueBetId(digest, eventName.value, expirationDate.value);
        var kept := KeptMarkets(MarketsOf(e));
        Ok(Rows([DescriptionRow(betId, eventName.value, expirationDate.value, "kalshi", "open", "no")],
                ChoiceRows(betId, kept, nextId), PriceRows(kept, nextId, now)))
  }

  /** The rows of a whole batch, the option counter starting at `firstId`; the
      first event that raises aborts the batch. */
  ghost function BatchRows(events: seq<Event>, firstId: int, now: string, digest: string -> nat): Result<Rows, Crash>
  {
    if events == [] then Ok(NoRows)
    else
      match BatchRows(events[..|events| - 1], firstId, now, digest)
      case Err(c) => Err(c)
      case Ok(b) => Extend(b, events[|events| - 1], firstId + |b.choices|, now, digest)
  }

  /** The rows so far followed by one more event's rows, or that event's exception. */
  ghost function Extend(rows: Rows, e: Event, nextId: int, now: string, digest: string -> nat): Result<Rows, Crash>
  {
    match EventRows(e, nextId, now, digest)
    case Err(c) => Err(c)
    case Ok(rs) => Ok(Rows(rows.descriptions + rs.descriptions, rows.choices + rs.choices, rows.prices + rs.prices))
  }

  /** One event contributes at most one description row, no choice rows when
      it contributes none, and as many price rows as choice rows, numbered
      consecutively from the counter's value. */
  lemma EventRowsIds(e: Event, nextId: int, now: string, digest: string -> nat)
    requires EventRows(e, nextId, now, digest).Ok?
    ensures var rs := EventRows(e, nextId, now, digest).value;
      && |rs.descriptions| <= 1
      && (rs.descriptions == [] ==> rs.choices == [])
      && |rs.prices| == |rs.choices|
      && forall k :: 0 <= k < |rs.choices| ==> rs.choices[k].optionId == rs.prices[k].optionId == nextId + k
  {
  }

  /** Option ids start at `firstId` and increase by exactly one per choice
      row, so they are distinct and consecutive, and the i-th price row
      carries the i-th choice row's id. */
  lemma {:induction false} BatchRowsIds(events: seq<Event>, firstId: int, now: string, digest: string -> nat)
    requires BatchRows(events, firstId, now, digest).Ok?
    ensures var b := BatchRows(events, firstId, now, digest).value;
      && |b.prices| == |b.choices|
      && forall k :: 0 <= k < |b.choices| ==> b.choices[k].optionId == b.prices[k].optionId == firstId + k
  {
    if events != [] {
      var init := events[..|events| - 1];
      BatchRowsIds(init, firstId, now, digest);
      var b := BatchRows(init, firstId, now, digest).value;
      EventRowsIds(events[|events| - 1], firstId + |b.choices|, now, digest);
    }
  }

  /** Once a prefix of the batch raises, the whole batch raises the same. */
  lemma {:induction false} BatchRowsErrStable(events: seq<Event>, i: nat, firstId: int, now: string, digest: string -> nat)
    requires i <= |events|
    requires BatchRows(events[..i], firstId, now, digest).Err?
    ensures BatchRows(events, firstId, now, digest) == BatchRows(events[..i], firstId, now, digest)
  {
    if i < |events| {
      var init := events[..|events| - 1];
      assert init[..i] == events[..i];
      BatchRowsErrStable(init, i, firstId, now, digest);
    } else {
      assert events[..i] == events;
    }
  }

  /** An event whose markets field is null or empty aborts the whole batch. */
  lemma CrashAbortsBatch(events: seq<Event>, i: nat, firstId: int, now: string, digest: string -> nat)
    requires i < |events|
    requires events[i].markets.Null? || events[i].markets == Has([])
    ensures BatchRows(events, firstId, now, digest).Err?
  {
    assert events[..i + 1] == events[..i] + [events[i]];
    CrashingEventAborts(events[..i], events[i], firstId, now, digest);
    BatchRowsErrStable(events, i + 1, firstId, now, digest);
  }

  /** An event whose expiration cannot be read aborts the batch. */
  lemma CrashingEventAborts(events: seq<Event>, e: Event, firstId: int, now: string, digest: string -> nat)
    requires Expiration(e).Err?
    ensures BatchRows(events + [e], firstId, now, digest).Err?
  {
    assert (events + [e])[..|events|] == events && (events + [e])[|events|] == e;
  }

  /** An event without a title or without a parsable expiration contributes no
      rows of any kind. */
  lemma SkippedEventAddsNothing(events: seq<Event>, e: Event, firstId: int, now: string, digest: string -> nat)
    requires Expiration(e).Ok?
    requires !Truthy(Get(e.title)) || Expiration(e).value.None?
    ensures BatchRows(events + [e], firstId, now, digest) == BatchRows(events, firstId, now, digest)
  {
    assert (events + [e])[..|events|] == events && (events + [e])[|events|] == e;
    match BatchRows(events, firstId, now, digest)
    case Err(_) =>
    case Ok(b) =>
      assert EventRows(e, firstId + |b.choices|, now, digest) == Ok(NoRows);
      assert b.descriptions + [] == b.descriptions && b.choices + [] == b.choices && b.prices + [] == b.prices;
  }

  lemma {:induction false} SubtitlesOfMembers(ms: seq<Market>)
    ensures forall x :: x in SubtitlesOf(ms) <==> exists p :: 0 <= p < |ms| && Subtitle(ms[p]) == x
  {
    if ms != [] {
      var init := ms[..|ms| - 1];
      SubtitlesOfMembers(init);
      forall x | x in SubtitlesOf(init) ensures exists p :: 0 <= p < |ms| && Subtitle(ms[p]) == x {
        var p :| 0 <= p < |init| && Subtitle(init[p]) == x;
        assert ms[p] == init[p];
      }
      forall x | (exists p :: 0 <= p < |ms| && Subtitle(ms[p]) == x) ensures x in SubtitlesOf(ms) {
        var p :| 0 <= p < |ms| && Subtitle(ms[p]) == x;
        if p < |init| {
          assert init[p] == ms[p];
        }
      }
    }
  }

  /** The subtitles already seen are those of the kept markets. */
  lemma {:induction false} KeptMarketsSubtitles(ms: seq<Market>)
    ensures forall k :: 0 <= k < |KeptMarkets(ms)| ==> Subtitle(KeptMarkets(ms)[k]) in SubtitlesOf(ms)
    ensures forall x :: x in SubtitlesOf(ms) ==> exists k :: 0 <= k < |KeptMarkets(ms)| && Subtitle(KeptMarkets(ms)[k]) == x
  {
    if ms != [] {
      var init := ms[..|ms| - 1];
      KeptMarketsSubtitles(init);
      var kept := KeptMarkets(init);
      var m := ms[|ms| - 1];
      assert SubtitlesOf(ms) == SubtitlesOf(init) + {Subtitle(m)};
      if Subtitle(m) in SubtitlesOf(init) {
        assert KeptMarkets(ms) == kept;
        assert SubtitlesOf(ms) == SubtitlesOf(init);
      } else {
        var kept' := kept + [m];
        assert KeptMarkets(ms) == kept';
        forall x | x in SubtitlesOf(ms)
          ensures exists k :: 0 <= k < |kept'| && Subtitle(kept'[k]) == x
        {
          if x in SubtitlesOf(init) {
            var k :| 0 <= k < |kept| && Subtitle(kept[k]) == x;
            assert kept'[k] == kept[k];
          } else {
            assert Subtitle(kept'[|kept|]) == x;
          }
        }
      }
    }
  }

  /** The inner loop keeps no two markets with the same subtitle. */
  lemma {:induction false} KeptMarketsDistinct(ms: seq<Market>)
    ensures forall a, b :: 0 <= a < b < |KeptMarkets(ms)| ==>
      Subtitle(KeptMarkets(ms)[a]) != Subtitle(KeptMarkets(ms)[b])
  {
    if ms != [] {
      var init := ms[..|ms| - 1];
      var m := ms[|ms| - 1];
      KeptMarketsDistinct(init);
      KeptMarketsSubtitles(init);
      var kept := KeptMarkets(init);
      if Subtitle(m) !in SubtitlesOf(init) {
        var kept' := kept + [m];
        assert KeptMarkets(ms) == kept';
        forall a, b | 0 <= a < b < |kept'| ensures Subtitle(kept'[a]) != Subtitle(kept'[b]) {
          assert kept'[a] == kept[a];
          if b < |kept| {
            assert kept'[b] == kept[b];
          }
        }
      }
    }
  }

  /** Only markets of the event are kept. */
  lemma {:induction false} KeptMarketsWithin(ms: seq<Market>)
    ensures forall k :: 0 <= k < |KeptMarkets(ms)| ==> KeptMarkets(ms)[k] in ms
  {
    if ms != [] {
      var init := ms[..|ms| - 1];
      KeptMarketsWithin(init);
      assert forall m :: m in init ==> m in ms;
    }
  }

  /** The market kept for a subtitle is the first one carrying it, so its
      prices are the ones recorded. */
  lemma {:induction false} KeptMarketsFirst(ms: seq<Market>)
    ensures forall p :: 0 <= p < |ms| && Subtitle(ms[p]) !in SubtitlesOf(ms[..p]) ==> ms[p] in KeptMarkets(ms)
  {
    if ms != [] {
      var init := ms[..|ms| - 1];
      KeptMarketsFirst(init);
      forall p | 0 <= p < |ms| && Subtitle(ms[p]) !in SubtitlesOf(ms[..p])
        ensures ms[p] in KeptMarkets(ms)
      {
        if p < |init| {
          assert init[..p] == ms[..p] && init[p] == ms[p];
          assert ms[p] in KeptMarkets(init);
        } else {
          assert ms[..p] == init;
        }
      }
    }
  }

  /** An event with a title and a parsable expiration appends exactly one
      description row, for its bet id, with website kalshi, status open and
      is_arbitrage no, followed by the choice and price rows of its kept
      markets numbered from the counter's current value. */
  lemma KeptEventExtends(rows: Rows, e: Event, name: string, date: string, nextId: int, now: string, digest: string -> nat)
    requires Get(e.title) == Some(name) && name != "" && Expiration(e) == Ok(Some(date))
    ensures var betId := GenerateUniqueBetId(digest, name, date);
      var kept := KeptMarkets(MarketsOf(e));
      Extend(rows, e, nextId, now, digest) ==
        Ok(Rows(rows.descriptions + [DescriptionRow(betId, name, date, "kalshi", "open", "no")],
                rows.choices + ChoiceRows(betId, kept, nextId),
                rows.prices + PriceRows(kept, nextId, now)))
  {
    KeptEventRows(e, name, date, nextId, now, digest);
  }

  /** One more event extends the batch by that event's rows, numbered from
      where the batch's option ids stopped. */
  lemma BatchRowsSnoc(events: seq<Event>, e: Event, firstId: int, now: string, digest: string -> nat)
    ensures BatchRows(events + [e], firstId, now, digest) ==
      match BatchRows(events, firstId, now, digest)
      case Err(c) => Err(c)
      case Ok(b) => Extend(b, e, firstId + |b.choices|, now, digest)
  {
    assert (events + [e])[..|events|] == events && (events + [e])[|events|] == e;
  }

  /** One step of the loop over the events, stated on prefixes. */
  lemma BatchRowsPrefixStep(events: seq<Event>, i: nat, rows: Rows, firstId: int, now: string, digest: string -> nat)
    requires i < |events|
    requires BatchRows(events[..i], firstId, now, digest) == Ok(rows)
    ensures BatchRows(events[..i + 1], firstId, now, digest) == Extend(rows, events[i], firstId + |rows.choices|, now, digest)
  {
    assert events[..i + 1] == events[..i] + [events[i]];
    BatchRowsSnoc(events[..i], events[i], firstId, now, digest);
  }

  /** What one iteration of the loop over the events establishes: the rows
      of one more event, or an exception that ends the whole batch. */
  lemma BatchRowsLoopStep(events: seq<Event>, i: nat, rows: Rows, next: Result<Rows, Crash>,
                          firstId: int, now: string, digest: string -> nat)
    requires i < |events|
    requires BatchRows(events[..i], firstId, now, digest) == Ok(rows)
    requires next == Extend(rows, events[i], firstId + |rows.choices|, now, digest)
    ensures BatchRows(events[..i + 1], firstId, now, digest) == next
    ensures next.Err? ==> BatchRows(events, firstId, now, digest) == next
  {
    BatchRowsPrefixStep(events, i, rows, firstId, now, digest);
    if next.Err? {
      BatchRowsErrStable(events, i + 1, firstId, now, digest);
    }
  }

  /** The rows of an event with a title and a parsable expiration. */
  lemma KeptEventRows(e: Event, name: string, date: string, nextId: int, now: string, digest: string -> nat)
    requires Get(e.title) == Some(name) && name != "" && Expiration(e) == Ok(Some(date))
    ensures var betId := GenerateUniqueBetId(digest, name, date);
      var kept := KeptMarkets(MarketsOf(e));
      EventRows(e, nextId, now, digest) ==
        Ok(Rows([DescriptionRow(betId, name, date, "kalshi", "open", "no")],
                ChoiceRows(betId, kept, nextId), PriceRows(kept, nextId, now)))
  {
  }

  /** The choice rows of one event all belong to its bet, carry pairwise
      distinct names, and name every subtitle of the event's markets, whatever
      earlier events emitted: the seen set starts empty for each event. */
  lemma KeptEventChoices(betId: nat, ms: seq<Market>, nextId: int)
    ensures var rows := ChoiceRows(betId, KeptMarkets(ms), nextId);
      && (forall k :: 0 <= k < |rows| ==> rows[k].betId == betId && rows[k].outcome == "pending")
      && (forall a, b :: 0 <= a < b < |rows| ==> rows[a].name != rows[b].name)
      && (forall m :: m in ms ==> exists k :: 0 <= k < |rows| && rows[k].name == Subtitle(m))
  {
    var kept := KeptMarkets(ms);
    var rows := ChoiceRows(betId, kept, nextId);
    KeptMarketsDistinct(ms);
    KeptMarketsSubtitles(ms);
    SubtitlesOfMembers(ms);
    forall m | m in ms ensures exists k :: 0 <= k < |rows| && rows[k].name == Subtitle(m) {
      var p :| 0 <= p < |ms| && ms[p] == m;
      assert Subtitle(m) in SubtitlesOf(ms);
      var k :| 0 <= k < |kept| && Subtitle(kept[k]) == Subtitle(m);
      assert rows[k].name == Subtitle(m);
    }
  }

  /** Choice rows and price rows pair up one to one: the i-th of each carry
      the same option id and describe the same market. Missing bids and volume
      default to 0, a missing subtitle to "Unknown Choice", the odds repeat
      the bids and every price row carries the batch's timestamp. */
  lemma EventChoicesMatchPrices(e: Event, nextId: int, now: string, digest: string -> nat)
    requires EventRows(e, nextId, now, digest).Ok?
    ensures var rs := EventRows(e, nextId, now, digest).value;
      var kept := KeptMarkets(MarketsOf(e));
      forall k :: 0 <= k < |rs.choices| ==>
        && rs.choices[k].optionId == rs.prices[k].optionId == nextId + k
        && rs.choices[k].name == Subtitle(kept[k])
        && (kept[k].subtitle.Absent? ==> rs.choices[k].name == Some("Unknown Choice"))
        && rs.prices[k].timestamp == now
        && rs.prices[k].yesOdds == rs.prices[k].yesPrice == GetOr(kept[k].yesBid, 0)
        && rs.prices[k].noOdds == rs.prices[k].noPrice == GetOr(kept[k].noBid, 0)
        && rs.prices[k].volume == GetOr(kept[k].volume, 0)
  {
  }

  /** kalshiapi.py:189-191: read the first market's close_time and normalise
      it; indexing a null or empty markets field raises. */
  method ReadExpiration(event: Event) returns (r: Result<Option<string>, Crash>)
    ensures r == Expiration(event)
  {
    var rawExpirationDate: Option<string> := None;
    match event.markets {
      case Absent =>
      case Null =>
        return Err(MarketsIsNull);
      case Has(ms) =>
        if |ms| == 0 {
          return Err(NoFirstMarket);
        }
        rawExpirationDate := Get(ms[0].closeTime);
    }
    var expirationDate: Option<string> := None;
    if Truthy(rawExpirationDate) {
      expirationDate := ParseDate(rawExpirationDate.value);
    }
    return Ok(expirationDate);
  }

  /** The inner loop over one event's markets (kalshiapi.py:205-226): skip a
      subtitle already seen for this bet, otherwise append a choice row and a
      price row under the current option id and advance the counter. */
  method AppendMarketRows(betId: nat, markets: seq<Market>, choices: seq<ChoiceRow>, prices: seq<PriceRow>,
                          optionId: int, now: string)
    returns (choices': seq<ChoiceRow>, prices': seq<PriceRow>, optionId': int)
    ensures choices' == choices + ChoiceRows(betId, KeptMarkets(markets), optionId)
    ensures prices' == prices + PriceRows(KeptMarkets(markets), optionId, now)
    ensures optionId' == optionId + |KeptMarkets(markets)|
  {
    choices', prices', optionId' := choices, prices, optionId;
    var seenOptions: set<(nat, Option<string>)> := {};
    for j := 0 to |markets|
      invariant forall x :: (betId, x) in seenOptions <==> x in SubtitlesOf(markets[..j])
      invariant choices' == choices + ChoiceRows(betId, KeptMarkets(markets[..j]), optionId)
      invariant prices' == prices + PriceRows(KeptMarkets(markets[..j]), optionId, now)
      invariant optionId' == optionId + |KeptMarkets(markets[..j])|
    {
      var market := markets[j];
      var marketSubtitle := GetOr(market.subtitle, "Unknown Choice");
      assert markets[..j + 1][..j] == markets[..j] && markets[..j + 1][j] == market;
      if (betId, marketSubtitle) in seenOptions {
        continue;
      }
      RowsSnoc(betId, KeptMarkets(markets[..j]), market, optionId, now);
      seenOptions := seenOptions + {(betId, marketSubtitle)};
      choices' := choices' + [ChoiceRow(optionId', betId, marketSubtitle, "pending")];
      var yesPrice := GetOr(market.yesBid, 0);
      var noPrice := GetOr(market.noBid, 0);
      var yesOdds := GetOr(market.yesBid, 0);
      var noOdds := GetOr(market.noBid, 0);
      var volume := GetOr(market.volume, 0);
      prices' := prices' + [PriceRow(optionId', now, volume, yesPrice, noPrice, yesOdds, noOdds)];
      optionId' := optionId' + 1;
    }
    assert markets[..|markets|] == markets;
  }

  /** The body of insert_event_data's loop for one event
      (kalshiapi.py:188-228), the rows so far and the counter given. */
  method AddEventRows(event: Event, rows: Rows, optionId: int, now: string, digest: string -> nat)
    returns (r: Result<Rows, Crash>, nextOptionId: int)
    ensures r == Extend(rows, event, optionId, now, digest)
    ensures r.Ok? ==> nextOptionId == optionId + |r.value.choices| - |rows.choices|
  {
    var eventName := Get(event.title);
    var expiration := ReadExpiration(event);
    if expiration.Err? {
      return Err(expiration.error), optionId;
    }
    var expirationDate := expiration.value;
    if !Truthy(eventName) || expirationDate.None? {
      assert EventRows(event, optionId, now, digest) == Ok(NoRows);
      assert rows.descriptions + [] == rows.descriptions && rows.choices + [] == rows.choices
          && rows.prices + [] == rows.prices;
      return Ok(rows), optionId;
    }
    var betId := GenerateUniqueBetId(digest, eventName.value, expirationDate.value);
    KeptEventRows(event, eventName.value, expirationDate.value, optionId, now, digest);
    var descriptions := rows.descriptions
      + [DescriptionRow(betId, eventName.value, expirationDate.value, "kalshi", "open", "no")];
    var choices, prices;
    choices, prices, nextOptionId := AppendMarketRows(betId, MarketsOf(event), rows.choices, rows.prices, optionId, now);
    return Ok(Rows(descriptions, choices, prices)), nextOptionId;
  }

  /** insert_event_data's loop over the events (kalshiapi.py:179-228): the
      option counter starts at the maximum existing option id plus one, and
      the first event that raises ends the call. */
  method InsertEventRows(events: seq<Event>, maxOptionId: int, now: string, digest: string -> nat)
    returns (r: Result<Rows, Crash>)
    ensures r == BatchRows(events, maxOptionId + 1, now, digest)
  {
    var rows := NoRows;
    var optionId := maxOptionId + 1;
    for i := 0 to |events|
      invariant BatchRows(events[..i], maxOptionId + 1, now, digest) == Ok(rows)
      invariant optionId == maxOptionId + 1 + |rows.choices|
    {
      var next;
      next, optionId := AddEventRows(events[i], rows, optionId, now, digest);
      BatchRowsLoopStep(events, i, rows, next, maxOptionId + 1, now, digest);
      if next.Err? {
        return next;
      }
      rows := next.value;
    }
    assert events[..|events|] == events;
    return Ok(rows);
  }
}
