/** Closing expired bets (update_database.py, close_expired_events). */
module UpdateDatabase {

  import opened Wrappers

  /** A calendar date, the value of a DATE column, ordered as dates are. */
  datatype Date = Date(year: int, month: int, day: int)

  /** `a` is strictly earlier than `b`. */
  predicate Before(a: Date, b: Date)
  {
    a.year < b.year
    || (a.year == b.year && a.month < b.month)
    || (a.year == b.year && a.month == b.month && a.day < b.day)
  }

  /** The status column, an ENUM('open', 'closed') that may also be NULL. */
  datatype Status = Open | Closed | Unset

  /** A row of bet_description. */
  datatype BetDescription = BetDescription(
    betId: int,
    name: string,
    expirationDate: Option<Date>,
    website: Option<string>,
    status: Status,
    isArbitrage: Option<bool>)

  /** bet_id is the table's primary key. */
  ghost predicate UniqueIds(t: seq<BetDescription>)
  {
    forall a, b :: 0 <= a < b < |t| ==> t[a].betId != t[b].betId
  }

  /** The loop's test on a selected row: its expiration date is present and
      strictly before today. */
  predicate PastExpiration(row: BetDescription, today: Date)
  {
    row.expirationDate.Some? && Before(row.expirationDate.value, today)
  }

  /** A row the run closes: open, and past its expiration. */
  predicate Expired(row: BetDescription, today: Date)
  {
    row.status == Open && PastExpiration(row, today)
  }

  /** `SELECT ... FROM bet_description WHERE status = 'open'`, in table order. */
  function SelectOpen(t: seq<BetDescription>): (r: seq<BetDescription>)
    ensures forall row :: row in r <==> row in t && row.status == Open
  {
    if t == [] then []
    else
      var last := t[|t| - 1];
      assert t == t[..|t| - 1] + [last];
      SelectOpen(t[..|t| - 1]) + (if last.status == Open then [last] else [])
  }

  /** The ids that the selection loop appends to closed_events, in order. */
  function CollectExpired(selected: seq<BetDescription>, today: Date): (ids: seq<int>)
    ensures |ids| <= |selected|
  {
    if selected == [] then []
    else
      var last := selected[|selected| - 1];
      CollectExpired(selected[..|selected| - 1], today) + (if PastExpiration(last, today) then [last.betId] else [])
  }

  /** The ids a run on `today` closes. */
  function ExpiredIds(t: seq<BetDescription>, today: Date): seq<int>
  {
    CollectExpired(SelectOpen(t), today)
  }

  /** One `UPDATE bet_description SET status = 'closed' WHERE bet_id = id`. */
  function SetClosed(t: seq<BetDescription>, id: int): (r: seq<BetDescription>)
    ensures |r| == |t|
    ensures forall k :: 0 <= k < |t| ==> r[k] == t[k].(status := r[k].status)
    ensures forall k :: 0 <= k < |t| ==> (r[k].status == Closed <==> t[k].status == Closed || t[k].betId == id)
  {
    seq(|t|, k requires 0 <= k < |t| => if t[k].betId == id then t[k].(status := Closed) else t[k])
  }

  /** The table once every id in `ids` has been updated. */
  function ClosedTable(t: seq<BetDescription>, ids: seq<int>): (r: seq<BetDescription>)
    ensures |r| == |t|
    ensures forall k :: 0 <= k < |t| ==> r[k] == t[k].(status := r[k].status)
    ensures forall k :: 0 <= k < |t| ==> (r[k].status == Closed <==> t[k].status == Closed || t[k].betId in ids)
  {
    seq(|t|, k requires 0 <= k < |t| => if t[k].betId in ids then t[k].(status := Closed) else t[k])
  }

  /** The number of rows whose status differs between two versions of the table. */
  function Transitioned(before: seq<BetDescription>, after: seq<BetDescription>): nat
    requires |before| == |after|
  {
    if before == [] then 0
    else
      var n := |before| - 1;
      Transitioned(before[..n], after[..n]) + (if before[n].status != after[n].status then 1 else 0)
  }

  /** Before is a strict order: nothing is before itself, and it is transitive. */
  lemma BeforeIsStrictOrder(a: Date, b: Date, c: Date)
    ensures !Before(a, a)
    ensures Before(a, b) && Before(b, c) ==> Before(a, c)
    ensures !(Before(a, b) && Before(b, a))
  {
  }

  lemma {:induction false} CollectExpiredMembers(selected: seq<BetDescription>, today: Date)
    ensures forall id :: id in CollectExpired(selected, today) <==>
      exists row :: row in selected && row.betId == id && PastExpiration(row, today)
  {
    if selected != [] {
      var init := selected[..|selected| - 1];
      CollectExpiredMembers(init, today);
      assert selected == init + [selected[|selected| - 1]];
    }
  }

  /** The ids a run closes are exactly the ids of the open rows past their
      expiration; rows that are not open are never examined. */
  lemma ExpiredIdsMembers(t: seq<BetDescription>, today: Date)
    ensures forall id :: id in ExpiredIds(t, today) <==>
      exists row :: row in t && row.betId == id && Expired(row, today)
  {
    CollectExpiredMembers(SelectOpen(t), today);
  }

  /** Appending one id to the updated ids is one more UPDATE statement. */
  lemma ClosedTableSnoc(t: seq<BetDescription>, ids: seq<int>, id: int)
    ensures SetClosed(ClosedTable(t, ids), id) == ClosedTable(t, ids + [id])
  {
    var l := SetClosed(ClosedTable(t, ids), id);
    var r := ClosedTable(t, ids + [id]);
    forall k | 0 <= k < |t| ensures l[k] == r[k] {
      assert t[k].betId in ids + [id] <==> t[k].betId in ids || t[k].betId == id;
    }
  }

  /** The outcome of a run row by row, when bet ids are unique: a row is
      closed afterwards exactly when it was closed before or was open and
      expired strictly before today; a row that expires today stays open;
      every other row keeps its status; no field but the status changes. */
  lemma CloseExpiredRowwise(t: seq<BetDescription>, today: Date)
    requires UniqueIds(t)
    ensures var r := ClosedTable(t, ExpiredIds(t, today));
      && |r| == |t|
      && (forall k :: 0 <= k < |t| ==>
           (r[k].status == Closed <==> t[k].status == Closed || Expired(t[k], today)))
      && (forall k :: 0 <= k < |t| && !Expired(t[k], today) ==> r[k] == t[k])
      && (forall k :: 0 <= k < |t| ==> r[k] == t[k].(status := r[k].status))
      && (forall k :: 0 <= k < |t| && t[k].status == Open && t[k].expirationDate == Some(today) ==>
            r[k].status == Open)
  {
    var ids := ExpiredIds(t, today);
    var r := ClosedTable(t, ids);
    ExpiredIdsMembers(t, today);
    forall k | 0 <= k < |t| ensures t[k].betId in ids <==> Expired(t[k], today) {
      if t[k].betId in ids {
        var row :| row in t && row.betId == t[k].betId && Expired(row, today);
        var q :| 0 <= q < |t| && t[q] == row;
        assert q == k;
      } else {
        assert t[k] in t;
      }
    }
    BeforeIsStrictOrder(today, today, today);
  }

  lemma {:induction false} CollectExpiredEmpty(selected: seq<BetDescription>, today: Date)
    requires forall row :: row in selected ==> !PastExpiration(row, today)
    ensures CollectExpired(selected, today) == []
  {
    if selected != [] {
      var init := selected[..|selected| - 1];
      assert forall row :: row in init ==> row in selected;
      assert selected[|selected| - 1] in selected;
      CollectExpiredEmpty(init, today);
    }
  }

  /** A second run on the same day finds nothing to close and changes nothing. */
  lemma CloseExpiredIdempotent(t: seq<BetDescription>, today: Date)
    ensures var once := ClosedTable(t, ExpiredIds(t, today));
      ExpiredIds(once, today) == [] && ClosedTable(once, ExpiredIds(once, today)) == once
  {
    var ids := ExpiredIds(t, today);
    var once := ClosedTable(t, ids);
    ExpiredIdsMembers(t, today);
    forall row | row in SelectOpen(once) ensures !PastExpiration(row, today) {
      var k :| 0 <= k < |once| && once[k] == row;
      assert t[k] in t;
    }
    CollectExpiredEmpty(SelectOpen(once), today);
  }

  lemma {:induction false} ExpiredIdsSnoc(t: seq<BetDescription>, today: Date)
    requires t != []
    ensures var n := |t| - 1;
      ExpiredIds(t, today) == ExpiredIds(t[..n], today) + (if Expired(t[n], today) then [t[n].betId] else [])
  {
    var n := |t| - 1;
    var s := SelectOpen(t[..n]);
    if t[n].status == Open {
      assert (s + [t[n]])[..|s|] == s;
    } else {
      assert s + [] == s;
    }
  }

  /** Updating a table and then dropping its last row is updating the shorter table. */
  lemma ClosedTablePrefix(t: seq<BetDescription>, ids: seq<int>, n: nat)
    requires n <= |t|
    ensures ClosedTable(t, ids)[..n] == ClosedTable(t[..n], ids)
  {
  }

  /** Two id lists that agree on every id of the table update it alike. */
  lemma ClosedTableAgree(t: seq<BetDescription>, ids: seq<int>, ids': seq<int>)
    requires forall k :: 0 <= k < |t| ==> (t[k].betId in ids <==> t[k].betId in ids')
    ensures ClosedTable(t, ids) == ClosedTable(t, ids')
  {
  }

  /** With unique bet ids, the count a run reports is the number of rows
      whose status it changed. */
  lemma {:induction false} CountIsTransitioned(t: seq<BetDescription>, today: Date)
    requires UniqueIds(t)
    ensures Transitioned(t, ClosedTable(t, ExpiredIds(t, today))) == |ExpiredIds(t, today)|
  {
    if t != [] {
      var n := |t| - 1;
      var init := t[..n];
      var last := t[n];
      assert UniqueIds(init);
      CountIsTransitioned(init, today);
      ExpiredIdsSnoc(t, today);
      var ids := ExpiredIds(t, today);
      var initIds := ExpiredIds(init, today);
      LastIdIsFresh(t, today);
      var r := ClosedTable(t, ids);
      ClosedTablePrefix(t, ids, n);
      assert forall k :: 0 <= k < n ==> init[k].betId != last.betId;
      ClosedTableAgree(init, ids, initIds);
      assert r[..n] == ClosedTable(init, initIds);
      assert Transitioned(t, r) == Transitioned(init, r[..n]) + (if last.status != r[n].status then 1 else 0);
    }
  }

  lemma LastIdIsFresh(t: seq<BetDescription>, today: Date)
    requires UniqueIds(t) && t != []
    ensures t[|t| - 1].betId !in ExpiredIds(t[..|t| - 1], today)
  {
    var n := |t| - 1;
    ExpiredIdsMembers(t[..n], today);
    forall row | row in t[..n] ensures row.betId != t[n].betId {
      var q :| 0 <= q < n && t[..n][q] == row;
    }
  }

  /** The selection loop: append the id of every selected row whose
      expiration date is before today. */
  method CollectClosedEvents(selected: seq<BetDescription>, today: Date) returns (closedEvents: seq<int>)
    ensures closedEvents == CollectExpired(selected, today)
  {
    closedEvents := [];
    for i := 0 to |selected|
      invariant closedEvents == CollectExpired(selected[..i], today)
    {
      var row := selected[i];
      if row.expirationDate.Some? && Before(row.expirationDate.value, today) {
        closedEvents := closedEvents + [row.betId];
      }
      assert selected[..i + 1][..i] == selected[..i];
    }
    assert selected[..|selected|] == selected;
  }

  /** The bet_description table. */
  class BetDescriptionTable {
    var rows: seq<BetDescription>

    constructor (initial: seq<BetDescription>)
      ensures rows == initial
    {
      rows := initial;
    }

    /** close_expired_events: collect the ids of the selected (open) rows
        whose expiration date is before today, then set each of them to
        'closed'. Returns the number of ids collected, the count the source
        reports. */
    method CloseExpiredEvents(today: Date) returns (count: nat)
      modifies this
      ensures rows == ClosedTable(old(rows), ExpiredIds(old(rows), today))
      ensures count == |ExpiredIds(old(rows), today)|
    {
      var closedEvents := CollectClosedEvents(SelectOpen(rows), today);
      count := |closedEvents|;
      ghost var start := rows;
      assert ClosedTable(start, []) == start;
      for i := 0 to |closedEvents|
        invariant rows == ClosedTable(start, closedEvents[..i])
      {
        ClosedTableSnoc(start, closedEvents[..i], closedEvents[i]);
        rows := SetClosed(rows, closedEvents[i]);
        assert closedEvents[..i + 1] == closedEvents[..i] + [closedEvents[i]];
      }
      assert closedEvents[..|closedEvents|] == closedEvents;
    }
  }
}
