/**
 * Keyset paging of the odds board while the events table changes between pages.
 * Identifiers are compared by the database's collation, a parameter here.
 */
module Boards {
  import opened Prelude
  import opened Ids
  import opened Money
  import opened Cursors
  import Radix

  type Less = (string, string) -> bool

  ghost predicate StrictTotal(less: Less) {
    && (forall a :: !less(a, a))
    && (forall a, b, c :: less(a, b) && less(b, c) ==> less(a, c))
    && (forall a, b :: a == b || less(a, b) || less(b, a))
  }

  /** Start first, then identifier: the order every page is sorted and cursored by. */
  predicate Before(less: Less, a: EventKey, b: EventKey) {
    a.start < b.start || (a.start == b.start && less(a.id, b.id))
  }

  lemma BeforeIsOrder(less: Less, a: EventKey, b: EventKey, c: EventKey)
    requires StrictTotal(less)
    ensures !Before(less, a, a)
    ensures Before(less, a, b) && Before(less, b, c) ==> Before(less, a, c)
    ensures a == b || Before(less, a, b) || Before(less, b, a)
  {}

  /** A row; `listed` is a status the board shows. */
  datatype Event = Event(start: Int64, id: string, league: string, listed: bool) {
    function Key(): EventKey { EventKey(start, id) }
  }

  type Table = map<string, Event>

  ghost predicate TableOk(t: Table) { forall id | id in t :: t[id].id == id && ValidId(id) }

  /** The league is empty on the cross-league board. */
  datatype Query = Query(league: string, startingBefore: Time, after: Option<EventKey>, limit: nat)

  /** The row belongs to the set being paged. */
  predicate InSet(t: Table, q: Query, e: Event) {
    && e.id in t && t[e.id] == e && e.listed
    && (q.league != "" ==> e.league == q.league) && e.start < q.startingBefore
  }

  predicate Past(less: Less, after: Option<EventKey>, k: EventKey) { after.Some? ==> Before(less, after.value, k) }

  predicate Wanted(less: Less, t: Table, q: Query, e: Event) { InSet(t, q, e) && Past(less, q.after, e.Key()) }

  ghost predicate Sorted(less: Less, keys: seq<EventKey>) {
    forall i, j | 0 <= i < j < |keys| :: Before(less, keys[i], keys[j])
  }

  function Keys(events: seq<Event>): (r: seq<EventKey>)
    ensures |r| == |events|
  {
    seq(|events|, i requires 0 <= i < |events| => events[i].Key())
  }

  /** What the keyset statement returns: the first `fetch` wanted rows in order. */
  ghost predicate Rows(less: Less, t: Table, q: Query, fetch: nat, rows: seq<Event>) {
    && |rows| <= fetch
    && Sorted(less, Keys(rows))
    && (forall i | 0 <= i < |rows| :: Wanted(less, t, q, rows[i]))
    && forall e | Wanted(less, t, q, e) :: e in rows || (|rows| == fetch > 0 && Before(less, rows[fetch - 1].Key(), e.Key()))
  }

  datatype Page = Page(events: seq<Event>, hasMore: bool)

  /** A page holds the first wanted rows in order, and says whether it left any out. */
  ghost predicate IsPage(less: Less, t: Table, q: Query, p: Page) {
    && |p.events| <= q.limit
    && Sorted(less, Keys(p.events))
    && (forall i | 0 <= i < |p.events| :: Wanted(less, t, q, p.events[i]))
    && (p.hasMore ==> p.events != [] && exists e :: Wanted(less, t, q, e) && Before(less, p.events[|p.events| - 1].Key(), e.Key()))
    && forall e | Wanted(less, t, q, e) ::
         e in p.events || (p.hasMore && p.events != [] && Before(less, p.events[|p.events| - 1].Key(), e.Key()))
  }

  /** One row more than the page is fetched, and whether it came decides whether there is a next page. */
  method EventPage(less: Less, ghost t: Table, q: Query, rows: seq<Event>) returns (p: Page)
    requires StrictTotal(less) && q.limit >= 1 && Rows(less, t, q, q.limit + 1, rows)
    ensures IsPage(less, t, q, p)
  {
    hide StrictTotal, Rows, IsPage;
    var cols, hasMore := rows, false;
    if |rows| > q.limit {
      hasMore := true;
      cols := rows[..q.limit];
    }
    p := Page([], hasMore);
    for i := 0 to |cols|
      invariant p == Page(cols[..i], hasMore)
    {
      p := p.(events := p.events + [cols[i]]);
    }
    assert cols[..|cols|] == cols;
    if hasMore {
      CutPage(less, t, q, rows);
    } else {
      WholePage(less, t, q, rows);
    }
  }

  lemma WholePage(less: Less, t: Table, q: Query, rows: seq<Event>)
    requires |rows| <= q.limit && Rows(less, t, q, q.limit + 1, rows)
    ensures IsPage(less, t, q, Page(rows, false))
  {}

  lemma CutPage(less: Less, t: Table, q: Query, rows: seq<Event>)
    requires StrictTotal(less) && q.limit >= 1 && |rows| > q.limit && Rows(less, t, q, q.limit + 1, rows)
    ensures IsPage(less, t, q, Page(rows[..q.limit], true))
  {
    hide StrictTotal, Wanted;
    var cols := rows[..q.limit];
    assert forall i | 0 <= i < |cols| :: Keys(cols)[i] == Keys(rows)[i];
    assert Before(less, Keys(rows)[q.limit - 1], Keys(rows)[q.limit]);
    assert Wanted(less, t, q, rows[q.limit]);
    hide Before;
    forall e | Wanted(less, t, q, e) && e !in cols ensures Before(less, cols[|cols| - 1].Key(), e.Key()) {
      LeftOut(less, rows, q.limit, e);
    }
  }

  /**
   * Which rows a page shows: those of the league, when one is asked for, that the board
   * lists, that start inside the window and come after the cursor, up to its last row
   * when more follow.
   */
  lemma PageExactly(less: Less, t: Table, q: Query, p: Page, e: Event)
    requires StrictTotal(less) && IsPage(less, t, q, p)
    ensures e in p.events <==>
            && e.id in t && t[e.id] == e && e.listed
            && (q.league == "" || e.league == q.league) && e.start < q.startingBefore
            && (q.after.Some? ==>
                  q.after.value.start < e.start || (q.after.value.start == e.start && less(q.after.value.id, e.id)))
            && (p.hasMore ==> p.events != [] && !Before(less, p.events[|p.events| - 1].Key(), e.Key()))
  {
    PastSpelt(less, q.after, e.Key());
    if e in p.events {
      var i :| 0 <= i < |p.events| && p.events[i] == e;
      assert Wanted(less, t, q, p.events[i]);
      assert i < |p.events| - 1 ==> Before(less, Keys(p.events)[i], Keys(p.events)[|p.events| - 1]);
      BeforeIsOrder(less, p.events[|p.events| - 1].Key(), e.Key(), p.events[|p.events| - 1].Key());
    }
    hide StrictTotal, Before, Sorted;
  }

  lemma PastSpelt(less: Less, after: Option<EventKey>, k: EventKey)
    ensures Past(less, after, k) <==>
            (after.Some? ==> after.value.start < k.start || (after.value.start == k.start && less(after.value.id, k.id)))
  {}

  lemma LeftOut(less: Less, rows: seq<Event>, limit: nat, e: Event)
    requires StrictTotal(less) && 1 <= limit && |rows| == limit + 1 && Sorted(less, Keys(rows))
    requires e in rows || Before(less, rows[limit].Key(), e.Key())
    requires e !in rows[..limit]
    ensures Before(less, rows[limit - 1].Key(), e.Key())
  {
    assert Before(less, Keys(rows)[limit - 1], Keys(rows)[limit]);
    if e in rows {
      var i :| 0 <= i < |rows| && rows[i] == e;
      assert forall m | 0 <= m < limit :: rows[m] in rows[..limit];
    } else {
      BeforeIsOrder(less, rows[limit - 1].Key(), rows[limit].Key(), e.Key());
    }
  }

  /** The `cursor` parameter: absent means the first page, and anything unreadable is refused. */
  function PageCursor(raw: string, scope: UInt64): Option<Option<EventKey>> {
    if raw == "" then Some(None)
    else
      match Decode(raw, scope)
      case None => None
      case Some(c) => Some(Some(c.key))
  }

  /** The continuation token of the last row, or nothing when there is no next page. */
  function NextCursor(p: Page, scope: UInt64): string
    requires p.events != [] ==> ValidId(p.events[|p.events| - 1].id)
  {
    if !p.hasMore || |p.events| == 0 then ""
    else Encode(Cursor(p.events[|p.events| - 1].Key(), scope))
  }

  /** A token that was minted reads back as the key of the row it was minted from. */
  lemma CursorContinues(p: Page, scope: UInt64)
    requires p.hasMore && p.events != [] && ValidId(p.events[|p.events| - 1].id)
    ensures PageCursor(NextCursor(p, scope), scope) == Some(Some(p.events[|p.events| - 1].Key()))
  {
    CursorRoundTrip(Cursor(p.events[|p.events| - 1].Key(), scope), scope);
    NothingUnderEmpty(scope);
    hide Encode, Decode;
  }

  /** No token exactly on the last page, and no page without rows. */
  lemma NoTokenExactly(p: Page, scope: UInt64)
    requires p.events != [] ==> ValidId(p.events[|p.events| - 1].id)
    ensures NextCursor(p, scope) == "" <==> !p.hasMore || p.events == []
    ensures PageCursor("", scope) == Some(None)
  {
    if p.hasMore && p.events != [] {
      CursorContinues(p, scope);
      hide Encode, Decode;
    }
  }

  lemma NothingUnderEmpty(scope: UInt64)
    ensures Decode("", scope) == None
  {}

  /** Page after page through the tokens, each served from the table as it then is, until no token is given. */
  ghost predicate Walk(less: Less, scope: UInt64, q: Query, cursor: string, tables: seq<Table>, pages: seq<Page>)
    decreases |pages|
  {
    && |tables| == |pages|
    && (pages != [] ==>
          && TableOk(tables[0])
          && PageCursor(cursor, scope).Some?
          && IsPage(less, tables[0], q.(after := PageCursor(cursor, scope).value), pages[0])
          && (pages[1..] != [] ==>
                && pages[0].hasMore
                && Walk(less, scope, q, NextCursor(pages[0], scope), tables[1..], pages[1..])))
  }

  function Emitted(pages: seq<Page>): seq<EventKey> {
    if pages == [] then [] else Keys(pages[0].events) + Emitted(pages[1..])
  }

  lemma SortedConcat(less: Less, a: seq<EventKey>, b: seq<EventKey>)
    requires StrictTotal(less) && Sorted(less, a) && Sorted(less, b)
    requires a != [] && forall i | 0 <= i < |b| :: Before(less, a[|a| - 1], b[i])
    ensures Sorted(less, a + b)
  {
    hide StrictTotal;
    forall i, j | 0 <= i < |a| && 0 <= j < |b| ensures Before(less, a[i], b[j]) {
      if i < |a| - 1 {
        BeforeIsOrder(less, a[i], a[|a| - 1], b[j]);
      }
    }
  }

  ghost predicate AllPast(less: Less, after: Option<EventKey>, keys: seq<EventKey>) {
    forall i | 0 <= i < |keys| :: Past(less, after, keys[i])
  }

  lemma PagePast(less: Less, t: Table, q: Query, p: Page)
    requires IsPage(less, t, q, p)
    ensures AllPast(less, q.after, Keys(p.events))
  {
    forall i | 0 <= i < |p.events| ensures Past(less, q.after, Keys(p.events)[i]) {
      assert Wanted(less, t, q, p.events[i]);
    }
  }

  lemma PastThrough(less: Less, after: Option<EventKey>, k: EventKey, rest: seq<EventKey>)
    requires StrictTotal(less) && Past(less, after, k) && AllPast(less, Some(k), rest)
    ensures AllPast(less, after, rest)
  {
    forall i | 0 <= i < |rest| ensures Past(less, after, rest[i]) {
      assert Past(less, Some(k), rest[i]);
    }
  }

  lemma LastValid(less: Less, t: Table, q: Query, p: Page)
    requires TableOk(t) && IsPage(less, t, q, p) && p.events != []
    ensures ValidId(p.events[|p.events| - 1].id)
  {
    assert Wanted(less, t, q, p.events[|p.events| - 1]);
  }

  /** Across the whole walk keys only go up: nothing is emitted twice or out of order. */
  lemma {:induction false} WalkSorted(less: Less, scope: UInt64, q: Query, cursor: string, tables: seq<Table>, pages: seq<Page>)
    requires StrictTotal(less) && Walk(less, scope, q, cursor, tables, pages)
    ensures Sorted(less, Emitted(pages))
    ensures pages != [] ==> AllPast(less, PageCursor(cursor, scope).value, Emitted(pages))
    decreases |pages|
  {
    hide StrictTotal, TableOk, IsPage, PageCursor, NextCursor;
    if pages != [] {
      var after := PageCursor(cursor, scope).value;
      var p := pages[0];
      PagePast(less, tables[0], q.(after := after), p);
      PageSorted(less, tables[0], q.(after := after), p);
      if pages[1..] == [] {
        assert Emitted(pages) == Keys(p.events);
      } else {
        PageFull(less, tables[0], q.(after := after), p);
        var last := p.events[|p.events| - 1].Key();
        CursorContinues(p, scope);
        WalkSorted(less, scope, q, NextCursor(p, scope), tables[1..], pages[1..]);
        var rest := Emitted(pages[1..]);
        PastEach(less, last, rest);
        SortedConcat(less, Keys(p.events), rest);
        assert Past(less, after, Keys(p.events)[|p.events| - 1]);
        PastThrough(less, after, last, rest);
      }
    }
  }

  lemma PastEach(less: Less, k: EventKey, rest: seq<EventKey>)
    requires AllPast(less, Some(k), rest)
    ensures forall i | 0 <= i < |rest| :: Before(less, k, rest[i])
  {
    forall i | 0 <= i < |rest| ensures Before(less, k, rest[i]) {
      assert Past(less, Some(k), rest[i]);
    }
  }

  lemma PageSorted(less: Less, t: Table, q: Query, p: Page)
    requires IsPage(less, t, q, p)
    ensures Sorted(less, Keys(p.events))
  {}

  lemma PageFull(less: Less, t: Table, q: Query, p: Page)
    requires TableOk(t) && IsPage(less, t, q, p) && p.hasMore
    ensures p.events != [] && ValidId(p.events[|p.events| - 1].id)
  {
    LastValid(less, t, q, p);
  }

  /** A row with this key is in the set being paged. */
  ghost predicate KeyInSet(t: Table, q: Query, k: EventKey) {
    exists e :: InSet(t, q, e) && e.Key() == k
  }

  lemma KeyPaged(less: Less, t: Table, q: Query, p: Page, k: EventKey)
    requires IsPage(less, t, q, p) && KeyInSet(t, q, k) && Past(less, q.after, k)
    ensures k in Keys(p.events)
            || (p.hasMore && p.events != [] && Before(less, p.events[|p.events| - 1].Key(), k))
  {
    var e :| InSet(t, q, e) && e.Key() == k;
    assert Wanted(less, t, q, e);
    if e in p.events {
      var i :| 0 <= i < |p.events| && p.events[i] == e;
      assert Keys(p.events)[i] == k;
    }
  }

  /** A key in the set for the whole walk, and past its start, is emitted before the walk runs out of pages. */
  lemma {:induction false} WalkComplete(less: Less, scope: UInt64, q: Query, cursor: string, tables: seq<Table>,
                                        pages: seq<Page>, k: EventKey)
    requires Walk(less, scope, q, cursor, tables, pages) && pages != []
    requires Past(less, PageCursor(cursor, scope).value, k)
    requires forall i | 0 <= i < |tables| :: KeyInSet(tables[i], q, k)
    ensures k in Emitted(pages) || pages[|pages| - 1].hasMore
    decreases |pages|
  {
    hide TableOk, IsPage, PageCursor, NextCursor, KeyInSet;
    var after := PageCursor(cursor, scope).value;
    var p := pages[0];
    SameSet(tables[0], q, after, k);
    KeyPaged(less, tables[0], q.(after := after), p, k);
    if k !in Keys(p.events) && pages[1..] != [] {
      PageFull(less, tables[0], q.(after := after), p);
      CursorContinues(p, scope);
      assert forall i | 0 <= i < |tables[1..]| :: tables[1..][i] == tables[i + 1];
      WalkComplete(less, scope, q, NextCursor(p, scope), tables[1..], pages[1..], k);
    }
  }

  lemma SameSet(t: Table, q: Query, after: Option<EventKey>, k: EventKey)
    requires KeyInSet(t, q, k)
    ensures KeyInSet(t, q.(after := after), k)
  {
    var e :| InSet(t, q, e) && e.Key() == k;
    assert InSet(t, q.(after := after), e);
  }

  /**
   * From the first page to the last, whatever is inserted, deleted or moved between
   * pages: no key is emitted twice, keys come in order, and every key that stays in
   * the set throughout is emitted exactly once.
   */
  lemma BoardWalk(less: Less, scope: UInt64, q: Query, tables: seq<Table>, pages: seq<Page>, k: EventKey)
    requires StrictTotal(less) && Walk(less, scope, q, "", tables, pages)
    requires pages != [] && !pages[|pages| - 1].hasMore
    requires forall i | 0 <= i < |tables| :: KeyInSet(tables[i], q, k)
    ensures Sorted(less, Emitted(pages))
    ensures exists i :: 0 <= i < |Emitted(pages)| && Emitted(pages)[i] == k
                        && forall j | 0 <= j < |Emitted(pages)| && j != i :: Emitted(pages)[j] != k
  {
    WalkSorted(less, scope, q, "", tables, pages);
    WalkComplete(less, scope, q, "", tables, pages, k);
    hide Emitted, Walk, KeyInSet;
    var keys := Emitted(pages);
    var i :| 0 <= i < |keys| && keys[i] == k;
    forall j | 0 <= j < |keys| && j != i ensures keys[j] != k {
      BeforeIsOrder(less, keys[i], keys[j], k);
      assert if i < j then Before(less, keys[i], keys[j]) else Before(less, keys[j], keys[i]);
    }
  }

  /** The parts a board page is fingerprinted by. */
  function BoardParts(league: string, startingBefore: Int64): seq<string> {
    ["board", league, Radix.FormatSigned(startingBefore, 10)]
  }

  /** Two boards are fingerprinted over the same bytes only when both the league and the window agree. */
  lemma BoardPartsInjective(l1: string, t1: Int64, l2: string, t2: Int64)
    requires Framing(BoardParts(l1, t1)) == Framing(BoardParts(l2, t2))
    ensures l1 == l2 && t1 == t2
  {
    FramingInjective(BoardParts(l1, t1), BoardParts(l2, t2));
    hide Radix.FormatSigned;
    var a, b := BoardParts(l1, t1), BoardParts(l2, t2);
    assert a[1] == b[1] && a[2] == b[2];
    Radix.SignedRoundTrip(t1, 10, MAX_INT64);
    Radix.SignedRoundTrip(t2, 10, MAX_INT64);
  }

  /** A token minted under one fingerprint is refused under any other, as when a default window has moved. */
  lemma OtherWindowRefused(p: Page, minted: UInt64, presented: UInt64)
    requires p.hasMore && p.events != [] && ValidId(p.events[|p.events| - 1].id)
    ensures PageCursor(NextCursor(p, minted), presented).None? <==> minted != presented
  {
    hide Encode, Decode, ValidId;
    var c := Cursor(p.events[|p.events| - 1].Key(), minted);
    CursorRoundTrip(c, presented);
    CursorRoundTrip(c, minted);
    NothingUnderEmpty(minted);
  }
}
