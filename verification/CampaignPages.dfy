/**
 Listing a user's campaigns page by page, newest first, with a cursor that names
 the last row of the page before.
 */
module CampaignPages {
  import opened Options

  /** Sort key of a campaign: creation time, then id. */
  datatype Key = Key(createdAt: int, id: nat)

  datatype Campaign = Campaign(createdAt: int, deleted: bool, members: set<string>)

  /** `a` is listed after `b`. */
  predicate Below(a: Key, b: Key) {
    a.createdAt < b.createdAt || (a.createdAt == b.createdAt && a.id < b.id)
  }

  /** A cursor as the service parses it: absent, without a separator (then ignored), or naming a row. */
  datatype Cursor = Absent | Unsplit | At(key: Key)

  predicate PastCursor(k: Key, cursor: Cursor) {
    cursor.At? ==> Below(k, cursor.key)
  }

  /** The rows a user can see: not deleted, and joined to one membership row. */
  function Visible(table: map<nat, Campaign>, user: string): set<Key> {
    set id | id in table && !table[id].deleted && user in table[id].members :: Key(table[id].createdAt, id)
  }

  function Remaining(keys: set<Key>, cursor: Cursor): set<Key> {
    set k | k in keys && PastCursor(k, cursor)
  }

  predicate Descending(s: seq<Key>) {
    forall i, j | 0 <= i < j < |s| :: Below(s[j], s[i])
  }

  /** The rows in list order. */
  ghost predicate Lists(s: seq<Key>, keys: set<Key>) {
    Descending(s) && forall k :: k in s <==> k in keys
  }

  lemma {:induction false} TopExists(keys: set<Key>)
    requires keys != {}
    ensures exists top | top in keys :: forall k | k in keys && k != top :: Below(k, top)
    decreases |keys|
  {
    var some :| some in keys;
    var rest := keys - {some};
    if rest == {} {
      assert keys == {some};
    } else {
      TopExists(rest);
      var top :| top in rest && forall k | k in rest && k != top :: Below(k, top);
      var winner := if Below(some, top) then top else some;
      forall k | k in keys && k != winner ensures Below(k, winner) {
        assert k == some || k == top || k in rest;
      }
    }
  }

  /** ORDER BY created_at DESC, id DESC. */
  ghost function Sorted(keys: set<Key>): (s: seq<Key>)
    ensures Lists(s, keys)
    decreases |keys|
  {
    if keys == {} then []
    else
      TopExists(keys);
      var top :| top in keys && forall k | k in keys && k != top :: Below(k, top);
      [top] + Sorted(keys - {top})
  }

  /** A set of rows has only one listing. */
  lemma {:induction false} ListingIsUnique(a: seq<Key>, b: seq<Key>)
    requires Descending(a) && Descending(b) && forall k :: k in a <==> k in b
    ensures a == b
    decreases |a|
  {
    if a == [] {
      assert forall i | 0 <= i < |b| :: b[i] in b;
    } else {
      assert a[0] in b && b != [];
      assert b[0] in a;
      assert a[0] == b[0];
      forall k ensures k in a[1..] <==> k in b[1..] {
        assert k in a <==> k == a[0] || k in a[1..];
        assert k in b <==> k == b[0] || k in b[1..];
        assert a[0] !in a[1..] && b[0] !in b[1..];
      }
      ListingIsUnique(a[1..], b[1..]);
    }
  }

  // --- one page ---

  datatype Page = Page(items: seq<Key>, next: Option<Key>, hasMore: bool)

  /**
   The first `limit` rows past the cursor; a next cursor only if there are more and
   the page is not empty. A limit of -1 asks for no row and finds that more than -1.
   */
  ghost function PageOf(keys: set<Key>, cursor: Cursor, limit: int): Page
    requires limit >= -1
  {
    var rows := Sorted(Remaining(keys, cursor));
    if |rows| <= limit then Page(rows, None, false)
    else if limit <= 0 then Page([], None, true)
    else Page(rows[..limit], Some(rows[limit - 1]), true)
  }

  method Top(keys: set<Key>) returns (top: Key)
    requires keys != {}
    ensures top in keys && forall k | k in keys && k != top :: Below(k, top)
  {
    TopExists(keys);
    top :| top in keys && forall k | k in keys && k != top :: Below(k, top);
  }

  ghost predicate IsTail(listing: seq<Key>, n: nat, rest: set<Key>) {
    n <= |listing| && forall k :: k in rest <==> k in listing[n..]
  }

  /** The top of the keys not yet taken is the next of the listing. */
  lemma TopIsNext(listing: seq<Key>, n: nat, rest: set<Key>, top: Key)
    requires Descending(listing) && IsTail(listing, n, rest)
    requires top in rest && forall k | k in rest && k != top :: Below(k, top)
    ensures n < |listing| && listing[n] == top && IsTail(listing, n + 1, rest - {top})
  {
    assert top in listing[n..];
    var tail := listing[n..];
    assert tail[0] in tail && tail[0] in rest;
    assert tail == [tail[0]] + listing[n + 1..];
    forall k | k in listing[n + 1..] ensures Below(k, tail[0]) {
    }
  }

  lemma TailNotEmpty(listing: seq<Key>, n: nat, rest: set<Key>)
    requires IsTail(listing, n, rest) && n < |listing|
    ensures rest != {}
  {
    assert listing[n..][0] in listing[n..];
    assert listing[n..][0] in rest;
  }

  /** ORDER BY and LIMIT: the first `count` keys of the listing. */
  method TakeTop(keys: set<Key>, ghost listing: seq<Key>, count: nat) returns (rows: seq<Key>)
    requires Lists(listing, keys)
    ensures rows == if count < |listing| then listing[..count] else listing
  {
    var rest := keys;
    rows := [];
    while rest != {} && |rows| < count
      invariant |rows| <= count && IsTail(listing, |rows|, rest) && rows == listing[..|rows|]
      decreases |rest|
    {
      var top := Top(rest);
      TopIsNext(listing, |rows|, rest, top);
      rows := rows + [top];
      rest := rest - {top};
    }
    if |rows| < |listing| {
      TailNotEmpty(listing, |rows|, rest);
    }
  }

  /** The query: at most `count` rows past the cursor, in list order. */
  method Query(table: map<nat, Campaign>, user: string, cursor: Cursor, count: nat) returns (rows: seq<Key>)
    ensures var all := Sorted(Remaining(Visible(table, user), cursor));
            rows == if count < |all| then all[..count] else all
  {
    rows := TakeTop(Remaining(Visible(table, user), cursor), Sorted(Remaining(Visible(table, user), cursor)), count);
  }

  /** The slice items[:limit]; a negative limit counts from the end. */
  function Cut(items: seq<Key>, limit: int): seq<Key> {
    if limit >= 0 then (if limit < |items| then items[..limit] else items)
    else if |items| + limit > 0 then items[..|items| + limit]
    else []
  }

  /** One row too many and cut off again is the right number of rows. */
  lemma CutAfterExtra(all: seq<Key>, items: seq<Key>, limit: int)
    requires limit >= -1 && items == if limit + 1 < |all| then all[..limit + 1] else all
    ensures |items| > limit <==> |all| > limit
    ensures |items| > limit ==> Cut(items, limit) == if limit <= 0 then [] else all[..limit]
  {
    if |items| > limit >= 0 {
      assert items[..limit] == all[..limit];
    }
  }

  /**
   One extra row is fetched to learn whether there are more, and is cut off again.
   The database refuses a negative number of rows, and then there is no page.
   */
  method ListCampaigns(table: map<nat, Campaign>, user: string, limit: int, cursor: Cursor) returns (page: Option<Page>)
    ensures page == if limit < -1 then None else Some(PageOf(Visible(table, user), cursor, limit))
  {
    if limit + 1 < 0 {
      return None;
    }
    var items := Query(table, user, cursor, limit + 1);
    CutAfterExtra(Sorted(Remaining(Visible(table, user), cursor)), items, limit);
    var hasMore := |items| > limit;
    if hasMore {
      items := Cut(items, limit);
    }
    var next := None;
    if hasMore && items != [] {
      next := Some(items[|items| - 1]);
    }
    page := Some(Page(items, next, hasMore));
  }

  /**
   Exactly when a page says there is more but gives no way on: no row was asked for
   though there are some, or one less than none was asked for. So callers have to ask
   for at least one row.
   */
  lemma StuckExactly(keys: set<Key>, cursor: Cursor, limit: int)
    requires limit >= -1
    ensures var page := PageOf(keys, cursor, limit);
            page.hasMore && page.next.None? <==> limit == -1 || (limit == 0 && Remaining(keys, cursor) != {})
  {
    var rows := Sorted(Remaining(keys, cursor));
    assert forall k :: k in rows <==> k in Remaining(keys, cursor);
    if rows != [] {
      assert rows[0] in Remaining(keys, cursor);
    }
  }

  /** Asked for one less than none, an empty table has more; asked for none, a table with a row does. */
  lemma StuckPages()
    ensures PageOf({}, Absent, -1) == Page([], None, true)
    ensures PageOf({Key(0, 1)}, Absent, 0) == Page([], None, true)
  {
    StuckExactly({}, Absent, -1);
    assert Key(0, 1) in Remaining({Key(0, 1)}, Absent);
    StuckExactly({Key(0, 1)}, Absent, 0);
  }

  /** Listed before: created later, or at the same time with a greater id. */
  predicate Before(a: Key, b: Key) {
    a.createdAt > b.createdAt || (a.createdAt == b.createdAt && a.id > b.id)
  }

  /** A campaign that is not deleted, has the user as a member and, for a cursor that names a row, comes after it. */
  predicate Shown(table: map<nat, Campaign>, user: string, cursor: Cursor, k: Key) {
    k.id in table && table[k.id].createdAt == k.createdAt && !table[k.id].deleted && user in table[k.id].members &&
    (cursor.At? ==> cursor.key.createdAt > k.createdAt || (cursor.key.createdAt == k.createdAt && cursor.key.id > k.id))
  }

  /**
   A page in columns: campaigns the user may see, in order, none left out that comes
   before one that is in, and as many as asked for unless they run out.
   */
  lemma PageInColumns(table: map<nat, Campaign>, user: string, cursor: Cursor, limit: int)
    requires limit >= -1
    ensures var page := PageOf(Visible(table, user), cursor, limit);
            (forall k | k in page.items :: Shown(table, user, cursor, k)) &&
            (forall i, j | 0 <= i < j < |page.items| :: Before(page.items[i], page.items[j])) &&
            (forall k, l | k in page.items && Shown(table, user, cursor, l) && l !in page.items :: Before(k, l)) &&
            (page.hasMore <==> limit == -1 || exists k :: Shown(table, user, cursor, k) && k !in page.items) &&
            (page.hasMore ==> |page.items| == if limit > 0 then limit else 0) &&
            (limit >= 0 ==> |page.items| <= limit) &&
            page.next == if page.hasMore && |page.items| > 0 then Some(page.items[|page.items| - 1]) else None
  {
    var keys, page := Visible(table, user), PageOf(Visible(table, user), cursor, limit);
    PageFacts(keys, cursor, limit);
    forall k ensures Shown(table, user, cursor, k) <==> k in keys && PastCursor(k, cursor) {
    }
    forall k | Shown(table, user, cursor, k) && k !in page.items ensures LeftOver(keys, cursor, page, k) {
    }
  }

  // --- a scan ---

  /** What the user could see when a page was asked for, and how many rows were asked for. */
  datatype Visit = Visit(keys: set<Key>, limit: nat)

  /** The rows returned by following the cursors, one visit a page. */
  ghost function Collected(visits: seq<Visit>, cursor: Cursor): seq<Key>
    decreases |visits|
  {
    if visits == [] then []
    else
      var page := PageOf(visits[0].keys, cursor, visits[0].limit);
      page.items + if page.next.None? then [] else Collected(visits[1..], At(page.next.value))
  }

  /** How many of the visits the scan makes before a page has no next cursor. */
  ghost function Pages(visits: seq<Visit>, cursor: Cursor): nat
    decreases |visits|
  {
    if visits == [] then 0
    else
      var page := PageOf(visits[0].keys, cursor, visits[0].limit);
      1 + if page.next.None? then 0 else Pages(visits[1..], At(page.next.value))
  }

  /** The scan reaches a page without a next cursor. */
  ghost predicate Completes(visits: seq<Visit>, cursor: Cursor)
    decreases |visits|
  {
    visits != [] &&
    var page := PageOf(visits[0].keys, cursor, visits[0].limit);
    page.next.Some? ==> Completes(visits[1..], At(page.next.value))
  }

  predicate AtLeastOneRow(visits: seq<Visit>) {
    forall v | v in visits :: v.limit >= 1
  }

  /** A row past the cursor that the page does not have. */
  predicate LeftOver(keys: set<Key>, cursor: Cursor, page: Page, k: Key) {
    k in keys && PastCursor(k, cursor) && k !in page.items
  }

  lemma PageFacts(keys: set<Key>, cursor: Cursor, limit: int)
    requires limit >= -1
    ensures var page := PageOf(keys, cursor, limit);
            Descending(page.items) && (forall k | k in page.items :: k in keys && PastCursor(k, cursor)) &&
            (page.hasMore <==> limit == -1 || exists k :: LeftOver(keys, cursor, page, k)) &&
            (page.next.Some? <==> page.hasMore && limit >= 1) &&
            (page.next.Some? ==>
               PastCursor(page.next.value, cursor) && page.next.value in page.items &&
               (forall k | k in page.items && k != page.next.value :: Below(page.next.value, k)) &&
               (forall k | LeftOver(keys, cursor, page, k) :: Below(k, page.next.value)))
  {
    var rows := Sorted(Remaining(keys, cursor));
    var page := PageOf(keys, cursor, limit);
    assert forall k :: k in rows <==> k in Remaining(keys, cursor);
    if |rows| > limit >= 0 {
      assert rows[limit] in rows && Descending(rows);
      assert LeftOver(keys, cursor, page, rows[limit]);
    }
    if |rows| > limit >= 1 {
      LastOfPage(rows, limit);
      assert rows[limit - 1] in rows;
      forall k | LeftOver(keys, cursor, page, k) ensures Below(k, rows[limit - 1]) {
        assert k in rows;
      }
    }
  }

  /** The rows cut off come after the last row kept, and the others before it. */
  lemma LastOfPage(rows: seq<Key>, limit: nat)
    requires Descending(rows) && 1 <= limit < |rows|
    ensures rows[limit - 1] in rows[..limit]
    ensures forall k | k in rows[..limit] :: k in rows && (k != rows[limit - 1] ==> Below(rows[limit - 1], k))
    ensures forall k | k in rows && k !in rows[..limit] :: Below(k, rows[limit - 1])
  {
    assert rows[..limit][limit - 1] == rows[limit - 1];
    forall i | 0 <= i < limit ensures rows[i] in rows[..limit] {
      assert rows[..limit][i] == rows[i];
    }
  }

  /**
   A scan visits strictly descending keys, so it returns no row twice, whatever
   rows come and go between its pages; and it returns only rows that were visible.
   */
  lemma {:induction false} ScanDescends(visits: seq<Visit>, cursor: Cursor)
    requires AtLeastOneRow(visits)
    ensures Descending(Collected(visits, cursor))
    ensures forall k | k in Collected(visits, cursor) ::
              PastCursor(k, cursor) && exists v :: v in visits && k in v.keys
    decreases |visits|
  {
    if visits != [] {
      assert visits[0] in visits;
      PageFacts(visits[0].keys, cursor, visits[0].limit);
      var page := PageOf(visits[0].keys, cursor, visits[0].limit);
      if page.next.Some? {
        var rest := Collected(visits[1..], At(page.next.value));
        ScanDescends(visits[1..], At(page.next.value));
        forall k, l | k in page.items && l in rest ensures Below(l, k) {
        }
        forall k | k in rest ensures PastCursor(k, cursor) && exists v :: v in visits && k in v.keys {
          var v :| v in visits[1..] && k in v.keys;
          assert v in visits;
        }
      }
    }
  }

  /** A completed scan returns every row that was visible at each of its pages. */
  lemma {:induction false} NothingIsMissed(visits: seq<Visit>, cursor: Cursor, k: Key)
    requires AtLeastOneRow(visits) && Completes(visits, cursor) && PastCursor(k, cursor)
    requires forall i | 0 <= i < Pages(visits, cursor) && i < |visits| :: k in visits[i].keys
    ensures k in Collected(visits, cursor)
    decreases |visits|
  {
    assert visits[0] in visits;
    PageFacts(visits[0].keys, cursor, visits[0].limit);
    var page := PageOf(visits[0].keys, cursor, visits[0].limit);
    if page.next.Some? && k !in page.items {
      forall i | 0 <= i < Pages(visits[1..], At(page.next.value)) && i < |visits[1..]| ensures k in visits[1..][i].keys {
        assert visits[1..][i] == visits[i + 1];
      }
      NothingIsMissed(visits[1..], At(page.next.value), k);
    }
  }

  predicate Unchanging(visits: seq<Visit>, keys: set<Key>) {
    forall v | v in visits :: v.keys == keys
  }

  /** On a table that does not change, a completed scan returns the whole list, in order. */
  lemma FixedTableScan(visits: seq<Visit>, keys: set<Key>)
    requires AtLeastOneRow(visits) && Unchanging(visits, keys) && Completes(visits, Absent)
    ensures Collected(visits, Absent) == Sorted(keys)
  {
    ScanDescends(visits, Absent);
    forall k ensures k in Collected(visits, Absent) <==> k in keys {
      if k in keys {
        forall i | 0 <= i < |visits| ensures k in visits[i].keys { assert visits[i] in visits; }
        NothingIsMissed(visits, Absent, k);
      }
    }
    ListingIsUnique(Collected(visits, Absent), Sorted(keys));
  }

  /** On a table that does not change, the scan completes after at most as many pages as rows, plus one. */
  lemma {:induction false} FixedTableScanCompletes(visits: seq<Visit>, keys: set<Key>, cursor: Cursor)
    requires AtLeastOneRow(visits) && Unchanging(visits, keys) && |visits| > |Remaining(keys, cursor)|
    ensures Completes(visits, cursor)
    decreases |visits|
  {
    assert visits[0] in visits;
    PageFacts(keys, cursor, visits[0].limit);
    var page := PageOf(keys, cursor, visits[0].limit);
    if page.next.Some? {
      var next := At(page.next.value);
      assert Remaining(keys, next) <= Remaining(keys, cursor) - {page.next.value} by {
        forall k | k in Remaining(keys, next) ensures PastCursor(k, cursor) && k != page.next.value {
        }
      }
      SubsetSize(Remaining(keys, next), Remaining(keys, cursor) - {page.next.value});
      FixedTableScanCompletes(visits[1..], keys, next);
    }
  }

  lemma {:induction false} SubsetSize(a: set<Key>, b: set<Key>)
    requires a <= b
    ensures |a| <= |b|
    decreases |a|
  {
    if a != {} {
      var k :| k in a;
      SubsetSize(a - {k}, b - {k});
    }
  }
}
