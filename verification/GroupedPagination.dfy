/** Listing blobs with a delimiter: exactly which pages lose a key, and what that means for a whole listing. */
module GroupedPagination {
  import opened Wrappers
  import opened Names
  import opened Pagination

  /** The groups of the first `j` rows. */
  function Groups(rows: seq<string>, listing: Listing, j: nat): set<string>
    requires j <= |rows|
  {
    if j == 0 then {}
    else
      Groups(rows, listing, j - 1)
        + match CommonPrefix(rows[j - 1], listing) case Some(group) => {group} case None => {}
  }

  ghost predicate AllGrouped(rows: seq<string>, listing: Listing, j: nat)
    requires j <= |rows|
  {
    forall i :: 0 <= i < j ==> CommonPrefix(rows[i], listing).Some?
  }

  predicate InGroups(key: string, listing: Listing, groups: set<string>) {
    CommonPrefix(key, listing).Some? && CommonPrefix(key, listing).value in groups
  }

  /**
   A page of `limit` over these rows is filled by groups alone, the last of them begun by row `j - 1`, and
   row `j` belongs to none of them.
   */
  ghost predicate LosesAt(rows: seq<string>, listing: Listing, limit: nat, j: nat) {
    && j < |rows| && AllGrouped(rows, listing, j)
    && |Groups(rows, listing, j)| == limit && (forall i :: 0 <= i < j ==> |Groups(rows, listing, i)| < limit)
    && !InGroups(rows[j], listing, Groups(rows, listing, j))
  }

  // ----- one page -----

  lemma GroupsByOne(rows: seq<string>, listing: Listing, j: nat)
    requires 0 < j <= |rows|
    ensures |Groups(rows, listing, j)| <= |Groups(rows, listing, j - 1)| + 1
  {
    var less := Groups(rows, listing, j - 1);
    match CommonPrefix(rows[j - 1], listing)
    case Some(group) =>
      assert Groups(rows, listing, j) == less + {group};
      if group !in less { assert |less + {group}| == |less| + 1; } else { assert less + {group} == less; }
    case None =>
      assert Groups(rows, listing, j) == less;
  }

  lemma {:induction false} EntriesStay(
    rows: seq<string>, listing: Listing, limit: nat, i: nat, entries: seq<string>, groups: set<string>)
    requires i <= |rows| && forall key :: key in entries ==> key in rows
    ensures entries <= Fill(rows, listing, limit, i, entries, groups).entries
    decreases |rows| - i
  {
    if i < |rows| && |entries| + |groups| < limit {
      match CommonPrefix(rows[i], listing)
      case Some(group) => EntriesStay(rows, listing, limit, i + 1, entries, groups + {group});
      case None => EntriesStay(rows, listing, limit, i + 1, entries + [rows[i]], groups);
    }
  }

  /** Up to the row at which the groups fill the page, filling only collects groups. */
  lemma {:induction false} FillsWithGroups(rows: seq<string>, listing: Listing, limit: nat, i: nat, j: nat)
    requires i <= j <= |rows| && AllGrouped(rows, listing, j)
    requires forall k :: 0 <= k < j ==> |Groups(rows, listing, k)| < limit
    ensures Fill(rows, listing, limit, i, [], Groups(rows, listing, i))
         == Fill(rows, listing, limit, j, [], Groups(rows, listing, j))
    decreases j - i
  {
    hide CommonPrefix;
    if i < j { FillsWithGroups(rows, listing, limit, i + 1, j); }
  }

  lemma LosingPage(rows: seq<string>, listing: Listing, limit: nat, j: nat)
    requires limit >= 1 && LosesAt(rows, listing, limit, j) && "" !in rows
    ensures var page := Slice(rows, listing, limit);
      && page.nextCursor == Some(rows[j]) && !Represented(page, listing, rows[j])
  {
    FillsWithGroups(rows, listing, limit, 0, j);
    assert rows[j] in rows;
  }

  lemma NoEntryMeansGrouped(rows: seq<string>, listing: Listing, limit: nat, i: nat, groups: set<string>)
    requires i < |rows| && |groups| < limit && Fill(rows, listing, limit, i, [], groups).entries == []
    ensures CommonPrefix(rows[i], listing).Some?
  {
    if CommonPrefix(rows[i], listing).None? {
      var none: seq<string> := [];
      assert none + [rows[i]] == [rows[i]];
      EntriesStay(rows, listing, limit, i + 1, [rows[i]], groups);
    }
  }

  /** A page with groups only that its limit stopped: where it stopped. */
  lemma {:induction false} StopsAt(rows: seq<string>, listing: Listing, limit: nat, i: nat) returns (j: nat)
    requires i <= |rows| && limit >= 1 && AllGrouped(rows, listing, i)
    requires forall k :: 0 <= k < i ==> |Groups(rows, listing, k)| < limit
    requires var page := Fill(rows, listing, limit, i, [], Groups(rows, listing, i));
      page.entries == [] && page.nextCursor.Some?
    ensures j < |rows| && AllGrouped(rows, listing, j) && |Groups(rows, listing, j)| == limit
    ensures forall k :: 0 <= k < j ==> |Groups(rows, listing, k)| < limit
    ensures Fill(rows, listing, limit, i, [], Groups(rows, listing, i)) == Page([], Groups(rows, listing, j), Some(rows[j]))
    decreases |rows| - i
  {
    hide CommonPrefix;
    if |Groups(rows, listing, i)| >= limit {
      j := i;
      if i > 0 { GroupsByOne(rows, listing, i); }
    } else {
      NoEntryMeansGrouped(rows, listing, limit, i, Groups(rows, listing, i));
      FillsWithGroups(rows, listing, limit, i, i + 1);
      j := StopsAt(rows, listing, limit, i + 1);
    }
  }

  /** A row passed over by a page: the next page starts after it. */
  predicate PassedOver(rows: seq<string>, page: Page, key: string) {
    key in rows && (page.nextCursor.None? || !Less(page.nextCursor.value, key))
  }

  /** What a page passes over without showing it is the row it loses. */
  lemma UnshownIsLost(rows: seq<string>, listing: Listing, limit: nat, key: string) returns (j: nat)
    requires limit >= 1 && Ascending(rows) && "" !in rows
    requires PassedOver(rows, Slice(rows, listing, limit), key) && !Represented(Slice(rows, listing, limit), listing, key)
    ensures LosesAt(rows, listing, limit, j) && rows[j] == key
  {
    var page := Slice(rows, listing, limit);
    PageLosesOnlyItsCursor(rows, listing, limit);
    var k :| 0 <= k < |rows| && rows[k] == key;
    LessTotal(key, page.nextCursor.value);
    assert page.nextCursor.value == key;
    j := StopsAt(rows, listing, limit, 0);
  }

  /**
   Exactly when a page loses a row: it passes over a row that it does not show if and only if its rows begin
   with `limit` groups and no entry, and the first row after those is in none of the groups.
   */
  lemma PageLosesExactly(rows: seq<string>, listing: Listing, limit: nat)
    requires limit >= 1 && Ascending(rows) && "" !in rows
    ensures var page := Slice(rows, listing, limit);
      (exists key :: PassedOver(rows, page, key) && !Represented(page, listing, key))
        <==> exists j :: LosesAt(rows, listing, limit, j)
  {
    var page := Slice(rows, listing, limit);
    if key :| PassedOver(rows, page, key) && !Represented(page, listing, key) {
      var j := UnshownIsLost(rows, listing, limit, key);
    }
    if j: nat :| LosesAt(rows, listing, limit, j) {
      LosingPage(rows, listing, limit, j);
      LessIrreflexive(rows[j]);
      assert PassedOver(rows, page, rows[j]);
    }
  }

  // ----- a whole listing -----

  /** One request of a listing: the rows it read, its limit and the page it returned. */
  datatype Visit = Visit(rows: seq<string>, limit: nat, page: Page)

  function VisitAt(keys: seq<string>, listing: Listing, cursor: string, limit: Option<int>): Visit {
    var n := ClampLimit(limit);
    var rows := Take(After(keys, cursor), n + 1);
    Visit(rows, n, ListPage(keys, listing, cursor, limit))
  }

  /** What a client gets that follows the cursor to the end, with whatever limits it asks for. */
  function Visits(keys: seq<string>, listing: Listing, cursor: string, limits: nat -> Option<int>, n: nat): seq<Visit>
    decreases |After(keys, cursor)|
  {
    var visit := VisitAt(keys, listing, cursor, limits(n));
    match visit.page.nextCursor
    case None => [visit]
    case Some(next) =>
      AfterLater(keys, cursor, next);
      [visit] + Visits(keys, listing, next, limits, n + 1)
  }

  ghost predicate ShowsAllItPasses(v: Visit, listing: Listing) {
    forall key :: PassedOver(v.rows, v.page, key) ==> Represented(v.page, listing, key)
  }

  ghost predicate Loses(v: Visit, listing: Listing, j: nat) {
    LosesAt(v.rows, listing, v.limit, j)
  }

  lemma {:induction false} AfterAscends(keys: seq<string>, cursor: string)
    requires Ascending(keys)
    ensures Ascending(After(keys, cursor)) && "" !in After(keys, cursor)
  {
    var rows := After(keys, cursor);
    if keys != [] {
      assert forall i, j :: 0 <= i < j < |keys| - 1 ==> Less(keys[1..][i], keys[1..][j]);
      AfterAscends(keys[1..], cursor);
      var rest := After(keys[1..], cursor);
      forall j | 0 <= j < |rest| ensures Less(keys[0], rest[j]) {
        assert rest[j] in rest;
        var k :| 0 <= k < |keys[1..]| && keys[1..][k] == rest[j];
        assert keys[k + 1] == rest[j];
      }
    }
    assert !Less(cursor, "");
  }

  /** What every visit of a listing is: an ascending stretch of keys after the cursor, and its page. */
  ghost predicate VisitOk(v: Visit, keys: seq<string>, listing: Listing, cursor: string) {
    && v.limit >= 1 && Ascending(v.rows) && "" !in v.rows && v.page == Slice(v.rows, listing, v.limit)
    && forall row :: row in v.rows ==> row in keys && Less(cursor, row)
  }

  lemma FirstVisitOk(keys: seq<string>, listing: Listing, cursor: string, limit: Option<int>)
    requires Ascending(keys)
    ensures VisitOk(VisitAt(keys, listing, cursor, limit), keys, listing, cursor)
  {
    AfterAscends(keys, cursor);
    var rows := VisitAt(keys, listing, cursor, limit).rows;
    assert forall row :: row in rows ==> row in After(keys, cursor);
  }

  lemma {:induction false} VisitsOk(
    keys: seq<string>, listing: Listing, cursor: string, limits: nat -> Option<int>, n: nat, v: Visit)
    requires Ascending(keys) && v in Visits(keys, listing, cursor, limits, n)
    ensures VisitOk(v, keys, listing, cursor)
    decreases |After(keys, cursor)|
  {
    var first := VisitAt(keys, listing, cursor, limits(n));
    FirstVisitOk(keys, listing, cursor, limits(n));
    if v != first {
      var next := first.page.nextCursor.value;
      assert next in first.rows;
      AfterLater(keys, cursor, next);
      VisitsOk(keys, listing, next, limits, n + 1, v);
      forall row | row in v.rows ensures Less(cursor, row) { LessTransitive(cursor, next, row); }
    }
  }

  /** Exactly when a listing shows every key in its turn: when no page of it is filled by groups in front of another key. */
  lemma EveryPageShowsAllExactly(keys: seq<string>, listing: Listing, limits: nat -> Option<int>)
    requires Ascending(keys)
    ensures (forall v :: v in Visits(keys, listing, "", limits, 0) ==> ShowsAllItPasses(v, listing))
       <==> (forall v, j :: v in Visits(keys, listing, "", limits, 0) ==> !Loses(v, listing, j))
  {
    var visits := Visits(keys, listing, "", limits, 0);
    forall v | v in visits ensures ShowsAllItPasses(v, listing) <==> forall j :: !Loses(v, listing, j) {
      VisitsOk(keys, listing, "", limits, 0, v);
      PageLosesExactly(v.rows, listing, v.limit);
      assert forall j :: Loses(v, listing, j) <==> LosesAt(v.rows, listing, v.limit, j);
    }
  }

  /** Every key after the cursor is passed over by some page. */
  lemma {:induction false} EveryKeyPassed(
    keys: seq<string>, listing: Listing, cursor: string, limits: nat -> Option<int>, n: nat, key: string)
    returns (v: Visit)
    requires Ascending(keys) && key in After(keys, cursor)
    ensures v in Visits(keys, listing, cursor, limits, n) && PassedOver(v.rows, v.page, key)
    decreases |After(keys, cursor)|
  {
    v := VisitAt(keys, listing, cursor, limits(n));
    FirstVisitOk(keys, listing, cursor, limits(n));
    if !PassedOver(v.rows, v.page, key) {
      CursorBefore(keys, listing, cursor, limits(n), key);
      var next := v.page.nextCursor.value;
      AfterLater(keys, cursor, next);
      AfterHas(keys, next, key);
      v := EveryKeyPassed(keys, listing, next, limits, n + 1, key);
    }
  }

  lemma {:induction false} AfterHas(keys: seq<string>, cursor: string, key: string)
    requires key in keys && Less(cursor, key)
    ensures key in After(keys, cursor)
  {
    if key != keys[0] { AfterHas(keys[1..], cursor, key); }
  }

  /** A key that a page does not pass over lies after its cursor. */
  lemma CursorBefore(keys: seq<string>, listing: Listing, cursor: string, limit: Option<int>, key: string)
    requires Ascending(keys) && key in After(keys, cursor)
    requires var v := VisitAt(keys, listing, cursor, limit); !PassedOver(v.rows, v.page, key)
    ensures var v := VisitAt(keys, listing, cursor, limit);
      v.page.nextCursor.Some? && v.page.nextCursor.value in v.rows && Less(v.page.nextCursor.value, key)
  {
    var all := After(keys, cursor);
    var v := VisitAt(keys, listing, cursor, limit);
    AfterAscends(keys, cursor);
    if key !in v.rows {
      var k :| 0 <= k < |all| && all[k] == key;
      assert |v.rows| == v.limit + 1 && v.rows <= all;
      CursorWhenMore(v.rows, listing, v.limit);
      var next := v.page.nextCursor.value;
      var m :| 0 <= m < |v.rows| && v.rows[m] == next;
      assert v.rows[m] == all[m];
    }
  }

  lemma CursorWhenMore(rows: seq<string>, listing: Listing, limit: nat)
    requires limit >= 1 && |rows| > limit
    ensures Slice(rows, listing, limit).nextCursor.Some?
  {
  }

  // ----- shown on some page, if not in turn -----

  ghost predicate ShownSomewhere(visits: seq<Visit>, listing: Listing, key: string) {
    exists v :: v in visits && Represented(v.page, listing, key)
  }

  ghost predicate GroupShown(visits: seq<Visit>, listing: Listing, key: string) {
    exists v :: v in visits && InGroups(key, listing, v.page.commonPrefixes)
  }

  /** Entries come in order: those taken so far lie before the rows to come. */
  lemma {:induction false} EntriesAscend(
    rows: seq<string>, listing: Listing, limit: nat, i: nat, entries: seq<string>, groups: set<string>)
    requires i <= |rows| && Ascending(rows) && Ascending(entries) && forall key :: key in entries ==> key in rows
    requires forall e, k :: 0 <= e < |entries| && i <= k < |rows| ==> Less(entries[e], rows[k])
    ensures var page := Fill(rows, listing, limit, i, entries, groups);
      && Ascending(page.entries) && (forall key :: key in page.entries ==> key in rows)
      && (page.entries != [] && page.nextCursor.Some? ==> page.nextCursor.value == page.entries[|page.entries| - 1])
    decreases |rows| - i
  {
    if i < |rows| && |entries| + |groups| < limit {
      match CommonPrefix(rows[i], listing)
      case Some(group) => EntriesAscend(rows, listing, limit, i + 1, entries, groups + {group});
      case None => EntriesAscend(rows, listing, limit, i + 1, entries + [rows[i]], groups);
    }
  }

  /** An entry after the page's cursor is the one row read beyond the limit. */
  lemma EntryBeyond(rows: seq<string>, listing: Listing, limit: nat, key: string)
    requires limit >= 1 && |rows| <= limit + 1 && Ascending(rows) && "" !in rows
    requires var page := Slice(rows, listing, limit);
      key in page.entries && page.nextCursor.Some? && Less(page.nextCursor.value, key)
    ensures |rows| == limit + 1 && Slice(rows, listing, limit).nextCursor.value == rows[limit - 1] && key == rows[limit]
  {
    EntriesAscend(rows, listing, limit, 0, [], {});
    var filled := Fill(rows, listing, limit, 0, [], {});
    var e :| 0 <= e < |filled.entries| && filled.entries[e] == key;
    if filled.nextCursor.Some? {
      LessIrreflexive(key);
      if e < |filled.entries| - 1 { LessAsymmetric(key, filled.nextCursor.value); }
    }
    var k :| 0 <= k < |rows| && rows[k] == key;
    LessIrreflexive(key);
    if k < limit - 1 { LessAsymmetric(rows[k], rows[limit - 1]); }
  }

  lemma {:induction false} GroupsStay(
    rows: seq<string>, listing: Listing, limit: nat, i: nat, entries: seq<string>, groups: set<string>)
    requires i <= |rows| && forall key :: key in entries ==> key in rows
    ensures groups <= Fill(rows, listing, limit, i, entries, groups).commonPrefixes
    decreases |rows| - i
  {
    if i < |rows| && |entries| + |groups| < limit {
      match CommonPrefix(rows[i], listing)
      case Some(group) => GroupsStay(rows, listing, limit, i + 1, entries, groups + {group});
      case None => GroupsStay(rows, listing, limit, i + 1, entries + [rows[i]], groups);
    }
  }

  lemma FirstRowShown(rows: seq<string>, listing: Listing, limit: nat)
    requires limit >= 1 && rows != []
    ensures Represented(Slice(rows, listing, limit), listing, rows[0])
  {
    match CommonPrefix(rows[0], listing)
    case Some(group) =>
      var groups: set<string> := {};
      assert groups + {group} == {group};
      GroupsStay(rows, listing, limit, 1, [], {group});
    case None =>
      var none: seq<string> := [];
      assert none + [rows[0]] == [rows[0]];
      EntriesStay(rows, listing, limit, 1, [rows[0]], {});
      assert [rows[0]][0] == Slice(rows, listing, limit).entries[0];
  }

  /** The row read beyond the limit is the first of the next page when the cursor is the row before it. */
  lemma NextRowIsFirst(keys: seq<string>, cursor: string, n: nat)
    requires Ascending(keys) && n >= 1 && |After(keys, cursor)| > n
    ensures var all := After(keys, cursor);
      var rest := After(keys, all[n - 1]);
      rest != [] && rest[0] == all[n]
  {
    var all := After(keys, cursor);
    var next, key := all[n - 1], all[n];
    AfterAscends(keys, cursor);
    AfterAscends(keys, next);
    hide After;
    hide Less;
    var rest := After(keys, next);
    assert key in all && next in all;
    InOrder(all, n - 1, n);
    AfterHas(keys, next, key);
    var f := rest[0];
    assert f in rest;
    LessTransitive(cursor, next, f);
    AfterHas(keys, cursor, f);
    hide Ascending;
    SameFirst(all, rest, n);
  }

  lemma SameFirst(all: seq<string>, rest: seq<string>, n: nat)
    requires Ascending(all) && Ascending(rest) && 1 <= n < |all| && rest != []
    requires all[n] in rest && rest[0] in all && Less(all[n - 1], rest[0])
    ensures rest[0] == all[n]
  {
    hide Ascending;
    hide Less;
    var k :| 0 <= k < |rest| && rest[k] == all[n];
    var m :| 0 <= m < |all| && all[m] == rest[0];
    LessIndex(all, n - 1, m);
    if n < m {
      InOrder(all, n, m);
      LessIndex(rest, k, 0);
    }
  }

  lemma InOrder(keys: seq<string>, i: nat, j: nat)
    requires Ascending(keys) && i < j < |keys|
    ensures Less(keys[i], keys[j])
  {
  }

  /** Order of keys is order of places. */
  lemma LessIndex(keys: seq<string>, i: nat, j: nat)
    requires Ascending(keys) && i < |keys| && j < |keys| && Less(keys[i], keys[j])
    ensures i < j
  {
    LessAsymmetric(keys[i], keys[j]);
  }

  /** A page's entry that another page passes over is shown there as well. */
  lemma {:induction false} EntryElsewhere(
    keys: seq<string>, listing: Listing, cursor: string, limits: nat -> Option<int>, n: nat, u: Visit, v: Visit, key: string)
    requires Ascending(keys)
    requires u in Visits(keys, listing, cursor, limits, n) && v in Visits(keys, listing, cursor, limits, n)
    requires key in u.page.entries && PassedOver(v.rows, v.page, key)
    ensures Represented(v.page, listing, key)
    decreases |After(keys, cursor)|
  {
    var first := VisitAt(keys, listing, cursor, limits(n));
    FirstVisitOk(keys, listing, cursor, limits(n));
    VisitsOk(keys, listing, cursor, limits, n, u);
    EntriesAscend(u.rows, listing, u.limit, 0, [], {});
    assert key in u.rows;
    if first.page.nextCursor.Some? {
      var next := first.page.nextCursor.value;
      AfterLater(keys, cursor, next);
      var rest := Visits(keys, listing, next, limits, n + 1);
      if u in rest { VisitsOk(keys, listing, next, limits, n + 1, u); }
      if v in rest { VisitsOk(keys, listing, next, limits, n + 1, v); }
      if u in rest && v in rest {
        EntryElsewhere(keys, listing, next, limits, n + 1, u, v, key);
      } else if v in rest {
        EntryOfFirst(keys, listing, cursor, limits, n, v, key);
      }
    }
  }

  /** The same where the entry is the first page's, and lies after its cursor. */
  lemma EntryOfFirst(
    keys: seq<string>, listing: Listing, cursor: string, limits: nat -> Option<int>, n: nat, v: Visit, key: string)
    requires Ascending(keys)
    requires var first := VisitAt(keys, listing, cursor, limits(n));
      && key in first.page.entries && first.page.nextCursor.Some? && Less(first.page.nextCursor.value, key)
      && v in Visits(keys, listing, first.page.nextCursor.value, limits, n + 1) && PassedOver(v.rows, v.page, key)
    ensures Represented(v.page, listing, key)
  {
    var next := VisitAt(keys, listing, cursor, limits(n)).page.nextCursor.value;
    BeyondIsFirst(keys, listing, cursor, limits(n), limits(n + 1), key);
    hide VisitAt;
    FirstRowOfVisits(keys, listing, next, limits, n + 1, v, key);
  }

  lemma BeyondIsFirst(
    keys: seq<string>, listing: Listing, cursor: string, limit: Option<int>, nextLimit: Option<int>, key: string)
    requires Ascending(keys)
    requires var first := VisitAt(keys, listing, cursor, limit);
      key in first.page.entries && first.page.nextCursor.Some? && Less(first.page.nextCursor.value, key)
    ensures var next := VisitAt(keys, listing, cursor, limit).page.nextCursor.value;
      var rows := VisitAt(keys, listing, next, nextLimit).rows;
      rows != [] && rows[0] == key
  {
    hide VisitAt;
    hide After;
    hide Less;
    var next := VisitAt(keys, listing, cursor, limit).page.nextCursor.value;
    var n := ClampLimit(limit);
    BeyondRow(keys, listing, cursor, limit, key);
    NextRowIsFirst(keys, cursor, n);
    FirstRowOf(keys, listing, next, nextLimit);
  }

  lemma BeyondRow(keys: seq<string>, listing: Listing, cursor: string, limit: Option<int>, key: string)
    requires Ascending(keys)
    requires var first := VisitAt(keys, listing, cursor, limit);
      key in first.page.entries && first.page.nextCursor.Some? && Less(first.page.nextCursor.value, key)
    ensures var (all, n) := (After(keys, cursor), ClampLimit(limit));
      |all| > n && VisitAt(keys, listing, cursor, limit).page.nextCursor.value == all[n - 1] && key == all[n]
  {
    FirstVisitOk(keys, listing, cursor, limit);
    var first := VisitAt(keys, listing, cursor, limit);
    hide Slice;
    hide After;
    hide Less;
    EntryBeyond(first.rows, listing, first.limit, key);
  }

  lemma FirstRowOf(keys: seq<string>, listing: Listing, cursor: string, limit: Option<int>)
    ensures var (all, rows) := (After(keys, cursor), VisitAt(keys, listing, cursor, limit).rows);
      all != [] ==> rows != [] && rows[0] == all[0]
  {
    hide Slice;
    hide After;
  }

  /** Only the first page passes over its own first row, and it shows it. */
  lemma FirstRowOfVisits(
    keys: seq<string>, listing: Listing, cursor: string, limits: nat -> Option<int>, n: nat, v: Visit, key: string)
    requires Ascending(keys) && v in Visits(keys, listing, cursor, limits, n) && PassedOver(v.rows, v.page, key)
    requires var rows := VisitAt(keys, listing, cursor, limits(n)).rows; rows != [] && rows[0] == key
    ensures Represented(v.page, listing, key)
  {
    var first := VisitAt(keys, listing, cursor, limits(n));
    FirstVisitOk(keys, listing, cursor, limits(n));
    FirstRowShown(first.rows, listing, first.limit);
    if v != first {
      var later := first.page.nextCursor.value;
      VisitsOk(keys, listing, later, limits, n + 1, v);
      var m :| 0 <= m < |first.rows| && first.rows[m] == later;
      LessIrreflexive(key);
      if m > 0 { LessAsymmetric(key, later); }
    }
  }

  /** A row that a page loses is shown elsewhere exactly if its group is. */
  lemma LostRowShownExactly(keys: seq<string>, listing: Listing, limits: nat -> Option<int>, v: Visit, j: nat)
    requires Ascending(keys) && v in Visits(keys, listing, "", limits, 0) && Loses(v, listing, j)
    ensures var visits := Visits(keys, listing, "", limits, 0);
      ShownSomewhere(visits, listing, v.rows[j]) <==> GroupShown(visits, listing, v.rows[j])
  {
    var visits := Visits(keys, listing, "", limits, 0);
    var key := v.rows[j];
    VisitsOk(keys, listing, "", limits, 0, v);
    LosingPage(v.rows, listing, v.limit, j);
    LessIrreflexive(key);
    if ShownSomewhere(visits, listing, key) {
      var u :| u in visits && Represented(u.page, listing, key);
      if key in u.page.entries { EntryElsewhere(keys, listing, "", limits, 0, u, v, key); }
    }
    if GroupShown(visits, listing, key) {
      var u :| u in visits && InGroups(key, listing, u.page.commonPrefixes);
      assert Represented(u.page, listing, key);
    }
  }

  /**
   Exactly when a whole listing shows every key on some page, as an entry or in a group: when each row that a
   page loses belongs to a group that some page shows. A lost row without a group is never shown.
   */
  lemma EveryKeyShownExactly(keys: seq<string>, listing: Listing, limits: nat -> Option<int>)
    requires Ascending(keys)
    ensures var visits := Visits(keys, listing, "", limits, 0);
      (forall key :: key in keys && key != "" ==> ShownSomewhere(visits, listing, key))
        <==> (forall v, j: nat :: v in visits && Loses(v, listing, j) ==> GroupShown(visits, listing, v.rows[j]))
  {
    var visits := Visits(keys, listing, "", limits, 0);
    forall v, j: nat | v in visits && Loses(v, listing, j)
      ensures v.rows[j] in keys && v.rows[j] != ""
      ensures ShownSomewhere(visits, listing, v.rows[j]) <==> GroupShown(visits, listing, v.rows[j])
    {
      VisitsOk(keys, listing, "", limits, 0, v);
      LostRowShownExactly(keys, listing, limits, v, j);
    }
    forall key | key in keys && key != ""
      ensures ShownSomewhere(visits, listing, key) || LostSomewhere(visits, listing, key)
    {
      ShownOrLost(keys, listing, limits, key);
    }
    hide Visits;
    hide ShownSomewhere;
    hide GroupShown;
    hide Loses;
  }

  ghost predicate LostSomewhere(visits: seq<Visit>, listing: Listing, key: string) {
    exists v, j: nat :: v in visits && Loses(v, listing, j) && v.rows[j] == key
  }

  lemma ShownOrLost(keys: seq<string>, listing: Listing, limits: nat -> Option<int>, key: string)
    requires Ascending(keys) && key in keys && key != ""
    ensures var visits := Visits(keys, listing, "", limits, 0);
      ShownSomewhere(visits, listing, key) || LostSomewhere(visits, listing, key)
  {
    AfterHas(keys, "", key);
    var v := EveryKeyPassed(keys, listing, "", limits, 0, key);
    VisitsOk(keys, listing, "", limits, 0, v);
    if !Represented(v.page, listing, key) {
      var j := UnshownIsLost(v.rows, listing, v.limit, key);
      assert Loses(v, listing, j);
    }
  }

  /** A listing goes on from each cursor it was given. */
  lemma {:induction false} GoesOn(
    keys: seq<string>, listing: Listing, cursor: string, limits: nat -> Option<int>, n: nat, v: Visit)
    returns (limit: Option<int>)
    requires v in Visits(keys, listing, cursor, limits, n) && v.page.nextCursor.Some?
    ensures VisitAt(keys, listing, v.page.nextCursor.value, limit) in Visits(keys, listing, cursor, limits, n)
    decreases |After(keys, cursor)|
  {
    var first := VisitAt(keys, listing, cursor, limits(n));
    var rest := Visits(keys, listing, cursor, limits, n)[1..];
    if v == first {
      limit := limits(n + 1);
      assert rest[0] == VisitAt(keys, listing, first.page.nextCursor.value, limit);
    } else {
      var next := first.page.nextCursor.value;
      AfterLater(keys, cursor, next);
      limit := GoesOn(keys, listing, next, limits, n + 1, v);
      assert forall u :: u in rest ==> u in Visits(keys, listing, cursor, limits, n);
    }
  }

  /**
   So a lost row is shown after all, by its group on the next page, when the key right after it falls into the
   same group: losing a row in its turn does not always mean that it is never shown.
   */
  lemma NextKeyShowsGroup(keys: seq<string>, listing: Listing, limits: nat -> Option<int>, v: Visit, j: nat)
    requires Ascending(keys) && v in Visits(keys, listing, "", limits, 0) && Loses(v, listing, j)
    requires var later := After(keys, v.rows[j]);
      later != [] && CommonPrefix(later[0], listing).Some?
      && CommonPrefix(later[0], listing) == CommonPrefix(v.rows[j], listing)
    ensures GroupShown(Visits(keys, listing, "", limits, 0), listing, v.rows[j])
  {
    VisitsOk(keys, listing, "", limits, 0, v);
    LosingPage(v.rows, listing, v.limit, j);
    var limit := GoesOn(keys, listing, "", limits, 0, v);
    var u := VisitAt(keys, listing, v.rows[j], limit);
    FirstRowOf(keys, listing, v.rows[j], limit);
    FirstGroupShown(u.rows, listing, u.limit);
    assert InGroups(v.rows[j], listing, u.page.commonPrefixes);
  }

  lemma FirstGroupShown(rows: seq<string>, listing: Listing, limit: nat)
    requires limit >= 1 && rows != [] && CommonPrefix(rows[0], listing).Some?
    ensures InGroups(rows[0], listing, Slice(rows, listing, limit).commonPrefixes)
  {
    var group := CommonPrefix(rows[0], listing).value;
    var groups: set<string> := {};
    assert groups + {group} == {group};
    GroupsStay(rows, listing, limit, 1, [], {group});
  }

  // ----- listed twice -----

  /** The rows among the first `j` that are in no group. */
  function Singles(rows: seq<string>, listing: Listing, j: nat): (singles: seq<string>)
    requires j <= |rows|
    ensures forall key :: key in singles ==> key in rows[..j] && CommonPrefix(key, listing).None?
  {
    if j == 0 then []
    else Singles(rows, listing, j - 1) + if CommonPrefix(rows[j - 1], listing).None? then [rows[j - 1]] else []
  }

  /** How much of a page the first `j` rows take up. */
  function Items(rows: seq<string>, listing: Listing, j: nat): nat
    requires j <= |rows|
  {
    |Singles(rows, listing, j)| + |Groups(rows, listing, j)|
  }

  /** The rows up to the limit do not fill the page, because some share a group, and the row beyond is in none. */
  predicate RepeatsAt(rows: seq<string>, listing: Listing, limit: nat) {
    |rows| > limit && CommonPrefix(rows[limit], listing).None? && Items(rows, listing, limit) < limit
  }

  lemma {:induction false} ItemsGrow(rows: seq<string>, listing: Listing, i: nat, j: nat)
    requires i <= j <= |rows|
    ensures Items(rows, listing, i) <= Items(rows, listing, j) <= Items(rows, listing, i) + j - i
    decreases j
  {
    hide CommonPrefix;
    if i < j {
      ItemsGrow(rows, listing, i, j - 1);
      GroupsByOne(rows, listing, j);
      GroupsNoFewer(rows, listing, j);
    }
  }

  lemma GroupsNoFewer(rows: seq<string>, listing: Listing, j: nat)
    requires 0 < j <= |rows|
    ensures |Groups(rows, listing, j - 1)| <= |Groups(rows, listing, j)|
    ensures CommonPrefix(rows[j - 1], listing).None? ==> Groups(rows, listing, j) == Groups(rows, listing, j - 1)
  {
    var less := Groups(rows, listing, j - 1);
    match CommonPrefix(rows[j - 1], listing)
    case Some(group) =>
      if group !in less { assert |less + {group}| == |less| + 1; } else { assert less + {group} == less; }
    case None =>
      assert less + {} == less;
  }

  /** While the page is not full, filling sorts the rows into singles and groups. */
  lemma {:induction false} FillsUpTo(rows: seq<string>, listing: Listing, limit: nat, i: nat, j: nat)
    requires i <= j <= |rows| && forall k :: i <= k < j ==> Items(rows, listing, k) < limit
    ensures Fill(rows, listing, limit, i, Singles(rows, listing, i), Groups(rows, listing, i))
         == Fill(rows, listing, limit, j, Singles(rows, listing, j), Groups(rows, listing, j))
    decreases j - i
  {
    hide Fill;
    hide Groups;
    hide Singles;
    if i < j {
      FillsOne(rows, listing, limit, i);
      FillsUpTo(rows, listing, limit, i + 1, j);
    }
  }

  lemma FillsOne(rows: seq<string>, listing: Listing, limit: nat, i: nat)
    requires i < |rows| && Items(rows, listing, i) < limit
    ensures Fill(rows, listing, limit, i, Singles(rows, listing, i), Groups(rows, listing, i))
         == Fill(rows, listing, limit, i + 1, Singles(rows, listing, i + 1), Groups(rows, listing, i + 1))
  {
    hide CommonPrefix;
    var singles, groups := Singles(rows, listing, i), Groups(rows, listing, i);
    match CommonPrefix(rows[i], listing)
    case Some(group) =>
      assert Singles(rows, listing, i + 1) == singles;
      assert Groups(rows, listing, i + 1) == groups + {group};
    case None =>
      assert Singles(rows, listing, i + 1) == singles + [rows[i]];
      assert Groups(rows, listing, i + 1) == groups;
  }

  lemma {:induction false} EntriesSingle(
    rows: seq<string>, listing: Listing, limit: nat, i: nat, entries: seq<string>, groups: set<string>)
    requires i <= |rows| && forall key :: key in entries ==> key in rows && CommonPrefix(key, listing).None?
    ensures forall key :: key in Fill(rows, listing, limit, i, entries, groups).entries ==> CommonPrefix(key, listing).None?
    decreases |rows| - i
  {
    if i < |rows| && |entries| + |groups| < limit {
      match CommonPrefix(rows[i], listing)
      case Some(group) => EntriesSingle(rows, listing, limit, i + 1, entries, groups + {group});
      case None => EntriesSingle(rows, listing, limit, i + 1, entries + [rows[i]], groups);
    }
  }

  /** Such a page takes the row beyond its limit as an entry, and its cursor falls back to the row before. */
  lemma RepeatingPage(rows: seq<string>, listing: Listing, limit: nat)
    requires limit >= 1 && |rows| <= limit + 1 && RepeatsAt(rows, listing, limit)
    ensures var page := Slice(rows, listing, limit);
      page.nextCursor == Some(rows[limit - 1]) && rows[limit] in page.entries
  {
    hide CommonPrefix;
    forall k | 0 <= k <= limit ensures Items(rows, listing, k) < limit { ItemsGrow(rows, listing, k, limit); }
    FillsUpTo(rows, listing, limit, 0, limit + 1);
    var singles := Singles(rows, listing, limit + 1);
    assert singles[|singles| - 1] == rows[limit];
  }

  /** And no other page has an entry after its cursor. */
  lemma BeyondRepeats(rows: seq<string>, listing: Listing, limit: nat, key: string)
    requires limit >= 1 && |rows| <= limit + 1 && Ascending(rows) && "" !in rows
    requires var page := Slice(rows, listing, limit);
      key in page.entries && page.nextCursor.Some? && Less(page.nextCursor.value, key)
    ensures RepeatsAt(rows, listing, limit) && rows[limit] == key
  {
    EntryBeyond(rows, listing, limit, key);
    EntriesSingle(rows, listing, limit, 0, [], {});
    hide CommonPrefix;
    if Items(rows, listing, limit) >= limit {
      forall k | 0 <= k < limit ensures Items(rows, listing, k) < limit { ItemsGrow(rows, listing, 0, k); }
      FillsUpTo(rows, listing, limit, 0, limit);
      assert key in rows[..limit];
      var k :| 0 <= k < limit && rows[k] == key;
      LessIrreflexive(key);
    }
  }

  /** The page takes `key` beyond its limit. */
  ghost predicate Repeats(v: Visit, listing: Listing, key: string) {
    RepeatsAt(v.rows, listing, v.limit) && v.rows[v.limit] == key
  }

  predicate ListedTwice(visits: seq<Visit>, key: string) {
    exists i, j :: 0 <= i < j < |visits| && key in visits[i].page.entries && key in visits[j].page.entries
  }

  lemma VisitShort(
    keys: seq<string>, listing: Listing, cursor: string, limit: Option<int>)
    ensures var v := VisitAt(keys, listing, cursor, limit); |v.rows| <= v.limit + 1 && v.limit >= 1
  {
    hide Slice;
    hide After;
  }

  lemma EntriesAreRows(v: Visit, keys: seq<string>, listing: Listing, cursor: string, key: string)
    requires VisitOk(v, keys, listing, cursor) && key in v.page.entries
    ensures key in v.rows
  {
    EntriesAscend(v.rows, listing, v.limit, 0, [], {});
  }

  /** Of two pages that list a key, the earlier one takes it beyond its limit. */
  lemma {:induction false} TwiceIsBeyond(
    keys: seq<string>, listing: Listing, cursor: string, limits: nat -> Option<int>, n: nat, i: nat, j: nat, key: string)
    requires Ascending(keys) && i < j < |Visits(keys, listing, cursor, limits, n)|
    requires var visits := Visits(keys, listing, cursor, limits, n);
      key in visits[i].page.entries && key in visits[j].page.entries
    ensures Repeats(Visits(keys, listing, cursor, limits, n)[i], listing, key)
    decreases i
  {
    hide VisitAt;
    hide After;
    hide Repeats;
    hide Ascending;
    var first := VisitAt(keys, listing, cursor, limits(n));
    var next := first.page.nextCursor.value;
    var rest := Visits(keys, listing, cursor, limits, n)[1..];
    if i == 0 {
      FirstVisitOk(keys, listing, cursor, limits(n));
      VisitShort(keys, listing, cursor, limits(n));
      VisitsOk(keys, listing, next, limits, n + 1, rest[j - 1]);
      hide Visits;
      FirstTakesBeyond(first, rest[j - 1], keys, listing, cursor, next, key);
    } else {
      TwiceIsBeyond(keys, listing, next, limits, n + 1, i - 1, j - 1, key);
    }
  }

  lemma FirstTakesBeyond(u: Visit, v: Visit, keys: seq<string>, listing: Listing, cursor: string, next: string, key: string)
    requires VisitOk(u, keys, listing, cursor) && |u.rows| <= u.limit + 1 && u.page.nextCursor == Some(next)
    requires VisitOk(v, keys, listing, next) && key in u.page.entries && key in v.page.entries
    ensures Repeats(u, listing, key)
  {
    EntriesAreRows(v, keys, listing, next, key);
    BeyondRepeats(u.rows, listing, u.limit, key);
  }

  /** A key taken beyond the limit is the first entry of the next page. */
  lemma BeyondThenFirst(
    keys: seq<string>, listing: Listing, cursor: string, limit: Option<int>, nextLimit: Option<int>, key: string)
    requires Ascending(keys) && Repeats(VisitAt(keys, listing, cursor, limit), listing, key)
    ensures var page := VisitAt(keys, listing, cursor, limit).page;
      && page.nextCursor.Some? && key in page.entries
      && key in VisitAt(keys, listing, page.nextCursor.value, nextLimit).page.entries
  {
    var first := VisitAt(keys, listing, cursor, limit);
    FirstVisitOk(keys, listing, cursor, limit);
    VisitShort(keys, listing, cursor, limit);
    RepeatingPage(first.rows, listing, first.limit);
    hide VisitAt;
    hide Slice;
    hide After;
    hide CommonPrefix;
    hide Items;
    InOrder(first.rows, first.limit - 1, first.limit);
    BeyondIsFirst(keys, listing, cursor, limit, nextLimit, key);
    var next := first.page.nextCursor.value;
    FirstVisitOk(keys, listing, next, nextLimit);
    var second := VisitAt(keys, listing, next, nextLimit);
    FirstRowShown(second.rows, listing, second.limit);
  }

  lemma {:induction false} BeyondIsTwice(
    keys: seq<string>, listing: Listing, cursor: string, limits: nat -> Option<int>, n: nat, i: nat, key: string)
    requires Ascending(keys) && i < |Visits(keys, listing, cursor, limits, n)|
    requires Repeats(Visits(keys, listing, cursor, limits, n)[i], listing, key)
    ensures var visits := Visits(keys, listing, cursor, limits, n);
      i + 1 < |visits| && key in visits[i].page.entries && key in visits[i + 1].page.entries
    decreases i
  {
    hide VisitAt;
    hide After;
    hide Repeats;
    var first := VisitAt(keys, listing, cursor, limits(n));
    if i == 0 {
      BeyondThenFirst(keys, listing, cursor, limits(n), limits(n + 1), key);
      FirstOfVisits(keys, listing, first.page.nextCursor.value, limits, n + 1);
    } else {
      var next := first.page.nextCursor.value;
      NextLater(keys, listing, cursor, limits(n));
      BeyondIsTwice(keys, listing, next, limits, n + 1, i - 1, key);
    }
  }

  lemma FirstOfVisits(keys: seq<string>, listing: Listing, cursor: string, limits: nat -> Option<int>, n: nat)
    ensures var visits := Visits(keys, listing, cursor, limits, n);
      visits != [] && visits[0] == VisitAt(keys, listing, cursor, limits(n))
  {
  }

  lemma NextLater(keys: seq<string>, listing: Listing, cursor: string, limit: Option<int>)
    requires VisitAt(keys, listing, cursor, limit).page.nextCursor.Some?
    ensures |After(keys, VisitAt(keys, listing, cursor, limit).page.nextCursor.value)| < |After(keys, cursor)|
  {
    AfterLater(keys, cursor, VisitAt(keys, listing, cursor, limit).page.nextCursor.value);
  }

  /**
   Exactly when a listing shows a key as an entry twice: when some page, not filled by the rows up to its limit
   because several of them share a group, takes the key beyond its limit. Then the next page begins with it.
   */
  lemma ListedTwiceExactly(keys: seq<string>, listing: Listing, limits: nat -> Option<int>, key: string)
    requires Ascending(keys)
    ensures var visits := Visits(keys, listing, "", limits, 0);
      ListedTwice(visits, key) <==> exists i :: 0 <= i < |visits| && Repeats(visits[i], listing, key)
  {
    var visits := Visits(keys, listing, "", limits, 0);
    if i, j :| 0 <= i < j < |visits| && key in visits[i].page.entries && key in visits[j].page.entries {
      TwiceIsBeyond(keys, listing, "", limits, 0, i, j, key);
    }
    if i :| 0 <= i < |visits| && Repeats(visits[i], listing, key) {
      BeyondIsTwice(keys, listing, "", limits, 0, i, key);
    }
  }
}
