/**
 Listing blobs page by page. Without a delimiter, following the cursor misses nothing and repeats
 nothing; with one, a key can be lost.
 */
module Pagination {
  import opened Wrappers
  import opened Names

  /** The common prefixes are kept as a set; the program sorts them. */
  datatype Page = Page(entries: seq<string>, commonPrefixes: set<string>, nextCursor: Option<string>)

  datatype Listing = Listing(prefix: string, delimiter: Option<string>)

  function IndexOf(text: string, pattern: string): (at: Option<nat>)
    ensures at.Some? ==> at.value + |pattern| <= |text|
  {
    if |pattern| > |text| then None
    else if text[..|pattern|] == pattern then Some(0)
    else
      match IndexOf(text[1..], pattern)
      case None => None
      case Some(i) => Some(i + 1)
  }

  /** An empty delimiter counts as none. */
  predicate Plain(listing: Listing) {
    listing.delimiter.None? || listing.delimiter.value == ""
  }

  /** The group a key falls into, if the rest of the key contains the delimiter. */
  function CommonPrefix(key: string, listing: Listing): Option<string> {
    if Plain(listing) then None
    else
      var rest := if |listing.prefix| <= |key| then key[|listing.prefix|..] else "";
      match IndexOf(rest, listing.delimiter.value)
      case None => None
      case Some(i) => Some(listing.prefix + rest[..i + |listing.delimiter.value|])
  }

  /** The rows of the query: matching keys after the cursor. */
  function After(keys: seq<string>, cursor: string): (rows: seq<string>)
    ensures forall key :: key in rows ==> key in keys && Less(cursor, key)
  {
    if keys == [] then []
    else (if Less(cursor, keys[0]) then [keys[0]] else []) + After(keys[1..], cursor)
  }

  function Take(rows: seq<string>, n: nat): (first: seq<string>)
    ensures first <= rows && |first| == Min(n, |rows|)
  {
    if |rows| <= n then rows else rows[..n]
  }

  function ClampLimit(limit: Option<int>): (n: nat)
    ensures 1 <= n <= 1000
    ensures limit.None? || limit.value > 1000 ==> n == 1000
    ensures limit.Some? && limit.value <= 1000 ==> n == if limit.value < 1 then 1 else limit.value
  {
    Min(Max(if limit.Some? then limit.value else 1000, 1), 1000)
  }

  /** Sort the rows from `i` on into entries and groups until the page is full. */
  function Fill(rows: seq<string>, listing: Listing, limit: nat, i: nat, entries: seq<string>, groups: set<string>)
    : (page: Page)
    requires i <= |rows| && forall key :: key in entries ==> key in rows
    ensures page.nextCursor.Some? ==> page.nextCursor.value in rows
    decreases |rows| - i
  {
    if i == |rows| then Page(entries, groups, None)
    else if |entries| + |groups| >= limit then
      Page(entries, groups, Some(if |entries| > 0 then entries[|entries| - 1] else rows[i]))
    else match CommonPrefix(rows[i], listing)
      case Some(group) => Fill(rows, listing, limit, i + 1, entries, groups + {group})
      case None => Fill(rows, listing, limit, i + 1, entries + [rows[i]], groups)
  }

  function Slice(rows: seq<string>, listing: Listing, limit: nat): (page: Page)
    requires limit >= 1
    ensures page.nextCursor.Some? ==> page.nextCursor.value in rows
  {
    var page := Fill(rows, listing, limit, 0, [], {});
    if (page.nextCursor.None? || page.nextCursor.value == "") && |rows| > limit
    then page.(nextCursor := Some(rows[limit - 1])) else page
  }

  method SliceBlobList(rows: seq<string>, listing: Listing, limit: nat) returns (page: Page)
    requires limit >= 1
    ensures page == Slice(rows, listing, limit)
  {
    var entries: seq<string>, commonPrefixes: set<string>, nextCursor: Option<string> := [], {}, None;
    for i := 0 to |rows|
      invariant forall key :: key in entries ==> key in rows
      invariant nextCursor.None?
      invariant Fill(rows, listing, limit, i, entries, commonPrefixes) == Fill(rows, listing, limit, 0, [], {})
    {
      if |entries| + |commonPrefixes| >= limit {
        nextCursor := if |entries| > 0 then Some(entries[|entries| - 1]) else Some(rows[i]);
        break;
      }
      var group := CommonPrefix(rows[i], listing);
      if group.Some? {
        commonPrefixes := commonPrefixes + {group.value};
      } else {
        entries := entries + [rows[i]];
      }
    }
    if (nextCursor.None? || nextCursor.value == "") && |rows| > limit { nextCursor := Some(rows[limit - 1]); }
    return Page(entries, commonPrefixes, nextCursor);
  }

  /** `keys` are the bucket's keys that match the prefix, in ascending order. */
  function ListPage(keys: seq<string>, listing: Listing, cursor: string, limit: Option<int>): (page: Page)
    ensures page.nextCursor.Some? ==> page.nextCursor.value in After(keys, cursor)
  {
    var n := ClampLimit(limit);
    Slice(Take(After(keys, cursor), n + 1), listing, n)
  }

  method BlobListMetadata(keys: seq<string>, listing: Listing, cursor: Option<string>, limit: Option<int>)
    returns (page: Page)
    ensures page == ListPage(keys, listing, if cursor.Some? then cursor.value else "", limit)
  {
    hide Slice;
    hide Take;
    hide After;
    hide ClampLimit;
    var start := if cursor.Some? then cursor.value else "";
    var n := ClampLimit(limit);
    var rows := Take(After(keys, start), n + 1);
    page := SliceBlobList(rows, listing, n);
  }

  // ----- what a page holds -----

  predicate OccursAt(text: string, pattern: string, i: int) {
    0 <= i && i + |pattern| <= |text| && text[i..i + |pattern|] == pattern
  }

  /** The first place at which the pattern occurs. */
  lemma {:induction false} IndexOfExactly(text: string, pattern: string)
    ensures var at := IndexOf(text, pattern);
      && (at.Some? ==> OccursAt(text, pattern, at.value) && forall i :: i < at.value ==> !OccursAt(text, pattern, i))
      && (at.None? ==> forall i :: !OccursAt(text, pattern, i))
  {
    if |pattern| <= |text| && text[..|pattern|] != pattern {
      IndexOfExactly(text[1..], pattern);
      var at := IndexOf(text[1..], pattern);
      forall i | OccursAt(text, pattern, i) ensures i > 0 && OccursAt(text[1..], pattern, i - 1) {
        assert i > 0;
        assert text[1..][i - 1..i - 1 + |pattern|] == text[i..i + |pattern|];
      }
      if at.Some? { assert text[1..][at.value..at.value + |pattern|] == text[at.value + 1..at.value + 1 + |pattern|]; }
    }
  }

  /**
   The group of a key is its shortest beginning that goes up to the end of a delimiter somewhere after the prefix;
   a key without such a delimiter has none.
   */
  lemma CommonPrefixExactly(key: string, listing: Listing, delimiter: string)
    requires listing.delimiter == Some(delimiter) && delimiter != "" && listing.prefix <= key
    ensures var group := CommonPrefix(key, listing);
      && (group.Some? ==>
            && |group.value| - |delimiter| >= |listing.prefix| && group.value <= key
            && OccursAt(key, delimiter, |group.value| - |delimiter|)
            && forall i :: |listing.prefix| <= i < |group.value| - |delimiter| ==> !OccursAt(key, delimiter, i))
      && (group.None? ==> forall i :: |listing.prefix| <= i ==> !OccursAt(key, delimiter, i))
  {
    var n := |listing.prefix|;
    var rest := key[n..];
    assert key == listing.prefix + rest;
    IndexOfExactly(rest, delimiter);
    forall i | n <= i ensures OccursAt(key, delimiter, i) <==> OccursAt(rest, delimiter, i - n) {
      if i + |delimiter| <= |key| { assert key[i..i + |delimiter|] == rest[i - n..i - n + |delimiter|]; }
    }
    var at := IndexOf(rest, delimiter);
    if at.Some? { assert OccursAt(key, delimiter, n + at.value); }
  }

  /** The rows that stand for themselves. */
  function Ungrouped(rows: seq<string>, listing: Listing): seq<string> {
    if rows == [] then []
    else
      var last := rows[|rows| - 1];
      Ungrouped(rows[..|rows| - 1], listing) + if CommonPrefix(last, listing).None? then [last] else []
  }

  function Groups(rows: seq<string>, listing: Listing): set<string> {
    set row | row in rows && CommonPrefix(row, listing).Some? :: CommonPrefix(row, listing).value
  }

  /** The first `j` rows are entries and groups enough for a page. */
  predicate Full(rows: seq<string>, listing: Listing, limit: nat, j: nat)
    requires j <= |rows|
  {
    |Ungrouped(rows[..j], listing)| + |Groups(rows[..j], listing)| >= limit
  }

  lemma OneMoreRow(rows: seq<string>, listing: Listing, i: nat)
    requires i < |rows|
    ensures Ungrouped(rows[..i + 1], listing)
         == Ungrouped(rows[..i], listing) + if CommonPrefix(rows[i], listing).None? then [rows[i]] else []
    ensures Groups(rows[..i + 1], listing)
         == Groups(rows[..i], listing) + if CommonPrefix(rows[i], listing).Some? then {CommonPrefix(rows[i], listing).value} else {}
  {
    var (before, after) := (rows[..i], rows[..i + 1]);
    assert after == before + [rows[i]];
    assert after[..|after| - 1] == before;
    assert forall row :: row in after <==> row in before || row == rows[i];
  }

  lemma {:induction false} UngroupedAreRows(rows: seq<string>, listing: Listing)
    ensures forall key :: key in Ungrouped(rows, listing) ==> key in rows
  {
    if rows != [] { UngroupedAreRows(rows[..|rows| - 1], listing); }
  }

  /** The page filled so far, when the first `i` rows are on it. */
  function Filled(rows: seq<string>, listing: Listing, limit: nat, i: nat): Page
    requires i <= |rows|
  {
    UngroupedAreRows(rows[..i], listing);
    Fill(rows, listing, limit, i, Ungrouped(rows[..i], listing), Groups(rows[..i], listing))
  }

  lemma FilledOneMore(rows: seq<string>, listing: Listing, limit: nat, i: nat)
    requires i < |rows| && !Full(rows, listing, limit, i)
    ensures Filled(rows, listing, limit, i) == Filled(rows, listing, limit, i + 1)
  {
    OneMoreRow(rows, listing, i);
    var (entries, groups) := (Ungrouped(rows[..i], listing), Groups(rows[..i], listing));
    hide Ungrouped;
    hide Groups;
    hide CommonPrefix;
    assert entries + [] == entries && groups + {} == groups;
  }

  lemma FilledUp(rows: seq<string>, listing: Listing, limit: nat, j: nat)
    requires j <= |rows| && (j == |rows| || Full(rows, listing, limit, j))
    ensures var entries := Ungrouped(rows[..j], listing);
      Filled(rows, listing, limit, j)
        == Page(entries, Groups(rows[..j], listing),
                if j == |rows| then None else Some(if entries != [] then entries[|entries| - 1] else rows[j]))
  {
    hide Ungrouped;
    hide Groups;
    hide CommonPrefix;
  }

  /** A page takes rows until it is full, and no fewer rows would fill it. */
  lemma {:induction false} FillStops(rows: seq<string>, listing: Listing, limit: nat, i: nat) returns (j: nat)
    requires i <= |rows|
    ensures i <= j <= |rows| && (j == |rows| || Full(rows, listing, limit, j))
    ensures forall m :: i <= m < j ==> !Full(rows, listing, limit, m)
    ensures Filled(rows, listing, limit, i) == Filled(rows, listing, limit, j)
    decreases |rows| - i
  {
    hide Filled;
    hide Full;
    j := i;
    if i < |rows| && !Full(rows, listing, limit, i) {
      FilledOneMore(rows, listing, limit, i);
      j := FillStops(rows, listing, limit, i + 1);
    }
  }

  /**
   What a page holds: as many rows as fill it and no more, each as an entry or by its group. Where it goes on: at
   its last entry, else at the row it could not take; and at the last row asked for if that is the empty key or none.
   */
  lemma SliceExactly(rows: seq<string>, listing: Listing, limit: nat) returns (j: nat)
    requires limit >= 1
    ensures j <= |rows| && (j == |rows| || Full(rows, listing, limit, j))
    ensures forall m :: 0 <= m < j ==> !Full(rows, listing, limit, m)
    ensures var page := Slice(rows, listing, limit);
      && page.entries == Ungrouped(rows[..j], listing) && page.commonPrefixes == Groups(rows[..j], listing)
      && var stopped := j < |rows|;
         var cursor := if page.entries != [] then page.entries[|page.entries| - 1] else if stopped then rows[j] else "";
         page.nextCursor
           == if stopped && cursor != "" then Some(cursor)
              else if |rows| > limit then Some(rows[limit - 1]) else if stopped then Some("") else None
  {
    j := FillStops(rows, listing, limit, 0);
    FilledUp(rows, listing, limit, j);
    assert rows[..0] == [] && Groups([], listing) == {};
    assert Filled(rows, listing, limit, 0) == Fill(rows, listing, limit, 0, [], {});
    hide Full;
    hide Filled;
    hide Fill;
    hide Ungrouped;
    hide Groups;
  }

  // ----- following the cursor -----

  lemma {:induction false} AfterLater(keys: seq<string>, a: string, b: string)
    requires Less(a, b)
    ensures |After(keys, b)| <= |After(keys, a)|
    ensures b in keys ==> |After(keys, b)| < |After(keys, a)|
  {
    if keys != [] {
      AfterLater(keys[1..], a, b);
      LessIrreflexive(b);
      if Less(b, keys[0]) { LessTransitive(a, b, keys[0]); }
      assert keys == [keys[0]] + keys[1..];
    }
  }

  /** All entries that a client gets from page to page, with whatever limits it asks for. */
  function Follow(keys: seq<string>, listing: Listing, cursor: string, limits: nat -> Option<int>, n: nat): seq<string>
    decreases |After(keys, cursor)|
  {
    var page := ListPage(keys, listing, cursor, limits(n));
    match page.nextCursor
    case None => page.entries
    case Some(next) =>
      AfterLater(keys, cursor, next);
      page.entries + Follow(keys, listing, next, limits, n + 1)
  }

  ghost predicate Ascending(keys: seq<string>) {
    forall i, j :: 0 <= i < j < |keys| ==> Less(keys[i], keys[j])
  }

  lemma {:induction false} AfterNone(keys: seq<string>, cursor: string)
    requires forall i :: 0 <= i < |keys| ==> !Less(cursor, keys[i])
    ensures After(keys, cursor) == []
  {
    if keys != [] { AfterNone(keys[1..], cursor); }
  }

  /** Cursor between `keys[from - 1]` and `keys[from]`. */
  ghost predicate At(keys: seq<string>, cursor: string, from: nat) {
    from <= |keys| && forall i :: 0 <= i < |keys| ==> (Less(cursor, keys[i]) <==> from <= i)
  }

  lemma AtTail(keys: seq<string>, cursor: string, from: nat)
    requires keys != [] && At(keys, cursor, from)
    ensures At(keys[1..], cursor, if from == 0 then 0 else from - 1) && (Less(cursor, keys[0]) <==> from == 0)
  {
    hide Less;
    var rest := keys[1..];
    assert forall i :: 0 <= i < |rest| ==> rest[i] == keys[i + 1];
  }

  /** The rows after a cursor are the rest of the keys. */
  lemma {:induction false} AfterIsSuffix(keys: seq<string>, cursor: string, from: nat)
    requires At(keys, cursor, from)
    ensures After(keys, cursor) == keys[from..]
  {
    hide Less;
    assert from <= |keys|;
    if keys != [] {
      AtTail(keys, cursor, from);
      hide At;
      var rest := keys[1..];
      AfterIsSuffix(rest, cursor, if from == 0 then 0 else from - 1);
      Rejoin(keys, from);
    }
  }

  lemma Rejoin(keys: seq<string>, from: nat)
    requires keys != [] && from <= |keys|
    ensures if from == 0 then [keys[0]] + keys[1..][0..] == keys[0..] else [] + keys[1..][from - 1..] == keys[from..]
  {
  }

  /** Without a delimiter a page is the first `limit` rows, and the cursor is the last of them. */
  lemma {:induction false} FillPlainly(rows: seq<string>, listing: Listing, limit: nat, i: nat)
    requires i <= |rows| && i <= limit && limit >= 1 && Plain(listing)
    ensures Fill(rows, listing, limit, i, rows[..i], {})
         == Page(Take(rows, limit), {}, if |rows| > limit then Some(rows[limit - 1]) else None)
    decreases |rows| - i
  {
    if i < |rows| && i < limit {
      assert rows[..i] + [rows[i]] == rows[..i + 1];
      FillPlainly(rows, listing, limit, i + 1);
    }
  }

  lemma SlicePlainly(rows: seq<string>, listing: Listing, limit: nat)
    requires Plain(listing) && limit >= 1
    ensures Slice(rows, listing, limit)
         == Page(Take(rows, limit), {}, if |rows| > limit then Some(rows[limit - 1]) else None)
  {
    assert rows[..0] == [];
    FillPlainly(rows, listing, limit, 0);
  }

  lemma PlainPage(keys: seq<string>, listing: Listing, cursor: string, limit: Option<int>, from: nat)
    requires Plain(listing) && Ascending(keys) && At(keys, cursor, from)
    ensures var n := ClampLimit(limit);
      var page := ListPage(keys, listing, cursor, limit);
      if from + n < |keys|
      then page.entries == keys[from..from + n] && page.nextCursor == Some(keys[from + n - 1])
      else page.entries == keys[from..] && page.nextCursor == None
  {
    hide Slice;
    hide After;
    hide Fill;
    hide ClampLimit;
    AfterIsSuffix(keys, cursor, from);
    var n := ClampLimit(limit);
    var rest := keys[from..];
    var rows := Take(rest, n + 1);
    SlicePlainly(rows, listing, n);
    if |rest| > n {
      assert rows == rest[..n + 1] && Take(rows, n) == rows[..n];
      assert rows[..n] == keys[from..from + n] && rows[n - 1] == keys[from + n - 1];
    } else {
      assert rows == rest && Take(rows, n) == rest;
    }
  }

  lemma CursorMoves(keys: seq<string>, at: nat)
    requires Ascending(keys) && at < |keys|
    ensures At(keys, keys[at], at + 1)
  {
    forall i | 0 <= i < |keys| ensures Less(keys[at], keys[i]) <==> at + 1 <= i {
      LessIrreflexive(keys[at]);
      if i < at { LessAsymmetric(keys[i], keys[at]); }
    }
  }

  lemma {:induction false} FollowFrom(
    keys: seq<string>, listing: Listing, cursor: string, limits: nat -> Option<int>, n: nat, from: nat)
    requires Plain(listing) && Ascending(keys) && At(keys, cursor, from)
    ensures Follow(keys, listing, cursor, limits, n) == keys[from..]
    decreases |keys| - from
  {
    hide ListPage;
    hide At;
    hide Ascending;
    hide ClampLimit;
    PlainPage(keys, listing, cursor, limits(n), from);
    var size := ClampLimit(limits(n));
    if from + size < |keys| {
      var next := keys[from + size - 1];
      CursorMoves(keys, from + size - 1);
      FollowFrom(keys, listing, next, limits, n + 1, from + size);
      assert keys[from..from + size] + keys[from + size..] == keys[from..];
    }
  }

  /** Every non-empty key is listed exactly once and in order, whatever the limits of the pages. */
  lemma PagesAreExact(keys: seq<string>, listing: Listing, limits: nat -> Option<int>)
    requires Plain(listing) && Ascending(keys)
    ensures Follow(keys, listing, "", limits, 0) == if keys != [] && keys[0] == "" then keys[1..] else keys
  {
    if keys != [] && keys[0] == "" {
      forall i | 1 <= i < |keys| ensures keys[i] != "" { assert Less(keys[0], keys[i]); }
      FollowFrom(keys, listing, "", limits, 0, 1);
    } else {
      forall i | 0 <= i < |keys| ensures keys[i] != "" { assert i > 0 ==> Less(keys[0], keys[i]); }
      FollowFrom(keys, listing, "", limits, 0, 0);
    }
  }

  /** With a delimiter a full page of groups moves the cursor to a key it did not list: "b" is never listed. */
  lemma DelimiterMayLoseKeys()
    ensures Follow(["a/1", "b"], Listing("", Some("/")), "", _ => Some(1), 0) == []
  {
    var keys := ["a/1", "b"];
    var listing := Listing("", Some("/"));
    assert Less("", "a/1") && Less("", "b");
    assert After(["b"], "") == ["b"];
    assert keys[1..] == ["b"];
    assert After(keys, "") == keys;
    assert IndexOf("/1", "/") == Some(0);
    assert "a/1"[1..] == "/1";
    assert IndexOf("a/1", "/") == Some(1);
    assert "a/1"[0..] == "a/1";
    assert CommonPrefix("a/1", listing).Some?;
    assert Fill(keys, listing, 1, 0, [], {}).entries == [] && Fill(keys, listing, 1, 0, [], {}).nextCursor == Some("b");
    LessIrreflexive("b");
    assert !Less("b", "a/1");
    AfterNone(keys, "b");
  }

  // ----- a page with a delimiter -----

  predicate Represented(page: Page, listing: Listing, key: string) {
    key in page.entries || (CommonPrefix(key, listing).Some? && CommonPrefix(key, listing).value in page.commonPrefixes)
  }

  ghost predicate AllRepresented(page: Page, listing: Listing, rows: seq<string>) {
    forall k :: 0 <= k < |rows| ==> Represented(page, listing, rows[k])
  }

  lemma {:induction false} FillRepresents(
    rows: seq<string>, listing: Listing, limit: nat, i: nat, entries: seq<string>, groups: set<string>) returns (j: nat)
    requires i <= |rows| && (forall key :: key in entries ==> key in rows[..i])
    requires AllRepresented(Page(entries, groups, None), listing, rows[..i])
    ensures var page := Fill(rows, listing, limit, i, entries, groups);
      && j <= |rows| && AllRepresented(page, listing, rows[..j])
      && match page.nextCursor
         case None => j == |rows|
         case Some(c) => if page.entries != [] then c in page.entries && c in rows[..j] else j < |rows| && c == rows[j]
    decreases |rows| - i
  {
    j := i;
    if i < |rows| && |entries| + |groups| < limit {
      assert rows[..i + 1] == rows[..i] + [rows[i]];
      match CommonPrefix(rows[i], listing)
      case Some(group) =>
        j := FillRepresents(rows, listing, limit, i + 1, entries, groups + {group});
      case None =>
        j := FillRepresents(rows, listing, limit, i + 1, entries + [rows[i]], groups);
    }
  }

  /**
   What a page passes over: every row up to its cursor is on the page, as an entry or in a group, with one
   possible exception. A page with groups only, stopped by its limit, loses the row it stopped at unless
   the row belongs to one of the groups.
   */
  lemma PageLosesOnlyItsCursor(rows: seq<string>, listing: Listing, limit: nat)
    requires limit >= 1 && Ascending(rows) && "" !in rows
    ensures var page := Slice(rows, listing, limit);
      match page.nextCursor
      case None => AllRepresented(page, listing, rows)
      case Some(c) =>
        && (forall row :: row in rows && Less(row, c) ==> Represented(page, listing, row))
        && (Represented(page, listing, c) <==>
              page.entries != [] || Fill(rows, listing, limit, 0, [], {}).nextCursor.None?
              || (CommonPrefix(c, listing).Some? && CommonPrefix(c, listing).value in page.commonPrefixes))
  {
    var j := FillRepresents(rows, listing, limit, 0, [], {});
    var page := Slice(rows, listing, limit);
    assert rows[..|rows|] == rows;
    if page.nextCursor.Some? {
      var c := page.nextCursor.value;
      forall row | row in rows && Less(row, c) ensures Represented(page, listing, row) {
        var k :| 0 <= k < |rows| && rows[k] == row;
        var m :| 0 <= m < |rows| && rows[m] == c && (m < j || (m == j && j < |rows|));
        LessAsymmetric(row, c);
        if m < k { LessAsymmetric(rows[m], rows[k]); }
        assert rows[..j][k] == row;
      }
    }
  }
}

