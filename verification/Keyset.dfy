/** Keyset pages of an issue's history, newest first, over a table that other
    transactions insert into and delete from between two pages
    (app/repositories/activity.py:107-167; app/services/activity.py:388-426, 651-670). */
module Keyset {
  import opened Wrappers
  import opened Collections

  /** The position of a row. */
  datatype Key = Key(createdAt: int, id: int)

  datatype Row = Row(workspace: int, issue: int, key: Key)

  /** ORDER BY created_at DESC, id DESC */
  predicate Before(a: Key, b: Key) {
    a.createdAt > b.createdAt || (a.createdAt == b.createdAt && a.id > b.id)
  }

  predicate Resumes(after: Option<Key>, key: Key) {
    after.None? || Before(after.value, key)
  }

  /** The WHERE clause of both statements. */
  function Matching(table: set<Row>, workspace: int, issue: int, after: Option<Key>): set<Key> {
    set r | r in table && r.workspace == workspace && r.issue == issue && Resumes(after, r.key) :: r.key
  }

  predicate Descending(keys: seq<Key>) {
    forall i, j :: 0 <= i < j < |keys| ==> Before(keys[i], keys[j])
  }

  predicate IsNewest(key: Key, keys: set<Key>) {
    key in keys && forall k :: k in keys ==> k == key || Before(key, k)
  }

  lemma {:induction false} SomeIsNewest(keys: set<Key>)
    requires keys != {}
    ensures exists key :: IsNewest(key, keys)
    decreases |keys|
  {
    var k :| k in keys;
    var rest := keys - {k};
    assert keys == rest + {k};
    if rest == {} {
      assert IsNewest(k, keys);
    } else {
      SomeIsNewest(rest);
      var m :| IsNewest(m, rest);
      assert IsNewest(if Before(m, k) then m else k, keys);
    }
  }

  /** All the keys in listing order. */
  ghost function Listed(keys: set<Key>): (s: seq<Key>)
    ensures |s| == |keys| && Descending(s)
    ensures forall k :: k in s <==> k in keys
    decreases |keys|
  {
    if keys == {} then []
    else
      SomeIsNewest(keys);
      var first :| IsNewest(first, keys);
      [first] + Listed(keys - {first})
  }

  lemma HeadLeads(s: seq<Key>, k: Key)
    requires Descending(s) && k in s
    ensures k == s[0] || Before(s[0], k)
    ensures k in s[1..] <==> k != s[0]
  {
    var i :| 0 <= i < |s| && s[i] == k;
    if i > 0 { assert Before(s[0], s[i]) && s[1..][i - 1] == k; }
    forall j | 0 <= j < |s| - 1 ensures s[1..][j] != s[0] { assert Before(s[0], s[j + 1]); }
  }

  lemma {:induction false} SameListing(s: seq<Key>, t: seq<Key>)
    requires Descending(s) && Descending(t) && forall k :: k in s <==> k in t
    ensures s == t
  {
    assert s != [] ==> s[0] in t;
    assert t != [] ==> t[0] in s;
    if s != [] {
      HeadLeads(s, t[0]);
      HeadLeads(t, s[0]);
      assert s[0] == t[0];
      forall k ensures k in s[1..] <==> k in t[1..] {
        if k in s { HeadLeads(s, k); HeadLeads(t, k); }
      }
      SameListing(s[1..], t[1..]);
    }
  }

  /** There is only one listing of a set. */
  lemma ListingIsUnique(s: seq<Key>, keys: set<Key>)
    requires Descending(s) && forall k :: k in s <==> k in keys
    ensures s == Listed(keys)
  {
    SameListing(s, Listed(keys));
  }

  /** list_for_issue */
  ghost function ListForIssue(table: set<Row>, workspace: int, issue: int, limit: nat, after: Option<Key>): seq<Key> {
    Take(Listed(Matching(table, workspace, issue, after)), limit)
  }

  datatype Page = Page(nodes: seq<Key>, hasNext: bool, endCursor: Option<Key>)

  /** One page of the service: one row more is fetched than is shown. */
  ghost function GetPage(table: set<Row>, workspace: int, issue: int, first: nat, after: Option<Key>): Page {
    var rows := ListForIssue(table, workspace, issue, first + 1, after);
    var nodes := Take(rows, first);
    Page(nodes, |rows| > first, if nodes == [] then None else Some(nodes[|nodes| - 1]))
  }

  function CursorOf(pages: seq<Page>): Option<Key> {
    if pages == [] then None else pages[|pages| - 1].endCursor
  }

  /** Page `i` resumes where the page before it ended. */
  ghost predicate IsPage(table: set<Row>, pages: seq<Page>, i: nat, workspace: int, issue: int, first: nat)
    requires i < |pages|
  {
    pages[i] == GetPage(table, workspace, issue, first, CursorOf(pages[..i]))
  }

  /** A client following cursors; `tables[i]` is what page `i` was read from. */
  ghost predicate Walk(tables: seq<set<Row>>, pages: seq<Page>, workspace: int, issue: int, first: nat) {
    && |tables| == |pages|
    && (forall i :: 0 <= i < |pages| ==> IsPage(tables[i], pages, i, workspace, issue, first))
    && (forall i :: 0 <= i < |pages| - 1 ==> pages[i].hasNext)
  }

  function Nodes(pages: seq<Page>): seq<Key> {
    if pages == [] then [] else Nodes(pages[..|pages| - 1]) + pages[|pages| - 1].nodes
  }

  lemma PageIsSlice(table: set<Row>, workspace: int, issue: int, first: nat, after: Option<Key>)
    ensures var page := GetPage(table, workspace, issue, first, after);
            var all := Matching(table, workspace, issue, after);
            && Descending(page.nodes)
            && (forall k :: k in page.nodes ==> k in all)
            && (page.hasNext ==> |page.nodes| == first)
            && (!page.hasNext ==> page.nodes == Listed(all))
            && (forall k :: k in all ==> k in page.nodes || (page.hasNext && forall n :: n in page.nodes ==> Before(n, k)))
  {
    var page := GetPage(table, workspace, issue, first, after);
    var list := Listed(Matching(table, workspace, issue, after));
    assert page.nodes == Take(list, first);
    forall k | k in list
      ensures k in page.nodes || (page.hasNext && forall n :: n in page.nodes ==> Before(n, k))
    {
      var i :| 0 <= i < |list| && list[i] == k;
      if i < first { assert page.nodes[i] == k; }
    }
  }

  /** What has been read ends at the cursor; what has not comes after it. */
  ghost predicate ReadTo(nodes: seq<Key>, cursor: Option<Key>) {
    && Descending(nodes)
    && (cursor.None? ==> nodes == [])
    && (cursor.Some? ==> nodes != [] && nodes[|nodes| - 1] == cursor.value)
  }

  lemma DescendingJoin(a: seq<Key>, cursor: Option<Key>, b: seq<Key>)
    requires ReadTo(a, cursor) && Descending(b) && forall k :: k in b ==> Resumes(cursor, k)
    ensures Descending(a + b)
    ensures ReadTo(a + b, if b == [] then cursor else Some(b[|b| - 1]))
  {
    forall i, j | 0 <= i < j < |a + b| ensures Before((a + b)[i], (a + b)[j]) {
      if i < |a| <= j {
        assert b[j - |a|] in b;
        if i < |a| - 1 { assert Before(a[i], cursor.value); }
      }
    }
    if b == [] { assert a + b == a; }
  }

  lemma PageInPrefix(table: set<Row>, pages: seq<Page>, i: nat, n: nat, workspace: int, issue: int, first: nat)
    requires i < n <= |pages| && IsPage(table, pages, i, workspace, issue, first)
    ensures IsPage(table, pages[..n], i, workspace, issue, first)
  {
    assert pages[..n][..i] == pages[..i];
  }

  lemma WalkSplits(tables: seq<set<Row>>, pages: seq<Page>, workspace: int, issue: int, first: nat, n: nat)
    requires Walk(tables, pages, workspace, issue, first) && |pages| == n + 1
    ensures Walk(tables[..n], pages[..n], workspace, issue, first)
    ensures pages[n] == GetPage(tables[n], workspace, issue, first, CursorOf(pages[..n]))
    ensures n == 0 || pages[..n][n - 1].hasNext
  {
    assert IsPage(tables[n], pages, n, workspace, issue, first);
    forall i | 0 <= i < n ensures IsPage(tables[..n][i], pages[..n], i, workspace, issue, first) {
      PageInPrefix(tables[i], pages, i, n, workspace, issue, first);
    }
  }

  ghost predicate Settled(pages: seq<Page>, first: nat) {
    && Descending(Nodes(pages))
    && (pages == [] || pages[|pages| - 1].hasNext ==> ReadTo(Nodes(pages), CursorOf(pages)) && |Nodes(pages)| == first * |pages|)
  }

  lemma NextPageSettles(pages: seq<Page>, first: nat, n: nat, before: seq<Page>, page: Page)
    requires 1 <= first && |pages| == n + 1 && before == pages[..n] && page == pages[n]
    requires Settled(before, first) && (n == 0 || before[n - 1].hasNext)
    requires Descending(page.nodes) && forall k :: k in page.nodes ==> Resumes(CursorOf(before), k)
    requires page.hasNext ==> |page.nodes| == first && page.endCursor == Some(page.nodes[first - 1])
    ensures Settled(pages, first)
  {
    DescendingJoin(Nodes(before), CursorOf(before), page.nodes);
    assert |Nodes(pages)| == |Nodes(before)| + |page.nodes|;
    if page.hasNext { Counted(first, n, |Nodes(before)|, |Nodes(pages)|); }
  }

  /** What a walk has shown is in order, full pages ending at its cursor. */
  lemma {:induction false} WalkSettles(tables: seq<set<Row>>, pages: seq<Page>, workspace: int, issue: int, first: nat)
    requires 1 <= first && Walk(tables, pages, workspace, issue, first)
    ensures Settled(pages, first)
    decreases |pages|
  {
    if pages != [] {
      var n := |pages| - 1;
      WalkSplits(tables, pages, workspace, issue, first, n);
      WalkSettles(tables[..n], pages[..n], workspace, issue, first);
      PageIsSlice(tables[n], workspace, issue, first, CursorOf(pages[..n]));
      NextPageSettles(pages, first, n, pages[..n], pages[n]);
    }
  }

  ghost predicate Seen(tables: seq<set<Row>>, workspace: int, issue: int, key: Key) {
    exists i :: 0 <= i < |tables| && key in Matching(tables[i], workspace, issue, None)
  }

  lemma SeenAt(tables: seq<set<Row>>, i: nat, workspace: int, issue: int, key: Key)
    requires i < |tables| && key in Matching(tables[i], workspace, issue, None)
    ensures Seen(tables, workspace, issue, key)
  {}

  lemma SeenSoFar(tables: seq<set<Row>>, n: nat, workspace: int, issue: int, key: Key)
    requires n <= |tables| && Seen(tables[..n], workspace, issue, key)
    ensures Seen(tables, workspace, issue, key)
  {
    var i :| 0 <= i < n && key in Matching(tables[..n][i], workspace, issue, None);
    SeenAt(tables, i, workspace, issue, key);
  }

  lemma {:induction false} ShownWasThere(tables: seq<set<Row>>, pages: seq<Page>, workspace: int, issue: int, first: nat, key: Key)
    requires Walk(tables, pages, workspace, issue, first) && key in Nodes(pages)
    ensures Seen(tables, workspace, issue, key)
    decreases |pages|
  {
    var n := |pages| - 1;
    WalkSplits(tables, pages, workspace, issue, first, n);
    if key in pages[n].nodes {
      PageIsSlice(tables[n], workspace, issue, first, CursorOf(pages[..n]));
      assert key in Matching(tables[n], workspace, issue, CursorOf(pages[..n]));
      SeenAt(tables, n, workspace, issue, key);
    } else {
      ShownWasThere(tables[..n], pages[..n], workspace, issue, first, key);
      SeenSoFar(tables, n, workspace, issue, key);
    }
  }

  lemma Counted(first: nat, n: nat, before: nat, now: nat)
    requires before == first * n && now == before + first
    ensures now == first * (n + 1)
  {}

  /** A key that was there for every page is read, or still lies ahead. */
  lemma {:induction false} WalkKeeps(tables: seq<set<Row>>, pages: seq<Page>, workspace: int, issue: int, first: nat, key: Key)
    requires 1 <= first && Walk(tables, pages, workspace, issue, first)
    requires forall i :: 0 <= i < |tables| ==> key in Matching(tables[i], workspace, issue, None)
    ensures key in Nodes(pages) || (Resumes(CursorOf(pages), key) && (pages != [] ==> pages[|pages| - 1].hasNext))
    decreases |pages|
  {
    if pages != [] {
      var n := |pages| - 1;
      var before, page := pages[..n], pages[n];
      WalkSplits(tables, pages, workspace, issue, first, n);
      WalkKeeps(tables[..n], before, workspace, issue, first, key);
      if key !in Nodes(before) {
        assert key in Matching(tables[n], workspace, issue, None);
        assert key in Matching(tables[n], workspace, issue, CursorOf(before));
        PageIsSlice(tables[n], workspace, issue, first, CursorOf(before));
        if key !in page.nodes { assert page.nodes[|page.nodes| - 1] in page.nodes; }
      }
    }
  }

  function Times(keys: seq<Key>, key: Key): nat { multiset(keys)[key] }

  lemma {:induction false} OnceAtMost(keys: seq<Key>, key: Key)
    requires Descending(keys)
    ensures Times(keys, key) == if key in keys then 1 else 0
  {
    if keys != [] {
      assert keys == [keys[0]] + keys[1..];
      OnceAtMost(keys[1..], key);
    }
  }

  /** However the table changes between pages: nothing is shown twice, nothing
      foreign is shown, and what was there throughout is shown exactly once. */
  lemma ChangingTableIsPagedOnce(tables: seq<set<Row>>, pages: seq<Page>, workspace: int, issue: int, first: nat, key: Key)
    requires 1 <= first && Walk(tables, pages, workspace, issue, first)
    ensures Times(Nodes(pages), key) <= 1
    ensures key in Nodes(pages) ==> Seen(tables, workspace, issue, key)
    ensures pages != [] && !pages[|pages| - 1].hasNext
            && (forall i :: 0 <= i < |tables| ==> key in Matching(tables[i], workspace, issue, None))
            ==> Times(Nodes(pages), key) == 1
  {
    WalkSettles(tables, pages, workspace, issue, first);
    if key in Nodes(pages) { ShownWasThere(tables, pages, workspace, issue, first, key); }
    OnceAtMost(Nodes(pages), key);
    if forall i :: 0 <= i < |tables| ==> key in Matching(tables[i], workspace, issue, None) {
      WalkKeeps(tables, pages, workspace, issue, first, key);
    }
  }

  /** On a table nobody touches, the pages laid end to end are the whole
      listing, and the walk ends: each page but the last is full. */
  lemma FixedTableIsListed(table: set<Row>, tables: seq<set<Row>>, pages: seq<Page>, workspace: int, issue: int, first: nat)
    requires 1 <= first && Walk(tables, pages, workspace, issue, first)
    requires forall i :: 0 <= i < |tables| ==> tables[i] == table
    ensures pages != [] && !pages[|pages| - 1].hasNext ==> Nodes(pages) == Listed(Matching(table, workspace, issue, None))
    ensures pages != [] && pages[|pages| - 1].hasNext ==> first * |pages| < |Matching(table, workspace, issue, None)|
  {
    var all := Matching(table, workspace, issue, None);
    WalkSettles(tables, pages, workspace, issue, first);
    ShownIsThere(table, tables, pages, workspace, issue, first);
    if pages != [] && !pages[|pages| - 1].hasNext {
      forall k | k in all ensures k in Nodes(pages) { WalkKeeps(tables, pages, workspace, issue, first, k); }
      ListingIsUnique(Nodes(pages), all);
    } else if pages != [] {
      ReadIsLess(table, tables, pages, workspace, issue, first);
    }
  }

  lemma NothingPast(nodes: seq<Key>, cursor: Key, k: Key)
    requires ReadTo(nodes, Some(cursor)) && Before(cursor, k)
    ensures k !in nodes
  {
    forall i | 0 <= i < |nodes| ensures nodes[i] != k {
      if i < |nodes| - 1 { assert Before(nodes[i], nodes[|nodes| - 1]); }
    }
  }

  /** The row after the last one shown. */
  lemma ExtraRow(table: set<Row>, workspace: int, issue: int, first: nat, after: Option<Key>) returns (extra: Key)
    requires 1 <= first && GetPage(table, workspace, issue, first, after).hasNext
    ensures extra in Matching(table, workspace, issue, None)
    ensures var page := GetPage(table, workspace, issue, first, after);
            page.endCursor.Some? && Before(page.endCursor.value, extra)
  {
    var ahead := Listed(Matching(table, workspace, issue, after));
    extra := ahead[first];
    assert extra in ahead;
    assert GetPage(table, workspace, issue, first, after).nodes == ahead[..first];
    assert Before(ahead[first - 1], ahead[first]);
  }

  /** A further page is promised only when there is one more row. */
  lemma ReadIsLess(table: set<Row>, tables: seq<set<Row>>, pages: seq<Page>, workspace: int, issue: int, first: nat)
    requires 1 <= first && Walk(tables, pages, workspace, issue, first)
    requires forall i :: 0 <= i < |tables| ==> tables[i] == table
    requires pages != [] && pages[|pages| - 1].hasNext
    ensures |Nodes(pages)| < |Matching(table, workspace, issue, None)|
  {
    var all, n := Matching(table, workspace, issue, None), |pages| - 1;
    WalkSettles(tables, pages, workspace, issue, first);
    WalkSplits(tables, pages, workspace, issue, first, n);
    var extra := ExtraRow(table, workspace, issue, first, CursorOf(pages[..n]));
    NothingPast(Nodes(pages), CursorOf(pages).value, extra);
    ShownIsThere(table, tables, pages, workspace, issue, first);
    ShorterThan(Nodes(pages), all, extra);
  }

  lemma ShownIsThere(table: set<Row>, tables: seq<set<Row>>, pages: seq<Page>, workspace: int, issue: int, first: nat)
    requires Walk(tables, pages, workspace, issue, first)
    requires forall i :: 0 <= i < |tables| ==> tables[i] == table
    ensures forall k :: k in Nodes(pages) ==> k in Matching(table, workspace, issue, None)
  {
    forall k | k in Nodes(pages) ensures k in Matching(table, workspace, issue, None) {
      ShownWasThere(tables, pages, workspace, issue, first, k);
    }
  }

  lemma ShorterThan(keys: seq<Key>, all: set<Key>, extra: Key)
    requires Descending(keys) && extra in all && extra !in keys && forall k :: k in keys ==> k in all
    ensures |keys| < |all|
  {
    var read := set k | k in keys;
    forall k | k in read ensures k in all - {extra} {}
    Sizes(keys, read);
    SubsetIsSmaller(read, all - {extra});
  }

  lemma {:induction false} Sizes(keys: seq<Key>, members: set<Key>)
    requires Descending(keys) && members == set k | k in keys
    ensures |members| == |keys|
  {
    if keys != [] {
      var rest := set k | k in keys[1..];
      Sizes(keys[1..], rest);
      assert members == rest + {keys[0]};
    }
  }

  // ------------------------------------------------------- rows, as they are shown

  /** Newest first, the larger id first among rows of one instant. */
  predicate IsNewestFirst(keys: seq<Key>) {
    forall i, j :: 0 <= i < j < |keys| ==>
      keys[i].createdAt >= keys[j].createdAt && (keys[i].createdAt == keys[j].createdAt ==> keys[i].id > keys[j].id)
  }

  /** A page shows rows of its issue and workspace past the cursor, newest first,
      and leaves out only older ones. */
  lemma PageShows(table: set<Row>, workspace: int, issue: int, first: nat, after: Option<Key>, key: Key)
    ensures var page := GetPage(table, workspace, issue, first, after);
            && IsNewestFirst(page.nodes) && |page.nodes| <= first
            && (key in page.nodes ==>
                  && Row(workspace, issue, key) in table
                  && (after.Some? ==> key.createdAt <= after.value.createdAt && key != after.value))
            && (Row(workspace, issue, key) in table && key !in page.nodes
                && (after.Some? ==> key.createdAt < after.value.createdAt) ==>
                  page.hasNext && forall n :: n in page.nodes ==> n.createdAt >= key.createdAt)
  {
    PageIsSlice(table, workspace, issue, first, after);
    var page, all := GetPage(table, workspace, issue, first, after), Matching(table, workspace, issue, after);
    if key in page.nodes {
      var r :| r in table && r.workspace == workspace && r.issue == issue && r.key == key;
      assert r == Row(workspace, issue, key);
    }
    if Row(workspace, issue, key) in table && Resumes(after, key) { assert key in all; }
  }

  lemma MatchingMeans(table: set<Row>, workspace: int, issue: int, key: Key)
    ensures key in Matching(table, workspace, issue, None) <==> Row(workspace, issue, key) in table
  {
    if key in Matching(table, workspace, issue, None) {
      var r :| r in table && r.workspace == workspace && r.issue == issue && r.key == key;
      assert r == Row(workspace, issue, key);
    }
  }

  /** So does a whole walk over a table that changes under it. */
  lemma WalkShows(tables: seq<set<Row>>, pages: seq<Page>, workspace: int, issue: int, first: nat, key: Key)
    requires 1 <= first && Walk(tables, pages, workspace, issue, first)
    ensures IsNewestFirst(Nodes(pages))
    ensures key in Nodes(pages) ==> exists i :: 0 <= i < |tables| && Row(workspace, issue, key) in tables[i]
    ensures pages != [] && !pages[|pages| - 1].hasNext
            && (forall i :: 0 <= i < |tables| ==> Row(workspace, issue, key) in tables[i])
            ==> Times(Nodes(pages), key) == 1
  {
    WalkSettles(tables, pages, workspace, issue, first);
    ChangingTableIsPagedOnce(tables, pages, workspace, issue, first, key);
    forall i | 0 <= i < |tables|
      ensures key in Matching(tables[i], workspace, issue, None) <==> Row(workspace, issue, key) in tables[i]
    {
      MatchingMeans(tables[i], workspace, issue, key);
    }
  }
}
