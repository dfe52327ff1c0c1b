/**
 list_escalations as a whole: the counting query and the page query, what a database may return
 for them, and when consecutive pages tile the filtered list.
 */
module EscalationPages {
  import opened EscalationQuery
  import opened Numbers
  import opened Options

  /** SELECT ... WHERE where ORDER BY created_at DESC LIMIT $limitAt OFFSET $offsetAt */
  datatype ListQuery = ListQuery(
    where_: seq<Clause>, countArgs: seq<Value>, pageArgs: seq<Value>, limitAt: nat, offsetAt: nat)

  /** LIMIT and OFFSET take the last two arguments and leave the clauses' arguments in place. */
  ghost predicate IsListQuery(q: ListQuery, filters: Filters, page: nat, pageSize: nat)
    requires page >= 1
  {
    && AllPlaces(q.where_) == FirstPlaces(|q.countArgs|)
    && |q.pageArgs| == |q.countArgs| + 2
    && Arg(q.pageArgs, q.limitAt) == Some(Number(pageSize))
    && Arg(q.pageArgs, q.offsetAt) == Some(Number((page - 1) * pageSize))
    && [q.limitAt, q.offsetAt] == FirstPlaces(|q.pageArgs|)[|q.countArgs|..]
    && (forall row :: AllHold(q.where_, q.countArgs, row) <==> Matches(filters, row))
    && (forall row :: AllHold(q.where_, q.pageArgs, row) <==> Matches(filters, row))
  }

  method BuildListQuery(filters: Filters, page: nat, pageSize: nat) returns (q: ListQuery)
    requires page >= 1
    ensures IsListQuery(q, filters, page, pageSize)
  {
    var parts, args := BuildWhere(filters);
    var pageArgs := args + [Number(pageSize), Number((page - 1) * pageSize)];
    q := ListQuery(parts, args, pageArgs, |pageArgs| - 1, |pageArgs|);
    forall row
      ensures AllHold(parts, pageArgs, row) <==> AllHold(parts, args, row)
    {
      ArgumentsAppended(parts, args, [Number(pageSize), Number((page - 1) * pageSize)], row);
    }
  }

  lemma ArgumentsAppended(parts: seq<Clause>, args: seq<Value>, more: seq<Value>, row: Row)
    requires AllPlaces(parts) == FirstPlaces(|args|)
    ensures AllHold(parts, args + more, row) <==> AllHold(parts, args, row)
  {
    forall i | 0 <= i < |parts|
      ensures Holds(parts[i], args + more, row) == Holds(parts[i], args, row)
    {
      forall p | p in Places(parts[i])
        ensures Arg(args + more, p) == Arg(args, p)
      {
        PlaceBounded(parts, |args|, i, p);
      }
      assert parts[i].In? ==> forall k | 0 <= k < |parts[i].places| :: parts[i].places[k] in Places(parts[i]);
      assert !parts[i].In? ==> parts[i].place in Places(parts[i]);
    }
  }

  // ---- what the database returns ----

  ghost function Selected(table: set<Row>, parts: seq<Clause>, args: seq<Value>): set<Row> {
    set row | row in table && AllHold(parts, args, row)
  }

  ghost function Wanted(table: set<Row>, filters: Filters): set<Row> {
    set row | row in table && Matches(filters, row)
  }

  /** An order the database may choose: every row once, newest first, ties in any order. */
  ghost predicate Listing(rows: set<Row>, s: seq<Row>) {
    && (forall r :: r in rows <==> r in s)
    && (forall i, j | 0 <= i < j < |s| :: s[i] != s[j] && s[i].createdAt >= s[j].createdAt)
  }

  function Slice(s: seq<Row>, limit: nat, offset: nat): seq<Row> {
    s[Min(offset, |s|)..Min(offset + limit, |s|)]
  }

  /** Some possible answer to the page query. */
  ghost predicate PageResult(table: set<Row>, q: ListQuery, items: seq<Row>) {
    exists s, limit: nat, offset: nat ::
      && Arg(q.pageArgs, q.limitAt) == Some(Number(limit)) && Arg(q.pageArgs, q.offsetAt) == Some(Number(offset))
      && Listing(Selected(table, q.where_, q.pageArgs), s)
      && items == Slice(s, limit, offset)
  }

  ghost predicate DistinctTimes(rows: set<Row>) {
    forall r, t | r in rows && t in rows && r.createdAt == t.createdAt :: r == t
  }

  lemma {:induction false} ListingUnique(rows: set<Row>, s: seq<Row>, t: seq<Row>)
    requires DistinctTimes(rows) && Listing(rows, s) && Listing(rows, t)
    ensures s == t
    decreases |s|
  {
    ListingSize(rows, s);
    ListingSize(rows, t);
    if s != [] {
      assert s[0] in rows && t[0] in rows;
      assert s[0] in t && t[0] in s;
      assert s[0] == t[0];
      var rest := rows - {s[0]};
      assert Listing(rest, s[1..]) by { TailListing(rows, s); }
      assert Listing(rest, t[1..]) by { TailListing(rows, t); }
      ListingUnique(rest, s[1..], t[1..]);
    }
  }

  lemma TailListing(rows: set<Row>, s: seq<Row>)
    requires Listing(rows, s) && s != []
    ensures Listing(rows - {s[0]}, s[1..])
  {
    assert forall r :: r in s <==> r == s[0] || r in s[1..];
  }

  lemma {:induction false} ListingSize(rows: set<Row>, s: seq<Row>)
    requires Listing(rows, s)
    ensures |s| == |rows|
    decreases |s|
  {
    if s == [] {
      assert rows == {};
    } else {
      TailListing(rows, s);
      ListingSize(rows - {s[0]}, s[1..]);
      assert s[0] in rows;
    }
  }

  function Flatten(pages: seq<seq<Row>>): seq<Row> {
    if pages == [] then [] else Flatten(pages[..|pages| - 1]) + pages[|pages| - 1]
  }

  /** Pages 1, 2, ... answered one after the other over an unchanged table. */
  ghost predicate Paged(
      table: set<Row>, filters: Filters, pageSize: nat, queries: seq<ListQuery>, pages: seq<seq<Row>>)
  {
    && |queries| == |pages|
    && forall i | 0 <= i < |pages| ::
         IsListQuery(queries[i], filters, i + 1, pageSize) && PageResult(table, queries[i], pages[i])
  }

  /** A page query over the filtered rows: its limit, its offset and the rows it may answer from. */
  lemma PageQueryMeaning(table: set<Row>, filters: Filters, q: ListQuery, k: nat, pageSize: nat)
    requires IsListQuery(q, filters, k + 1, pageSize)
    ensures Selected(table, q.where_, q.pageArgs) == Wanted(table, filters)
    ensures Selected(table, q.where_, q.countArgs) == Wanted(table, filters)
    ensures Arg(q.pageArgs, q.limitAt) == Some(Number(pageSize))
    ensures Arg(q.pageArgs, q.offsetAt) == Some(Number(k * pageSize))
  {
  }

  /** The possible answers to page k + 1 are the k-th slices of the possible listings. */
  lemma PageResultIff(table: set<Row>, filters: Filters, q: ListQuery, k: nat, pageSize: nat, items: seq<Row>)
    requires IsListQuery(q, filters, k + 1, pageSize)
    ensures PageResult(table, q, items)
       <==> exists t :: Listing(Wanted(table, filters), t) && items == Slice(t, pageSize, k * pageSize)
  {
    PageQueryMeaning(table, filters, q, k, pageSize);
    var offset: nat := k * pageSize;
    if t :| Listing(Wanted(table, filters), t) && items == Slice(t, pageSize, offset) {
      assert PageResult(table, q, items);
    }
  }

  lemma PrefixPlusSlice(s: seq<Row>, limit: nat, offset: nat)
    ensures s[..Min(offset, |s|)] + Slice(s, limit, offset) == s[..Min(offset + limit, |s|)]
  {
  }

  // ---- cuts ----

  /** Between the first n rows and the rest no creation time is shared. */
  predicate CleanCut(s: seq<Row>, n: int) {
    0 < n < |s| ==> s[n - 1].createdAt != s[n].createdAt
  }

  ghost function First(s: seq<Row>, n: nat): set<Row> {
    set r | r in s[..Min(n, |s|)]
  }

  lemma FirstListing(rows: set<Row>, s: seq<Row>, n: nat)
    requires Listing(rows, s) && n <= |s|
    ensures Listing(First(s, n), s[..n]) && |First(s, n)| == n && First(s, n) <= rows
  {
    assert forall r :: r in First(s, n) ==> r in s;
    ListingSize(First(s, n), s[..n]);
  }

  /** Every listing has the same rows in front of a clean cut. */
  lemma CleanCutDetermines(rows: set<Row>, s: seq<Row>, t: seq<Row>, n: nat)
    requires Listing(rows, s) && Listing(rows, t) && CleanCut(s, n)
    ensures First(s, n) == First(t, n)
  {
    ListingSize(rows, s);
    ListingSize(rows, t);
    if n >= |s| {
      assert s[..|s|] == s && t[..|t|] == t;
    } else if n > 0 {
      FirstListing(rows, s, n);
      FirstListing(rows, t, n);
      FirstOfCleanCut(rows, s, t, n);
      SubsetOfSameSize(First(t, n), First(s, n));
    }
  }

  lemma FirstOfCleanCut(rows: set<Row>, s: seq<Row>, t: seq<Row>, n: nat)
    requires Listing(rows, s) && Listing(rows, t) && 0 < n < |s| == |t| && CleanCut(s, n)
    requires |First(s, n)| == n == |First(t, n)|
    ensures First(t, n) <= First(s, n)
  {
    if r :| r in First(t, n) && r !in First(s, n) {
      if First(s, n) <= First(t, n) {
        SubsetOfSameSize(First(s, n), First(t, n));
        assert false;
      }
      var x :| x in First(s, n) && x !in First(t, n);
      LaterIsOlder(rows, s, n, x, r);
      LaterIsOlder(rows, t, n, r, x);
      assert false;
    }
  }

  /** A row in front of a cut is at least as new as one behind it, and newer if the cut is clean. */
  lemma LaterIsOlder(rows: set<Row>, s: seq<Row>, n: nat, x: Row, r: Row)
    requires Listing(rows, s) && 0 < n < |s| && x in First(s, n) && r in rows && r !in First(s, n)
    ensures x.createdAt >= r.createdAt
    ensures CleanCut(s, n) ==> x.createdAt > r.createdAt
  {
    var i :| 0 <= i < n && s[i] == x;
    var j :| 0 <= j < |s| && s[j] == r;
    assert forall k | 0 <= k < n :: s[..n][k] == s[k] && s[k] in First(s, n);
    assert j >= n;
    assert i == n - 1 || s[i].createdAt >= s[n - 1].createdAt;
    assert j == n || s[n].createdAt >= s[j].createdAt;
  }

  lemma SubsetOfSameSize<T>(a: set<T>, b: set<T>)
    requires a <= b && |a| == |b|
    ensures a == b
  {
    assert b == a + (b - a);
    assert |b| == |a| + |b - a|;
  }

  lemma AppendedListing(a: set<Row>, b: set<Row>, x: seq<Row>, y: seq<Row>)
    requires Listing(a, x) && Listing(b, y)
    requires forall r, t | r in a && t in b :: r != t && r.createdAt >= t.createdAt
    ensures Listing(a + b, x + y)
  {
    assert forall i | 0 <= i < |x| :: x[i] in a;
    assert forall j | 0 <= j < |y| :: y[j] in b;
  }

  lemma PrefixOlder(rows: set<Row>, t: seq<Row>, n: nat, m: nat)
    requires Listing(rows, t) && n <= m <= |t|
    ensures forall r, u | r in t[..n] && u in t[n..m] :: r != u && r.createdAt >= u.createdAt
  {
    assert forall i | 0 <= i < n :: t[..n][i] == t[i];
    assert forall j | n <= j < m :: t[n..m][j - n] == t[j];
  }

  /** The rows a listing has between two cuts, as a listing of their own. */
  lemma BetweenCuts(rows: set<Row>, t: seq<Row>, n: nat, m: nat)
    requires Listing(rows, t) && n <= m <= |t|
    ensures Listing(First(t, m) - First(t, n), t[n..m])
    ensures forall r, u | r in First(t, n) && u in First(t, m) - First(t, n) :: r.createdAt >= u.createdAt
    ensures First(t, n) <= First(t, m)
  {
    PrefixOlder(rows, t, n, m);
    assert t[..m] == t[..n] + t[n..m];
    assert forall r :: r in t[..m] <==> r in t[..n] || r in t[n..m];
  }

  /** The rows between two clean cuts, from any listing, carry on a listing of the rows before. */
  lemma SliceCarriesOn(rows: set<Row>, s: seq<Row>, t: seq<Row>, x: seq<Row>, n: nat, m: nat)
    requires Listing(rows, s) && Listing(rows, t) && n <= m <= |s| && CleanCut(s, n) && CleanCut(s, m)
    requires Listing(First(s, n), x)
    ensures |t| == |s| && Listing(First(s, m), x + t[n..m])
  {
    ListingSize(rows, s);
    ListingSize(rows, t);
    CleanCutDetermines(rows, s, t, n);
    CleanCutDetermines(rows, s, t, m);
    BetweenCuts(rows, t, n, m);
    AppendedListing(First(t, n), First(t, m) - First(t, n), x, t[n..m]);
    assert First(t, n) + (First(t, m) - First(t, n)) == First(t, m);
  }

  // ---- pages ----

  /** Page k + 1 is the k-th slice of the listing. */
  predicate Sliced(pages: seq<seq<Row>>, pageSize: nat, s: seq<Row>) {
    forall k: nat | k < |pages| :: pages[k] == Slice(s, pageSize, k * pageSize)
  }

  lemma LastSlice(pages: seq<seq<Row>>, pageSize: nat, s: seq<Row>)
    requires Sliced(pages, pageSize, s) && pages != []
    ensures var k := |pages| - 1;
      Sliced(pages[..k], pageSize, s) && pages[k] == Slice(s, pageSize, k * pageSize)
  {
  }

  /** Consecutive slices of one listing make up a prefix of it. */
  lemma {:induction false} SlicesPrefix(pages: seq<seq<Row>>, pageSize: nat, s: seq<Row>)
    requires Sliced(pages, pageSize, s)
    ensures Flatten(pages) == s[..Min(|pages| * pageSize, |s|)]
    decreases |pages|
  {
    if pages != [] {
      var k := |pages| - 1;
      var offset := k * pageSize;
      assert |pages| * pageSize == offset + pageSize;
      LastSlice(pages, pageSize, s);
      SlicesPrefix(pages[..k], pageSize, s);
      PrefixPlusSlice(s, pageSize, offset);
    }
  }

  /** No page boundary within the list separates two rows with the same creation time. */
  ghost predicate CleanPages(s: seq<Row>, pageSize: nat) {
    forall k: nat :: CleanCut(s, k * pageSize)
  }

  ghost predicate Queries(filters: Filters, pageSize: nat, queries: seq<ListQuery>) {
    forall i: nat | i < |queries| :: IsListQuery(queries[i], filters, i + 1, pageSize)
  }

  lemma LastPage(table: set<Row>, filters: Filters, pageSize: nat, queries: seq<ListQuery>, pages: seq<seq<Row>>)
    returns (t: seq<Row>)
    requires Paged(table, filters, pageSize, queries, pages) && pages != []
    ensures var k := |pages| - 1;
      && Paged(table, filters, pageSize, queries[..k], pages[..k])
      && Listing(Wanted(table, filters), t) && pages[k] == Slice(t, pageSize, k * pageSize)
  {
    var k := |pages| - 1;
    PageResultIff(table, filters, queries[k], k, pageSize, pages[k]);
    t :| Listing(Wanted(table, filters), t) && pages[k] == Slice(t, pageSize, k * pageSize);
  }

  lemma {:induction false} CleanPagesCarryOn(
      table: set<Row>, filters: Filters, pageSize: nat, queries: seq<ListQuery>, pages: seq<seq<Row>>, s: seq<Row>)
    requires Paged(table, filters, pageSize, queries, pages)
    requires Listing(Wanted(table, filters), s) && CleanPages(s, pageSize)
    ensures Listing(First(s, |pages| * pageSize), Flatten(pages))
    decreases |pages|
  {
    if pages != [] {
      var k := |pages| - 1;
      var offset := k * pageSize;
      assert |pages| * pageSize == offset + pageSize;
      var t := LastPage(table, filters, pageSize, queries, pages);
      CleanPagesCarryOn(table, filters, pageSize, queries[..k], pages[..k], s);
      assert CleanCut(s, offset) && CleanCut(s, |pages| * pageSize);
      PageCarriesOn(Wanted(table, filters), s, t, Flatten(pages[..k]), pageSize, offset);
    }
  }

  lemma PageCarriesOn(rows: set<Row>, s: seq<Row>, t: seq<Row>, x: seq<Row>, limit: nat, offset: nat)
    requires Listing(rows, s) && Listing(rows, t) && CleanCut(s, offset) && CleanCut(s, offset + limit)
    requires Listing(First(s, offset), x)
    ensures Listing(First(s, offset + limit), x + Slice(t, limit, offset))
  {
    ListingSize(rows, s);
    ListingSize(rows, t);
    SliceCarriesOn(rows, s, t, x, Min(offset, |s|), Min(offset + limit, |s|));
  }

  lemma CleanPagesTile(
      table: set<Row>, filters: Filters, pageSize: nat, queries: seq<ListQuery>, pages: seq<seq<Row>>, s: seq<Row>)
    requires Paged(table, filters, pageSize, queries, pages) && |pages| * pageSize >= |s|
    requires Listing(Wanted(table, filters), s) && CleanPages(s, pageSize)
    ensures Listing(Wanted(table, filters), Flatten(pages))
  {
    CleanPagesCarryOn(table, filters, pageSize, queries, pages, s);
    assert s[..|s|] == s;
    assert First(s, |pages| * pageSize) == Wanted(table, filters);
  }

  // ---- ties across a boundary ----

  /** Page i + 1 as it comes from the listing s, except that page k + 1 comes from t. */
  function PagesOf(s: seq<Row>, t: seq<Row>, k: nat, pageSize: nat, count: nat): seq<seq<Row>> {
    seq(count, i requires 0 <= i < count => Slice(if i == k then t else s, pageSize, i * pageSize))
  }

  lemma PagesOfArePaged(
      table: set<Row>, filters: Filters, pageSize: nat, queries: seq<ListQuery>, s: seq<Row>, t: seq<Row>, k: nat)
    requires Queries(filters, pageSize, queries)
    requires Listing(Wanted(table, filters), s) && Listing(Wanted(table, filters), t)
    ensures Paged(table, filters, pageSize, queries, PagesOf(s, t, k, pageSize, |queries|))
  {
    var pages := PagesOf(s, t, k, pageSize, |queries|);
    forall i | 0 <= i < |pages|
      ensures PageResult(table, queries[i], pages[i])
    {
      PageResultIff(table, filters, queries[i], i, pageSize, pages[i]);
      var listing := if i == k then t else s;
      assert Listing(Wanted(table, filters), listing) && pages[i] == Slice(listing, pageSize, i * pageSize);
    }
  }

  lemma {:induction false} FlattenPrefix(pages: seq<seq<Row>>, n: nat)
    requires n <= |pages|
    ensures Flatten(pages[..n]) <= Flatten(pages)
    decreases |pages|
  {
    if n < |pages| {
      var init := pages[..|pages| - 1];
      FlattenPrefix(init, n);
      assert init[..n] == pages[..n];
    } else {
      assert pages[..n] == pages;
    }
  }

  /**
   A tie across a page boundary lets the pages show one row twice running: at the end of one page
   and at the start of the next.
   */
  lemma BoundaryTieRepeats(
      table: set<Row>, filters: Filters, pageSize: nat, queries: seq<ListQuery>, s: seq<Row>, k: nat)
    returns (pages: seq<seq<Row>>)
    requires Queries(filters, pageSize, queries) && Listing(Wanted(table, filters), s)
    requires k < |queries| && !CleanCut(s, k * pageSize)
    ensures Paged(table, filters, pageSize, queries, pages)
    ensures k * pageSize < |Flatten(pages)|
    ensures Flatten(pages)[k * pageSize - 1] == Flatten(pages)[k * pageSize]
  {
    var offset: nat := k * pageSize;
    var t := Swapped(s, offset - 1);
    SwappedListing(Wanted(table, filters), s, offset - 1);
    pages := PagesOf(s, t, k, pageSize, |queries|);
    PagesOfArePaged(table, filters, pageSize, queries, s, t, k);
    PagesOfSliced(s, t, k, pageSize, |queries|);
    assert pageSize == 0 ==> offset == 0;
    RepeatAcrossPages(pages, s, t, k, pageSize, offset);
  }

  lemma RepeatAcrossPages(pages: seq<seq<Row>>, s: seq<Row>, t: seq<Row>, k: nat, limit: nat, offset: nat)
    requires k < |pages| && offset == k * limit && Sliced(pages[..k], limit, s) && pages[k] == Slice(t, limit, offset)
    requires 0 < offset < |s| && limit > 0 && t == Swapped(s, offset - 1)
    ensures offset < |Flatten(pages)| && Flatten(pages)[offset - 1] == Flatten(pages)[offset]
  {
    SlicesPrefix(pages[..k], limit, s);
    FlattenPrefix(pages, k + 1);
    assert pages[..k + 1][..k] == pages[..k];
    RepeatedRow(s, t, Flatten(pages[..k + 1]), offset, limit);
  }

  lemma PagesOfSliced(s: seq<Row>, t: seq<Row>, k: nat, pageSize: nat, count: nat)
    requires k < count
    ensures var pages := PagesOf(s, t, k, pageSize, count);
      Sliced(pages[..k], pageSize, s) && pages[k] == Slice(t, pageSize, k * pageSize)
  {
  }

  lemma RepeatedRow(s: seq<Row>, t: seq<Row>, shown: seq<Row>, offset: nat, limit: nat)
    requires 0 < offset < |s| && limit > 0 && t == Swapped(s, offset - 1)
    requires shown == s[..offset] + Slice(t, limit, offset)
    ensures offset < |shown| && shown[offset - 1] == shown[offset]
  {
    assert Slice(t, limit, offset)[0] == t[offset] == s[offset - 1];
  }

  // ---- when pages tile ----

  /**
   Main result: for pages that cover the total, every possible answer lists every matching row
   exactly once, newest first, if and only if no page boundary separates rows with the same
   creation time. One page is always enough; distinct times are, too.
   */
  lemma PagesTileIff(table: set<Row>, filters: Filters, pageSize: nat, queries: seq<ListQuery>, s: seq<Row>)
    requires Queries(filters, pageSize, queries)
    requires Listing(Wanted(table, filters), s) && |queries| * pageSize >= |s|
    ensures (forall pages | Paged(table, filters, pageSize, queries, pages) ::
               Listing(Wanted(table, filters), Flatten(pages)))
       <==> CleanPages(s, pageSize)
  {
    if CleanPages(s, pageSize) {
      forall pages | Paged(table, filters, pageSize, queries, pages)
        ensures Listing(Wanted(table, filters), Flatten(pages))
      {
        CleanPagesTile(table, filters, pageSize, queries, pages, s);
      }
    } else {
      var k: nat :| !CleanCut(s, k * pageSize);
      BoundaryBeforeLastPage(k, pageSize, |queries|, |s|);
      var pages := BoundaryTieRepeats(table, filters, pageSize, queries, s, k);
      assert !Listing(Wanted(table, filters), Flatten(pages));
    }
  }

  lemma BoundaryBeforeLastPage(k: nat, pageSize: nat, count: nat, total: nat)
    requires k * pageSize < total <= count * pageSize
    ensures k < count
  {
    if k >= count { MorePagesMoreRows(count, k, pageSize); }
  }

  lemma MorePagesMoreRows(count: nat, k: nat, pageSize: nat)
    requires count <= k
    ensures count * pageSize <= k * pageSize
  {
    assert k * pageSize == count * pageSize + (k - count) * pageSize;
  }

  /**
   With distinct creation times, reading pages until page_size * pages covers the total returns
   every matching row exactly once, newest first; the count query's total is their number.
   */
  lemma PagesTile(table: set<Row>, filters: Filters, pageSize: nat, queries: seq<ListQuery>, pages: seq<seq<Row>>)
    requires Paged(table, filters, pageSize, queries, pages) && |pages| >= 1
    requires DistinctTimes(Wanted(table, filters))
    requires |pages| * pageSize >= |Selected(table, queries[0].where_, queries[0].countArgs)|
    ensures Listing(Wanted(table, filters), Flatten(pages))
    ensures |Flatten(pages)| == |Selected(table, queries[0].where_, queries[0].countArgs)|
  {
    PageQueryMeaning(table, filters, queries[0], 0, pageSize);
    var s := ListingExists(Wanted(table, filters));
    ListingSize(Wanted(table, filters), s);
    assert forall i | 0 <= i < |s| :: s[i] in Wanted(table, filters);
    assert forall n :: CleanCut(s, n);
    CleanPagesTile(table, filters, pageSize, queries, pages, s);
    ListingSize(Wanted(table, filters), Flatten(pages));
  }

  // ---- the order ----

  lemma {:induction false} Newest(rows: set<Row>) returns (r: Row)
    requires rows != {}
    ensures r in rows && forall t | t in rows :: r.createdAt >= t.createdAt
    decreases |rows|
  {
    r :| r in rows;
    var rest := rows - {r};
    if rest != {} {
      var t := Newest(rest);
      if t.createdAt > r.createdAt { r := t; }
    }
  }

  lemma {:induction false} ListingExists(rows: set<Row>) returns (s: seq<Row>)
    ensures Listing(rows, s)
    decreases |rows|
  {
    if rows == {} {
      s := [];
    } else {
      var r := Newest(rows);
      var rest := ListingExists(rows - {r});
      s := [r] + rest;
      assert forall t :: t in s <==> t == r || t in rest;
    }
  }

  /** The order in which matching rows come is determined exactly when creation times are distinct. */
  lemma OrderDeterminedIff(rows: set<Row>)
    ensures DistinctTimes(rows) <==> forall s, t | Listing(rows, s) && Listing(rows, t) :: s == t
  {
    if DistinctTimes(rows) {
      forall s, t | Listing(rows, s) && Listing(rows, t) ensures s == t {
        ListingUnique(rows, s, t);
      }
    } else {
      var a, b :| a in rows && b in rows && a.createdAt == b.createdAt && a != b;
      var s, i := TieInSomeListing(rows, a, b);
      SwappedListing(rows, s, i);
      assert Swapped(s, i)[i] != s[i];
    }
  }

  lemma TieInSomeListing(rows: set<Row>, a: Row, b: Row) returns (s: seq<Row>, i: nat)
    requires a in rows && b in rows && a != b && a.createdAt == b.createdAt
    ensures Listing(rows, s) && i + 1 < |s| && s[i].createdAt == s[i + 1].createdAt && s[i] != s[i + 1]
  {
    s := ListingExists(rows);
    assert a in s && b in s;
    var j :| 0 <= j < |s| && s[j] == a;
    var k :| 0 <= k < |s| && s[k] == b;
    i := if j < k then j else k;
    TiedNeighbours(rows, s, j, k);
  }

  lemma TiedNeighbours(rows: set<Row>, s: seq<Row>, j: nat, k: nat)
    requires Listing(rows, s) && j < |s| && k < |s| && j != k && s[j].createdAt == s[k].createdAt
    ensures var i := if j < k then j else k; i + 1 < |s| && s[i].createdAt == s[i + 1].createdAt && s[i] != s[i + 1]
  {
    var i, m := if j < k then j else k, if j < k then k else j;
    assert s[i].createdAt >= s[i + 1].createdAt;
    assert m == i + 1 || s[i + 1].createdAt >= s[m].createdAt;
  }

  function Swapped(s: seq<Row>, i: nat): seq<Row>
    requires i + 1 < |s|
  {
    s[i := s[i + 1]][i + 1 := s[i]]
  }

  lemma SwappedListing(rows: set<Row>, s: seq<Row>, i: nat)
    requires Listing(rows, s) && i + 1 < |s| && s[i].createdAt == s[i + 1].createdAt
    ensures Listing(rows, Swapped(s, i))
  {
    var t := Swapped(s, i);
    assert t[i] == s[i + 1] && t[i + 1] == s[i];
    forall r ensures r in rows <==> r in t {
      if r in s {
        var m :| 0 <= m < |s| && s[m] == r;
        assert t[if m == i then i + 1 else if m == i + 1 then i else m] == r;
      }
    }
  }
}
