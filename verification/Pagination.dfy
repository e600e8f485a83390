/** Paginated lists over a fixed snapshot of rows in a total order, newest first. */
module Pagination {
  import opened Common
  import opened LeadStatus

  datatype LeadRow = LeadRow(id: nat, userId: string, status: Status)

  datatype Query = Query(page: nat, pageSize: nat, status: Option<Status>, userId: Option<string>)

  datatype PaginatedResult<T> = PaginatedResult(data: seq<T>, page: nat, pageSize: nat, total: nat, totalPages: nat)

  /** Absent filters, and an empty user id, select everything. */
  predicate Selects(q: Query, r: LeadRow) {
    && (q.status.Some? ==> r.status == q.status.value)
    && (q.userId.Some? && q.userId.value != "" ==> r.userId == q.userId.value)
  }

  function Filtered(q: Query, rows: seq<LeadRow>): seq<LeadRow> {
    if rows == [] then []
    else
      var n := |rows| - 1;
      Filtered(q, rows[..n]) + if Selects(q, rows[n]) then [rows[n]] else []
  }

  /** Where the selected rows stand. */
  function Positions(q: Query, rows: seq<LeadRow>): seq<nat> {
    if rows == [] then []
    else
      var n := |rows| - 1;
      Positions(q, rows[..n]) + if Selects(q, rows[n]) then [n] else []
  }

  ghost predicate Increasing(s: seq<nat>) {
    forall i, j | 0 <= i < j < |s| :: s[i] < s[j]
  }

  predicate IsSelectedAt(q: Query, rows: seq<LeadRow>, p: nat) {
    p < |rows| && Selects(q, rows[p])
  }

  /** The filter keeps each selected row once, in its place, and nothing else. */
  lemma {:induction false} FilterKeepsSelected(q: Query, rows: seq<LeadRow>)
    ensures Increasing(Positions(q, rows))
    ensures forall p: nat :: p in Positions(q, rows) <==> IsSelectedAt(q, rows, p)
    ensures |Filtered(q, rows)| == |Positions(q, rows)|
    ensures forall i | 0 <= i < |Positions(q, rows)| ::
              Positions(q, rows)[i] < |rows| && Filtered(q, rows)[i] == rows[Positions(q, rows)[i]]
  {
    if rows != [] {
      var n := |rows| - 1;
      FilterKeepsSelected(q, rows[..n]);
      var before, all := Positions(q, rows[..n]), Positions(q, rows);
      assert forall i | 0 <= i < |before| :: all[i] == before[i] && before[i] in before;
      forall p: nat ensures p in all <==> IsSelectedAt(q, rows, p) {
        assert p < n ==> rows[..n][p] == rows[p];
        assert IsSelectedAt(q, rows[..n], p) <==> p in before;
        assert Selects(q, rows[n]) ==> all[|before|] == n;
      }
    }
  }

  function SelectedSet(q: Query, rows: seq<LeadRow>): set<nat> {
    set p: nat | p < |rows| && Selects(q, rows[p])
  }

  lemma {:induction false} CountsSelected(q: Query, rows: seq<LeadRow>)
    ensures |Filtered(q, rows)| == |SelectedSet(q, rows)|
  {
    if rows != [] {
      var n := |rows| - 1;
      CountsSelected(q, rows[..n]);
      assert SelectedSet(q, rows) == SelectedSet(q, rows[..n]) + if Selects(q, rows[n]) then {n} else {};
    }
  }

  /** `skip` and `take` on a list that may be shorter. */
  function SkipTake<T>(s: seq<T>, skip: nat, take: nat): seq<T> {
    if skip >= |s| then []
    else if skip + take >= |s| then s[skip..]
    else s[skip..skip + take]
  }

  /** How many rows come before page k. */
  function Skip(k: nat, size: nat): nat
    requires k >= 1
  {
    (k - 1) * size
  }

  /** The k-th page of the given size. */
  function PageOf<T>(s: seq<T>, k: nat, size: nat): seq<T>
    requires k >= 1
  {
    SkipTake(s, Skip(k, size), size)
  }

  /** `Math.ceil(total / size)`. */
  function Ceiling(total: nat, size: nat): nat
    requires size >= 1
  {
    (total + size - 1) / size
  }

  function TotalPages(total: nat, size: nat): nat
    requires size >= 1
  {
    Max(1, Ceiling(total, size))
  }

  /** The pages 1 to k, one after the other. */
  function Pages<T>(s: seq<T>, k: nat, size: nat): seq<T> {
    if k == 0 then [] else Pages(s, k - 1, size) + PageOf(s, k, size)
  }

  /** The least number of pages, and at least one, that hold `total` rows. */
  predicate IsPageCount(total: nat, size: nat, pages: nat) {
    && pages >= 1 && total <= pages * size
    && (pages > 1 ==> (pages - 1) * size < total)
  }

  lemma TotalPagesIsLeast(total: nat, size: nat)
    requires size >= 1
    ensures IsPageCount(total, size, TotalPages(total, size))
  {
    var n := TotalPages(total, size);
    CeilingCovers(total, size, n);
    if n > 1 {
      CeilingCovers(total, size, n - 1);
    }
  }

  /** A page of the filtered list is the rows that stand at that page of positions. */
  lemma PageOfPositions(q: Query, rows: seq<LeadRow>, k: nat, size: nat)
    requires k >= 1 && size >= 1
    ensures var at, page := PageOf(Positions(q, rows), k, size), PageOf(Filtered(q, rows), k, size);
            && |page| == |at| <= size
            && Increasing(at)
            && forall i | 0 <= i < |at| :: IsSelectedAt(q, rows, at[i]) && page[i] == rows[at[i]]
  {
    FilterKeepsSelected(q, rows);
    var skip, all := (k - 1) * size, Positions(q, rows);
    SliceKeepsOrder(q, rows, skip, size);
  }

  lemma SliceKeepsOrder(q: Query, rows: seq<LeadRow>, skip: nat, take: nat)
    ensures var at, page := SkipTake(Positions(q, rows), skip, take), SkipTake(Filtered(q, rows), skip, take);
            && |page| == |at| <= take
            && Increasing(at)
            && forall i | 0 <= i < |at| :: IsSelectedAt(q, rows, at[i]) && page[i] == rows[at[i]]
  {
    FilterKeepsSelected(q, rows);
    var all, at := Positions(q, rows), SkipTake(Positions(q, rows), skip, take);
    forall i | 0 <= i < |at| ensures IsSelectedAt(q, rows, at[i]) {
      assert at[i] == all[skip + i] && all[skip + i] in all;
    }
  }

  method List(rows: seq<LeadRow>, q: Query) returns (r: PaginatedResult<LeadRow>)
    requires q.page >= 1 && q.pageSize >= 1
    ensures var at := PageOf(Positions(q, rows), q.page, q.pageSize);
            && |r.data| == |at| <= q.pageSize
            && Increasing(at)
            && forall i | 0 <= i < |at| :: IsSelectedAt(q, rows, at[i]) && r.data[i] == rows[at[i]]
    ensures r.total == |SelectedSet(q, rows)| && r.totalPages == TotalPages(r.total, q.pageSize)
    ensures r.page == q.page && r.pageSize == q.pageSize
  {
    FilterKeepsSelected(q, rows);
    CountsSelected(q, rows);
    PageOfPositions(q, rows, q.page, q.pageSize);
    var skip := Skip(q.page, q.pageSize);
    var selected := Filtered(q, rows);
    r := PaginatedResult(SkipTake(selected, skip, q.pageSize), q.page, q.pageSize, |selected|,
                         TotalPages(|selected|, q.pageSize));
  }

  function Prefix<T>(s: seq<T>, n: nat): seq<T> {
    if n >= |s| then s else s[..n]
  }

  lemma NextPage<T>(s: seq<T>, skip: nat, take: nat)
    ensures Prefix(s, skip) + SkipTake(s, skip, take) == Prefix(s, skip + take)
  {
  }

  lemma {:induction false} PagesArePrefix<T>(s: seq<T>, k: nat, size: nat)
    requires size >= 1
    ensures Pages(s, k, size) == Prefix(s, k * size)
  {
    if k > 0 {
      PagesArePrefix(s, k - 1, size);
      NextPage(s, (k - 1) * size, size);
      assert k * size == (k - 1) * size + size;
    }
  }

  /** That many pages are just enough. */
  lemma CeilingCovers(total: nat, size: nat, k: nat)
    requires size >= 1
    ensures k >= Ceiling(total, size) <==> k * size >= total
  {
    var m := Ceiling(total, size);
    assert m * size <= total + size - 1 < m * size + size;
    if k >= m {
      assert k * size >= m * size;
    } else {
      assert k * size <= (m - 1) * size == m * size - size;
    }
  }

  lemma PageIsEmptyIff<T>(s: seq<T>, size: nat, k: nat)
    requires size >= 1 && k >= 1
    ensures PageOf(s, k, size) == [] <==> k > Ceiling(|s|, size)
  {
    CeilingCovers(|s|, size, k - 1);
    var skip := (k - 1) * size;
    assert SkipTake(s, skip, size) == [] <==> skip >= |s|;
  }

  /** The pages 1 to totalPages, put together, are the filtered list, without gap or
      repeat; every later page is empty and none of them is, unless the list is. */
  lemma PagesPartition<T>(s: seq<T>, size: nat, k: nat)
    requires size >= 1
    ensures Pages(s, TotalPages(|s|, size), size) == s
    ensures k > TotalPages(|s|, size) ==> PageOf(s, k, size) == []
    ensures 1 <= k <= TotalPages(|s|, size) && s != [] ==> PageOf(s, k, size) != []
  {
    PagesArePrefix(s, TotalPages(|s|, size), size);
    CeilingCovers(|s|, size, TotalPages(|s|, size));
    CeilingCovers(|s|, size, 0);
    if k >= 1 {
      PageIsEmptyIff(s, size, k);
    }
  }

  /** What a client gets that asks for every page: `Positions` lists where the selected rows
      stand, each once and in order; and page after page shows the rows at those positions. */
  lemma EveryPageTogether(q: Query, rows: seq<LeadRow>, size: nat)
    requires size >= 1
    ensures Pages(Positions(q, rows), TotalPages(|SelectedSet(q, rows)|, size), size) == Positions(q, rows)
    ensures Increasing(Positions(q, rows))
    ensures forall p: nat :: p in Positions(q, rows) <==> IsSelectedAt(q, rows, p)
    ensures Pages(Filtered(q, rows), TotalPages(|SelectedSet(q, rows)|, size), size) == Filtered(q, rows)
    ensures |Filtered(q, rows)| == |Positions(q, rows)|
    ensures forall i | 0 <= i < |Positions(q, rows)| ::
              Positions(q, rows)[i] < |rows| && Filtered(q, rows)[i] == rows[Positions(q, rows)[i]]
  {
    FilterKeepsSelected(q, rows);
    CountsSelected(q, rows);
    PagesPartition(Positions(q, rows), size, 0);
    PagesPartition(Filtered(q, rows), size, 0);
  }


  // ----- What the filters mean -----

  /** The row has the asked user and status, where these are asked for. */
  predicate IsAsked(q: Query, r: LeadRow) {
    && (q.status == None || q.status == Some(r.status))
    && (q.userId == None || q.userId == Some("") || q.userId == Some(r.userId))
  }

  /** No page shows a row of another user or another status. */
  lemma PagesShowOnlyAsked(q: Query, rows: seq<LeadRow>, k: nat, o: nat)
    requires k >= 1 && q.pageSize >= 1 && o < |PageOf(Filtered(q, rows), k, q.pageSize)|
    ensures IsAsked(q, PageOf(Filtered(q, rows), k, q.pageSize)[o])
    ensures PageOf(Filtered(q, rows), k, q.pageSize)[o] in rows
  {
    PageOfPositions(q, rows, k, q.pageSize);
  }

  /** Every row of the asked user and status is on a page. */
  lemma AskedRowsAreShown(q: Query, rows: seq<LeadRow>, p: nat) returns (k: nat, o: nat)
    requires q.pageSize >= 1 && p < |rows| && IsAsked(q, rows[p])
    ensures 1 <= k <= TotalPages(|Filtered(q, rows)|, q.pageSize)
    ensures o < |PageOf(Filtered(q, rows), k, q.pageSize)| && PageOf(Filtered(q, rows), k, q.pageSize)[o] == rows[p]
  {
    FilterKeepsSelected(q, rows);
    assert IsSelectedAt(q, rows, p);
    var i :| 0 <= i < |Positions(q, rows)| && Positions(q, rows)[i] == p;
    k, o := PlaceOf(Filtered(q, rows), q.pageSize, i);
  }

  /** Element i of a list is on page i / size + 1, at position i % size. */
  lemma PlaceOf<T>(s: seq<T>, size: nat, i: nat) returns (k: nat, o: nat)
    requires size >= 1 && i < |s|
    ensures 1 <= k <= TotalPages(|s|, size) && o < |PageOf(s, k, size)| && PageOf(s, k, size)[o] == s[i]
  {
    k, o := i / size + 1, i % size;
    assert (k - 1) * size + o == i;
    CeilingCovers(|s|, size, k - 1);
    var skip := (k - 1) * size;
    OnSlice(s, skip, size, o);
  }

  lemma OnSlice<T>(s: seq<T>, skip: nat, take: nat, o: nat)
    requires o < take && skip + o < |s|
    ensures o < |SkipTake(s, skip, take)| && SkipTake(s, skip, take)[o] == s[skip + o]
  {
  }
}
