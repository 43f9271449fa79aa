/** Filtered, newest-first pages of the account list, as mongo and as sqlc cut
    them. The order of a query is any newest-first arrangement of the matching
    rows; a fixed one stands for a fixed order among equal times. sqlc filters by
    the status cut to 32 bits. */
module Paging {
  import opened Domain
  import opened AppErrors
  import opened Backends

  datatype Page = Page(accounts: seq<Account>, total: nat)

  predicate Matches(a: Account, status: Option<int>) {
    status.Some? ==> a.status == status.value
  }

  function Filtered(rows: seq<Account>, status: Option<int>): (r: seq<Account>)
    ensures forall a :: a in r <==> a in rows && Matches(a, status)
  {
    if rows == [] then []
    else (if Matches(rows[0], status) then [rows[0]] else []) + Filtered(rows[1..], status)
  }

  /** The filter as sqlc sends it. */
  function StatusFilter(status: Option<int>): (r: Option<int>)
    ensures r == status <==> FilterFits(status)
  {
    match status
    case None => None
    case Some(n) => Some(ToInt32(n))
  }

  predicate FilterFits(status: Option<int>) {
    status.Some? ==> InInt32(status.value)
  }

  ghost predicate NewestFirst(order: seq<Account>) {
    forall i, j :: 0 <= i < j < |order| ==> order[i].createdAt >= order[j].createdAt
  }

  /** What the filtered, sorted query may return. */
  ghost predicate IsOrder(order: seq<Account>, rows: seq<Account>, status: Option<int>) {
    multiset(order) == multiset(Filtered(rows, status)) && NewestFirst(order)
  }

  function Min(a: int, b: int): int {
    if a < b then a else b
  }

  /** Skip and limit as mongo applies them: only positive ones count. */
  function MongoSlice<T>(order: seq<T>, limit: int, offset: int): seq<T> {
    var rest := order[Min(if offset > 0 then offset else 0, |order|)..];
    if limit > 0 then rest[..Min(limit, |rest|)] else rest
  }

  /** LIMIT and OFFSET as the database applies them: negative ones are errors. */
  function SqlSlice<T>(order: seq<T>, limit: int, offset: int): Option<seq<T>> {
    if limit < 0 || offset < 0 then None
    else
      var rest := order[Min(offset, |order|)..];
      Some(rest[..Min(limit, |rest|)])
  }

  function MongoPage(order: seq<Account>, limit: int, offset: int): Page {
    Page(MongoSlice(order, limit, offset), |order|)
  }

  function SqlcPage(order: seq<Account>, limit: int, offset: int): Option<Page> {
    match SqlSlice(order, ToInt32(limit), ToInt32(offset))
    case None => None
    case Some(accounts) => Some(Page(accounts, |order|))
  }

  // ---- the list methods ----

  function ToDomainAll(rows: seq<Row>): (r: seq<Account>)
    ensures |r| == |rows|
  {
    seq(|rows|, i requires 0 <= i < |rows| => ToDomain(rows[i]))
  }

  /** The rows the query's condition selects, in their order. */
  function Selected(rows: seq<Row>, status: Option<int>): seq<Row> {
    if rows == [] then []
    else (if status.Some? ==> rows[0].status == status.value then [rows[0]] else []) + Selected(rows[1..], status)
  }

  lemma ToDomainAllJoin(a: seq<Row>, b: seq<Row>)
    ensures ToDomainAll(a + b) == ToDomainAll(a) + ToDomainAll(b)
  {
  }

  lemma {:induction false} SelectedIsFiltered(rows: seq<Row>, status: Option<int>)
    ensures ToDomainAll(Selected(rows, status)) == Filtered(ToDomainAll(rows), status)
    decreases |rows|
  {
    if rows != [] {
      var (head, tail) := ([rows[0]], rows[1..]);
      SelectedIsFiltered(tail, status);
      ToDomainAllJoin(head, Selected(tail, status));
      assert ToDomainAll(head) == [ToDomain(rows[0])];
      assert ToDomainAll(rows)[1..] == ToDomainAll(tail);
    }
  }

  /** The generated scan loop: all rows of the result set, or the error of the
      scan that failed or of the closing of the set. */
  method ListAccounts(cursor: seq<Row>, scanFails: Option<nat>, closeFails: bool)
    returns (items: Result<seq<Row>, Err>)
    ensures items.Failure? <==> closeFails || (scanFails.Some? && scanFails.value < |cursor|)
    ensures items.Success? ==> items.value == cursor
  {
    var acc: seq<Row> := [];
    for i := 0 to |cursor|
      invariant acc == cursor[..i]
      invariant scanFails.Some? ==> i <= scanFails.value
    {
      if scanFails == Some(i) {
        return Failure(Plain("scan"));
      }
      acc := acc + [cursor[i]];
    }
    if closeFails {
      return Failure(Plain("rows"));
    }
    items := Success(acc);
  }

  lemma SliceMapped(order: seq<Row>, limit: int, offset: int)
    requires SqlSlice(order, limit, offset).Some?
    ensures SqlSlice(ToDomainAll(order), limit, offset) == Some(ToDomainAll(SqlSlice(order, limit, offset).value))
  {
    var a, b := SqlSlice(ToDomainAll(order), limit, offset).value, ToDomainAll(SqlSlice(order, limit, offset).value);
    assert |a| == |b| && forall i :: 0 <= i < |a| ==> a[i] == b[i];
    assert a == b;
  }

  /** The page of the selected rows, in the domain's terms. */
  lemma SqlcPageOfRows(rows: seq<Row>, status: Option<int>, limit: int, offset: int)
    ensures var order := Selected(rows, status);
      SqlcPage(Filtered(ToDomainAll(rows), status), limit, offset) ==
        match SqlSlice(order, ToInt32(limit), ToInt32(offset))
        case None => None
        case Some(slice) => Some(Page(ToDomainAll(slice), |order|))
  {
    var order := Selected(rows, status);
    SelectedIsFiltered(rows, status);
    if SqlSlice(order, ToInt32(limit), ToInt32(offset)).Some? {
      SliceMapped(order, ToInt32(limit), ToInt32(offset));
    }
  }

  /** `accounts` are the rows of `order` from `start` on, at most `most` of them. */
  predicate IsStretch(accounts: seq<Account>, order: seq<Account>, start: int, most: int) {
    && 0 <= start <= |order|
    && |accounts| == (if most < |order| - start then most else |order| - start)
    && forall i :: 0 <= i < |accounts| ==> accounts[i] == order[start + i]
  }

  /** Where a page of this offset starts. */
  function StartOf(offset: int, total: nat): nat {
    if offset <= 0 then 0 else if offset < total then offset else total
  }

  /** The page sqlc cuts, with the cut limit and offset: none if either is negative,
      else at most that many rows from the offset on, and the whole number. */
  lemma SqlcPageIsStretch(order: seq<Account>, limit: int, offset: int)
    ensures var (n, start) := (ToInt32(limit), ToInt32(offset));
      match SqlcPage(order, limit, offset)
      case None => n < 0 || start < 0
      case Some(page) =>
        && n >= 0 && start >= 0 && page.total == |order|
        && IsStretch(page.accounts, order, StartOf(start, |order|), n)
  {
  }

  /** List over sqlc; `rows` are the stored rows in the order the query sorts
      them. The page and the total are those of the cut filter. */
  method SqlcList(rows: seq<Row>, status: Option<int>, limit: int, offset: int,
                  scanFails: Option<nat>, closeFails: bool, countFails: bool)
    returns (r: Result<Page, Err>)
    ensures r.Success? ==> SqlcPage(Filtered(ToDomainAll(rows), StatusFilter(status)), limit, offset) == Some(r.value)
    ensures r.Failure? <==>
      || SqlcPage(Filtered(ToDomainAll(rows), StatusFilter(status)), limit, offset).None? || closeFails || countFails
      || (scanFails.Some? && scanFails.value <
            |SqlcPage(Filtered(ToDomainAll(rows), StatusFilter(status)), limit, offset).value.accounts|)
    ensures r.Failure? ==> Renders(r.error, "internal", 500, 13)
  {
    var order := Selected(rows, StatusFilter(status));
    var slice := SqlSlice(order, ToInt32(limit), ToInt32(offset));
    SqlcPageOfRows(rows, StatusFilter(status), limit, offset);
    if slice.None? {
      return Failure(Derive(ERR_INTERNAL, ByCause(Wrapped("list accounts", Plain("negative LIMIT or OFFSET")))));
    }
    var items := ListAccounts(slice.value, scanFails, closeFails);
    if items.Failure? {
      return Failure(Derive(ERR_INTERNAL, ByCause(Wrapped("list accounts", items.error))));
    }
    if countFails {
      return Failure(Derive(ERR_INTERNAL, ByCause(Wrapped("count accounts", Plain("count")))));
    }
    var accounts: seq<Account> := [];
    for i := 0 to |items.value|
      invariant accounts == ToDomainAll(items.value)[..i]
    {
      accounts := accounts + [ToDomain(items.value[i])];
    }
    assert accounts == ToDomainAll(slice.value);
    r := Success(Page(accounts, |order|));
  }

  /** The total counts the whole list; a limit that is not positive asks for all
      rows from the offset on. */
  predicate AnswersList(page: Page, order: seq<Account>, limit: int, offset: int) {
    && page.total == |order|
    && IsStretch(page.accounts, order, StartOf(offset, |order|), if limit > 0 then limit else |order|)
  }

  lemma MongoPageAnswers(order: seq<Account>, limit: int, offset: int)
    ensures AnswersList(MongoPage(order, limit, offset), order, limit, offset)
  {
  }

  /** List over mongo; `rows` as for sqlc. The filter is taken as it is. */
  method MongoList(rows: seq<Account>, status: Option<int>, limit: int, offset: int, countFails: bool, findFails: bool)
    returns (r: Result<Page, Err>)
    ensures r.Success? <==> !countFails && !findFails
    ensures r.Success? ==> AnswersList(r.value, Filtered(rows, status), limit, offset)
    ensures r.Success? ==> r.value == MongoPage(Filtered(rows, status), limit, offset)
    ensures r.Failure? ==> Renders(r.error, "internal", 500, 13)
  {
    if countFails || findFails {
      return Failure(Derive(ERR_INTERNAL, ByCause(Plain("mongo"))));
    }
    var order := Filtered(rows, status);
    MongoPageAnswers(order, limit, offset);
    var docs := MongoSlice(order, limit, offset);
    var accounts: seq<Account> := [];
    for i := 0 to |docs|
      invariant accounts == docs[..i]
    {
      accounts := accounts + [docs[i]];
    }
    assert accounts == docs;
    r := Success(Page(accounts, |order|));
  }

  /** Rows sorted before filtering are an order of the filtered query. */
  lemma {:induction false} FilteredIsOrder(sorted: seq<Account>, rows: seq<Account>, status: Option<int>)
    requires NewestFirst(sorted) && multiset(sorted) == multiset(rows)
    ensures IsOrder(Filtered(sorted, status), rows, status)
  {
    FilteredNewestFirst(sorted, status);
    forall a: Account ensures multiset(Filtered(sorted, status))[a] == multiset(Filtered(rows, status))[a] {
      FilteredCount(sorted, status, a);
      FilteredCount(rows, status, a);
    }
  }

  lemma NewestFirstCons(a: Account, s: seq<Account>)
    requires NewestFirst(s) && forall x :: x in s ==> a.createdAt >= x.createdAt
    ensures NewestFirst([a] + s)
  {
  }

  lemma {:induction false} FilteredNewestFirst(sorted: seq<Account>, status: Option<int>)
    requires NewestFirst(sorted)
    ensures NewestFirst(Filtered(sorted, status))
    decreases |sorted|
  {
    if sorted != [] {
      var tail := sorted[1..];
      FilteredNewestFirst(tail, status);
      forall x | x in Filtered(tail, status) ensures sorted[0].createdAt >= x.createdAt {
        var i :| 0 <= i < |tail| && tail[i] == x;
        assert sorted[i + 1] == x;
      }
      NewestFirstCons(sorted[0], Filtered(tail, status));
    }
  }

  lemma {:induction false} FilteredCount(rows: seq<Account>, status: Option<int>, a: Account)
    ensures multiset(Filtered(rows, status))[a] == if Matches(a, status) then multiset(rows)[a] else 0
    decreases |rows|
  {
    if rows != [] {
      FilteredCount(rows[1..], status, a);
      assert rows == [rows[0]] + rows[1..];
    }
  }

  // ---- tiling ----

  /** The offset of a page: its number times the limit. */
  function Offset(page: nat, limit: nat): nat {
    if page == 0 then 0 else Offset(page - 1, limit) + limit
  }

  lemma {:induction false} OffsetIsProduct(page: nat, limit: nat)
    ensures Offset(page, limit) == page * limit
    decreases page
  {
    if page > 0 {
      OffsetIsProduct(page - 1, limit);
      assert page * limit == (page - 1) * limit + limit;
    }
  }

  /** The accounts of the first `n` pages of one fixed order. */
  function FirstPages(order: seq<Account>, limit: nat, n: nat): seq<Account> {
    if n == 0 then []
    else FirstPages(order, limit, n - 1) + MongoPage(order, limit, Offset(n - 1, limit)).accounts
  }

  lemma PageIsSlice(order: seq<Account>, limit: nat, offset: nat)
    requires limit > 0
    ensures MongoPage(order, limit, offset).accounts == order[Min(offset, |order|)..Min(offset + limit, |order|)]
  {
  }

  lemma SlicesJoin(order: seq<Account>, a: nat, b: nat)
    requires a <= b <= |order|
    ensures order[..a] + order[a..b] == order[..b]
  {
  }

  /** One page more of the same order is a longer prefix of it. */
  lemma PrefixAndPage(order: seq<Account>, limit: nat, offset: nat)
    requires limit > 0
    ensures order[..Min(offset, |order|)] + MongoPage(order, limit, offset).accounts
         == order[..Min(offset + limit, |order|)]
  {
    PageIsSlice(order, limit, offset);
    SlicesJoin(order, Min(offset, |order|), Min(offset + limit, |order|));
  }

  lemma {:induction false} FirstPagesArePrefix(order: seq<Account>, limit: nat, n: nat)
    requires limit > 0
    ensures FirstPages(order, limit, n) == order[..Min(Offset(n, limit), |order|)]
    decreases n
  {
    if n > 0 {
      FirstPagesArePrefix(order, limit, n - 1);
      PrefixAndPage(order, limit, Offset(n - 1, limit));
    }
  }

  /** All the matching rows, newest first, none missing and none twice. */
  ghost predicate IsWholeList(all: seq<Account>, rows: seq<Account>, status: Option<int>) {
    && NewestFirst(all)
    && (forall a :: a in all <==> a in rows && Matches(a, status))
    && DistinctIds(all)
  }

  lemma OrderIsWholeList(rows: Rows, status: Option<int>, order: seq<Account>)
    requires IsOrder(order, rows, status)
    ensures IsWholeList(order, rows, status)
  {
    forall a ensures a in order <==> a in rows && Matches(a, status) {
      assert a in order <==> a in multiset(order);
      assert a in Filtered(rows, status) <==> a in multiset(Filtered(rows, status));
    }
    FilteredDistinct(rows, status);
    PermutationDistinct(order, Filtered(rows, status));
  }

  /** The pages at offsets 0, L, 2L, ... of one fixed order tile the list:
      together they are that order, so all the matching rows, newest first, none
      missing and none twice. */
  lemma PagesTile(rows: Rows, status: Option<int>, order: seq<Account>, limit: nat, n: nat)
    requires IsOrder(order, rows, status) && limit > 0 && n * limit >= |order|
    ensures FirstPages(order, limit, n) == order
    ensures IsWholeList(FirstPages(order, limit, n), rows, status)
  {
    OffsetIsProduct(n, limit);
    FirstPagesArePrefix(order, limit, n);
    assert order[..|order|] == order;
    OrderIsWholeList(rows, status, order);
  }

  /** sqlc cuts the same pages, as long as limit and offsets stay within 32 bits. */
  lemma SqlcPagesTile(order: seq<Account>, limit: nat, n: nat, page: nat)
    requires 0 < limit && page < n && n * limit <= INT32_MAX
    ensures SqlcPage(order, limit, page * limit) == Some(MongoPage(order, limit, Offset(page, limit)))
  {
    OffsetIsProduct(page, limit);
    OffsetIsProduct(n, limit);
    OffsetGrows(page, n, limit);
    PagesAgreeExactly(order, limit, page * limit);
  }

  lemma {:induction false} OffsetGrows(a: nat, b: nat, limit: nat)
    requires a < b
    ensures Offset(a, limit) + limit <= Offset(b, limit)
    decreases b
  {
    if a < b - 1 {
      OffsetGrows(a, b - 1, limit);
    }
  }

  /** Every page, at any limit and offset, reports the number of rows matching
      the filter, on sqlc the cut one. */
  lemma TotalCountsMatches(rows: Rows, status: Option<int>, order: seq<Account>, cut: seq<Account>, limit: int, offset: int)
    requires IsOrder(order, rows, status) && IsOrder(cut, rows, StatusFilter(status))
    ensures MongoPage(order, limit, offset).total == |Filtered(rows, status)|
    ensures SqlcPage(cut, limit, offset).Some? ==>
      SqlcPage(cut, limit, offset).value.total == |Filtered(rows, StatusFilter(status))|
  {
    assert |order| == |multiset(order)| == |multiset(Filtered(rows, status))|;
    assert |cut| == |multiset(cut)| == |multiset(Filtered(rows, StatusFilter(status)))|;
  }

  predicate DistinctIds(s: seq<Account>) {
    forall i, j :: 0 <= i < j < |s| ==> s[i].id != s[j].id
  }

  lemma DistinctCons(a: Account, s: seq<Account>)
    requires DistinctIds(s) && forall x :: x in s ==> x.id != a.id
    ensures DistinctIds([a] + s)
  {
    var t := [a] + s;
    forall i, j | 0 <= i < j < |t| ensures t[i].id != t[j].id {
      assert t[j] == s[j - 1] && s[j - 1] in s;
      if i > 0 { assert t[i] == s[i - 1]; }
    }
  }

  lemma {:induction false} FilteredDistinct(rows: seq<Account>, status: Option<int>)
    requires DistinctIds(rows)
    ensures DistinctIds(Filtered(rows, status))
    decreases |rows|
  {
    if rows != [] {
      var tail := rows[1..];
      assert DistinctIds(tail);
      FilteredDistinct(tail, status);
      forall x | x in Filtered(tail, status) ensures x.id != rows[0].id {
        var k :| 0 <= k < |tail| && tail[k] == x;
        assert rows[k + 1] == x;
      }
      DistinctCons(rows[0], Filtered(tail, status));
    }
  }

  /** A rearrangement of rows with distinct ids has distinct ids. */
  lemma PermutationDistinct(s: seq<Account>, t: seq<Account>)
    requires multiset(s) == multiset(t) && DistinctIds(t)
    ensures DistinctIds(s)
  {
    forall i, j | 0 <= i < j < |s| ensures s[i].id != s[j].id {
      if s[i] == s[j] {
        OccursTwice(s, i, j);
        OccursOnce(t, s[i]);
      } else {
        assert s[i] in multiset(s) && s[j] in multiset(s);
        assert s[i] in t && s[j] in t;
      }
    }
  }

  lemma OccursTwice(s: seq<Account>, i: nat, j: nat)
    requires i < j < |s| && s[i] == s[j]
    ensures multiset(s)[s[i]] >= 2
  {
    assert s == s[..j] + s[j..];
    assert s[..j][i] == s[i] && s[j..][0] == s[i];
    assert s[i] in multiset(s[..j]) && s[i] in multiset(s[j..]);
  }

  lemma {:induction false} OccursOnce(t: seq<Account>, a: Account)
    requires DistinctIds(t)
    ensures multiset(t)[a] <= 1
    decreases |t|
  {
    if t != [] {
      OccursOnce(t[1..], a);
      assert t == [t[0]] + t[1..];
      if a == t[0] {
        forall k | 0 <= k < |t[1..]| ensures t[1..][k] != a {
          assert t[1..][k] == t[k + 1] && t[k + 1].id != t[0].id;
        }
        assert a !in t[1..];
      }
    }
  }

  // ---- tiling without a fixed tie order ----

  /** The accounts of the first `n` pages, page i cut from the i-th arrangement. */
  function Pages(orders: seq<seq<Account>>, limit: nat, n: nat): seq<Account>
    requires n <= |orders|
  {
    if n == 0 then []
    else Pages(orders, limit, n - 1) + MongoPage(orders[n - 1], limit, Offset(n - 1, limit)).accounts
  }

  ghost predicate AllOrders(orders: seq<seq<Account>>, rows: seq<Account>, status: Option<int>) {
    forall i :: 0 <= i < |orders| ==> IsOrder(orders[i], rows, status)
  }

  /** Whatever arrangement each page is cut from, the pages are a newest-first
      arrangement of the matching rows. */
  ghost predicate TilesAlways(rows: seq<Account>, status: Option<int>, limit: nat, n: nat) {
    forall orders | |orders| == n && AllOrders(orders, rows, status) :: IsOrder(Pages(orders, limit, n), rows, status)
  }

  /** Rows of equal creation time lie on both sides of this position. */
  predicate TieAt(order: seq<Account>, b: nat) {
    0 < b < |order| && order[b - 1].createdAt == order[b].createdAt
  }

  /** They lie on both sides of the start of this page. */
  predicate TieAtPage(order: seq<Account>, limit: nat, page: nat) {
    TieAt(order, Offset(page, limit))
  }

  /** No page boundary separates rows of equal creation time. */
  predicate NoTieStraddles(order: seq<Account>, limit: nat, n: nat) {
    forall i: nat | i < n :: !TieAtPage(order, limit, i)
  }

  lemma NewestFirstWithout(order: seq<Account>, m: nat)
    requires m < |order| && NewestFirst(order)
    ensures NewestFirst(order[..m] + order[m + 1..])
    ensures multiset(order) == multiset(order[..m] + order[m + 1..]) + multiset{order[m]}
  {
    var rest := order[..m] + order[m + 1..];
    assert order == order[..m] + [order[m]] + order[m + 1..];
    forall i, j | 0 <= i < j < |rest| ensures rest[i].createdAt >= rest[j].createdAt {
      var i' := if i < m then i else i + 1;
      var j' := if j < m then j else j + 1;
      assert rest[i] == order[i'] && rest[j] == order[j'];
    }
  }

  lemma RemoveHead(s: seq<Account>, t: seq<Account>, m: nat)
    requires multiset(s) == multiset(t) && NewestFirst(s) && NewestFirst(t)
    requires s != [] && m < |t| && t[m] == s[0]
    ensures multiset(s[1..]) == multiset(t[..m] + t[m + 1..])
    ensures NewestFirst(s[1..]) && NewestFirst(t[..m] + t[m + 1..])
  {
    NewestFirstWithout(t, m);
    assert s == [s[0]] + s[1..];
    assert multiset(s[1..]) == multiset(s) - multiset{s[0]};
  }

  lemma SameTimesWithHead(s: seq<Account>, t: seq<Account>, m: nat, k: nat)
    requires s != [] && m < |t| == |s| && k < |s|
    requires forall i :: 0 <= i <= m ==> t[i].createdAt == s[0].createdAt
    requires var rest := t[..m] + t[m + 1..];
      forall i :: 0 <= i < |s| - 1 ==> s[1..][i].createdAt == rest[i].createdAt
    ensures s[k].createdAt == t[k].createdAt
  {
    var rest := t[..m] + t[m + 1..];
    if k > 0 {
      assert s[k] == s[1..][k - 1];
      assert rest[k - 1] == if k - 1 < m then t[k - 1] else t[k];
    }
  }

  /** Two arrangements of the same rows have the same time at every position. */
  lemma {:induction false} SameTimes(s: seq<Account>, t: seq<Account>)
    requires multiset(s) == multiset(t) && NewestFirst(s) && NewestFirst(t)
    ensures |s| == |t| && forall k :: 0 <= k < |s| ==> s[k].createdAt == t[k].createdAt
    decreases |s|
  {
    assert |s| == |multiset(s)| == |multiset(t)| == |t|;
    if s != [] {
      assert s[0] in multiset(t);
      var m :| 0 <= m < |t| && t[m] == s[0];
      RemoveHead(s, t, m);
      SameTimes(s[1..], t[..m] + t[m + 1..]);
      HeadIsNewest(s, t, m);
      forall k | 0 <= k < |s| ensures s[k].createdAt == t[k].createdAt {
        SameTimesWithHead(s, t, m, k);
      }
    }
  }

  /** Up to where it stands, the head of one arrangement has the time of every
      row before it in the other. */
  lemma HeadIsNewest(s: seq<Account>, t: seq<Account>, m: nat)
    requires multiset(s) == multiset(t) && NewestFirst(s) && NewestFirst(t)
    requires s != [] && m < |t| && t[m] == s[0]
    ensures forall k :: 0 <= k <= m ==> t[k].createdAt == s[0].createdAt
  {
    forall k | 0 <= k <= m ensures t[k].createdAt == s[0].createdAt {
      assert t[k] in multiset(s);
      var i :| 0 <= i < |s| && s[i] == t[k];
    }
  }

  /** How often a row stands before a position that no tie straddles: as often as
      it occurs at all, if it is no older than the row before the position. */
  lemma PrefixByTime(order: seq<Account>, b: nat, a: Account)
    requires NewestFirst(order) && 0 < b < |order| && !TieAt(order, b)
    ensures multiset(order[..b])[a] == if a.createdAt >= order[b - 1].createdAt then multiset(order)[a] else 0
  {
    assert order == order[..b] + order[b..];
    assert multiset(order)[a] == multiset(order[..b])[a] + multiset(order[b..])[a];
    if a.createdAt >= order[b - 1].createdAt {
      forall k | 0 <= k < |order[b..]| ensures order[b..][k] != a {
        assert order[b..][k] == order[b + k];
      }
      assert a !in order[b..];
    } else {
      assert a !in order[..b];
    }
  }

  /** So two arrangements have the same rows before such a position. */
  lemma SamePrefix(s: seq<Account>, t: seq<Account>, b: nat)
    requires multiset(s) == multiset(t) && NewestFirst(s) && NewestFirst(t)
    requires b <= |s| && !TieAt(s, b)
    ensures |s| == |t| && multiset(s[..b]) == multiset(t[..b])
  {
    SameTimes(s, t);
    if b == |s| {
      assert s[..b] == s && t[..b] == t;
    } else if b > 0 {
      forall a: Account ensures multiset(s[..b])[a] == multiset(t[..b])[a] {
        PrefixByTime(s, b, a);
        PrefixByTime(t, b, a);
      }
    }
  }

  /** After some pages, every position has the time it has in the order. */
  ghost predicate Follows(pages: seq<Account>, order: seq<Account>, b: nat) {
    && b <= |order| && |pages| == b
    && multiset(pages) == multiset(order[..b])
    && forall k :: 0 <= k < b ==> pages[k].createdAt == order[k].createdAt
  }

  lemma NextPageFollows(pages: seq<Account>, order: seq<Account>, other: seq<Account>, a: nat, b: nat)
    requires multiset(order) == multiset(other) && NewestFirst(order) && NewestFirst(other)
    requires a <= b <= |order| && Follows(pages, order, a) && !TieAt(order, a) && !TieAt(order, b)
    ensures |other| == |order| && Follows(pages + other[a..b], order, b)
  {
    SameTimes(order, other);
    SamePrefix(order, other, a);
    SamePrefix(order, other, b);
    SlicesJoin(order, a, b);
    SlicesJoin(other, a, b);
    assert multiset(other[..b]) == multiset(other[..a]) + multiset(other[a..b]);
    var all := pages + other[a..b];
    forall k | 0 <= k < b ensures all[k].createdAt == order[k].createdAt {
      if k >= a { assert all[k] == other[k]; }
    }
  }

  /** One more page, cut from any arrangement between positions no tie straddles. */
  lemma PageFollows(pages: seq<Account>, order: seq<Account>, other: seq<Account>, limit: nat, o: nat)
    requires SameRows(order, other) && limit > 0
    requires Follows(pages, order, Min(o, |order|)) && !TieAt(order, o) && !TieAt(order, o + limit)
    ensures Follows(pages + MongoPage(other, limit, o).accounts, order, Min(o + limit, |order|))
  {
    SameTimes(order, other);
    PageIsSlice(other, limit, o);
    NextPageFollows(pages, order, other, Min(o, |order|), Min(o + limit, |order|));
  }

  /** Two newest-first arrangements of the same rows. */
  ghost predicate SameRows(s: seq<Account>, t: seq<Account>) {
    multiset(s) == multiset(t) && NewestFirst(s) && NewestFirst(t)
  }

  ghost predicate AllSameRows(order: seq<Account>, orders: seq<seq<Account>>) {
    forall i :: 0 <= i < |orders| ==> SameRows(order, orders[i])
  }

  lemma {:induction false} PagesFollow(orders: seq<seq<Account>>, order: seq<Account>, limit: nat, n: nat)
    requires limit > 0 && n <= |orders| && NoTieStraddles(order, limit, |orders| + 1) && AllSameRows(order, orders)
    ensures Follows(Pages(orders, limit, n), order, Min(Offset(n, limit), |order|))
    decreases n
  {
    if n == 0 {
      assert Follows([], order, 0);
    } else {
      PagesFollow(orders, order, limit, n - 1);
      assert SameRows(order, orders[n - 1]);
      assert !TieAtPage(order, limit, n - 1) && !TieAtPage(order, limit, n);
      PagesFollowStep(Pages(orders, limit, n - 1), order, orders[n - 1], limit, n);
    }
  }

  lemma PagesFollowStep(pages: seq<Account>, order: seq<Account>, other: seq<Account>, limit: nat, n: nat)
    requires limit > 0 && n > 0 && SameRows(order, other)
    requires !TieAtPage(order, limit, n - 1) && !TieAtPage(order, limit, n)
    requires Follows(pages, order, Min(Offset(n - 1, limit), |order|))
    ensures Follows(pages + MongoPage(other, limit, Offset(n - 1, limit)).accounts, order, Min(Offset(n, limit), |order|))
  {
    var o := Offset(n - 1, limit);
    assert Offset(n, limit) == o + limit;
    PageFollows(pages, order, other, limit, o);
  }

  lemma TilesWithoutTies(rows: Rows, status: Option<int>, order: seq<Account>, limit: nat, n: nat)
    requires IsOrder(order, rows, status) && limit > 0 && Offset(n, limit) >= |order|
    requires NoTieStraddles(order, limit, n)
    ensures TilesAlways(rows, status, limit, n)
  {
    forall orders | |orders| == n && AllOrders(orders, rows, status)
      ensures IsOrder(Pages(orders, limit, n), rows, status)
    {
      assert NoTieStraddles(order, limit, n + 1);
      assert forall i :: 0 <= i < n ==> IsOrder(orders[i], rows, status);
      assert AllSameRows(order, orders);
      PagesFollow(orders, order, limit, n);
      assert order[..|order|] == order;
    }
  }

  function Swapped(order: seq<Account>, b: nat): (r: seq<Account>)
    requires 0 < b < |order|
  {
    order[b - 1 := order[b]][b := order[b - 1]]
  }

  lemma SwapPermutes(order: seq<Account>, b: nat)
    requires 0 < b < |order|
    ensures multiset(Swapped(order, b)) == multiset(order)
  {
    var (x, y) := (order[b - 1], order[b]);
    assert order == order[..b - 1] + [x, y] + order[b + 1..];
    assert Swapped(order, b) == order[..b - 1] + [y, x] + order[b + 1..];
    assert multiset([x, y]) == multiset([y, x]);
  }

  lemma SwapIsOrder(order: seq<Account>, rows: seq<Account>, status: Option<int>, b: nat)
    requires IsOrder(order, rows, status) && TieAt(order, b)
    ensures IsOrder(Swapped(order, b), rows, status)
  {
    var r := Swapped(order, b);
    SwapPermutes(order, b);
    assert forall k :: 0 <= k < |r| ==> r[k].createdAt == order[k].createdAt;
  }

  lemma {:induction false} PagesGrow(orders: seq<seq<Account>>, limit: nat, i: nat, n: nat)
    requires i <= n <= |orders|
    ensures Pages(orders, limit, i) <= Pages(orders, limit, n)
    decreases n
  {
    if i < n {
      PagesGrow(orders, limit, i, n - 1);
    }
  }

  lemma {:induction false} PagesOfOneOrder(orders: seq<seq<Account>>, order: seq<Account>, limit: nat, i: nat)
    requires i <= |orders| && forall m :: 0 <= m < i ==> orders[m] == order
    ensures Pages(orders, limit, i) == FirstPages(order, limit, i)
    decreases i
  {
    if i > 0 {
      PagesOfOneOrder(orders, order, limit, i - 1);
    }
  }

  /** The first `i` pages from one arrangement, the later ones from another. */
  function Change(order: seq<Account>, other: seq<Account>, i: nat, n: nat): (orders: seq<seq<Account>>)
    requires i <= n
    ensures |orders| == n && forall m :: 0 <= m < n ==> orders[m] == if m < i then order else other
  {
    seq(n, m => if m < i then order else other)
  }

  /** Reading the row after a prefix of a longer sequence. */
  lemma PrefixFacts(first: seq<Account>, next: seq<Account>, all: seq<Account>)
    requires first + next <= all && next != []
    ensures |all| > |first| && all[..|first|] == first && all[|first|] == next[0]
  {
    assert all[..|first|] == (first + next)[..|first|];
    assert all[|first|] == (first + next)[|first|];
  }

  lemma PageStart(order: seq<Account>, limit: nat, o: nat)
    requires limit > 0 && o < |order|
    ensures var page := MongoPage(order, limit, o).accounts; page != [] && page[0] == order[o]
  {
    PageIsSlice(order, limit, o);
  }

  lemma OneArrangementPrefix(orders: seq<seq<Account>>, order: seq<Account>, limit: nat, i: nat)
    requires limit > 0 && i <= |orders| && Offset(i, limit) < |order|
    requires forall m :: 0 <= m < i ==> orders[m] == order
    ensures Pages(orders, limit, i) == order[..Offset(i, limit)]
  {
    PagesOfOneOrder(orders, order, limit, i);
    FirstPagesArePrefix(order, limit, i);
  }

  lemma TwoArrangements(orders: seq<seq<Account>>, order: seq<Account>, other: seq<Account>, limit: nat, i: nat, b: nat)
    requires limit > 0 && i < |orders| && b == Offset(i, limit) < |order| == |other|
    requires orders[i] == other && Pages(orders, limit, i) == order[..b]
    ensures var all := Pages(orders, limit, |orders|); |all| > b && all[..b] == order[..b] && all[b] == other[b]
  {
    var page := MongoPage(other, limit, b).accounts;
    PageStart(other, limit, b);
    PagesGrow(orders, limit, i + 1, |orders|);
    assert Pages(orders, limit, i + 1) == order[..b] + page;
    PrefixFacts(order[..b], page, Pages(orders, limit, |orders|));
  }

  /** A tie across a boundary lets a row come twice: last on one page, and, the
      tie broken the other way, first on the next. */
  lemma TieRepeatsRow(order: seq<Account>, limit: nat, i: nat, n: nat)
    requires limit > 0 && i < n && TieAtPage(order, limit, i)
    ensures var b := Offset(i, limit);
      var all := Pages(Change(order, Swapped(order, b), i, n), limit, n);
      |all| > b && all[b - 1] == all[b] == order[b - 1]
  {
    var b := Offset(i, limit);
    var orders := Change(order, Swapped(order, b), i, n);
    OneArrangementPrefix(orders, order, limit, i);
    TwoArrangements(orders, order, Swapped(order, b), limit, i, b);
    var all := Pages(orders, limit, n);
    assert all[b - 1] == all[..b][b - 1] == order[..b][b - 1];
  }

  lemma ChangeIsAllOrders(order: seq<Account>, other: seq<Account>, rows: seq<Account>, status: Option<int>, i: nat, n: nat)
    requires IsOrder(order, rows, status) && IsOrder(other, rows, status) && i <= n
    ensures AllOrders(Change(order, other, i, n), rows, status)
  {
    var orders := Change(order, other, i, n);
    forall m | 0 <= m < n ensures IsOrder(orders[m], rows, status) {
      assert orders[m] == if m < i then order else other;
    }
  }

  lemma TieBreaksTiling(rows: Rows, status: Option<int>, order: seq<Account>, limit: nat, n: nat, i: nat)
    requires IsOrder(order, rows, status) && limit > 0 && i < n && TieAtPage(order, limit, i)
    ensures !TilesAlways(rows, status, limit, n)
  {
    var b := Offset(i, limit);
    var other := Swapped(order, b);
    SwapIsOrder(order, rows, status, b);
    ChangeIsAllOrders(order, other, rows, status, i, n);
    TieRepeatsRow(order, limit, i, n);
    RepeatedRowIsNoOrder(Pages(Change(order, other, i, n), limit, n), rows, status, b);
  }

  lemma RepeatedRowIsNoOrder(all: seq<Account>, rows: Rows, status: Option<int>, b: nat)
    requires 0 < b < |all| && all[b - 1] == all[b]
    ensures !IsOrder(all, rows, status)
  {
    if IsOrder(all, rows, status) {
      FilteredDistinct(rows, status);
      PermutationDistinct(all, Filtered(rows, status));
    }
  }

  /** The database promises no order among rows of equal creation time, and may
      break ties anew for every page. The pages tile whatever it does exactly when
      no page boundary separates rows of equal creation time. */
  lemma TilesAlwaysExactly(rows: Rows, status: Option<int>, order: seq<Account>, limit: nat, n: nat)
    requires IsOrder(order, rows, status) && limit > 0 && n * limit >= |order|
    ensures TilesAlways(rows, status, limit, n) <==> NoTieStraddles(order, limit, n)
  {
    OffsetIsProduct(n, limit);
    if NoTieStraddles(order, limit, n) {
      TilesWithoutTies(rows, status, order, limit, n);
    } else {
      var i: nat :| i < n && TieAtPage(order, limit, i);
      TieBreaksTiling(rows, status, order, limit, n, i);
    }
  }

  /** When the two backends cut the same page of the same order, for limits and
      offsets within 32 bits: a positive limit and an offset not negative, or a
      limit of zero past the end, where both pages are empty. */
  lemma PagesAgreeExactly(order: seq<Account>, limit: int, offset: int)
    requires InInt32(limit) && InInt32(offset)
    ensures SqlcPage(order, limit, offset) == Some(MongoPage(order, limit, offset)) <==>
      offset >= 0 && (limit > 0 || (limit == 0 && offset >= |order|))
  {
    if limit == 0 && 0 <= offset < |order| {
      assert |MongoSlice(order, limit, offset)| > 0;
    }
  }

  /** Past 32 bits sqlc wraps: a limit of 2 to the 32 asks it for no rows at all
      where mongo returns every one. */
  lemma LimitWraps(order: seq<Account>)
    ensures SqlcPage(order, 0x1_0000_0000, 0) == Some(Page([], |order|))
    ensures MongoPage(order, 0x1_0000_0000, 0).accounts == order[..Min(0x1_0000_0000, |order|)]
  {
  }

  // ---- the cut filter ----

  /** The cut filter selects the same rows exactly when the status fits 32 bits or
      no row has either status. */
  lemma {:induction false} FiltersAgreeExactly(rows: seq<Account>, status: Option<int>)
    ensures Filtered(rows, StatusFilter(status)) == Filtered(rows, status) <==>
      FilterFits(status) || forall a :: a in rows ==> !Matches(a, status) && !Matches(a, StatusFilter(status))
  {
    if !FilterFits(status) {
      var x, y := Filtered(rows, status), Filtered(rows, StatusFilter(status));
      if x == y {
        assert forall a :: a in x ==> a in y;
      } else {
        assert x != [] || y != [];
        assert (x != [] ==> x[0] in x) && (y != [] ==> y[0] in y);
      }
    }
  }

  lemma {:induction false} NoneSelected(rows: seq<Account>, status: Option<int>)
    requires forall a :: a in rows ==> !Matches(a, status)
    ensures Filtered(rows, status) == []
  {
    if rows != [] {
      assert rows[0] in rows;
      NoneSelected(rows[1..], status);
    }
  }

  predicate StatusesFit(rows: seq<Account>) {
    forall a :: a in rows ==> InInt32(a.status)
  }

  /** When List answers the same on both backends, over rows both can store and
      with limit and offset within 32 bits. */
  lemma {:induction false} ListsAgreeExactly(rows: seq<Account>, status: Option<int>, limit: int, offset: int)
    requires StatusesFit(rows) && InInt32(limit) && InInt32(offset)
    ensures
      SqlcPage(Filtered(rows, StatusFilter(status)), limit, offset) == Some(MongoPage(Filtered(rows, status), limit, offset)) <==>
        && (FilterFits(status) || forall a :: a in rows ==> !Matches(a, StatusFilter(status)))
        && offset >= 0 && (limit > 0 || (limit == 0 && offset >= |Filtered(rows, status)|))
  {
    FiltersAgreeExactly(rows, status);
    PagesAgreeExactly(Filtered(rows, status), limit, offset);
    if !FilterFits(status) {
      NoneSelected(rows, status);
      if a :| a in rows && Matches(a, StatusFilter(status)) {
        assert a in Filtered(rows, StatusFilter(status));
      }
    }
  }

  /** A filter of 2 to the 32 plus one lists the accounts of status one on sqlc
      and none on mongo. */
  lemma {:induction false} FilterWraps(rows: seq<Account>)
    requires StatusesFit(rows)
    ensures Filtered(rows, StatusFilter(Some(0x1_0000_0001))) == Filtered(rows, Some(1))
    ensures Filtered(rows, Some(0x1_0000_0001)) == []
  {
    NoneSelected(rows, Some(0x1_0000_0001));
  }
}
