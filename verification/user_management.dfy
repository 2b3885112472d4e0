/** The pagination arithmetic of the user table: the rows of the current
    page, the "Showing X to Y of Z" label and the page buttons. */
module UserManagement {
  import opened JsArray
  import opened UsersSlice

  /** `getCurrentPageUsers`: `filteredUsers.slice(start, start + 5)` with
      `start = (currentPage - 1) * 5`. */
  function PageRows(filteredUsers: seq<User>, currentPage: int): (rows: seq<User>)
    ensures |rows| <= PageSize
    ensures currentPage >= 1 ==> rows == filteredUsers[Min((currentPage - 1) * PageSize, |filteredUsers|)..Min(currentPage * PageSize, |filteredUsers|)]
    ensures currentPage >= 1 ==> (|rows| > 0 <==> currentPage <= PageCount(|filteredUsers|))
  {
    var start := (currentPage - 1) * PageSize;
    Slice(filteredUsers, start, start + PageSize)
  }

  /** Page 0, which only a direct `setCurrentPage(0)` produces, asks for
      `slice(-5, 0)` and shows nothing. */
  lemma PageZeroIsEmpty(filteredUsers: seq<User>)
    ensures PageRows(filteredUsers, 0) == []
  {
  }

  /** The first `k` pages, concatenated in order. */
  function PagesUpTo(filteredUsers: seq<User>, k: nat): seq<User>
  {
    if k == 0 then [] else PagesUpTo(filteredUsers, k - 1) + PageRows(filteredUsers, k)
  }

  lemma {:induction false} PagesUpToIsPrefix(filteredUsers: seq<User>, k: nat)
    ensures PagesUpTo(filteredUsers, k) == filteredUsers[..Min(k * PageSize, |filteredUsers|)]
  {
    if k > 0 {
      PagesUpToIsPrefix(filteredUsers, k - 1);
      var s := filteredUsers;
      var a, b := Min((k - 1) * PageSize, |s|), Min(k * PageSize, |s|);
      assert s[..a] + s[a..b] == s[..b];
    }
  }

  /** The pages partition the rows: pages 1 to `ceil(n / 5)`, concatenated
      in order, give back exactly the filtered list. */
  lemma PagesPartitionRows(filteredUsers: seq<User>)
    ensures PagesUpTo(filteredUsers, PageCount(|filteredUsers|)) == filteredUsers
  {
    PagesUpToIsPrefix(filteredUsers, PageCount(|filteredUsers|));
  }

  /** The numbers of "Showing first to last of total results". */
  datatype RangeLabel = RangeLabel(first: int, last: int, total: nat)

  function ShowingLabel(currentPage: int, filteredCount: nat): (shown: RangeLabel)
    ensures shown.total == filteredCount
    ensures currentPage >= 1 ==> (shown.first <= shown.last <==> currentPage <= PageCount(filteredCount))
    ensures 1 <= currentPage <= PageCount(filteredCount) ==>
      1 <= shown.first <= shown.last <= filteredCount && shown.last - shown.first < PageSize
  {
    RangeLabel((currentPage - 1) * PageSize + 1, Min(currentPage * PageSize, filteredCount), filteredCount)
  }

  /** For a page in range the label names exactly the shown rows, counting
      from 1: `first` and `last` are the positions of the first and last row
      on the page. */
  lemma LabelDescribesPage(filteredUsers: seq<User>, currentPage: int)
    requires 1 <= currentPage <= PageCount(|filteredUsers|)
    ensures var shown := ShowingLabel(currentPage, |filteredUsers|);
      && 1 <= shown.first <= shown.last <= shown.total == |filteredUsers|
      && PageRows(filteredUsers, currentPage) == filteredUsers[shown.first - 1..shown.last]
  {
  }

  /** Past the last page, and for an empty list, the label runs backwards
      ("11 to 10 of 10", "1 to 0 of 0") and the page shows nothing. */
  lemma LabelPastLastPage(filteredUsers: seq<User>, currentPage: int)
    requires currentPage >= 1 && currentPage > PageCount(|filteredUsers|)
    ensures ShowingLabel(currentPage, |filteredUsers|).first > ShowingLabel(currentPage, |filteredUsers|).last
    ensures PageRows(filteredUsers, currentPage) == []
  {
  }

  lemma EmptyListLabel()
    ensures ShowingLabel(1, 0) == RangeLabel(1, 0, 0)
  {
  }

  /** `Array.from({ length: totalPages }, (_, i) => i + 1)`. */
  function PageButtons(totalPages: nat): (pages: seq<int>)
    ensures |pages| == totalPages
    ensures forall i :: 0 <= i < |pages| ==> pages[i] == i + 1
  {
    if totalPages == 0 then [] else PageButtons(totalPages - 1) + [totalPages]
  }

  /** With a consistent store, the buttons are exactly the pages that show
      rows, in ascending order. */
  lemma ButtonsAreNonEmptyPages(st: UsersState)
    requires Consistent(st)
    ensures forall i, j :: 0 <= i < j < |PageButtons(st.totalPages)| ==> PageButtons(st.totalPages)[i] < PageButtons(st.totalPages)[j]
    ensures forall p :: p in PageButtons(st.totalPages) <==> p >= 1 && |PageRows(st.filteredUsers, p)| > 0
  {
    var buttons := PageButtons(st.totalPages);
    forall p ensures p in buttons <==> p >= 1 && |PageRows(st.filteredUsers, p)| > 0 {
      if 1 <= p <= st.totalPages {
        assert buttons[p - 1] == p;
      }
    }
  }

  /** After the seeded fetch, page 3 shows records 11 to 15. */
  lemma SeedPageThree(st: UsersState)
    ensures PageRows(FetchUsersFulfilled(st, SeedUsers()).filteredUsers, 3) == SeedUsers()[10..15]
    ensures ShowingLabel(3, 15) == RangeLabel(11, 15, 15)
  {
  }
}
