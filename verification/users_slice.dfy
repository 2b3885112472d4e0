/** The users store: the reducers of the `users` slice, its initial state
    and the fifteen records its mock fetch resolves with. */
module UsersSlice {
  import opened Wrappers
  import opened JsArray
  import opened Text

  /** Rows per table page; the store and the table both use 5. */
  const PageSize: nat := 5

  datatype Status = Active | Inactive

  datatype User = User(
    id: int,
    name: string,
    email: string,
    status: Status,
    region: string,
    registrationDate: string)

  datatype UsersState = UsersState(
    users: seq<User>,          // the fetched list, source of truth
    filteredUsers: seq<User>,  // the rows the current search shows
    loading: bool,
    error: Option<string>,
    currentPage: int,          // 1-based, never clamped
    totalPages: nat,
    deletedUsers: nat)         // number of delete dispatches

  /** `Math.ceil(n / 5)`: the least number of pages of 5 rows that hold n rows. */
  function PageCount(n: nat): (pages: nat)
    ensures pages * PageSize >= n
    ensures pages == 0 || (pages - 1) * PageSize < n
  {
    (n + PageSize - 1) / PageSize
  }

  /** The state before any action: empty lists, but one page. */
  function InitialState(): (st: UsersState)
    ensures st.users == [] && st.filteredUsers == []
    ensures st.currentPage == 1 && st.totalPages == 1
    ensures !st.loading && st.error == None && st.deletedUsers == 0
  {
    UsersState([], [], false, None, 1, 1, 0)
  }

  /** The search test: the lower-cased name or the lower-cased email
      contains the lower-cased term. */
  predicate Matches(u: User, term: string): (found: bool)
    ensures found <==>
      (exists i: nat :: OccursAt(Lower(u.name), Lower(term), i)) || (exists i: nat :: OccursAt(Lower(u.email), Lower(term), i))
    ensures Lower(term) == "" ==> found
  {
    Contains(Lower(u.name), Lower(term)) || Contains(Lower(u.email), Lower(term))
  }

  function MatchesSearch(term: string): User -> bool
  {
    (u: User) => Matches(u, term)
  }

  /** Keeps every user whose id differs from `id` (strict `!==`). */
  function HasOtherId(id: int): User -> bool
  {
    (u: User) => u.id != id
  }

  /** `deleteUser(id)`: drops every entry with that id from both lists, counts
      the dispatch whether or not anything was dropped, and recomputes the
      page count without touching the current page. */
  function DeleteUser(st: UsersState, id: int): (r: UsersState)
    ensures Subseq(r.users, st.users) && Subseq(r.filteredUsers, st.filteredUsers)
    ensures forall u :: multiset(r.users)[u] == if u.id == id then 0 else multiset(st.users)[u]
    ensures forall u :: multiset(r.filteredUsers)[u] == if u.id == id then 0 else multiset(st.filteredUsers)[u]
    ensures r.deletedUsers == st.deletedUsers + 1
    ensures r.totalPages == PageCount(|r.filteredUsers|)
    ensures r.currentPage == st.currentPage && r.loading == st.loading && r.error == st.error
  {
    var filtered := Filter(st.filteredUsers, HasOtherId(id));
    st.(users := Filter(st.users, HasOtherId(id)),
        filteredUsers := filtered,
        deletedUsers := st.deletedUsers + 1,
        totalPages := PageCount(|filtered|))
  }

  /** `filterUsers(term)`: recomputes the visible rows from the full list,
      recomputes the page count and goes back to page 1. */
  function FilterUsers(st: UsersState, term: string): (r: UsersState)
    ensures Subseq(r.filteredUsers, st.users)
    ensures forall u :: multiset(r.filteredUsers)[u] == if Matches(u, term) then multiset(st.users)[u] else 0
    ensures r.totalPages == PageCount(|r.filteredUsers|) && r.currentPage == 1
    ensures r.users == st.users && r.deletedUsers == st.deletedUsers
    ensures r.loading == st.loading && r.error == st.error
  {
    var filtered := Filter(st.users, MatchesSearch(term));
    st.(filteredUsers := filtered, totalPages := PageCount(|filtered|), currentPage := 1)
  }

  /** `setCurrentPage(n)`: stores `n` as given, with no bounds check. */
  function SetCurrentPage(st: UsersState, page: int): (r: UsersState)
    ensures r.currentPage == page
    ensures r.users == st.users && r.filteredUsers == st.filteredUsers
    ensures r.totalPages == st.totalPages && r.deletedUsers == st.deletedUsers
    ensures r.loading == st.loading && r.error == st.error
  {
    st.(currentPage := page)
  }

  /** `fetchUsers.pending`. */
  function FetchUsersPending(st: UsersState): (r: UsersState)
    ensures r.loading
    ensures r.users == st.users && r.filteredUsers == st.filteredUsers
    ensures r.currentPage == st.currentPage && r.totalPages == st.totalPages
    ensures r.deletedUsers == st.deletedUsers && r.error == st.error
  {
    st.(loading := true)
  }

  /** `fetchUsers.fulfilled`: both lists become the payload; an earlier error
      and the current page are left as they were. */
  function FetchUsersFulfilled(st: UsersState, payload: seq<User>): (r: UsersState)
    ensures !r.loading
    ensures r.users == payload && r.filteredUsers == payload
    ensures r.totalPages == PageCount(|payload|)
    ensures r.error == st.error && r.currentPage == st.currentPage
    ensures r.deletedUsers == st.deletedUsers
  {
    st.(loading := false, users := payload, filteredUsers := payload,
        totalPages := PageCount(|payload|))
  }

  const FetchUsersFallback := "Failed to fetch users"

  /** `fetchUsers.rejected`: records a non-empty error and keeps the data. */
  function FetchUsersRejected(st: UsersState, message: Option<string>): (r: UsersState)
    ensures !r.loading
    ensures r.error.Some? && r.error.value != ""
    ensures message.Some? && message.value != "" ==> r.error == message
    ensures message == None || message == Some("") ==> r.error == Some(FetchUsersFallback)
    ensures r.users == st.users && r.filteredUsers == st.filteredUsers
    ensures r.currentPage == st.currentPage && r.totalPages == st.totalPages
    ensures r.deletedUsers == st.deletedUsers
  {
    st.(loading := false, error := Some(RejectionMessage(message, FetchUsersFallback)))
  }

  /** The records the mock fetch resolves with. */
  function SeedUsers(): (users: seq<User>)
    ensures |users| == 15
    ensures forall i :: 0 <= i < |users| ==> users[i].id == i + 1
  {
    [
      User(1, "John Doe", "john@example.com", Active, "North America", "2024-01-15"),
      User(2, "Jane Smith", "jane@example.com", Active, "Europe", "2024-02-01"),
      User(3, "Michael Johnson", "michael@example.com", Inactive, "Asia", "2024-01-20"),
      User(4, "Sarah Williams", "sarah@example.com", Active, "Europe", "2024-02-15"),
      User(5, "David Brown", "david@example.com", Inactive, "North America", "2024-01-10"),
      User(6, "Emily Davis", "emily@example.com", Active, "Asia", "2024-02-20"),
      User(7, "James Wilson", "james@example.com", Active, "Europe", "2024-01-25"),
      User(8, "Lisa Anderson", "lisa@example.com", Inactive, "North America", "2024-02-05"),
      User(9, "Robert Taylor", "robert@example.com", Active, "Asia", "2024-01-30"),
      User(10, "Maria Garcia", "maria@example.com", Active, "Europe", "2024-02-10"),
      User(11, "Thomas Martinez", "thomas@example.com", Inactive, "North America", "2024-01-05"),
      User(12, "Jennifer Lee", "jennifer@example.com", Active, "Asia", "2024-02-25"),
      User(13, "William Clark", "william@example.com", Active, "Europe", "2024-01-12"),
      User(14, "Patricia Rodriguez", "patricia@example.com", Inactive, "North America", "2024-02-18"),
      User(15, "Kevin Chen", "kevin@example.com", Active, "Asia", "2024-01-28")
    ]
  }

  /** The actions the users store reduces. */
  datatype UsersAction =
    | Delete(id: int)
    | Search(term: string)
    | GoToPage(page: int)
    | FetchPending
    | FetchFulfilled(payload: seq<User>)
    | FetchRejected(message: Option<string>)

  /** One dispatch. The three recomputing actions re-fit the page count; the
      page moves only on a search (back to 1) or a page change; the counter
      moves only on a delete; and an error, once stored, stays. */
  function Step(st: UsersState, a: UsersAction): (r: UsersState)
    ensures a.Delete? || a.Search? || a.FetchFulfilled? ==> r.totalPages == PageCount(|r.filteredUsers|)
    ensures a.GoToPage? || a.FetchPending? || a.FetchRejected? ==>
      r.users == st.users && r.filteredUsers == st.filteredUsers && r.totalPages == st.totalPages
    ensures r.currentPage == (if a.Search? then 1 else if a.GoToPage? then a.page else st.currentPage)
    ensures r.deletedUsers == (if a.Delete? then st.deletedUsers + 1 else st.deletedUsers)
    ensures r.loading == (if a.FetchPending? then true else if a.FetchFulfilled? || a.FetchRejected? then false else st.loading)
    ensures st.error.Some? || a.FetchRejected? ==> r.error.Some?
  {
    match a
    case Delete(id) => DeleteUser(st, id)
    case Search(term) => FilterUsers(st, term)
    case GoToPage(page) => SetCurrentPage(st, page)
    case FetchPending => FetchUsersPending(st)
    case FetchFulfilled(payload) => FetchUsersFulfilled(st, payload)
    case FetchRejected(message) => FetchUsersRejected(st, message)
  }

  /** The state after dispatching `actions` in order. */
  function Run(st: UsersState, actions: seq<UsersAction>): UsersState
    decreases |actions|
  {
    if |actions| == 0 then st else Run(Step(st, actions[0]), actions[1..])
  }

  /** The actions after which the store recomputes `totalPages`. */
  predicate Recomputes(a: UsersAction)
  {
    a.Delete? || a.Search? || a.FetchFulfilled?
  }

  /** The visible rows are drawn, in order, from the full list. */
  ghost predicate RowsFromUsers(st: UsersState)
  {
    Subseq(st.filteredUsers, st.users)
  }

  /** The store's invariant: rows drawn from the full list, and the page
      count fitted to them. */
  ghost predicate Consistent(st: UsersState)
  {
    RowsFromUsers(st) && st.totalPages == PageCount(|st.filteredUsers|)
  }

  /** Deleting the same id twice leaves the lists and page count of a single
      delete; only the counter moves again. */
  lemma DeleteUserIdempotent(st: UsersState, id: int)
    ensures DeleteUser(DeleteUser(st, id), id).users == DeleteUser(st, id).users
    ensures DeleteUser(DeleteUser(st, id), id).filteredUsers == DeleteUser(st, id).filteredUsers
    ensures DeleteUser(DeleteUser(st, id), id).totalPages == DeleteUser(st, id).totalPages
    ensures DeleteUser(DeleteUser(st, id), id).deletedUsers == st.deletedUsers + 2
  {
    FilterIdempotent(st.users, HasOtherId(id));
    FilterIdempotent(st.filteredUsers, HasOtherId(id));
  }

  /** Deleting an id nobody has keeps both lists, yet still counts a deletion. */
  lemma DeleteAbsentId(st: UsersState, id: int)
    requires forall u :: u in st.users ==> u.id != id
    requires forall u :: u in st.filteredUsers ==> u.id != id
    ensures DeleteUser(st, id).users == st.users
    ensures DeleteUser(st, id).filteredUsers == st.filteredUsers
    ensures DeleteUser(st, id).deletedUsers == st.deletedUsers + 1
  {
    FilterAll(st.users, HasOtherId(id));
    FilterAll(st.filteredUsers, HasOtherId(id));
  }

  /** The search result is exactly the matching users in their original
      order: any order-preserving selection from the full list that holds
      each matching user as often as the list does, and nothing else, is it. */
  lemma SearchResultIsExact(st: UsersState, term: string, rows: seq<User>)
    requires Subseq(rows, st.users)
    requires forall u :: multiset(rows)[u] == if Matches(u, term) then multiset(st.users)[u] else 0
    ensures FilterUsers(st, term).filteredUsers == rows
  {
    FilterUnique(st.users, MatchesSearch(term), rows);
  }

  /** Every string contains the empty string, so an empty search shows the
      whole list. */
  lemma EmptySearchShowsAll(st: UsersState)
    ensures FilterUsers(st, "").filteredUsers == st.users
  {
    forall u | u in st.users ensures MatchesSearch("")(u) {
      assert Lower("") == "";
      ContainsEmpty(Lower(u.name));
    }
    FilterAll(st.users, MatchesSearch(""));
  }

  /** Searching for a term and for its lower-cased form give the same state. */
  lemma SearchIgnoresCase(st: UsersState, term: string)
    ensures FilterUsers(st, Lower(term)) == FilterUsers(st, term)
  {
    LowerIdempotent(term);
    var rows := Filter(st.users, MatchesSearch(Lower(term)));
    forall u ensures Matches(u, Lower(term)) == Matches(u, term) {
    }
    FilterUnique(st.users, MatchesSearch(term), rows);
  }

  /** The seeded fetch fills three pages. */
  lemma SeedFetchFillsThreePages(st: UsersState)
    ensures FetchUsersFulfilled(st, SeedUsers()).totalPages == 3
    ensures |FetchUsersFulfilled(st, SeedUsers()).filteredUsers| == 15
  {
  }

  lemma StepKeepsRowsFromUsers(st: UsersState, a: UsersAction)
    requires RowsFromUsers(st)
    ensures RowsFromUsers(Step(st, a))
  {
    match a
    case Delete(id) => FilterMonotone(st.filteredUsers, st.users, HasOtherId(id));
    case FetchFulfilled(payload) => SubseqRefl(payload);
    case _ =>
  }

  /** Filter, delete and a fulfilled fetch re-fit the page count, so they
      establish the invariant from any state whose rows come from the list. */
  lemma RecomputeEstablishes(st: UsersState, a: UsersAction)
    requires RowsFromUsers(st) && Recomputes(a)
    ensures Consistent(Step(st, a))
  {
    StepKeepsRowsFromUsers(st, a);
  }

  /** Every action keeps the invariant. */
  lemma StepKeepsConsistent(st: UsersState, a: UsersAction)
    requires Consistent(st)
    ensures Consistent(Step(st, a))
  {
    StepKeepsRowsFromUsers(st, a);
  }

  lemma {:induction false} RunKeepsConsistent(st: UsersState, actions: seq<UsersAction>)
    requires Consistent(st)
    ensures Consistent(Run(st, actions))
    decreases |actions|
  {
    if |actions| > 0 {
      StepKeepsConsistent(st, actions[0]);
      RunKeepsConsistent(Step(st, actions[0]), actions[1..]);
    }
  }

  lemma {:induction false} RunKeepsRowsFromUsers(st: UsersState, actions: seq<UsersAction>)
    requires RowsFromUsers(st)
    ensures RowsFromUsers(Run(st, actions))
    decreases |actions|
  {
    if |actions| > 0 {
      StepKeepsRowsFromUsers(st, actions[0]);
      RunKeepsRowsFromUsers(Step(st, actions[0]), actions[1..]);
    }
  }

  /** The initial state has no rows but one page, so it is not consistent;
      its rows do come from its (empty) list. */
  lemma InitialStateNotConsistent()
    ensures RowsFromUsers(InitialState())
    ensures !Consistent(InitialState())
  {
  }

  /** From the initial state the rows always come from the list, and once an
      action that recomputes the page count has run, the invariant holds for
      good. */
  lemma {:induction false} ReachableConsistent(st: UsersState, actions: seq<UsersAction>)
    requires RowsFromUsers(st)
    requires exists i :: 0 <= i < |actions| && Recomputes(actions[i])
    ensures Consistent(Run(st, actions))
    decreases |actions|
  {
    var a := actions[0];
    if Recomputes(a) {
      RecomputeEstablishes(st, a);
      RunKeepsConsistent(Step(st, a), actions[1..]);
    } else {
      var i :| 0 <= i < |actions| && Recomputes(actions[i]);
      assert i > 0 && Recomputes(actions[1..][i - 1]);
      StepKeepsRowsFromUsers(st, a);
      ReachableConsistent(Step(st, a), actions[1..]);
    }
  }

  /** No action clears an error: a successful fetch leaves it in place. */
  lemma {:induction false} ErrorNeverCleared(st: UsersState, actions: seq<UsersAction>)
    requires st.error.Some?
    ensures Run(st, actions).error.Some?
    decreases |actions|
  {
    if |actions| > 0 {
      ErrorNeverCleared(Step(st, actions[0]), actions[1..]);
    }
  }

  lemma PageCountAtBoundary(k: nat)
    ensures PageCount(PageSize * k) == k
    ensures PageCount(PageSize * k + 1) == k + 1
  {
  }

  /** Rows that all have other ids survive the delete filter unchanged. */
  lemma OthersAllKept(rows: seq<User>, id: int)
    requires forall i :: 0 <= i < |rows| ==> rows[i].id != id
    ensures Filter(rows, HasOtherId(id)) == rows
  {
    forall x | x in rows ensures HasOtherId(id)(x) {
      var i :| 0 <= i < |rows| && rows[i] == x;
    }
    FilterAll(rows, HasOtherId(id));
  }

  /** A single row with the id is dropped. */
  lemma MatchingRowDropped(row: User, id: int)
    requires row.id == id
    ensures Filter([row], HasOtherId(id)) == []
  {
    FilterCons(row, [], HasOtherId(id));
    assert [row] + [] == [row];
  }

  lemma DropOnlyLast(f: seq<User>, id: int)
    requires |f| > 0 && f[|f| - 1].id == id
    requires forall i :: 0 <= i < |f| - 1 ==> f[i].id != id
    ensures Filter(f, HasOtherId(id)) == f[..|f| - 1]
  {
    var init, last := f[..|f| - 1], f[|f| - 1];
    OthersAllKept(init, id);
    MatchingRowDropped(last, id);
    assert f == init + [last];
    FilterConcat(init, [last], HasOtherId(id));
  }

  /** The current page is not clamped: deleting the only row of the last page
      leaves the current page past the new last page. */
  lemma DeleteLeavesPageBeyondLast(st: UsersState, id: int)
    requires Consistent(st)
    requires |st.filteredUsers| > PageSize && |st.filteredUsers| % PageSize == 1
    requires st.currentPage == st.totalPages
    requires st.filteredUsers[|st.filteredUsers| - 1].id == id
    requires forall i :: 0 <= i < |st.filteredUsers| - 1 ==> st.filteredUsers[i].id != id
    ensures DeleteUser(st, id).totalPages >= 1
    ensures DeleteUser(st, id).currentPage == DeleteUser(st, id).totalPages + 1
  {
    var n := |st.filteredUsers|;
    DropOnlyLast(st.filteredUsers, id);
    var k := n / PageSize;
    assert n == PageSize * k + 1;
    assert |DeleteUser(st, id).filteredUsers| == PageSize * k;
    PageCountAtBoundary(k);
  }
}
