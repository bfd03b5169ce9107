/** The activity-log screen: an id-to-username index built from the user list,
    four conjunctive filters, newest-first ordering, twelve entries per page, and
    an export of the whole filtered list as CSV. */
module LogsView {
  import opened Common
  import opened Records
  import Sorting
  import Paging
  import Csv

  const PageSize: int := 12

  // ---------------------------------------------------------------------------
  // Action labels
  // ---------------------------------------------------------------------------

  const KnownActions: set<string> :=
    {"create_product", "update_product", "increase_stock", "decrease_stock", "delete_product"}

  /** The `ACTION_LABELS` table. */
  function ActionLabel(action: string): Option<string>
  {
    if action == "create_product" then Some("Ürün Ekleme")
    else if action == "update_product" then Some("Ürün Güncelleme")
    else if action == "increase_stock" then Some("Stok Artırma")
    else if action == "decrease_stock" then Some("Stok Azaltma")
    else if action == "delete_product" then Some("Ürün Silme")
    else None
  }

  /** `ACTION_LABELS[action] || action`: the label of a known kind, and the raw
      action string for any kind the screen does not know. */
  function DisplayAction(action: string): (r: string)
    ensures action in KnownActions <==> ActionLabel(action).Some?
    ensures action in KnownActions ==> r == ActionLabel(action).value != ""
    ensures action !in KnownActions ==> r == action
  {
    match ActionLabel(action)
    case Some(name) => name
    case None => action
  }

  // ---------------------------------------------------------------------------
  // The user index (`userMap`)
  // ---------------------------------------------------------------------------

  /** The index `users.forEach(u => m.set(u.id, u.username))` ends with: each
      user in turn, a later user overwriting an earlier one with the same id. */
  function UserIndex(users: seq<UserRecord>): map<int, string>
  {
    if users == [] then map[]
    else
      var last := users[|users| - 1];
      UserIndex(users[..|users| - 1])[last.id := last.username]
  }

  /** An id is in the index exactly when some user has it, and it maps to the
      username of the LAST user in the list with that id. */
  lemma {:induction false} UserIndexLastWins(users: seq<UserRecord>, id: int)
    ensures id in UserIndex(users) <==> exists i :: 0 <= i < |users| && users[i].id == id
    ensures id in UserIndex(users) ==>
      exists i :: 0 <= i < |users| && users[i].id == id &&
        UserIndex(users)[id] == users[i].username &&
        forall j :: i < j < |users| ==> users[j].id != id
  {
    UserIndexDomain(users, id);
    if id in UserIndex(users) {
      UserIndexLatest(users, id);
    }
  }

  lemma {:induction false} UserIndexDomain(users: seq<UserRecord>, id: int)
    ensures id in UserIndex(users) <==> exists i :: 0 <= i < |users| && users[i].id == id
  {
    if users != [] {
      var n := |users|;
      var init := users[..n - 1];
      UserIndexDomain(init, id);
      if users[n - 1].id != id {
        if exists i :: 0 <= i < |init| && init[i].id == id {
          var i :| 0 <= i < |init| && init[i].id == id;
          assert users[i] == init[i];
        }
        if exists i :: 0 <= i < n && users[i].id == id {
          var i :| 0 <= i < n && users[i].id == id;
          assert init[i] == users[i];
        }
      }
    }
  }

  lemma {:induction false} UserIndexLatest(users: seq<UserRecord>, id: int)
    requires id in UserIndex(users)
    ensures
      exists i :: 0 <= i < |users| && users[i].id == id &&
        UserIndex(users)[id] == users[i].username &&
        forall j :: i < j < |users| ==> users[j].id != id
  {
    var n := |users|;
    var init := users[..n - 1];
    if users[n - 1].id == id {
      assert UserIndex(users)[id] == users[n - 1].username;
    } else {
      UserIndexLatest(init, id);
      var i :| 0 <= i < |init| && init[i].id == id &&
        UserIndex(init)[id] == init[i].username &&
        forall j :: i < j < |init| ==> init[j].id != id;
      assert users[i] == init[i];
      forall j | i < j < n
        ensures users[j].id != id
      {
        if j < n - 1 {
          assert users[j] == init[j];
        }
      }
    }
  }

  /** Builds the index one user at a time, as the `forEach` loop does. */
  method BuildUserIndex(users: seq<UserRecord>) returns (m: map<int, string>)
    ensures m == UserIndex(users)
  {
    m := map[];
    for i := 0 to |users|
      invariant m == UserIndex(users[..i])
    {
      assert users[..i + 1][..i] == users[..i];
      m := m[users[i].id := users[i].username];
    }
    assert users[..|users|] == users;
  }

  /** `userMap.get(id) || ""`: a missing id yields the empty name, never a failure. */
  function UsernameOr(index: map<int, string>, id: int, fallback: string): (r: string)
    ensures id in index && index[id] != "" ==> r == index[id]
    ensures id !in index || index[id] == "" ==> r == fallback
  {
    if id in index && index[id] != "" then index[id] else fallback
  }

  /** `String(entityId ?? "")`. */
  function EntityIdText(entityId: Option<int>): string
  {
    if entityId.Some? then IntToString(entityId.value) else ""
  }

  // ---------------------------------------------------------------------------
  // Filters
  // ---------------------------------------------------------------------------

  /** The filter fields. An empty action or text, or an absent date, is inactive.
      `start` is the instant the start date begins; `end` is the instant the end
      date begins, which the filter moves to 23:59:59.999 of that day. */
  datatype Criteria = Criteria(action: string, text: string, start: Option<int>, end: Option<int>)

  const NoCriteria: Criteria := Criteria("", "", None, None)

  /** `e.setHours(23, 59, 59, 999)`: the last millisecond of the day beginning at `dayStart`. */
  function EndOfDay(dayStart: int): (r: int)
    ensures dayStart <= r < dayStart + DayMs
    ensures r + 1 == dayStart + DayMs
  {
    dayStart + DayMs - 1
  }

  predicate ActionOk(c: Criteria, l: LogEntry)
  {
    c.action == "" || l.action == c.action
  }

  predicate StartOk(c: Criteria, l: LogEntry)
  {
    c.start.None? || l.timestamp >= c.start.value
  }

  predicate EndOk(c: Criteria, l: LogEntry)
  {
    c.end.None? || l.timestamp <= EndOfDay(c.end.value)
  }

  /** The lower-cased query occurs in the entry's user name (empty when the id
      is not in the index), action label, entity name or entity id. */
  predicate SearchHit(q: string, index: map<int, string>, l: LogEntry)
  {
    Includes(Lower(UsernameOr(index, l.userId, "")), q) ||
    Includes(Lower(DisplayAction(l.action)), q) ||
    Includes(Lower(l.entity), q) ||
    Includes(Lower(EntityIdText(l.entityId)), q)
  }

  /** Search applies only when the text is not blank (its trim is non-empty),
      and then matches with the lower-cased UNtrimmed text. */
  predicate TextOk(c: Criteria, index: map<int, string>, l: LogEntry)
  {
    IsBlank(c.text) || SearchHit(Lower(c.text), index, l)
  }

  /** All four criteria hold of `l`. */
  predicate Matches(c: Criteria, index: map<int, string>, l: LogEntry)
  {
    ActionOk(c, l) && StartOk(c, l) && EndOk(c, l) && TextOk(c, index, l)
  }

  function MatchesPred(c: Criteria, index: map<int, string>): LogEntry -> bool
  {
    l => Matches(c, index, l)
  }

  /** The comparator `(a, b) => b.timestamp - a.timestamp`: newest first. */
  function NewerFirst(a: LogEntry, b: LogEntry): bool
  {
    a.timestamp >= b.timestamp
  }

  lemma NewerFirstIsPreorder()
    ensures Sorting.Total(NewerFirst) && Sorting.Transitive(NewerFirst)
  {
  }

  /** The list the screen shows and exports: exactly the entries of `logs` that
      meet every active criterion, newest first. */
  function Filtered(logs: seq<LogEntry>, index: map<int, string>, c: Criteria): (r: seq<LogEntry>)
    ensures forall l :: l in r <==> l in logs && Matches(c, index, l)
    ensures multiset(r) == multiset(Filter(logs, MatchesPred(c, index)))
    ensures multiset(r) <= multiset(logs)
    ensures forall i, j :: 0 <= i < j < |r| ==> r[i].timestamp >= r[j].timestamp
  {
    var kept := Filter(logs, MatchesPred(c, index));
    NewerFirstIsPreorder();
    Sorting.SortBySorted(kept, NewerFirst);
    assert forall l :: l in kept <==> l in multiset(kept);
    Sorting.SortBy(kept, NewerFirst)
  }

  /** The `filtered` memo: a copy of `logs` narrowed by each active criterion in
      turn, then sorted newest first. Staged filtering gives the same list as the
      conjunction of the criteria. */
  method FilteredLogs(logs: seq<LogEntry>, index: map<int, string>, c: Criteria)
    returns (list: seq<LogEntry>)
    ensures list == Filtered(logs, index, c)
  {
    ghost var p1: LogEntry -> bool := l => ActionOk(c, l);
    ghost var p2: LogEntry -> bool := l => ActionOk(c, l) && StartOk(c, l);
    ghost var p3: LogEntry -> bool := l => ActionOk(c, l) && StartOk(c, l) && EndOk(c, l);
    list := logs;
    if c.action != "" {
      list := Filter(list, (l: LogEntry) => l.action == c.action);
      FilterExt(logs, (l: LogEntry) => l.action == c.action, p1);
    } else {
      FilterKeepsAll(logs, p1);
    }
    assert list == Filter(logs, p1);
    if c.start.Some? {
      var s := c.start.value;
      list := Filter(list, (l: LogEntry) => l.timestamp >= s);
      FilterTwice(logs, p1, (l: LogEntry) => l.timestamp >= s, p2);
    } else {
      FilterExt(logs, p1, p2);
    }
    assert list == Filter(logs, p2);
    if c.end.Some? {
      var e := EndOfDay(c.end.value);
      list := Filter(list, (l: LogEntry) => l.timestamp <= e);
      FilterTwice(logs, p2, (l: LogEntry) => l.timestamp <= e, p3);
    } else {
      FilterExt(logs, p2, p3);
    }
    assert list == Filter(logs, p3);
    // `search.trim()` is non-empty exactly when the text is not blank (TrimEmptyIffBlank).
    if !IsBlank(c.text) {
      var q := Lower(c.text);
      list := Filter(list, (l: LogEntry) => SearchHit(q, index, l));
      FilterTwice(logs, p3, (l: LogEntry) => SearchHit(q, index, l), MatchesPred(c, index));
    } else {
      FilterExt(logs, p3, MatchesPred(c, index));
    }
    assert list == Filter(logs, MatchesPred(c, index));
    list := Sorting.SortBy(list, NewerFirst);
  }

  /** No criterion is active: no action kind, blank text, no dates. */
  predicate Inactive(c: Criteria)
  {
    c.action == "" && IsBlank(c.text) && c.start.None? && c.end.None?
  }

  /** Inactive criteria exclude nothing: the list shown is all of `logs`, reordered. */
  lemma InactiveKeepsAll(logs: seq<LogEntry>, index: map<int, string>, c: Criteria)
    requires Inactive(c)
    ensures multiset(Filtered(logs, index, c)) == multiset(logs)
  {
    var keep := MatchesPred(c, index);
    assert forall l :: keep(l);
    FilterKeepsAll(logs, keep);
  }

  /** The date range is inclusive at both ends: an entry at the first instant of
      the start date and one at 23:59:59.999 of the end date both pass, and one a
      millisecond later than that does not. */
  lemma DateRangeInclusive(c: Criteria, l: LogEntry)
    requires c.start.Some? && c.end.Some?
    ensures l.timestamp == c.start.value ==> StartOk(c, l)
    ensures l.timestamp == c.end.value + DayMs - 1 ==> EndOk(c, l)
    ensures l.timestamp == c.end.value + DayMs ==> !EndOk(c, l)
  {
  }

  /** Search ignores the case of the query: typing it in capitals or in small
      letters keeps exactly the same entries. */
  lemma SearchIgnoresQueryCase(c: Criteria, index: map<int, string>, l: LogEntry)
    ensures Matches(c.(text := Lower(c.text)), index, l) == Matches(c, index, l)
  {
    LowerKeepsBlank(c.text);
    LowerIdempotent(c.text);
  }

  // ---------------------------------------------------------------------------
  // CSV export
  // ---------------------------------------------------------------------------

  const CsvHeader: seq<string> := ["timestamp", "username", "action", "entity", "entity_id"]

  /** One exported record. The timestamp is rendered by `iso` (`toISOString`);
      an unknown or empty user name becomes `user#<id>`. */
  function CsvRecord(l: LogEntry, index: map<int, string>, iso: int -> string): seq<string>
  {
    [iso(l.timestamp),
     UsernameOr(index, l.userId, "user#" + IntToString(l.userId)),
     DisplayAction(l.action),
     l.entity,
     EntityIdText(l.entityId)]
  }

  /** The exported records, one per entry in order (`filtered.map(...)`). */
  function CsvRecords(entries: seq<LogEntry>, index: map<int, string>, iso: int -> string): (r: seq<seq<string>>)
    ensures |r| == |entries|
    ensures forall i :: 0 <= i < |r| ==> r[i] == CsvRecord(entries[i], index, iso)
  {
    MapSeq(entries, (l: LogEntry) => CsvRecord(l, index, iso))
  }

  /** `exportCSV`'s text: the header and one record per entry, each field quoted. */
  function ExportCsv(entries: seq<LogEntry>, index: map<int, string>, iso: int -> string): (csv: string)
    ensures Csv.Parse(csv) == Some([CsvHeader] + CsvRecords(entries, index, iso))
  {
    var rows := [CsvHeader] + CsvRecords(entries, index, iso);
    Csv.ParseEncode(rows);
    Csv.Encode(rows)
  }

  // ---------------------------------------------------------------------------
  // The screen's state
  // ---------------------------------------------------------------------------

  /** The log screen: the fetched collections, load status, filter fields and
      the requested page. Everything shown is derived from these. */
  class LogsPage {
    var logs: seq<LogEntry>
    var users: seq<UserRecord>
    var loading: bool
    var err: string
    var actionFilter: string
    var textFilter: string
    var startDate: Option<int>
    var endDate: Option<int>
    var page: int

    predicate Valid()
      reads this`page
    {
      page >= 1
    }

    constructor ()
      ensures Valid()
      ensures logs == [] && users == [] && loading && err == ""
      ensures actionFilter == "" && textFilter == "" && startDate.None? && endDate.None?
      ensures page == 1
    {
      logs, users, loading, err := [], [], true, "";
      actionFilter, textFilter, startDate, endDate := "", "", None, None;
      page := 1;
    }

    function Filters(): Criteria
      reads this`actionFilter, this`textFilter, this`startDate, this`endDate
    {
      Criteria(actionFilter, textFilter, startDate, endDate)
    }

    /** The filtered, sorted, unpaginated list. */
    function View(): seq<LogEntry>
      reads this`logs, this`users, this`actionFilter, this`textFilter, this`startDate, this`endDate
    {
      Filtered(logs, UserIndex(users), Filters())
    }

    function TotalPages(): int
      reads this`logs, this`users, this`actionFilter, this`textFilter, this`startDate, this`endDate
    {
      Paging.TotalPages(|View()|, PageSize)
    }

    function CurrentPage(): int
      reads this`page, this`logs, this`users, this`actionFilter, this`textFilter, this`startDate, this`endDate
      requires Valid()
    {
      Paging.CurrentPage(page, TotalPages())
    }

    /** The entries on the page shown: at most twelve, and some whenever the
      filtered list has any. */
    function PageItems(): (items: seq<LogEntry>)
      reads this`page, this`logs, this`users, this`actionFilter, this`textFilter, this`startDate, this`endDate
      requires Valid()
      ensures |items| <= PageSize
      ensures |View()| > 0 ==> |items| > 0
    {
      Paging.VisibleItems(View(), page, PageSize)
    }

    /** The export covers the whole filtered list, not just the page shown. */
    function Export(iso: int -> string): (csv: string)
      reads this
      ensures Csv.Parse(csv) == Some([CsvHeader] + CsvRecords(View(), UserIndex(users), iso))
    {
      ExportCsv(View(), UserIndex(users), iso)
    }

    /** `fetchAll`: both collections are requested together; they replace the
      old ones only when both arrive, and a failure of either shows its message.
      Filters and page are left as they were. */
    method FetchAll(logsRes: FetchResult<LogEntry>, usersRes: FetchResult<UserRecord>)
      requires Valid()
      modifies this`logs, this`users, this`loading, this`err
      ensures Valid() && !loading
      ensures logsRes.Fetched? && usersRes.Fetched? ==>
        logs == DataOrEmpty(logsRes.data) && users == DataOrEmpty(usersRes.data) && err == ""
      ensures logsRes.FetchFailed? ==>
        logs == old(logs) && users == old(users) && err == LoadErrorMessage(logsRes.failure)
      ensures logsRes.Fetched? && usersRes.FetchFailed? ==>
        logs == old(logs) && users == old(users) && err == LoadErrorMessage(usersRes.failure)
      ensures actionFilter == old(actionFilter) && textFilter == old(textFilter)
      ensures startDate == old(startDate) && endDate == old(endDate) && page == old(page)
    {
      loading := true;
      err := "";
      if logsRes.FetchFailed? {
        err := LoadErrorMessage(logsRes.failure);
      } else if usersRes.FetchFailed? {
        err := LoadErrorMessage(usersRes.failure);
      } else {
        logs := DataOrEmpty(logsRes.data);
        users := DataOrEmpty(usersRes.data);
      }
      loading := false;
    }

    /** Choosing an action kind; like every filter change it returns to page 1. */
    method SetActionFilter(action: string)
      modifies this`actionFilter, this`page
      ensures Valid() && Filters() == old(Filters()).(action := action) && page == 1
      ensures logs == old(logs) && users == old(users) && loading == old(loading) && err == old(err)
    {
      actionFilter := action;
      page := 1;
    }

    method SetStartDate(start: Option<int>)
      modifies this`startDate, this`page
      ensures Valid() && Filters() == old(Filters()).(start := start) && page == 1
      ensures logs == old(logs) && users == old(users) && loading == old(loading) && err == old(err)
    {
      startDate := start;
      page := 1;
    }

    method SetEndDate(end: Option<int>)
      modifies this`endDate, this`page
      ensures Valid() && Filters() == old(Filters()).(end := end) && page == 1
      ensures logs == old(logs) && users == old(users) && loading == old(loading) && err == old(err)
    {
      endDate := end;
      page := 1;
    }

    method SetTextFilter(text: string)
      modifies this`textFilter, this`page
      ensures Valid() && Filters() == old(Filters()).(text := text) && page == 1
      ensures logs == old(logs) && users == old(users) && loading == old(loading) && err == old(err)
    {
      textFilter := text;
      page := 1;
    }

    /** "Temizle": all four criteria cleared, back to page 1; the list shown is
      then every fetched entry. */
    method ResetFilters()
      modifies this`actionFilter, this`textFilter, this`startDate, this`endDate, this`page
      ensures Valid() && Filters() == NoCriteria && page == 1
      ensures multiset(View()) == multiset(logs)
      ensures logs == old(logs) && users == old(users) && loading == old(loading) && err == old(err)
    {
      actionFilter := "";
      textFilter := "";
      startDate := None;
      endDate := None;
      page := 1;
      ClearedShowsAll();
    }

    /** With every criterion cleared the list shown is all of `logs`, reordered. */
    lemma ClearedShowsAll()
      requires Filters() == NoCriteria
      ensures multiset(View()) == multiset(logs)
    {
      InactiveKeepsAll(logs, UserIndex(users), NoCriteria);
    }

    /** "Önceki", enabled only past page 1: steps back from the stored page.
        While the stored page is within the page count this shows the page
        before the one shown; past it, the page shown may not change. */
    method PrevPage()
      requires Valid()
      modifies this`page
      ensures Valid()
      ensures page == if old(CurrentPage()) > 1 then Paging.PrevAsWritten(old(page)) else old(page)
      ensures CurrentPage() == Paging.CurrentPage(Paging.PrevAsWritten(old(page)), TotalPages())
      ensures old(page) <= TotalPages() ==> CurrentPage() == Paging.Max(1, old(CurrentPage()) - 1)
    {
      var total := TotalPages();
      if CurrentPage() > 1 {
        page := Paging.PrevAsWritten(page);
      }
    }

    /** "Sonraki", enabled only before the last page: shows the next page. */
    method NextPage()
      requires Valid()
      modifies this`page
      ensures Valid()
      ensures page == if old(CurrentPage()) < TotalPages() then old(page) + 1 else old(page)
      ensures CurrentPage() == Paging.Min(TotalPages(), old(CurrentPage()) + 1)
    {
      var total := TotalPages();
      var shown := CurrentPage();
      if shown < total {
        page := Paging.Next(page, total);
      }
    }
  }
}
