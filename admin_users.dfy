/** The admin user-management screen: a search over username, e-mail and role,
    ten users per page, an edit draft that is sent back as an update body, and a
    delete confirmation. Requests are not made here: their outcomes are given. */
module AdminUsersView {
  import opened Common
  import opened Records
  import Paging

  const PageSize: nat := 10

  const SaveFailedMessage: string := "Güncelleme başarısız."
  const DeleteFailedMessage: string := "Silme işlemi başarısız."

  // ---------------------------------------------------------------------------
  // Search
  // ---------------------------------------------------------------------------

  /** `(u.role || "")`: a missing or empty role searches as the empty string. */
  function RoleText(role: Option<string>): string
  {
    if role.Some? then role.value else ""
  }

  /** The lower-cased query occurs in the lower-cased username, e-mail or role. */
  predicate UserMatches(q: string, u: UserRecord)
  {
    Includes(Lower(u.username), q) || Includes(Lower(u.email), q) || Includes(Lower(RoleText(u.role)), q)
  }

  function UserMatchesPred(q: string): UserRecord -> bool
  {
    u => UserMatches(q, u)
  }

  /** The `filtered` memo: a blank search shows every user as fetched; otherwise
      exactly the users matching the lower-cased, UNtrimmed query, in their
      original order. */
  function SearchUsers(users: seq<UserRecord>, search: string): (r: seq<UserRecord>)
    ensures IsBlank(search) ==> r == users
    ensures !IsBlank(search) ==> forall u :: u in r <==> u in users && UserMatches(Lower(search), u)
    ensures !IsBlank(search) ==> r == Filter(users, UserMatchesPred(Lower(search)))
    ensures multiset(r) <= multiset(users)
  {
    if IsBlank(search) then users else Filter(users, UserMatchesPred(Lower(search)))
  }

  /** The memo tests the query with `search.trim()`: an empty trim shows every
      user, any other query filters. */
  lemma SearchTestsTrim(users: seq<UserRecord>, search: string)
    ensures Trim(search) == "" ==> SearchUsers(users, search) == users
    ensures Trim(search) != "" ==> SearchUsers(users, search) == Filter(users, UserMatchesPred(Lower(search)))
  {
    TrimEmptyIffBlank(search);
  }

  /** Searching ignores the case of the query. */
  lemma SearchIgnoresQueryCase(users: seq<UserRecord>, search: string)
    ensures SearchUsers(users, Lower(search)) == SearchUsers(users, search)
  {
    LowerKeepsBlank(search);
    LowerIdempotent(search);
  }

  /** The query is not trimmed for matching: a non-blank query that starts
      with white space finds no user whose username, e-mail and role hold no
      white space, even when the rest of the query is one of them. */
  lemma QueryIsNotTrimmed(users: seq<UserRecord>, search: string, u: UserRecord)
    requires !IsBlank(search) && IsSpace(search[0])
    requires NoSpace(u.username) && NoSpace(u.email) && NoSpace(RoleText(u.role))
    ensures u !in SearchUsers(users, search)
  {
    LowerCharKeepsSpace(search[0]);
    LowerNoSpace(u.username);
    LowerNoSpace(u.email);
    LowerNoSpace(RoleText(u.role));
    SpaceLedNotIncluded(Lower(u.username), Lower(search));
    SpaceLedNotIncluded(Lower(u.email), Lower(search));
    SpaceLedNotIncluded(Lower(RoleText(u.role)), Lower(search));
  }

  // ---------------------------------------------------------------------------
  // The edit draft and the update body
  // ---------------------------------------------------------------------------

  /** The `edited` draft. */
  datatype Draft = Draft(id: Option<int>, username: string, email: string, role: string, password: string)

  /** The draft when no edit is open: no id, empty fields, role "user". */
  const EmptyDraft: Draft := Draft(None, "", "", "user", "")

  /** `u.role || "user"`. */
  function RoleOrUser(role: Option<string>): (r: string)
    ensures r != ""
    ensures role.Some? && role.value != "" ==> r == role.value
    ensures role.None? || role.value == "" ==> r == "user"
  {
    if role.Some? && role.value != "" then role.value else "user"
  }

  /** The fields the edit form changes one at a time. */
  datatype DraftField = UsernameField | EmailField | RoleField | PasswordField

  /** `setEdited({ ...edited, field: value })`. */
  function EditDraft(d: Draft, field: DraftField, value: string): (r: Draft)
    ensures r.id == d.id
    ensures r.username == (if field == UsernameField then value else d.username)
    ensures r.email == (if field == EmailField then value else d.email)
    ensures r.role == (if field == RoleField then value else d.role)
    ensures r.password == (if field == PasswordField then value else d.password)
  {
    match field
    case UsernameField => d.(username := value)
    case EmailField => d.(email := value)
    case RoleField => d.(role := value)
    case PasswordField => d.(password := value)
  }

  /** The JSON body of the update request; `password` may be absent. */
  datatype UpdateBody = UpdateBody(username: string, email: string, role: string, password: Option<string>)

  /** The update request: the user id in the path and the body. */
  datatype UpdateRequest = UpdateRequest(id: Option<int>, body: UpdateBody)

  /** The body `saveUser` sends: username, e-mail and role always; the password
      only when it is not blank, and then trimmed. */
  function UpdateBodyOf(d: Draft): (b: UpdateBody)
    ensures b.username == d.username && b.email == d.email && b.role == d.role
    ensures b.password.Some? <==> !IsBlank(d.password)
    ensures b.password.Some? ==> b.password.value != "" && |b.password.value| <= |d.password|
    ensures b.password.Some? ==> !IsSpace(b.password.value[0]) && !IsSpace(b.password.value[|b.password.value| - 1])
    ensures b.password.Some? ==> b.password.value == Trim(d.password)
  {
    TrimEmptyIffBlank(d.password);
    var pw := Trim(d.password);
    UpdateBody(d.username, d.email, d.role, if pw != "" then Some(pw) else None)
  }

  /** A draft fresh from `openEdit` sends no password, so the stored one is kept. */
  lemma FreshDraftKeepsPassword(u: UserRecord)
    ensures UpdateBodyOf(Draft(Some(u.id), u.username, u.email, RoleOrUser(u.role), "")).password.None?
  {
  }

  // ---------------------------------------------------------------------------
  // The screen's state
  // ---------------------------------------------------------------------------

  /** The screen: the fetched users, load status, search text, requested page,
      the edit draft and the delete confirmation. */
  class AdminUsersPage {
    var users: seq<UserRecord>
    var err: string
    var loading: bool
    var search: string
    var page: int
    var editOpen: bool
    var edited: Draft
    var confirmOpen: bool
    var toDelete: Option<UserRecord>

    /** The page is at least 1; an open draft belongs to a user; an open
        confirmation has a target. */
    predicate Valid()
      reads this`page, this`editOpen, this`edited, this`confirmOpen, this`toDelete
    {
      page >= 1 &&
      (editOpen ==> edited.id.Some?) &&
      (confirmOpen ==> toDelete.Some?)
    }

    constructor ()
      ensures Valid()
      ensures users == [] && err == "" && loading && search == "" && page == 1
      ensures !editOpen && edited == EmptyDraft && !confirmOpen && toDelete.None?
    {
      users, err, loading, search, page := [], "", true, "", 1;
      editOpen, edited, confirmOpen, toDelete := false, EmptyDraft, false, None;
    }

    /** The users the search keeps, unpaginated. */
    function View(): seq<UserRecord>
      reads this`users, this`search
    {
      SearchUsers(users, search)
    }

    function TotalPages(): int
      reads this`users, this`search
    {
      Paging.TotalPages(|View()|, PageSize)
    }

    function CurrentPage(): int
      reads this`page, this`users, this`search
      requires page >= 1
    {
      Paging.CurrentPage(page, TotalPages())
    }

    /** The users on the page shown: at most ten, and some whenever the search
        keeps any. */
    function PageItems(): (items: seq<UserRecord>)
      reads this`page, this`users, this`search
      requires page >= 1
      ensures |items| <= PageSize
      ensures |View()| > 0 ==> |items| > 0
    {
      Paging.VisibleItems(View(), page, PageSize)
    }

    /** `fetchUsers`: on success the list is replaced by the response (or emptied
        when there is none); on failure the list is kept and the message shown.
        Loading ends either way; nothing else changes. */
    method FetchUsers(res: FetchResult<UserRecord>)
      requires Valid()
      modifies this`users, this`err, this`loading
      ensures Valid() && !loading
      ensures res.Fetched? ==> users == DataOrEmpty(res.data) && err == ""
      ensures res.FetchFailed? ==> users == old(users) && err == LoadErrorMessage(res.failure)
    {
      loading := true;
      err := "";
      if res.Fetched? {
        users := DataOrEmpty(res.data);
      } else {
        err := LoadErrorMessage(res.failure);
      }
      loading := false;
    }

    /** Typing in the search box returns to page 1. */
    method SetSearch(text: string)
      requires Valid()
      modifies this`search, this`page
      ensures Valid() && search == text && page == 1
    {
      search := text;
      page := 1;
    }

    /** "Önceki", enabled only past page 1: steps back from the stored page.
        While the stored page is within the page count this shows the page
        before the one shown; past it, the page shown may not change. */
    method PrevPage()
      requires Valid()
      modifies this`page
      ensures Valid()
      ensures page == if old(CurrentPage()) > 1 then Paging.PrevAsWritten(old(page)) else old(page)
      ensures CurrentPage() == Paging.CurrentPage(Paging.PrevAsWritten(old(page)), TotalPages())
      ensures old(page) <= TotalPages() ==> CurrentPage() == Paging.Max(1, old(CurrentPage()) - 1)
    {
      var total := TotalPages();
      if CurrentPage() > 1 {
        page := Paging.PrevAsWritten(page);
      }
    }

    /** "Sonraki", enabled only before the last page: shows the next page. */
    method NextPage()
      requires Valid()
      modifies this`page
      ensures Valid()
      ensures page == if old(CurrentPage()) < TotalPages() then old(page) + 1 else old(page)
      ensures CurrentPage() == Paging.Min(TotalPages(), old(CurrentPage()) + 1)
    {
      var total := TotalPages();
      var shown := Paging.CurrentPage(page, total);
      if shown < total {
        page := Paging.Next(page, total);
      }
    }

    /** "Düzenle": the draft takes the user's id, name and e-mail, their role or
        "user", and an empty password, and the edit form opens. */
    method OpenEdit(u: UserRecord)
      requires Valid()
      modifies this`edited, this`editOpen
      ensures Valid() && editOpen
      ensures edited == Draft(Some(u.id), u.username, u.email, RoleOrUser(u.role), "")
    {
      edited := Draft(Some(u.id), u.username, u.email, RoleOrUser(u.role), "");
      editOpen := true;
    }

    /** "İptal" (and the end of a successful save): the form closes and the draft
        is reset. */
    method CloseEdit()
      requires Valid()
      modifies this`edited, this`editOpen
      ensures Valid() && !editOpen && edited == EmptyDraft
    {
      editOpen := false;
      edited := EmptyDraft;
    }

    /** Typing in one field of the form changes that field of the draft only. */
    method EditField(field: DraftField, value: string)
      requires Valid()
      modifies this`edited
      ensures Valid() && edited == EditDraft(old(edited), field, value)
    {
      edited := EditDraft(edited, field, value);
    }

    /** "Kaydet": sends the draft's body to the draft's user. When the server
        accepts it, the list is fetched again and the form closes; when it
        refuses, its detail (or a fixed text) is alerted and nothing changes. */
    method SaveUser(put: MutationResult, refetch: FetchResult<UserRecord>)
      returns (request: UpdateRequest, alertText: Option<string>)
      requires Valid()
      modifies this
      ensures Valid()
      ensures request == UpdateRequest(old(edited).id, UpdateBodyOf(old(edited)))
      ensures put.Done? ==> alertText.None? && !editOpen && edited == EmptyDraft && !loading
      ensures put.Done? && refetch.Fetched? ==> users == DataOrEmpty(refetch.data) && err == ""
      ensures put.Done? && refetch.FetchFailed? ==>
        users == old(users) && err == LoadErrorMessage(refetch.failure)
      ensures put.MutationFailed? ==>
        alertText == Some(DetailOr(put.failure, SaveFailedMessage)) &&
        users == old(users) && err == old(err) && loading == old(loading) &&
        editOpen == old(editOpen) && edited == old(edited)
      ensures search == old(search) && page == old(page)
      ensures confirmOpen == old(confirmOpen) && toDelete == old(toDelete)
    {
      request := UpdateRequest(edited.id, UpdateBodyOf(edited));
      if put.Done? {
        FetchUsers(refetch);
        CloseEdit();
        alertText := None;
      } else {
        alertText := Some(DetailOr(put.failure, SaveFailedMessage));
      }
    }

    /** "Sil": remembers the user and opens the confirmation. */
    method AskDelete(u: UserRecord)
      requires Valid()
      modifies this`toDelete, this`confirmOpen
      ensures Valid() && confirmOpen && toDelete == Some(u)
    {
      toDelete := Some(u);
      confirmOpen := true;
    }

    /** "Hayır": closes the confirmation and keeps the target. */
    method CancelDelete()
      requires Valid()
      modifies this`confirmOpen
      ensures Valid() && !confirmOpen
    {
      confirmOpen := false;
    }

    /** "Evet": deletes the target. On success the list is fetched again, the
        confirmation closes and the target is cleared; on failure (and when there
        is no target, whose missing id fails before any request) the detail or a
        fixed text is alerted and nothing changes. */
    method DoDelete(del: MutationResult, refetch: FetchResult<UserRecord>)
      returns (deleted: Option<int>, alertText: Option<string>)
      requires Valid()
      modifies this
      ensures Valid()
      ensures deleted == (if old(toDelete).Some? then Some(old(toDelete).value.id) else None)
      ensures old(toDelete).Some? && del.Done? ==>
        alertText.None? && !confirmOpen && toDelete.None? && !loading &&
        (refetch.Fetched? ==> users == DataOrEmpty(refetch.data) && err == "") &&
        (refetch.FetchFailed? ==> users == old(users) && err == LoadErrorMessage(refetch.failure))
      ensures old(toDelete).Some? && del.MutationFailed? ==>
        alertText == Some(DetailOr(del.failure, DeleteFailedMessage))
      ensures old(toDelete).None? ==> alertText == Some(DeleteFailedMessage)
      ensures old(toDelete).None? || del.MutationFailed? ==>
        users == old(users) && err == old(err) && loading == old(loading) &&
        confirmOpen == old(confirmOpen) && toDelete == old(toDelete)
      ensures search == old(search) && page == old(page)
      ensures editOpen == old(editOpen) && edited == old(edited)
    {
      if toDelete.None? {
        deleted := None;
        alertText := Some(DeleteFailedMessage);
        return;
      }
      deleted := Some(toDelete.value.id);
      if del.Done? {
        FetchUsers(refetch);
        confirmOpen := false;
        toDelete := None;
        alertText := None;
      } else {
        alertText := Some(DetailOr(del.failure, DeleteFailedMessage));
      }
    }
  }
}
