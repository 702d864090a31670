/**
  The search controller: the component's state fields and the two
  transitions that change them, a search action and the response to one of
  the requests it issued.
 */
module SearchController {
  import opened Wrappers
  import opened RecentSearches
  import opened Contacts

  const NotFoundMessage: string := "No contact found for this email."
  const SearchMethod: string := "SearchContacts"

  /** One call to the contact-lookup service: method name, `Email1Address`, `includeProfilePictures`. */
  datatype Request = Request(methodName: string, email: string, includeProfilePictures: bool)

  /** `searchEmail || email`: an explicit non-empty argument wins over the input field. */
  function ResolveQuery(arg: Option<string>, email: string): (q: string)
    ensures arg.Some? && arg.value != "" ==> q == arg.value
    ensures arg.None? || arg.value == "" ==> q == email
    ensures q == "" <==> (arg.None? || arg.value == "") && email == ""
  {
    match arg
    case Some(s) => if s != "" then s else email
    case None => email
  }

  class Controller {
    /** The input field. */
    var email: string
    var loading: bool
    var error: Option<string>
    var contact: Option<Contact>
    var recent: seq<string>
    /** Durable key/value storage. */
    var storage: map<string, string>
    /**
      Requests issued and not yet answered, oldest first. Nothing keeps this
      to one element: the recent-search buttons stay enabled while loading.
     */
    var pending: seq<Request>
    /** The serialiser used to persist the recent list. */
    const encode: seq<string> -> string

    /** `disabled={loading}` on the input field. */
    predicate InputEnabled()
      reads this
    {
      !loading
    }

    /** `disabled={!email || loading}` on the search button. */
    predicate SearchButtonEnabled()
      reads this
      ensures SearchButtonEnabled() ==> InputEnabled() && ResolveQuery(None, email) != ""
      ensures !loading && !SearchButtonEnabled() ==> ResolveQuery(None, email) == ""
    {
      email != "" && !loading
    }

    /** The component's initial state, with the recent list read from storage. */
    constructor (storage0: map<string, string>, parse: string -> Parsed, encode: seq<string> -> string)
      ensures email == "" && !loading && error == None && contact == None && pending == []
      ensures storage == storage0 && this.encode == encode
      ensures recent == InitRecent(storage0, parse)
    {
      email := "";
      loading := false;
      error := None;
      contact := None;
      recent := InitRecent(storage0, parse);
      storage := storage0;
      pending := [];
      this.encode := encode;
    }

    /** Typing into the input field. */
    method SetEmail(value: string)
      modifies this
      ensures email == value
      ensures loading == old(loading) && error == old(error) && contact == old(contact)
      ensures recent == old(recent) && storage == old(storage) && pending == old(pending)
    {
      email := value;
    }

    /**
      `handleSearch(searchEmail?)`: with an empty resolved query nothing
      happens; otherwise the previous outcome is cleared, loading starts and
      one request for the query is issued.
     */
    method Search(arg: Option<string>)
      modifies this
      ensures ResolveQuery(arg, old(email)) == "" ==> unchanged(this)
      ensures ResolveQuery(arg, old(email)) != "" ==>
        && loading && error == None && contact == None
        && pending == old(pending) + [Request(SearchMethod, ResolveQuery(arg, old(email)), true)]
      ensures email == old(email) && recent == old(recent) && storage == old(storage)
      ensures ResolveQuery(arg, old(email)) != "" ==> !InputEnabled() && !SearchButtonEnabled()
      ensures old(SearchButtonEnabled()) && arg.None? ==> |pending| == |old(pending)| + 1
    {
      var q := ResolveQuery(arg, email);
      if q == "" {
        return;
      }
      loading := true;
      error := None;
      contact := None;
      pending := pending + [Request(SearchMethod, q, true)];
    }

    /**
      The callback of request `k`: loading stops; a non-empty result shows
      its first contact, moves the query to the front of the recent list and
      persists that list; an empty result shows the not-found message and
      leaves the recent list and storage alone.
     */
    method OnResponse(k: nat, data: seq<Contact>)
      requires k < |pending|
      modifies this
      ensures pending == old(pending[..k] + pending[k + 1..])
      ensures !loading && email == old(email)
      ensures InputEnabled() && (SearchButtonEnabled() <==> email != "")
      ensures |data| > 0 ==>
        && contact == Some(data[0])
        && error == old(error)
        && recent == UpdateRecent(old(pending[k].email), old(recent))
        && storage == old(storage)[StorageKey := encode(recent)]
      ensures |data| > 0 ==>
        && recent[0] == old(pending[k].email)
        && |recent| <= MaxRecent
        && (Distinct(old(recent)) ==> Distinct(recent))
      ensures |data| == 0 ==>
        && error == Some(NotFoundMessage)
        && contact == old(contact)
        && recent == old(recent)
        && storage == old(storage)
    {
      var q := pending[k].email;
      pending := pending[..k] + pending[k + 1..];
      loading := false;
      if |data| > 0 {
        contact := Some(data[0]);
        if Distinct(recent) {
          UpdateRecentDistinct(q, recent);
        }
        recent := UpdateRecent(q, recent);
        storage := storage[StorageKey := encode(recent)];
      } else {
        error := Some(NotFoundMessage);
      }
    }
  }

  /**
    Two searches in flight at once: the second is started from a recent-search
    button while the first is loading. The answers arrive in either order and
    the last one leaves both a contact and the not-found message on screen.
   */
  method OverlappingSearches(c: Contact)
  {
    var ctl := new Controller(map[StorageKey := "[\"b@x\"]"],
                              s => if s == "[\"b@x\"]" then Array(["b@x"]) else ParseFailed,
                              l => "[]");
    assert ctl.recent == ["b@x"];
    ctl.SetEmail("a@x");
    assert ctl.SearchButtonEnabled();
    ctl.Search(None);
    assert ctl.loading && !ctl.InputEnabled();
    ctl.Search(Some("b@x"));
    assert |ctl.pending| == 2;
    ctl.OnResponse(1, [c]);
    assert ctl.contact == Some(c) && ctl.recent == ["b@x"];
    ctl.OnResponse(0, []);
    assert ctl.pending == [] && !ctl.loading;
    assert ctl.contact == Some(c) && ctl.error == Some(NotFoundMessage);
    assert ctl.recent == ["b@x"];
  }
}
