/** The client state of the `App` component (src/App.tsx): the fetched
    events, the derived registered subset and the admin flag, updated by the
    two effects, `fetchEvents` and `handleRegister`. React's effects are
    explicit calls here: each handler runs the effects its state change
    triggers. */
module App {

  import opened Events
  import opened Http
  import Dashboard

  /** The signed-in user as the identity provider reports it; `role` is
      `publicMetadata.role` when that is a string. */
  datatype User = User(id: string, role: Option<string>)

  /** What `useUser()` returns: whether the provider has loaded, and the
      user, absent when not loaded or signed out. */
  datatype Identity = Identity(isLoaded: bool, user: Option<User>)

  /** The body of `POST /api/events/{eventId}/register`, with the event id
      from the path. */
  datatype RegisterRequest = RegisterRequest(eventId: string, userId: string)

  /** What the page shows. */
  datatype Screen = Loading | AdminView | BrowseView | SignInRedirect

  function UserId(user: Option<User>): Option<string> {
    if user.Some? then Some(user.value.id) else None
  }

  predicate IsAdminRole(u: User) {
    u.role == Some("admin")
  }

  /** The view choice: a loading placeholder until the provider has loaded,
      then for a signed-in user the dashboard or the browse list by
      `isAdmin`, and the sign-in redirect otherwise. */
  function ScreenFor(identity: Identity, isAdmin: bool): (s: Screen)
    ensures s == Loading <==> !identity.isLoaded
    ensures s == AdminView <==> identity.isLoaded && identity.user.Some? && isAdmin
    ensures s == BrowseView <==> identity.isLoaded && identity.user.Some? && !isAdmin
    ensures s == SignInRedirect <==> identity.isLoaded && identity.user.None?
  {
    if !identity.isLoaded then Loading
    else if identity.user.None? then SignInRedirect
    else if isAdmin then AdminView
    else BrowseView
  }

  /** `handleRegister(eventId)` up to the end of its request. Without a user
      nothing is sent; with one, the request carries that user's id, and a
      refresh is started only on a 2xx response. It writes no state: a
      registration shows only through the refresh. */
  method HandleRegister(eventId: string, user: Option<User>, outcome: RequestOutcome)
    returns (request: Option<RegisterRequest>, refreshIssued: bool)
    ensures request.Some? <==> user.Some?
    ensures user.Some? ==> request == Some(RegisterRequest(eventId, user.value.id))
    ensures refreshIssued <==> user.Some? && outcome == Ok
  {
    if user.None? {
      return None, false;
    }
    request := Some(RegisterRequest(eventId, user.value.id));
    refreshIssued := outcome == Ok;
  }

  class AppState {
    var events: seq<Event>
    var registeredEvents: seq<Event>
    var isAdmin: bool

    /** The registered subset is current for `user` whenever the effect
        that derives it would run for `user`. */
    ghost predicate Coherent(user: Option<User>)
      reads this
    {
      user.Some? && |events| > 0 ==> registeredEvents == Derive(events, user.value.id)
    }

    /** The three `useState` cells with their initial values. */
    constructor ()
      ensures events == [] && registeredEvents == [] && !isAdmin
      ensures forall user :: Coherent(user)
    {
      events, registeredEvents, isAdmin := [], [], false;
    }

    /** The effect on `[events, user]` with `fetchUserRegisteredEvents`:
        the subset is recomputed only with a user and a non-empty event
        list, and is otherwise kept as it was, even when stale. */
    method SyncRegistered(user: Option<User>)
      modifies this`registeredEvents
      ensures user.Some? && |events| > 0 ==> registeredEvents == Derive(events, user.value.id)
      ensures !(user.Some? && |events| > 0) ==> registeredEvents == old(registeredEvents)
      ensures Coherent(user)
    {
      if user.Some? && |events| > 0 {
        registeredEvents := Derive(events, user.value.id);
      }
    }

    /** `fetchEvents` once its request has ended, followed by the effect a
        new `events` value triggers. A parsed body replaces `events`
        whatever the status; a throw leaves all state as it was. */
    method Refresh(result: FetchResult<seq<Event>>, user: Option<User>)
      modifies this`events, this`registeredEvents
      ensures result.Parsed? ==> events == result.data
      ensures result.Parsed? ==> Coherent(user)
      ensures result.Parsed? && (user.None? || result.data == []) ==>
                registeredEvents == old(registeredEvents)
      ensures result.FetchThrew? ==>
                events == old(events) && registeredEvents == old(registeredEvents)
      ensures old(Coherent(user)) ==> Coherent(user)
    {
      if result.Parsed? {
        events := result.data;
        SyncRegistered(user);
      }
    }

    /** The effects that a change of identity triggers: the one on
        `[user, isLoaded]`, which sets `isAdmin` from the role and starts a
        fetch once a user is loaded, then the one on `[events, user]`. */
    method OnIdentity(identity: Identity) returns (fetchIssued: bool)
      modifies this`isAdmin, this`registeredEvents
      ensures fetchIssued <==> identity.isLoaded && identity.user.Some?
      ensures fetchIssued ==> isAdmin == IsAdminRole(identity.user.value)
      ensures !fetchIssued ==> isAdmin == old(isAdmin)
      ensures fetchIssued && IsAdminRole(identity.user.value) ==>
                ScreenFor(identity, isAdmin) == AdminView
      ensures fetchIssued && !IsAdminRole(identity.user.value) ==>
                ScreenFor(identity, isAdmin) == BrowseView
      ensures Coherent(identity.user)
      ensures !(identity.user.Some? && |events| > 0) ==> registeredEvents == old(registeredEvents)
    {
      fetchIssued := identity.isLoaded && identity.user.Some?;
      if fetchIssued {
        isAdmin := IsAdminRole(identity.user.value);
      }
      SyncRegistered(identity.user);
    }

    /** A click on an event's register button, then the refresh that a 2xx
        response starts, ending with `result`. Without a user, or on a
        non-2xx response, or when the refresh throws, no state changes. */
    method RegisterAndRefresh(eventId: string, user: Option<User>, outcome: RequestOutcome,
                              result: FetchResult<seq<Event>>)
      returns (request: Option<RegisterRequest>)
      modifies this`events, this`registeredEvents
      ensures request.Some? <==> user.Some?
      ensures user.Some? ==> request == Some(RegisterRequest(eventId, user.value.id))
      ensures !(user.Some? && outcome == Ok) || result.FetchThrew? ==>
                events == old(events) && registeredEvents == old(registeredEvents)
      ensures user.Some? && outcome == Ok && result.Parsed? ==>
                events == result.data && Coherent(user)
      ensures user.Some? && outcome == Ok && result.Parsed? && result.data == [] ==>
                registeredEvents == old(registeredEvents)
      ensures old(Coherent(user)) ==> Coherent(user)
    {
      var refreshIssued;
      request, refreshIssued := HandleRegister(eventId, user, outcome);
      if refreshIssued {
        Refresh(result, user);
      }
    }

    /** A submit of the admin form, then the refresh that `onEventAdded`
        (this component's `fetchEvents`) starts, ending with `result`. */
    method SubmitAndRefresh(form: Dashboard.AdminDashboard, outcome: RequestOutcome,
                            result: FetchResult<seq<Event>>, user: Option<User>)
      returns (body: Dashboard.EventFormData)
      modifies form, this`events, this`registeredEvents
      ensures body == old(form.formData)
      ensures outcome == Ok ==> form.formData == Dashboard.EmptyForm()
      ensures outcome != Ok ==>
                form.formData == old(form.formData) &&
                events == old(events) && registeredEvents == old(registeredEvents)
      ensures outcome == Ok && result.FetchThrew? ==>
                events == old(events) && registeredEvents == old(registeredEvents)
      ensures outcome == Ok && result.Parsed? ==> events == result.data && Coherent(user)
      ensures outcome == Ok && result.Parsed? && (user.None? || result.data == []) ==>
                registeredEvents == old(registeredEvents)
      ensures old(Coherent(user)) ==> Coherent(user)
    {
      var effects;
      body, effects := form.HandleSubmit(outcome);
      if Dashboard.EventAdded in effects {
        Refresh(result, user);
      }
    }

    /** Under coherence, every event listed under "Your Registered Events"
        is one of the listed events and carries the registered flag there. */
    lemma RegisteredAreFlagged(user: Option<User>, e: Event)
      requires Coherent(user) && user.Some? && |events| > 0
      requires e in registeredEvents
      ensures e in events && IsRegisteredFlag(e, UserId(user))
    {
    }
  }

  /** Without `|events| > 0` the coherence guarantee above fails: a signed-in
      user registered for `e` loads `[e]`, then a refresh returns an empty
      list. The effect on `[events, user]` does not recompute, so "Your
      Registered Events" still lists `e` while the browse list is empty. */
  method StaleSubsetAfterEmptyRefresh(e: Event, u: User)
    returns (listed: seq<Event>, registered: seq<Event>)
    requires u.id in e.registeredUsers
    ensures listed == [] && registered == [e]
    ensures e in registered && e !in listed
  {
    var app := new AppState();
    var _ := app.OnIdentity(Identity(true, Some(u)));
    app.Refresh(Parsed([e]), Some(u));
    IncludesIsMembership(e.registeredUsers, u.id);
    assert Derive([e], u.id) == [e];
    app.Refresh(Parsed([]), Some(u));
    listed, registered := app.events, app.registeredEvents;
  }
}
