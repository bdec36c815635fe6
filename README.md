# Campus Connect client state, modelled in Dafny

Campus Connect is a browser client where students browse campus events and
register for them, and where an administrator creates new events. The client
talks to a REST backend and gets identities from a hosted identity provider.
This project models the client's state handling, not its markup:

- `Events.dfy`: the `Event` record and the "registered events" filter. `Derive`
  keeps the events whose `registeredUsers` includes the user id, in list order.
  Lemmas show that the filter is a subsequence of the list and that it keeps
  exactly the registered events, with their multiplicity. They also show that
  it distributes over concatenation and is idempotent. One lemma says that the
  browse list's `isRegistered` flag agrees with the filter.
- `Http.dfy`: the possible results of the backend calls. They enter the model
  as parameters. A `GET` either parses or throws. A `POST` gets a 2xx
  response, gets another response, or throws.
- `Dashboard.dfy`: the admin form. It is a six-field record held in an
  `AdminDashboard` object. `HandleChange` overwrites one field.
  `HandleSubmit` sends the record. On a 2xx response it resets the form and
  then signals `onEventAdded` once. On any other outcome it keeps the entered
  values.
- `App.dfy`: the `App` component's three state cells (`events`,
  `registeredEvents`, `isAdmin`) as fields of an `AppState` object. React runs
  its effects when their dependencies change. Here each handler calls the
  effects that its change would trigger. `Coherent(user)` says that the subset
  is up to date wherever the source recomputes it. Every state-changing
  method keeps `Coherent(user)`.

Two behaviours of the code are worth knowing when reading the model:

- The code recomputes the registered subset only when a user is present and
  `events` is non-empty (src/App.tsx:39, 55). Otherwise the previous subset
  stays, even when it is stale: after sign-out, or after a refresh that
  returned an empty list. `SyncRegistered`, `Refresh` and `OnIdentity` state
  this, and `StaleSubsetAfterEmptyRefresh` exhibits the stale case.
- The code never checks `response.ok` when fetching events
  (src/App.tsx:46-48), so any response whose body parses replaces `events`.
  Only a thrown call or a failed parse keeps the previous list.

## Model

| member | source | states |
|---|---|---|
| `Events.IncludesIsMembership` | src/App.tsx:59 | The `includes` scan answers true exactly when the id occurs in `registeredUsers`. |
| `Events.Derive` | src/App.tsx:58-60 | The subset is no longer than `events`. Each kept event is in `events` and includes the user id. Each event of `events` that includes the id is kept. |
| `Events.SubsequenceIsShorter` | src/App.tsx:58-60 | A subsequence is never longer than the list it is taken from, so the filtered subset never has more events than `events`. |
| `Events.DeriveIsSubsequence` | src/App.tsx:58-60 | The subset is a subsequence of `events`, so their relative order is kept. |
| `Events.DeriveCounts` | src/App.tsx:58-60 | A registered event occurs in the subset as often as in `events`. An unregistered event does not occur at all. |
| `Events.DeriveAppend` | src/App.tsx:58-60 | Filtering `a + b` gives the filter of `a` followed by the filter of `b`. |
| `Events.DeriveIdempotent` | src/App.tsx:58-60 | Recomputing the subset from the subset leaves it unchanged. |
| `Events.DeriveAllOrNone` | src/App.tsx:58-60 | The subset equals `events` exactly when the user is registered for every event. It is empty exactly when the user is registered for none. |
| `Events.IsRegisteredFlag` | src/App.tsx:147 | The per-card flag is true exactly when a user is present and that user's id is in `registeredUsers`. Without a user it is false. |
| `Events.SubsetMatchesFlag` | src/App.tsx:127-147 | For a listed event, being in the registered subset is equivalent to having the browse list's flag set for that user. |
| `Dashboard.Put` | src/components/AdminDashboard.tsx:54-58 | A change sets the named field to the new value. The other five fields stay the same. |
| `Dashboard.EmptyForm` | src/components/AdminDashboard.tsx:18-25 | All six fields of the initial and reset record are the empty string. |
| `Dashboard.FieldsDetermineForm` | src/components/AdminDashboard.tsx:4-11 | Two form records that agree on all six fields are equal. |
| `Dashboard.PutLaws` | src/components/AdminDashboard.tsx:54-58 | Writing a field's own value back changes nothing. A second write to the same field replaces the first. |
| `Dashboard.PutCommutes` | src/components/AdminDashboard.tsx:54-58 | Changes to two different fields can be applied in either order. |
| `Dashboard.FillingAllFields` | src/components/AdminDashboard.tsx:18-58 | Starting from the initial form, one change per field builds exactly the record of the entered values. |
| `Dashboard.AdminDashboard.constructor` | src/components/AdminDashboard.tsx:18-25 | The form starts with every field empty. |
| `Dashboard.AdminDashboard.HandleChange` | src/components/AdminDashboard.tsx:54-58 | The named field takes the new value. Every other field keeps its old value. |
| `Dashboard.AdminDashboard.HandleSubmit` | src/components/AdminDashboard.tsx:27-52 | The request body is the record as it was before the submit. On a 2xx response the record is reset to empty, then `onEventAdded` is signalled exactly once. On a non-2xx response or a throw the record is unchanged and no callback happens. |
| `App.ScreenFor` | src/App.tsx:87-98 | Before the provider loads, the page shows a loading placeholder. A signed-out user is redirected to sign-in. A signed-in user sees the admin dashboard exactly when `isAdmin` is set, and the browse list otherwise. |
| `App.HandleRegister` | src/App.tsx:67-85 | Without a user, nothing is sent and no refresh starts. With a user, the request carries the event id and the user's id. A refresh starts exactly on a 2xx response. No state is written. |
| `App.AppState.constructor` | src/App.tsx:23-26 | `events` and `registeredEvents` start empty. `isAdmin` starts false. The subset starts up to date for every user. |
| `App.AppState.SyncRegistered` | src/App.tsx:37-65 | With a user and a non-empty `events`, the subset becomes the filter of `events` by the user's id. Otherwise it keeps its previous value. |
| `App.AppState.Refresh` | src/App.tsx:44-52 | A parsed body replaces `events` entirely, whatever the response status. The subset is then brought up to date, or kept when there is no user or the list is empty. A throw changes nothing. An up-to-date subset stays up to date. |
| `App.AppState.OnIdentity` | src/App.tsx:28-42 | Once the identity is loaded with a user, `isAdmin` becomes whether the role is `"admin"`, which selects the dashboard or the browse view, and a fetch starts. Otherwise `isAdmin` is untouched and no fetch starts. Afterwards the subset is up to date for the new user; without a user or with an empty `events` it keeps its previous value. |
| `App.AppState.RegisterAndRefresh` | src/App.tsx:67-85 | With a user, the request carries the event id and the user's id; without one nothing is sent. Without a user, on a non-2xx response, on a throw, or when the refresh throws, `events` and `registeredEvents` are unchanged. On a 2xx response the refresh's parsed list replaces `events` and the subset is brought up to date, or kept when the list is empty. |
| `App.AppState.SubmitAndRefresh` | src/App.tsx:96-97 | The request body is the form as it was. A successful admin submit resets the form and refreshes `events` through `onEventAdded`: a parsed list replaces `events` and the subset is brought up to date, or kept without a user or with an empty list; a refresh that throws changes nothing. A failed submit keeps the form and changes no event state. |
| `App.AppState.RegisteredAreFlagged` | src/App.tsx:127-147 | When the subset is up to date and there are events, every event under "Your Registered Events" is in the browse list and has its registered flag set. |
| `App.StaleSubsetAfterEmptyRefresh` | src/App.tsx:38-42 | For a user registered for `e`: after the list `[e]` loads and a later refresh returns an empty list, the browse list is empty while "Your Registered Events" still holds `e`. |

## Left out

- Markup, styling and layout of both components are not modelled. `ScreenFor` keeps only the choice of view.
- src/components/Navbar.tsx, src/components/EventCard.tsx and src/main.tsx are not part of this model. They are presentational or start-up code.
- `fetch`, HTTP, JSON and the backend's registration semantics are not modelled. Each call is a parameter that says how it ended. So the model does not prove that a refresh after a successful registration contains the user, or that one after a successful creation contains the new event.
- `Refresh` assumes that a parsed body is an array of events. A body of another shape, such as an error object from a non-2xx response, would still be stored by the source. The model cannot express that value.
- The identity provider is not modelled. It enters as an `Identity` value: a loaded flag and an optional user with an id and a role. A role that is not a string behaves like an absent role, because neither equals `"admin"`.
- Concurrent refreshes are not modelled. In the source, overlapping requests can finish out of order and the last response wins. Each modelled refresh runs to completion before the next one starts.
- `console.log` and `console.error` are not modelled. They only log.
- `Dashboard.AdminDashboard.HandleChange` takes one of the six field names. The source's computed key `[e.target.name]` would add a new key for any other name, but every input in the form has one of the six names.
- The browser's constraint validation is not modelled. The source marks every field `required`, so the browser can block a submit before `handleSubmit` runs. `HandleSubmit` accepts any record.
- React's scheduling is not modelled. State updates are batched and effects run after render, so effect runs are explicit calls here. `Refresh` runs the `[events, user]` effect only when a body parses, because only then does `events` get a new value.
- The `catch` in `fetchUserRegisteredEvents` (src/App.tsx:62-64) is not modelled. It would run when an event arrives without a `registeredUsers` array, which the model's `Event` type cannot express, and it would leave the subset as it was.
