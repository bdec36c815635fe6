/** The event record the backend serves and the client-side "registered
    events" view derived from it (src/App.tsx). */
module Events {

  datatype Option<+T> = None | Some(value: T)

  /** One event as `GET /api/events` returns it. `registeredUsers` keeps the
      order and any repetition the backend sends. */
  datatype Event = Event(
    id: string,
    title: string,
    date: string,
    category: string,
    image: string,
    description: string,
    location: string,
    registeredUsers: seq<string>,
    createdAt: Option<string>,
    updatedAt: Option<string>)

  /** `event.registeredUsers.includes(uid)`: a linear scan for `uid`. */
  predicate Includes(users: seq<string>, uid: string)
    decreases |users|
  {
    users != [] && (users[0] == uid || Includes(users[1..], uid))
  }

  lemma {:induction false} IncludesIsMembership(users: seq<string>, uid: string)
    ensures Includes(users, uid) <==> uid in users
    decreases |users|
  {
    if users != [] {
      IncludesIsMembership(users[1..], uid);
      assert users == [users[0]] + users[1..];
    }
  }

  predicate RegisteredFor(e: Event, uid: string) {
    Includes(e.registeredUsers, uid)
  }

  /** The registered-events filter: the events whose `registeredUsers`
      includes `uid`, in the order of `events`. */
  function Derive(events: seq<Event>, uid: string): (r: seq<Event>)
    ensures |r| <= |events|
    ensures forall e :: e in r ==> e in events && RegisteredFor(e, uid)
    ensures forall e :: e in events && RegisteredFor(e, uid) ==> e in r
    decreases |events|
  {
    if events == [] then []
    else
      var rest := Derive(events[1..], uid);
      assert events == [events[0]] + events[1..];
      if RegisteredFor(events[0], uid) then [events[0]] + rest else rest
  }

  /** `r` can be obtained from `s` by deleting elements, keeping the order of
      the rest. */
  predicate IsSubsequence<T(==)>(r: seq<T>, s: seq<T>)
    decreases |s|
  {
    r == [] ||
    (s != [] &&
      ((r[0] == s[0] && IsSubsequence(r[1..], s[1..])) || IsSubsequence(r, s[1..])))
  }

  lemma {:induction false} SubsequenceIsShorter<T>(r: seq<T>, s: seq<T>)
    requires IsSubsequence(r, s)
    ensures |r| <= |s|
    decreases |s|
  {
    if r != [] {
      if r[0] == s[0] && IsSubsequence(r[1..], s[1..]) {
        SubsequenceIsShorter(r[1..], s[1..]);
      } else {
        SubsequenceIsShorter(r, s[1..]);
      }
    }
  }

  /** The filter keeps the relative order of `events`. */
  lemma {:induction false} DeriveIsSubsequence(events: seq<Event>, uid: string)
    ensures IsSubsequence(Derive(events, uid), events)
    decreases |events|
  {
    if events != [] {
      var rest := Derive(events[1..], uid);
      DeriveIsSubsequence(events[1..], uid);
      if RegisteredFor(events[0], uid) {
        var r := Derive(events, uid);
        assert r[0] == events[0] && r[1..] == rest;
      } else {
        assert Derive(events, uid) == rest;
      }
    }
  }

  /** Exact membership, counted with multiplicity: every registered event
      is kept as often as it occurs, every other one is dropped. */
  lemma {:induction false} DeriveCounts(events: seq<Event>, uid: string, e: Event)
    ensures multiset(Derive(events, uid))[e] ==
            if RegisteredFor(e, uid) then multiset(events)[e] else 0
    decreases |events|
  {
    if events != [] {
      DeriveCounts(events[1..], uid, e);
      assert events == [events[0]] + events[1..];
    }
  }

  /** Filtering a concatenation filters each part. */
  lemma {:induction false} DeriveAppend(a: seq<Event>, b: seq<Event>, uid: string)
    ensures Derive(a + b, uid) == Derive(a, uid) + Derive(b, uid)
    decreases |a|
  {
    if a != [] {
      assert (a + b)[1..] == a[1..] + b;
      DeriveAppend(a[1..], b, uid);
    } else {
      assert a + b == b;
    }
  }

  /** Re-deriving from an already derived subset changes nothing. */
  lemma {:induction false} DeriveIdempotent(events: seq<Event>, uid: string)
    ensures Derive(Derive(events, uid), uid) == Derive(events, uid)
    decreases |events|
  {
    if events != [] {
      DeriveIdempotent(events[1..], uid);
      var rest := Derive(events[1..], uid);
      if RegisteredFor(events[0], uid) {
        var r := [events[0]] + rest;
        assert r[1..] == rest;
      }
    }
  }

  /** The subset is the whole list exactly when the user is registered for
      every event, and empty exactly when for none. */
  lemma {:induction false} DeriveAllOrNone(events: seq<Event>, uid: string)
    ensures Derive(events, uid) == events <==>
            forall i :: 0 <= i < |events| ==> RegisteredFor(events[i], uid)
    ensures Derive(events, uid) == [] <==>
            forall i :: 0 <= i < |events| ==> !RegisteredFor(events[i], uid)
    decreases |events|
  {
    if events != [] {
      DeriveAllOrNone(events[1..], uid);
      var rest := Derive(events[1..], uid);
      if !RegisteredFor(events[0], uid) {
        assert |Derive(events, uid)| < |events|;
      }
      assert forall i :: 1 <= i < |events| ==> events[i] == events[1..][i - 1];
    }
  }

  /** The browse list's per-card flag,
      `event.registeredUsers?.includes(user?.id)`: false without a user. */
  function IsRegisteredFlag(e: Event, userId: Option<string>): (b: bool)
    ensures b <==> userId.Some? && userId.value in e.registeredUsers
  {
    IncludesIsMembership(e.registeredUsers, if userId.Some? then userId.value else "");
    userId.Some? && Includes(e.registeredUsers, userId.value)
  }

  /** Every event shown under "Your Registered Events" also shows as
      registered in the browse list, and the flag picks out exactly the
      subset among the listed events. */
  lemma SubsetMatchesFlag(events: seq<Event>, uid: string, e: Event)
    requires e in events
    ensures e in Derive(events, uid) <==> IsRegisteredFlag(e, Some(uid))
  {
  }
}
