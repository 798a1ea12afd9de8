/**
 * `AddToScheduleHandler.post` and `RemoveFromScheduleHandler.post` of api.py.
 * Each calls the upstream preference service once; an HTTP error of one
 * status is swallowed (409 "already there" for add, 404 "not there" for
 * remove), every other error is re-raised, and when nothing was re-raised the
 * user's schedule is rendered from the preferences read afterwards.
 *
 * The upstream reply and the preference list read afterwards are inputs. At
 * the end of the module a small store stands in for the upstream service, as
 * it is expected to behave, to state the idempotence these rules give.
 */
module ScheduleChanges {
  import opened Wrappers
  import opened Documents
  import opened EventCache
  import opened Schedule

  const CONFLICT := 409
  const NOT_FOUND := 404

  /** What the upstream `post_users_preference` / `delete_users_preference` call did. */
  datatype RemoteReply = Done | HttpError(status: int)

  /** The decision of a handler, as a result value instead of a caught exception. */
  datatype PreferenceChange =
    | Created
    | AlreadyExists
    | Removed
    | WasNotPresent
    | UpstreamError(status: int)

  /** `except HTTPError as e: if e.response.status_code != 409: raise e` */
  function AddOutcome(reply: RemoteReply): (c: PreferenceChange)
    ensures c == Created <==> reply == Done
    ensures c == AlreadyExists <==> reply == HttpError(CONFLICT)
    ensures c.UpstreamError? <==> reply.HttpError? && reply.status != CONFLICT
    ensures c.UpstreamError? ==> c.status == reply.status
    ensures c.Created? || c.AlreadyExists? || c.UpstreamError?
  {
    match reply
    case Done => Created
    case HttpError(status) => if status == CONFLICT then AlreadyExists else UpstreamError(status)
  }

  /** `except HTTPError as e: if e.response.status_code != 404: raise e` */
  function RemoveOutcome(reply: RemoteReply): (c: PreferenceChange)
    ensures c == Removed <==> reply == Done
    ensures c == WasNotPresent <==> reply == HttpError(NOT_FOUND)
    ensures c.UpstreamError? <==> reply.HttpError? && reply.status != NOT_FOUND
    ensures c.UpstreamError? ==> c.status == reply.status
    ensures c.Removed? || c.WasNotPresent? || c.UpstreamError?
  {
    match reply
    case Done => Removed
    case HttpError(status) => if status == NOT_FOUND then WasNotPresent else UpstreamError(status)
  }

  /** What the browser gets back from an add or remove request. */
  datatype ScheduleResponse =
    | ScheduleView(items: seq<Event>)
    | RaisedHttpError(status: int)
    | RaisedKeyError(id: EventId)

  /** `respond_with_schedule`: the schedule page for the preferences read now. */
  function RespondWithSchedule(cache: Cache, prefs: seq<Preference>): (r: ScheduleResponse)
    ensures !r.RaisedHttpError?
    ensures r.ScheduleView? <==> GetScheduleItems(cache, prefs).Success?
    ensures r.ScheduleView? ==> r.items == GetScheduleItems(cache, prefs).value
    ensures r.RaisedKeyError? ==> r.id == GetScheduleItems(cache, prefs).error
  {
    match GetScheduleItems(cache, prefs)
    case Success(items) => ScheduleView(items)
    case Failure(missing) => RaisedKeyError(missing)
  }

  /** Re-raise an upstream error, otherwise render the schedule. */
  function Respond(change: PreferenceChange, cache: Cache, prefsAfter: seq<Preference>): ScheduleResponse {
    if change.UpstreamError? then RaisedHttpError(change.status) else RespondWithSchedule(cache, prefsAfter)
  }

  /** `AddToScheduleHandler.post`, given the upstream reply and the preferences read afterwards. */
  function AddToSchedule(reply: RemoteReply, cache: Cache, prefsAfter: seq<Preference>): (r: ScheduleResponse)
    ensures r.RaisedHttpError? <==> reply.HttpError? && reply.status != CONFLICT
    ensures r.RaisedHttpError? ==> r.status == reply.status
    ensures !r.RaisedHttpError? ==> r == RespondWithSchedule(cache, prefsAfter)
  {
    Respond(AddOutcome(reply), cache, prefsAfter)
  }

  /** `RemoveFromScheduleHandler.post`, given the upstream reply and the preferences read afterwards. */
  function RemoveFromSchedule(reply: RemoteReply, cache: Cache, prefsAfter: seq<Preference>): (r: ScheduleResponse)
    ensures r.RaisedHttpError? <==> reply.HttpError? && reply.status != NOT_FOUND
    ensures r.RaisedHttpError? ==> r.status == reply.status
    ensures !r.RaisedHttpError? ==> r == RespondWithSchedule(cache, prefsAfter)
  {
    Respond(RemoveOutcome(reply), cache, prefsAfter)
  }

  // The upstream preference store of one user, as the service is expected to
  // behave: a list of event ids without repeats; creating a present entry
  // answers 409, deleting an absent one answers 404. This is an assumption
  // about the remote service, not code of this repository.

  /** The preference list the service returns for a store. */
  function PreferencesOf(store: seq<EventId>): (prefs: seq<Preference>)
    ensures |prefs| == |store|
    ensures forall i :: 0 <= i < |store| ==> prefs[i].documentId == store[i]
  {
    seq(|store|, i requires 0 <= i < |store| => Preference(store[i]))
  }

  function Without(store: seq<EventId>, id: EventId): (r: seq<EventId>)
    ensures forall x :: x in r <==> x in store && x != id
  {
    if store == [] then []
    else (if store[0] == id then [] else [store[0]]) + Without(store[1..], id)
  }

  function RemotePost(store: seq<EventId>, id: EventId): (RemoteReply, seq<EventId>) {
    if id in store then (HttpError(CONFLICT), store) else (Done, store + [id])
  }

  function RemoteDelete(store: seq<EventId>, id: EventId): (RemoteReply, seq<EventId>) {
    if id in store then (Done, Without(store, id)) else (HttpError(NOT_FOUND), store)
  }

  /**
   * Adding twice is adding once: the second call meets a conflict, which is
   * swallowed, the store is unchanged, and the same schedule is rendered.
   */
  lemma AddIsIdempotent(store: seq<EventId>, id: EventId, cache: Cache)
    ensures var (reply1, after1) := RemotePost(store, id);
            var (reply2, after2) := RemotePost(after1, id);
            && AddOutcome(reply2) == AlreadyExists
            && after2 == after1
            && AddToSchedule(reply2, cache, PreferencesOf(after2)) == RespondWithSchedule(cache, PreferencesOf(after1))
            && AddToSchedule(reply1, cache, PreferencesOf(after1)) == RespondWithSchedule(cache, PreferencesOf(after1))
  {
  }

  /** Removing an event that is not scheduled succeeds and changes nothing. */
  lemma RemoveAbsentIsNoOp(store: seq<EventId>, id: EventId, cache: Cache)
    requires id !in store
    ensures var (reply, after) := RemoteDelete(store, id);
            && RemoveOutcome(reply) == WasNotPresent
            && after == store
            && RemoveFromSchedule(reply, cache, PreferencesOf(after)) == RespondWithSchedule(cache, PreferencesOf(store))
  {
  }

  /**
   * After a successful add of a cached event, over a store whose events are
   * all cached, the rendered schedule shows that event.
   */
  lemma AddedEventIsShown(store: seq<EventId>, id: EventId, cache: Cache)
    requires id in cache
    requires forall i :: 0 <= i < |store| ==> store[i] in cache
    ensures var (reply, after) := RemotePost(store, id);
            var response := AddToSchedule(reply, cache, PreferencesOf(after));
            response.ScheduleView? && cache[id] in response.items
  {
    var (reply, after) := RemotePost(store, id);
    var prefs := PreferencesOf(after);
    var k :| 0 <= k < |after| && after[k] == id;
    assert prefs[k].documentId == id;
    var items := GetScheduleItems(cache, prefs).value;
    var preferred := PreferredEvents(cache, prefs);
    assert preferred[k] == cache[id];
    assert cache[id] in multiset(preferred);
    assert cache[id] in multiset(items);
  }

  /**
   * After a remove, over a cache that files every event under its own id
   * (as every built cache does, by `CacheFiledById`), the rendered schedule
   * no longer shows the removed event.
   */
  lemma RemovedEventIsGone(store: seq<EventId>, id: EventId, cache: Cache)
    requires FiledById(cache)
    ensures var (reply, after) := RemoteDelete(store, id);
            var response := RemoveFromSchedule(reply, cache, PreferencesOf(after));
            response.ScheduleView? ==> forall x :: x in response.items ==> x.id != id
  {
    var (reply, after) := RemoteDelete(store, id);
    var prefs := PreferencesOf(after);
    var response := RemoveFromSchedule(reply, cache, prefs);
    if response.ScheduleView? {
      var items := GetScheduleItems(cache, prefs).value;
      assert response.items == items;
      var preferred := PreferredEvents(cache, prefs);
      forall x | x in items
        ensures x.id != id
      {
        assert x in multiset(items);
        assert x in multiset(preferred);
        var k :| 0 <= k < |preferred| && preferred[k] == x;
        assert prefs[k].documentId == after[k];
        assert after[k] in after;
      }
    }
  }
}
