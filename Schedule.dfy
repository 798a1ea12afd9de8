/**
 * `APIHandler.get_schedule_items` of api.py: the user's preference list (an
 * input here; upstream it is `get_users_preferences(user_id)`) is mapped to
 * document ids, each id is looked up in the event cache (a missing id raises
 * `KeyError`), and the events are stable-sorted by `start_time_numeric`.
 */
module Schedule {
  import opened Wrappers
  import opened Documents
  import opened EventCache
  import opened StartTimeSort

  /** `[pref['document_id'] for pref in prefs]` */
  function DocumentIds(prefs: seq<Preference>): (ids: seq<EventId>)
    ensures |ids| == |prefs|
    ensures forall i :: 0 <= i < |prefs| ==> ids[i] == prefs[i].documentId
  {
    seq(|prefs|, i requires 0 <= i < |prefs| => prefs[i].documentId)
  }

  /** The cached event of each preference, in preference order. */
  ghost function PreferredEvents(cache: Cache, prefs: seq<Preference>): seq<Event>
    requires forall i :: 0 <= i < |prefs| ==> prefs[i].documentId in cache
  {
    seq(|prefs|, i requires 0 <= i < |prefs| && prefs[i].documentId in cache => cache[prefs[i].documentId])
  }

  /**
   * The schedule of a user: one cached event per preference, sorted by start
   * time, ties in preference order; or the first preference id the cache
   * does not hold.
   */
  function GetScheduleItems(cache: Cache, prefs: seq<Preference>): (r: Result<seq<Event>, EventId>)
    ensures r.Success? <==> forall i :: 0 <= i < |prefs| ==> prefs[i].documentId in cache
    ensures r.Failure? ==> r.error !in cache
    ensures r.Failure? ==> exists i :: 0 <= i < |prefs| && prefs[i].documentId == r.error
                                       && forall j :: 0 <= j < i ==> prefs[j].documentId in cache
    ensures r.Success? ==> |r.value| == |prefs|
    ensures r.Success? ==> multiset(r.value) == multiset(PreferredEvents(cache, prefs))
    ensures r.Success? ==> IsStableSortOf(r.value, PreferredEvents(cache, prefs))
  {
    var ids := DocumentIds(prefs);
    match Lookup(cache, ids)
    case Failure(missing) => Failure(missing)
    case Success(events) =>
      assert events == PreferredEvents(cache, prefs);
      SortByStartIsSorted(events);
      SortByStartPermutes(events);
      StableSortCharacterized(events, SortByStart(events));
      assert |SortByStart(events)| == |multiset(SortByStart(events))|;
      Success(SortByStart(events))
  }
}
