/**
 * The listing and detail helpers of api.py: the tag, search and related-talk
 * listings map the ids of the upstream matches through the event cache, the
 * listing titles are built from the tag or the keywords, and the related
 * arXiv papers are the first `NUM_RESULTS` items of the recommender's answer.
 * Every listing page also carries the user's schedule. The upstream answers
 * (the matches, the preferences, the recommender's list) are inputs.
 */
module Listings {
  import opened Wrappers
  import opened Documents
  import opened EventCache
  import opened Schedule

  /** How many related talks and related papers a detail page shows. */
  const NUM_RESULTS := 4

  /**
   * What `respond_with` hands to the `events.html` template: the title, the
   * listed events and the user's schedule.
   */
  datatype Listing = Listing(title: string, events: seq<Event>, scheduleItems: seq<Event>)

  /**
   * `[self.event_cache[match['id']] for match in matches]`: one cached record
   * per match, in match order, or the first id missing from the cache.
   */
  function EventsForMatches(cache: Cache, matches: seq<Match>): (r: Result<seq<Event>, EventId>)
    ensures r.Success? <==> forall i :: 0 <= i < |matches| ==> matches[i].id in cache
    ensures r.Success? ==> |r.value| == |matches|
    ensures r.Success? ==> forall i :: 0 <= i < |matches| ==> r.value[i] == cache[matches[i].id]
    ensures r.Failure? ==> r.error !in cache
    ensures r.Failure? ==> exists i :: 0 <= i < |matches| && matches[i].id == r.error
                                       && forall j :: 0 <= j < i ==> matches[j].id in cache
  {
    var ids := seq(|matches|, i requires 0 <= i < |matches| => matches[i].id);
    assert forall i :: 0 <= i < |matches| ==> ids[i] == matches[i].id;
    Lookup(cache, ids)
  }

  /** `s.replace(from, to)` for single characters. */
  function ReplaceChar(s: string, from: char, to: char): (r: string)
    ensures |r| == |s|
    ensures forall i :: 0 <= i < |s| ==> r[i] == if s[i] == from then to else s[i]
  {
    if s == [] then [] else [if s[0] == from then to else s[0]] + ReplaceChar(s[1..], from, to)
  }

  /** `'Tag: ' + tag.replace('_', ' ')` */
  function TagTitle(tag: string): (title: string)
    ensures |title| == |tag| + 5
    ensures title[..5] == "Tag: "
    ensures forall i :: 0 <= i < |tag| ==> title[5 + i] == if tag[i] == '_' then ' ' else tag[i]
    ensures '_' !in title
  {
    var title := "Tag: " + ReplaceChar(tag, '_', ' ');
    assert forall i :: 0 <= i < |title| ==> title[i] != '_' by {
      forall i | 0 <= i < |title| ensures title[i] != '_' {
        if i >= 5 {
          assert title[i] == ReplaceChar(tag, '_', ' ')[i - 5];
        }
      }
    }
    title
  }

  /** `'Search: ' + keywords` */
  function SearchTitle(keywords: string): (title: string)
    ensures |title| == |keywords| + 8
    ensures title[..8] == "Search: " && title[8..] == keywords
  {
    "Search: " + keywords
  }

  /**
   * `EventsHandler.respond_with`: the listed events come first (their lookup
   * has already run), then the user's schedule is assembled from `prefs`;
   * a cache miss in either raises `KeyError`.
   */
  function RespondWith(title: string, events: Result<seq<Event>, EventId>, cache: Cache, prefs: seq<Preference>): (r: Result<Listing, EventId>)
    ensures r.Success? <==> events.Success? && GetScheduleItems(cache, prefs).Success?
    ensures events.Failure? ==> r == Failure(events.error)
    ensures events.Success? && GetScheduleItems(cache, prefs).Failure? ==> r == Failure(GetScheduleItems(cache, prefs).error)
    ensures r.Success? ==> r.value == Listing(title, events.value, GetScheduleItems(cache, prefs).value)
  {
    match events
    case Failure(missing) => Failure(missing)
    case Success(listed) =>
      match GetScheduleItems(cache, prefs)
      case Failure(missing) => Failure(missing)
      case Success(items) => Success(Listing(title, listed, items))
  }

  /**
   * `TagHandler.get`: the events of the tag's matches, titled after the tag,
   * beside the user's schedule (`prefs`). The request fails with the first
   * match id missing from the cache, or else with the first uncached
   * preference id.
   */
  function TagListing(cache: Cache, tag: string, matches: seq<Match>, prefs: seq<Preference>): (r: Result<Listing, EventId>)
    ensures r.Success? <==> (forall i :: 0 <= i < |matches| ==> matches[i].id in cache)
                            && (forall i :: 0 <= i < |prefs| ==> prefs[i].documentId in cache)
    ensures r.Success? ==> r.value.title == TagTitle(tag)
                           && r.value.events == EventsForMatches(cache, matches).value
                           && r.value.scheduleItems == GetScheduleItems(cache, prefs).value
    ensures r.Failure? ==> r.error !in cache
    ensures r.Failure? && EventsForMatches(cache, matches).Success? ==> r.error == GetScheduleItems(cache, prefs).error
    ensures EventsForMatches(cache, matches).Failure? ==> r == Failure(EventsForMatches(cache, matches).error)
  {
    var events := EventsForMatches(cache, matches);
    RespondWith(TagTitle(tag), events, cache, prefs)
  }

  /**
   * `SearchHandler.get`, given the `keywords` argument as the request parser
   * returns it: the events of the matches under a title made of the
   * keywords, beside the user's schedule; failures as for `TagListing`.
   */
  function SearchListing(cache: Cache, keywords: string, matches: seq<Match>, prefs: seq<Preference>): (r: Result<Listing, EventId>)
    ensures r.Success? <==> (forall i :: 0 <= i < |matches| ==> matches[i].id in cache)
                            && (forall i :: 0 <= i < |prefs| ==> prefs[i].documentId in cache)
    ensures r.Success? ==> |r.value.title| == |keywords| + 8 && r.value.title[..8] == "Search: "
                           && r.value.title[8..] == keywords
    ensures r.Success? ==> r.value.events == EventsForMatches(cache, matches).value
                           && r.value.scheduleItems == GetScheduleItems(cache, prefs).value
    ensures r.Failure? ==> r.error !in cache
    ensures r.Failure? && EventsForMatches(cache, matches).Success? ==> r.error == GetScheduleItems(cache, prefs).error
    ensures EventsForMatches(cache, matches).Failure? ==> r == Failure(EventsForMatches(cache, matches).error)
  {
    var events := EventsForMatches(cache, matches);
    RespondWith(SearchTitle(keywords), events, cache, prefs)
  }

  /** `results[:NUM_RESULTS]` */
  function Truncated<T>(results: seq<T>): (r: seq<T>)
    ensures |r| == if |results| < NUM_RESULTS then |results| else NUM_RESULTS
    ensures r == results[..|r|]
  {
    if |results| <= NUM_RESULTS then results else results[..NUM_RESULTS]
  }

  /**
   * `RelatedArxivPapersHandler.get`: the text of the cached event is sent to
   * the recommender (`recommend` stands for that POST and the decoding of
   * its answer), and the first `NUM_RESULTS` papers, or all of them when
   * fewer come back, are shown.
   */
  function RelatedArxivPapers<P>(cache: Cache, eventId: EventId, recommend: string -> seq<P>): (r: Result<seq<P>, EventId>)
    ensures r.Success? <==> eventId in cache
    ensures r.Failure? ==> r.error == eventId
    ensures r.Success? ==> var response := recommend(cache[eventId].text);
                           |r.value| == (if |response| < NUM_RESULTS then |response| else NUM_RESULTS)
                           && r.value == response[..|r.value|]
  {
    if eventId !in cache then Failure(eventId)
    else Success(Truncated(recommend(cache[eventId].text)))
  }
}
