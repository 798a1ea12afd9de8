# NIPS scheduler: verified model of the event cache, schedule assembly and listing helpers

The application is a small Tornado web app that shows the talks of a
conference. The talks are documents held by a remote recommendation API, and
each visitor can build a personal schedule of favourite talks. `api.py` builds
an in-memory event cache at start-up by paging through the remote documents.
It assembles a user's schedule by joining the user's preference list against
that cache and stable-sorting the result by start time. Its listing pages map
the remote matches through the cache. Its add and remove handlers swallow one
HTTP status each. `nips_api.py`, an earlier revision, turns documents into
"cards" whose author strings are split on `", "`.

The remote service is never called here. Its answers are inputs to the model:
a finite sequence of page answers, a preference list, a list of matches, a
reply status, or a function from request to answer.

Modules, one per component:

- `Wrappers`: `Result`, used where the source raises.
- `Documents`: the upstream records. These are `Event` (`id`, `meta`, `text`), `Meta` (`start_time_numeric`, `authors`, `author_ids`, the other fields), `Preference` and `Match`.
- `EventCache`: `build_event_cache` as a method with a loop. It comes with the specification functions `Built` and `RequestedPages` and the lemmas about them. This module also holds the cache lookup `Lookup`, which raises `KeyError` on a miss.
- `StartTimeSort`: Python's stable `sorted` by `start_time_numeric`. `SortByStart` is a reference insertion sort. The lemmas prove it is the only ordering that is both sorted and stable.
- `Schedule`: `get_schedule_items`.
- `Listings`: the tag, search and related-talk listings, the listing titles, and the truncation of the arXiv results.
- `ScheduleChanges`: the add/remove status policy and the responses built from it. It also holds a stand-in for the remote preference store. The stand-in is used to state the idempotence the policy gives and what an add or a remove does to the rendered schedule.
- `AuthorSplit` and `Cards`: `get_card` and the card list built by `ScheduleHandler.get`, from `nips_api.py`.

## Model

| member | source | states |
|---|---|---|
| EventCache.LeadingPages | api.py:228-231 | The number of pages the loop accepts is at most the number of pages. Every page before it holds records. The page at that index, if it exists, is empty or failed. |
| EventCache.RequestedPages | api.py:227-234 | The pages requested are 1, 2, …, k+1 in order. Every request but the last got records. The last got an empty page or an error. No page after the first empty one is requested. |
| EventCache.BuildEventCache | api.py:221-235 | The paging loop, with the dictionary updated in place. It returns exactly `Built(source)`, or the status of the first failed page. It sends exactly the pages in `RequestedPages(source)`. The loop terminates because every page past the end of the source is empty. |
| EventCache.StorePage | api.py:232-233 | The inner loop stores each record of the page under its id, in order. The result is the fold of the records stored so far followed by this page. |
| EventCache.FoldedKeys | api.py:232-233 | Folding records into the dictionary yields exactly the ids of those records as keys. |
| EventCache.LastOccurrenceWins | api.py:232-233 | When an id occurs more than once, the dictionary holds the record from its last occurrence. |
| EventCache.CacheKeys | api.py:226-235 | After a successful build, an id is a key exactly when it occurs in some page before the first empty page. This holds in both directions. |
| EventCache.FoldedFilesById | api.py:232-233 | Storing each record under `r['id']` files every record of the dictionary under its own id. |
| EventCache.CacheFiledById | api.py:226-235 | Every cache a successful build returns files each record under its own id. This discharges the assumption of `RemovedEventIsGone` for real caches. |
| EventCache.CacheHoldsLastRecord | api.py:226-235 | After a successful build, each cached record is the last record with its id among the records received before the first empty page. |
| EventCache.Lookup | api.py:85 | Looking up a list of ids in the cache succeeds exactly when every id is a key, and then yields one record per id in order. Otherwise it fails with the first missing id, which is the `KeyError`. |
| StartTimeSort.SortByStartIsSorted | api.py:87-88 | The sorted events are non-decreasing by `start_time_numeric`. |
| StartTimeSort.SortByStartPermutes | api.py:87-88 | Sorting keeps the same events, each as many times as before (multiset equality). |
| StartTimeSort.SortByStartIsStable | api.py:87-88 | Stability: for every start time, the events with that time keep their input order. |
| StartTimeSort.SortedUnique | api.py:87-88 | Two sorted sequences that agree on the events at every start time are equal. |
| StartTimeSort.StableSortCharacterized | api.py:87-88 | A sequence is sorted and stable with respect to `s` exactly when it equals `SortByStart(s)`. This holds in both directions, so the reference sort is what Python's stable `sorted` returns. |
| StartTimeSort.SortByStartFixesSorted | api.py:87-88 | Sorting an already sorted schedule changes nothing, so sorting twice is the same as sorting once. |
| Schedule.DocumentIds | api.py:83 | Gives one id per preference, in order: the preference's `document_id`. |
| Schedule.GetScheduleItems | api.py:80-89 | Succeeds exactly when every preference id is cached, and then returns one event per preference. The result is a permutation of the looked-up events, sorted by start time, with ties in preference order. Otherwise it fails with the first uncached preference id. |
| Listings.EventsForMatches | api.py:157-162 | The mapping used by the tag (line 139), search (line 150) and related-talk (line 161) listings. It gives one cached record per match, in match order, or the first match id missing from the cache. |
| Listings.ReplaceChar | api.py:140 | `str.replace` for one character. It keeps the length and replaces exactly the matching positions. |
| Listings.TagTitle | api.py:140 | The tag title is `"Tag: "` followed by the tag with every `_` turned into a space. Its length is the tag's length plus 5, and it contains no `_`. |
| Listings.SearchTitle | api.py:151 | The search title is `"Search: "` followed by the keywords unchanged. |
| Listings.RespondWith | api.py:121-128 | `respond_with` passes the title, the listed events and the user's schedule from `get_schedule_items` to the template. It succeeds exactly when both the listed events and the schedule were found. A failed event lookup wins; otherwise a schedule miss is the `KeyError`. |
| Listings.TagListing | api.py:137-141 | The tag page shows the events of the matches under the tag title, beside the user's schedule. It succeeds exactly when every match id and every preference id is cached. A miss among the matches is reported first, then a miss among the preferences. |
| Listings.SearchListing | api.py:146-152 | The search page shows the events of the matches under `"Search: "` followed by the keywords, beside the user's schedule. It succeeds exactly when every match id and every preference id is cached. A miss among the matches is reported first, then a miss among the preferences. |
| Listings.Truncated | api.py:103 | `results[:NUM_RESULTS]` with `NUM_RESULTS` = 4. It is the prefix of length min(length, 4). |
| Listings.RelatedArxivPapers | api.py:94-104 | Succeeds exactly when the event is cached. The papers shown are the first min(n, 4) items of the recommender's answer for that event's text, where n is the answer's length. |
| ScheduleChanges.AddOutcome | api.py:187-192 | If the call went through, the result is Created. A 409 error gives AlreadyExists. Every other error status is re-raised unchanged. Each of these is an if-and-only-if. |
| ScheduleChanges.RemoveOutcome | api.py:200-205 | If the call went through, the result is Removed. A 404 error gives WasNotPresent. Every other error status is re-raised unchanged. |
| ScheduleChanges.RespondWithSchedule | api.py:175-180 | The schedule page is rendered from `get_schedule_items`: it shows exactly the items that call returns. A missing cache id shows as the `KeyError` carrying that id. |
| ScheduleChanges.AddToSchedule | api.py:185-193 | An HTTP error is re-raised exactly when its status is not 409. Otherwise the schedule is re-rendered from the preferences read afterwards. |
| ScheduleChanges.RemoveFromSchedule | api.py:198-206 | An HTTP error is re-raised exactly when its status is not 404. Otherwise the schedule is re-rendered. |
| ScheduleChanges.AddIsIdempotent | api.py:185-193 | Against a store that answers 409 for a duplicate, a second add is swallowed. It leaves the store unchanged and renders the same schedule as the first add. |
| ScheduleChanges.RemoveAbsentIsNoOp | api.py:198-206 | Against a store that answers 404 for a missing entry, removing an unscheduled event succeeds. It leaves the store unchanged and renders the unchanged schedule. |
| ScheduleChanges.AddedEventIsShown | api.py:185-193 | When every stored event and the added event are cached, the schedule rendered after an add contains the added event. |
| ScheduleChanges.RemovedEventIsGone | api.py:198-206 | Over a cache that files every event under its own id, the schedule rendered after a remove does not show the removed event. |
| AuthorSplit.Split | nips_api.py:32 | `str.split(', ')` always yields at least one piece. |
| AuthorSplit.JoinSplit | nips_api.py:32 | Joining the split pieces with `", "` gives back the original string. |
| AuthorSplit.SplitJoin | nips_api.py:32 | The converse round trip: splitting a join of one or more pieces that contain no separator gives back those pieces. |
| AuthorSplit.SplitLength | nips_api.py:32-33 | The split has one piece more than the string has occurrences of `", "`. |
| AuthorSplit.SplitPiecesHaveNoSeparator | nips_api.py:32-33 | No piece of the split contains `", "`. |
| Cards.GetCard | nips_api.py:27-34 | The card carries the document's `id` and `meta` unchanged. `authors` and `author_ids` are each split from their own string. Joining either list gives its string back, neither list is empty, and each has one entry more than its string has separators. |
| Cards.AuthorListsMayDiffer | nips_api.py:33 | The two lists are split independently, so their lengths can differ. Example: two authors and one author id. |
| Cards.ScheduleCards | nips_api.py:95-97 | Gives one card per preference, in preference order, unsorted. Card `i` is the card of the document fetched for preference `i`. |
| Cards.ScheduleCardsAppend | nips_api.py:95-97 | The cards of concatenated preference lists are the concatenated cards, so nothing reorders them. |

## Left out

- The Tornado request lifecycle is not modelled: template rendering, headers, and the cookie read/write with user creation in `prepare` (api.py:109-116, nips_api.py:39-47). These are framework I/O, and a rendered page is represented by the data passed to the template. The user id passed to the template is not part of that data, because it comes from the cookie.
- `get_argument('keywords', '')` is not modelled. `SearchListing` takes the keywords as that call returns them: defaulted to the empty string and with surrounding whitespace stripped.
- The remote `lateral.api` client and the `requests` POST to the arXiv endpoint are not modelled. Their answers are inputs: a page sequence, a preference list, matches, a reply, a `recommend` function, a `fetch` function.
- `ujson` encoding and decoding is not modelled. Documents are typed values, so a missing JSON key (a `KeyError` inside `get_card`) cannot arise in the model.
- `EventsHandler.get` is not modelled, because it uses `random.sample`, which is nondeterministic.
- `EventHandler.get` of api.py is not modelled. It fetches one document directly and renders it with its tags, schedule and related events. Only its parts are modelled: `get_related_events` through `EventsForMatches`, and the schedule through `GetScheduleItems`.
- The `EventHandler` of nips_api.py (`post`, `delete`, `_respond_schedule`) and `RootHandler` are not modelled. They forward to the remote service and echo its JSON, with no local logic and no error handling.
- `print e.request.url` in the add handler (api.py:190) and `print user_id` in `ScheduleHandler.get` (nips_api.py:92) are not modelled, because they are console output.
- The `argparse`/`__main__` bootstrap and the route tables are not modelled. They are configuration.
- The JavaScript files and test_nips_api.py are not part of this model. The test calls `build_application()` without its argument, and the route it requests does not exist.
- Errors from the remote client other than HTTP status errors are not modelled, for example connection errors. Of the HTTP status errors, only the status of the add/remove call and of the page fetches is modelled.
- ScheduleChanges.RespondWithSchedule: the HTTP errors that `get_users_preferences` (api.py:82), `get_tags_documents` (api.py:138), `get_documents` (api.py:148), `get_documents_similar` (api.py:158) and `get_document` (nips_api.py:28) can raise are not modelled. Their answers are inputs that never fail.
- `start_time_numeric` is modelled as an integer. Floating-point start times are not modelled.
- `per_page=100` is not modelled: pages may hold any number of records.
- Day-of-week bucketing of the schedule is not part of this model, because it is not in the revisions of api.py and nips_api.py modelled here.
- On a cache miss the code raises `KeyError`, modelled as a `Failure` carrying the first missing id. Silently dropping a missing event is not modelled.
- EventCache.BuildEventCache takes the upstream pages as a finite sequence. Past its end every page is empty. So an upstream that never answers with an empty page, for which the loop would not terminate, is not modelled.
- The idempotence and effect lemmas of ScheduleChanges (AddIsIdempotent, RemoveAbsentIsNoOp, AddedEventIsShown, RemovedEventIsGone) rely on a stand-in for the remote preference store. That store behaves as the handlers expect: 409 on a duplicate, 404 on a missing entry. The upstream service's real behaviour is not part of this model.
