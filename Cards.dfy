/**
 * The earlier revision, nips_api.py: `APIHandler.get_card` turns one upstream
 * document into a "card" for the templates, splitting the comma-space
 * separated author names and author ids into lists, and `ScheduleHandler.get`
 * builds one card per preference of the user, in preference order. Fetching
 * and decoding a document (`get_document` and `ujson.loads`) is the input
 * `fetch`.
 */
module Cards {
  import opened Documents
  import opened AuthorSplit

  /** `dict(id=..., meta=..., authors=..., author_ids=...)` */
  datatype Card = Card(id: EventId, meta: Meta, authors: seq<string>, authorIds: seq<string>)

  /**
   * `get_card`: the document's id and meta unchanged; `authors` and
   * `author_ids` each the split of their own string, so that joining them
   * gives the strings back, neither list is empty, each has one entry more
   * than its string has separators, and no entry contains the separator.
   */
  function GetCard(document: Event): (card: Card)
    ensures card.id == document.id && card.meta == document.meta
    ensures Join(card.authors) == document.meta.authors
    ensures Join(card.authorIds) == document.meta.authorIds
    ensures |card.authors| == Occurrences(document.meta.authors) + 1
    ensures |card.authorIds| == Occurrences(document.meta.authorIds) + 1
    ensures forall k :: 0 <= k < |card.authors| ==> !HasSeparator(card.authors[k])
    ensures forall k :: 0 <= k < |card.authorIds| ==> !HasSeparator(card.authorIds[k])
  {
    var meta := document.meta;
    JoinSplit(meta.authors);
    JoinSplit(meta.authorIds);
    SplitLength(meta.authors);
    SplitLength(meta.authorIds);
    SplitPiecesHaveNoSeparator(meta.authors);
    SplitPiecesHaveNoSeparator(meta.authorIds);
    Card(document.id, meta, Split(meta.authors), Split(meta.authorIds))
  }

  /**
   * The two lists are split independently: nothing makes their lengths
   * agree, as a document with two authors and one author id shows.
   */
  lemma AuthorListsMayDiffer()
    ensures var card := GetCard(Event("1", Meta(0, "A, B", "7", map[]), ""));
            |card.authors| == 2 && |card.authorIds| == 1
  {
    var meta := Meta(0, "A, B", "7", map[]);
    assert Occurrences(meta.authors) == 1 by {
      assert SeparatorAt(meta.authors, 1);
      assert !SeparatorAt(meta.authors, 0) && !SeparatorAt(meta.authors[1..][1..], 0);
    }
    assert Occurrences(meta.authorIds) == 0;
  }

  /**
   * `ScheduleHandler.get`: `[self.get_card(pref['document_id']) for pref in prefs]`,
   * one card per preference, in preference order, unsorted.
   */
  function ScheduleCards(prefs: seq<Preference>, fetch: EventId -> Event): (cards: seq<Card>)
    ensures |cards| == |prefs|
    ensures forall i :: 0 <= i < |prefs| ==> cards[i] == GetCard(fetch(prefs[i].documentId))
  {
    if prefs == [] then [] else [GetCard(fetch(prefs[0].documentId))] + ScheduleCards(prefs[1..], fetch)
  }

  /** The cards follow the preferences: the cards of a concatenation are the concatenated cards. */
  lemma ScheduleCardsAppend(p1: seq<Preference>, p2: seq<Preference>, fetch: EventId -> Event)
    ensures ScheduleCards(p1 + p2, fetch) == ScheduleCards(p1, fetch) + ScheduleCards(p2, fetch)
  {
    var whole, left, right := ScheduleCards(p1 + p2, fetch), ScheduleCards(p1, fetch), ScheduleCards(p2, fetch);
    forall i | 0 <= i < |whole|
      ensures whole[i] == (left + right)[i]
    {
      if i < |p1| {
        assert (p1 + p2)[i] == p1[i];
      } else {
        assert (p1 + p2)[i] == p2[i - |p1|];
      }
    }
  }
}
