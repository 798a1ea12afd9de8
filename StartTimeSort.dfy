/**
 * `sorted(events, key=lambda event: event['meta']['start_time_numeric'])`.
 * Python's `sorted` is a stable sort, so the result is determined: it is the
 * unique sequence that is non-decreasing by start time and lists the events
 * of every start time in their original order. `SortByStart` is a reference
 * definition by insertion, and the lemmas below show it is exactly that
 * sequence.
 */
module StartTimeSort {
  import opened Documents

  /** Non-decreasing by `start_time_numeric`. */
  predicate SortedByStart(s: seq<Event>) {
    forall i, j :: 0 <= i < j < |s| ==> StartTime(s[i]) <= StartTime(s[j])
  }

  /** The events of `s` that start at time `t`, in their order in `s`. */
  function AtTime(s: seq<Event>, t: int): seq<Event> {
    if s == [] then [] else (if StartTime(s[0]) == t then [s[0]] else []) + AtTime(s[1..], t)
  }

  /** Puts `e` in front of the first event of `s` that does not start before it. */
  function Insert(e: Event, s: seq<Event>): (r: seq<Event>)
    ensures multiset(r) == multiset(s) + multiset{e}
  {
    if s == [] || StartTime(e) <= StartTime(s[0]) then [e] + s
    else
      assert s == [s[0]] + s[1..];
      [s[0]] + Insert(e, s[1..])
  }

  /** Stable sort by start time. */
  function SortByStart(s: seq<Event>): seq<Event> {
    if s == [] then [] else Insert(s[0], SortByStart(s[1..]))
  }

  /** Every event of `s` starts at `t` or later. */
  predicate StartsNoEarlier(s: seq<Event>, t: int) {
    forall i :: 0 <= i < |s| ==> t <= StartTime(s[i])
  }

  lemma {:induction false} InsertKeepsBound(e: Event, s: seq<Event>, t: int)
    requires StartsNoEarlier(s, t) && t <= StartTime(e)
    ensures StartsNoEarlier(Insert(e, s), t)
  {
    if s != [] && StartTime(e) > StartTime(s[0]) {
      InsertKeepsBound(e, s[1..], t);
    }
  }

  lemma SortedCons(x: Event, s: seq<Event>)
    requires SortedByStart(s) && StartsNoEarlier(s, StartTime(x))
    ensures SortedByStart([x] + s)
  {
    var r := [x] + s;
    forall i, j | 0 <= i < j < |r|
      ensures StartTime(r[i]) <= StartTime(r[j])
    {
      assert r[j] == s[j - 1];
      if i > 0 {
        assert r[i] == s[i - 1];
      }
    }
  }

  lemma {:induction false} InsertSorted(e: Event, s: seq<Event>)
    requires SortedByStart(s)
    ensures SortedByStart(Insert(e, s))
  {
    if s == [] || StartTime(e) <= StartTime(s[0]) {
      SortedCons(e, s);
    } else {
      InsertSorted(e, s[1..]);
      InsertKeepsBound(e, s[1..], StartTime(s[0]));
      SortedCons(s[0], Insert(e, s[1..]));
    }
  }

  lemma {:induction false} InsertAtTime(e: Event, s: seq<Event>, t: int)
    ensures AtTime(Insert(e, s), t) == (if StartTime(e) == t then [e] else []) + AtTime(s, t)
  {
    if s == [] || StartTime(e) <= StartTime(s[0]) {
      assert ([e] + s)[1..] == s;
    } else {
      InsertAtTime(e, s[1..], t);
      assert ([s[0]] + Insert(e, s[1..]))[1..] == Insert(e, s[1..]);
    }
  }

  /** The schedule comes out non-decreasing by start time. */
  lemma {:induction false} SortByStartIsSorted(s: seq<Event>)
    ensures SortedByStart(SortByStart(s))
  {
    if s != [] {
      SortByStartIsSorted(s[1..]);
      InsertSorted(s[0], SortByStart(s[1..]));
    }
  }

  /** The schedule holds the same events, each as often, as its input. */
  lemma {:induction false} SortByStartPermutes(s: seq<Event>)
    ensures multiset(SortByStart(s)) == multiset(s)
  {
    if s != [] {
      SortByStartPermutes(s[1..]);
      assert s == [s[0]] + s[1..];
    }
  }

  /** Stability: events with equal start times keep their input order. */
  lemma {:induction false} SortByStartIsStable(s: seq<Event>, t: int)
    ensures AtTime(SortByStart(s), t) == AtTime(s, t)
  {
    if s != [] {
      SortByStartIsStable(s[1..], t);
      InsertAtTime(s[0], SortByStart(s[1..]), t);
    }
  }

  lemma {:induction false} AtTimeOfMember(s: seq<Event>, i: nat)
    requires i < |s|
    ensures AtTime(s, StartTime(s[i])) != []
  {
    if i > 0 {
      AtTimeOfMember(s[1..], i - 1);
    }
  }

  lemma {:induction false} AtTimeMember(s: seq<Event>, t: int, x: Event)
    requires x in AtTime(s, t)
    ensures x in s && StartTime(x) == t
  {
    if StartTime(s[0]) != t || x != s[0] {
      AtTimeMember(s[1..], t, x);
    }
  }

  lemma HeadsAgree(a: seq<Event>, b: seq<Event>)
    requires SortedByStart(a) && SortedByStart(b) && a != [] && b != []
    requires forall t :: AtTime(a, t) == AtTime(b, t)
    ensures a[0] == b[0]
  {
    var ta, tb := StartTime(a[0]), StartTime(b[0]);
    AtTimeOfMember(a, 0);
    AtTimeOfMember(b, 0);
    assert AtTime(b, ta) == AtTime(a, ta);
    assert AtTime(a, tb) == AtTime(b, tb);
    var x := AtTime(b, ta)[0];
    var y := AtTime(a, tb)[0];
    AtTimeMember(b, ta, x);
    AtTimeMember(a, tb, y);
    assert tb <= ta by {
      var k :| 0 <= k < |b| && b[k] == x;
    }
    assert ta <= tb by {
      var k :| 0 <= k < |a| && a[k] == y;
    }
    assert AtTime(a, ta)[0] == a[0];
    assert AtTime(b, ta)[0] == b[0];
  }

  lemma TailsAgree(a: seq<Event>, b: seq<Event>, t: int)
    requires a != [] && b != [] && a[0] == b[0]
    requires AtTime(a, t) == AtTime(b, t)
    ensures AtTime(a[1..], t) == AtTime(b[1..], t)
  {
    var restA, restB := AtTime(a[1..], t), AtTime(b[1..], t);
    if t == StartTime(a[0]) {
      assert AtTime(a, t) == [a[0]] + restA;
      assert AtTime(b, t) == [a[0]] + restB;
      assert ([a[0]] + restA)[1..] == restA;
      assert ([a[0]] + restB)[1..] == restB;
    } else {
      assert AtTime(a, t) == restA;
      assert AtTime(b, t) == restB;
    }
  }

  /** Two sorted sequences that agree at every start time are equal. */
  lemma {:induction false} SortedUnique(a: seq<Event>, b: seq<Event>)
    requires SortedByStart(a) && SortedByStart(b)
    requires forall t :: AtTime(a, t) == AtTime(b, t)
    ensures a == b
  {
    if a == [] || b == [] {
      if a != [] {
        AtTimeOfMember(a, 0);
        assert false;
      } else if b != [] {
        AtTimeOfMember(b, 0);
        assert false;
      }
    } else {
      HeadsAgree(a, b);
      forall t
        ensures AtTime(a[1..], t) == AtTime(b[1..], t)
      {
        TailsAgree(a, b, t);
      }
      SortedUnique(a[1..], b[1..]);
      assert a == [a[0]] + a[1..] && b == [b[0]] + b[1..];
    }
  }

  /** What Python's stable `sorted` promises of `r` as the sorted form of `s`. */
  ghost predicate IsStableSortOf(r: seq<Event>, s: seq<Event>) {
    SortedByStart(r) && forall t :: AtTime(r, t) == AtTime(s, t)
  }

  /**
   * The result of a stable sort by start time is exactly `SortByStart`: a
   * sequence is sorted by start time and keeps the order at each start time
   * if and only if it is `SortByStart(s)`.
   */
  lemma StableSortCharacterized(s: seq<Event>, r: seq<Event>)
    ensures IsStableSortOf(r, s) <==> r == SortByStart(s)
  {
    var sorted := SortByStart(s);
    SortByStartIsSorted(s);
    forall t
      ensures AtTime(sorted, t) == AtTime(s, t)
    {
      SortByStartIsStable(s, t);
    }
    assert IsStableSortOf(sorted, s);
    if IsStableSortOf(r, s) {
      forall t
        ensures AtTime(r, t) == AtTime(sorted, t)
      {
        assert AtTime(r, t) == AtTime(s, t);
      }
      SortedUnique(r, sorted);
    }
  }

  /** Sorting a schedule that is already in order changes nothing; so sorting twice is sorting once. */
  lemma SortByStartFixesSorted(s: seq<Event>)
    requires SortedByStart(s)
    ensures SortByStart(s) == s
  {
    StableSortCharacterized(s, s);
  }
}
