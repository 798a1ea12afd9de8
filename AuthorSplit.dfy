/**
 * `str.split(', ')` and `', '.join(...)` as nips_api.py uses them on the
 * `authors` and `author_ids` strings of a document's metadata. Python's split
 * scans left to right and cuts at each occurrence of the separator that does
 * not overlap an earlier cut; ", " cannot overlap itself, so these are simply
 * all its occurrences.
 */
module AuthorSplit {

  const SEPARATOR := ", "

  /** The separator starts at position `i` of `s`. */
  predicate SeparatorAt(s: string, i: int) {
    0 <= i && i + 1 < |s| && s[i] == ',' && s[i + 1] == ' '
  }

  predicate HasSeparator(s: string) {
    exists i :: 0 <= i < |s| && SeparatorAt(s, i)
  }

  /** `s.split(', ')` */
  function Split(s: string): (pieces: seq<string>)
    ensures |pieces| >= 1
  {
    if |s| < 2 then [s]
    else if SeparatorAt(s, 0) then [""] + Split(s[2..])
    else
      var rest := Split(s[1..]);
      [[s[0]] + rest[0]] + rest[1..]
  }

  /** `', '.join(pieces)` */
  function Join(pieces: seq<string>): string {
    if pieces == [] then ""
    else if |pieces| == 1 then pieces[0]
    else pieces[0] + SEPARATOR + Join(pieces[1..])
  }

  /** The number of positions of `s` at which the separator starts (`s.count(', ')`). */
  function Occurrences(s: string): nat {
    if |s| < 2 then 0 else (if SeparatorAt(s, 0) then 1 else 0) + Occurrences(s[1..])
  }

  lemma {:induction false} JoinHead(pieces: seq<string>)
    requires |pieces| >= 1
    ensures pieces[0] <= Join(pieces)
  {
  }

  /** Joining the pieces gives back the original string. */
  lemma {:induction false} JoinSplit(s: string)
    ensures Join(Split(s)) == s
  {
    if |s| >= 2 {
      if SeparatorAt(s, 0) {
        JoinSplit(s[2..]);
        assert s == ", " + s[2..];
      } else {
        var rest := Split(s[1..]);
        JoinSplit(s[1..]);
        assert s == [s[0]] + s[1..];
        if |rest| == 1 {
          assert Join(Split(s)) == [s[0]] + rest[0];
        } else {
          assert Join(rest) == rest[0] + SEPARATOR + Join(rest[1..]);
          assert Join(Split(s)) == ([s[0]] + rest[0]) + SEPARATOR + Join(rest[1..]);
        }
      }
    }
  }

  /** The first piece is a prefix of the string. */
  lemma SplitHead(s: string)
    ensures Split(s)[0] <= s
  {
    JoinSplit(s);
    JoinHead(Split(s));
  }

  /** The split yields one piece more than there are separators. */
  lemma {:induction false} SplitLength(s: string)
    ensures |Split(s)| == Occurrences(s) + 1
  {
    if |s| >= 2 {
      if SeparatorAt(s, 0) {
        SplitLength(s[2..]);
        assert !SeparatorAt(s[1..], 0);
        assert Occurrences(s[1..]) == Occurrences(s[2..]) by {
          if |s[1..]| >= 2 {
            assert s[1..][1..] == s[2..];
          }
        }
      } else {
        SplitLength(s[1..]);
      }
    }
  }

  /** No piece of a split contains the separator. */
  lemma {:induction false} SplitPiecesHaveNoSeparator(s: string)
    ensures forall k :: 0 <= k < |Split(s)| ==> !HasSeparator(Split(s)[k])
  {
    if |s| >= 2 {
      if SeparatorAt(s, 0) {
        SplitPiecesHaveNoSeparator(s[2..]);
        assert Split(s) == [""] + Split(s[2..]);
        forall k | 0 < k < |Split(s)|
          ensures !HasSeparator(Split(s)[k])
        {
          assert Split(s)[k] == Split(s[2..])[k - 1];
        }
      } else {
        var rest := Split(s[1..]);
        SplitPiecesHaveNoSeparator(s[1..]);
        SplitHead(s[1..]);
        var first := [s[0]] + rest[0];
        assert !HasSeparator(first) by {
          if HasSeparator(first) {
            var i :| 0 <= i < |first| && SeparatorAt(first, i);
            if i == 0 {
              assert first[1] == rest[0][0] == s[1];
              assert SeparatorAt(s, 0);
            } else {
              assert first[i] == rest[0][i - 1] && first[i + 1] == rest[0][i];
              assert SeparatorAt(rest[0], i - 1);
            }
            assert false;
          }
        }
        forall k | 0 < k < |Split(s)|
          ensures !HasSeparator(Split(s)[k])
        {
          assert Split(s)[k] == rest[k];
        }
      }
    }
  }

  lemma TailHasNoSeparator(p: string)
    requires p != [] && !HasSeparator(p)
    ensures !HasSeparator(p[1..])
  {
    forall i | 0 <= i < |p| - 1
      ensures !SeparatorAt(p[1..], i)
    {
      assert !SeparatorAt(p, i + 1);
    }
  }

  lemma {:induction false} SplitSingle(p: string)
    requires !HasSeparator(p)
    ensures Split(p) == [p]
  {
    if |p| >= 2 {
      assert !SeparatorAt(p, 0);
      TailHasNoSeparator(p);
      SplitSingle(p[1..]);
      assert [p[0]] + p[1..] == p;
    }
  }

  lemma {:induction false} SplitAfterPiece(p: string, t: string)
    requires !HasSeparator(p)
    ensures Split(p + SEPARATOR + t) == [p] + Split(t)
  {
    var s := p + SEPARATOR + t;
    if p == "" {
      assert SeparatorAt(s, 0);
      assert s[2..] == t;
    } else {
      assert !SeparatorAt(s, 0) by {
        if |p| >= 2 {
          assert !SeparatorAt(p, 0);
        }
      }
      TailHasNoSeparator(p);
      SplitAfterPiece(p[1..], t);
      assert s[1..] == p[1..] + SEPARATOR + t;
      assert [s[0]] + p[1..] == p;
    }
  }

  /** Splitting a join of separator-free pieces gives back the pieces. */
  lemma {:induction false} SplitJoin(pieces: seq<string>)
    requires |pieces| >= 1
    requires forall k :: 0 <= k < |pieces| ==> !HasSeparator(pieces[k])
    ensures Split(Join(pieces)) == pieces
  {
    if |pieces| == 1 {
      SplitSingle(pieces[0]);
    } else {
      SplitJoin(pieces[1..]);
      SplitAfterPiece(pieces[0], Join(pieces[1..]));
      assert pieces == [pieces[0]] + pieces[1..];
    }
  }
}
