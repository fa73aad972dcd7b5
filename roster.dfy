/**
 * Participant rosters: the ordered list of student emails an activity keeps,
 * and the two ways the store changes it (an append for `$push`, and
 * `Pull`, which deletes every occurrence of one email for `$pull`).
 */
module Roster {

  type Email = string

  /** The roster invariant: no email is enrolled twice. */
  ghost predicate NoDuplicates(s: seq<Email>) {
    forall i, j :: 0 <= i < j < |s| ==> s[i] != s[j]
  }

  /**
   * `$pull`: the roster with every occurrence of `e` deleted and the
   * remaining emails kept in their original order.
   */
  function Pull(s: seq<Email>, e: Email): (r: seq<Email>)
    ensures e !in r
    ensures forall x :: x != e ==> (x in r <==> x in s)
    ensures |r| <= |s|
  {
    if |s| == 0 then []
    else (if s[0] == e then [] else [s[0]]) + Pull(s[1..], e)
  }

  /** Pulling distributes over concatenation, so relative order is kept. */
  lemma {:induction false} PullSplits(a: seq<Email>, b: seq<Email>, e: Email)
    ensures Pull(a + b, e) == Pull(a, e) + Pull(b, e)
  {
    if |a| == 0 {
      assert a + b == b;
    } else {
      assert (a + b)[1..] == a[1..] + b;
      PullSplits(a[1..], b, e);
    }
  }

  /** Pulling an email that is not enrolled changes nothing. */
  lemma {:induction false} PullAbsent(s: seq<Email>, e: Email)
    requires e !in s
    ensures Pull(s, e) == s
  {
    if |s| > 0 {
      PullAbsent(s[1..], e);
    }
  }

  /** Pulling deletes all copies of `e` and keeps every other copy. */
  lemma {:induction false} PullCounts(s: seq<Email>, e: Email)
    ensures multiset(Pull(s, e)) == multiset(s)[e := 0]
  {
    if |s| > 0 {
      PullCounts(s[1..], e);
      assert s == [s[0]] + s[1..];
      assert multiset(s) == multiset{s[0]} + multiset(s[1..]);
    }
  }

  /** On a roster without duplicates, pulling an enrolled email deletes exactly its one position. */
  lemma PullAt(s: seq<Email>, k: nat)
    requires NoDuplicates(s)
    requires k < |s|
    ensures Pull(s, s[k]) == s[..k] + s[k + 1..]
    ensures |Pull(s, s[k])| == |s| - 1
  {
    var e, before, after := s[k], s[..k], s[k + 1..];
    assert e !in before by {
      forall j | 0 <= j < |before| ensures before[j] != e {
        assert before[j] == s[j];
      }
    }
    assert e !in after by {
      forall j | 0 <= j < |after| ensures after[j] != e {
        assert after[j] == s[k + 1 + j];
      }
    }
    assert s == (before + [e]) + after;
    PullSplits(before + [e], after, e);
    PullUndoesPush(before, e);
    PullAbsent(after, e);
  }

  /** Pulling never introduces a duplicate. */
  lemma {:induction false} PullKeepsDistinct(s: seq<Email>, e: Email)
    requires NoDuplicates(s)
    ensures NoDuplicates(Pull(s, e))
  {
    if |s| > 0 {
      assert NoDuplicates(s[1..]) by {
        forall i, j | 0 <= i < j < |s[1..]| ensures s[1..][i] != s[1..][j] {
          assert s[1..][i] == s[i + 1] && s[1..][j] == s[j + 1];
        }
      }
      PullKeepsDistinct(s[1..], e);
      assert s[0] !in s[1..] by {
        forall j | 0 <= j < |s[1..]| ensures s[1..][j] != s[0] {
          assert s[1..][j] == s[j + 1];
        }
      }
    }
  }

  /** Appending an email that is not enrolled keeps the roster free of duplicates. */
  lemma PushKeepsDistinct(s: seq<Email>, e: Email)
    requires NoDuplicates(s)
    requires e !in s
    ensures NoDuplicates(s + [e])
  {
    forall i, j | 0 <= i < j < |s + [e]| ensures (s + [e])[i] != (s + [e])[j] {
      if j == |s| {
        assert (s + [e])[i] == s[i];
      }
    }
  }

  /** A `$pull` of the email a `$push` just appended restores the roster exactly. */
  lemma PullUndoesPush(s: seq<Email>, e: Email)
    requires e !in s
    ensures Pull(s + [e], e) == s
  {
    PullSplits(s, [e], e);
    PullAbsent(s, e);
    assert Pull([e], e) == [];
  }
}
