/** Keeping only the recent entries of a list of instants. */
module Window {
  import opened Basics

  /** The entries later than the cutoff, in order. */
  function After(s: seq<Time>, cutoff: Time): (r: seq<Time>)
    ensures |r| <= |s|
    decreases |s|
  {
    if s == [] then []
    else
      var front := After(s[..|s| - 1], cutoff);
      if s[|s| - 1] > cutoff then front + [s[|s| - 1]] else front
  }

  lemma {:induction false} AfterConcat(a: seq<Time>, b: seq<Time>, cutoff: Time)
    ensures After(a + b, cutoff) == After(a, cutoff) + After(b, cutoff)
    decreases |b|
  {
    if b == [] {
      assert a + b == a;
    } else {
      assert (a + b)[..|a + b| - 1] == a + b[..|b| - 1];
      AfterConcat(a, b[..|b| - 1], cutoff);
    }
  }

  /** Pruning early loses nothing for a later cutoff. */
  lemma {:induction false} AfterAfter(s: seq<Time>, early: Time, late: Time)
    requires early <= late
    ensures After(After(s, early), late) == After(s, late)
    decreases |s|
  {
    if s != [] {
      var front, x := s[..|s| - 1], s[|s| - 1];
      AfterAfter(front, early, late);
      if x > early {
        AfterConcat(After(front, early), [x], late);
        assert [x][..0] == [];
      }
    }
  }

  lemma AfterNone(cutoff: Time)
    ensures After([], cutoff) == []
  {}

  lemma AfterOne(x: Time, cutoff: Time)
    ensures After([x], cutoff) == if x > cutoff then [x] else []
  {
    assert [x][..0] == [];
  }

  lemma AddAfter(s: seq<Time>, news: seq<Time>, early: Time, late: Time)
    requires early <= late
    ensures After(After(s, early) + news, late) == After(s + news, late)
  {
    AfterConcat(After(s, early), news, late);
    AfterAfter(s, early, late);
    AfterConcat(s, news, late);
  }

  predicate Sorted(s: seq<Time>) {
    forall i, j :: 0 <= i < j < |s| ==> s[i] <= s[j]
  }

  /** In a sorted list whose k-th entry from the end is recent, k entries are. */
  lemma {:induction false} RecentTail(s: seq<Time>, k: nat, cutoff: Time)
    requires Sorted(s) && k <= |s| && (k > 0 ==> s[|s| - k] > cutoff)
    ensures |After(s, cutoff)| >= k
    decreases |s|
  {
    if k > 0 {
      RecentTail(s[..|s| - 1], k - 1, cutoff);
    }
  }

  method Prune(s: seq<Time>, cutoff: Time) returns (kept: seq<Time>)
    ensures kept == After(s, cutoff)
  {
    kept := [];
    for k := 0 to |s|
      invariant kept == After(s[..k], cutoff)
    {
      assert s[..k + 1][..k] == s[..k];
      if s[k] > cutoff {
        kept := kept + [s[k]];
      }
    }
    assert s[..|s|] == s;
  }
}
