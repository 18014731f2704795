/**
 * The like toggle on a post's `likes` array: look the user up with
 * `indexOf`, then `push` the user when absent or `splice` out the first
 * occurrence when present.
 */
module Likes {

  /** No user appears twice. */
  ghost predicate NoDuplicates(s: seq<string>) {
    forall i, j :: 0 <= i < j < |s| ==> s[i] != s[j]
  }

  /** `s` with the first occurrence of `u` removed; `s` itself when `u` does not occur. */
  function RemoveFirst(s: seq<string>, u: string): (r: seq<string>)
    ensures u !in s ==> r == s
    ensures |r| == if u in s then |s| - 1 else |s|
  {
    if s == [] then []
    else if s[0] == u then s[1..]
    else [s[0]] + RemoveFirst(s[1..], u)
  }

  /** The likes array after one toggle by user `u`. */
  function Toggled(s: seq<string>, u: string): (r: seq<string>)
    ensures u !in s ==> r == s + [u]
    ensures u in s ==> exists i :: 0 <= i < |s| && s[i] == u && u !in s[..i] && r == s[..i] + s[i + 1..]
  {
    if u in s then
      FirstOccurrenceSpliced(s, u);
      RemoveFirst(s, u)
    else s + [u]
  }

  /** Some index holds the first occurrence of a present user, and `RemoveFirst` splices it out. */
  lemma {:induction false} FirstOccurrenceSpliced(s: seq<string>, u: string)
    requires u in s
    ensures exists i :: 0 <= i < |s| && s[i] == u && u !in s[..i] && RemoveFirst(s, u) == s[..i] + s[i + 1..]
  {
    if s[0] == u {
      RemoveFirstAt(s, u, 0);
    } else {
      FirstOccurrenceSpliced(s[1..], u);
      var j :| 0 <= j < |s| - 1 && s[1..][j] == u && u !in s[1..][..j];
      assert s[..j + 1] == [s[0]] + s[1..][..j];
      RemoveFirstAt(s, u, j + 1);
    }
  }

  /** `Array.prototype.indexOf` with strict equality on strings: the first index of `u`, or -1. */
  method IndexOf(s: seq<string>, u: string) returns (index: int)
    ensures -1 <= index < |s|
    ensures index == -1 <==> u !in s
    ensures 0 <= index ==> s[index] == u && u !in s[..index]
  {
    index := 0;
    while index < |s|
      invariant 0 <= index <= |s|
      invariant u !in s[..index]
    {
      if s[index] == u {
        return;
      }
      index := index + 1;
    }
    assert s[..index] == s;
    index := -1;
  }

  /** Splicing out the first occurrence at `i` is exactly `RemoveFirst`. */
  lemma {:induction false} RemoveFirstAt(s: seq<string>, u: string, i: nat)
    requires i < |s| && s[i] == u && u !in s[..i]
    ensures RemoveFirst(s, u) == s[..i] + s[i + 1..]
  {
    if i > 0 {
      assert s[0] != u by { assert s[0] == s[..i][0]; }
      assert s[1..][..i - 1] == s[1..i];
      assert u !in s[1..][..i - 1];
      RemoveFirstAt(s[1..], u, i - 1);
      assert s[1..][i..] == s[i + 1..];
      assert [s[0]] + s[1..][..i - 1] == s[..i];
    }
  }

  /** Removing the first occurrence takes away exactly one copy of `u` and nothing else. */
  lemma {:induction false} RemoveFirstCount(s: seq<string>, u: string)
    requires u in s
    ensures multiset(RemoveFirst(s, u)) == multiset(s) - multiset{u}
    ensures |RemoveFirst(s, u)| == |s| - 1
  {
    if s[0] != u {
      RemoveFirstCount(s[1..], u);
      assert s == [s[0]] + s[1..];
    } else {
      assert s == [s[0]] + s[1..];
    }
  }

  /**
   * Removing a user never introduces anything: the result's multiset is
   * contained in the input's (a corollary of RemoveFirst's own contract and
   * RemoveFirstCount).
   */
  lemma {:induction false} RemoveFirstSubset(s: seq<string>, u: string)
    ensures multiset(RemoveFirst(s, u)) <= multiset(s)
  {
    if s != [] {
      assert s == [s[0]] + s[1..];
      if s[0] != u {
        RemoveFirstSubset(s[1..], u);
      }
    }
  }

  /** Every element left after removal was in the input. */
  lemma {:induction false} RemoveFirstMembers(s: seq<string>, u: string)
    ensures forall x :: x in RemoveFirst(s, u) ==> x in s
  {
    if s != [] && s[0] != u {
      RemoveFirstMembers(s[1..], u);
    }
  }

  /** Putting a user not yet present in front of a duplicate-free array keeps it duplicate-free. */
  lemma ConsDistinct(a: string, r: seq<string>)
    requires NoDuplicates(r) && a !in r
    ensures NoDuplicates([a] + r)
  {
    var r' := [a] + r;
    forall i, j | 0 <= i < j < |r'|
      ensures r'[i] != r'[j]
    {
      assert r'[j] == r[j - 1];
      if i > 0 { assert r'[i] == r[i - 1]; }
    }
  }

  /** On a duplicate-free array, removal keeps it duplicate-free and leaves the user out. */
  lemma {:induction false} RemoveFirstDistinct(s: seq<string>, u: string)
    requires NoDuplicates(s)
    ensures NoDuplicates(RemoveFirst(s, u)) && u !in RemoveFirst(s, u)
  {
    if s != [] {
      var t := s[1..];
      assert NoDuplicates(t) by {
        forall i, j | 0 <= i < j < |t|
          ensures t[i] != t[j]
        {
          assert t[i] == s[i + 1] && t[j] == s[j + 1];
        }
      }
      assert s[0] !in t by {
        forall j | 0 <= j < |t|
          ensures t[j] != s[0]
        {
          assert t[j] == s[j + 1];
        }
      }
      if s[0] != u {
        RemoveFirstDistinct(t, u);
        RemoveFirstMembers(t, u);
        ConsDistinct(s[0], RemoveFirst(t, u));
      }
    }
  }

  /** Removing the first occurrence of a user absent from `s` after appending it gives back `s`. */
  lemma {:induction false} RemoveFirstAppended(s: seq<string>, u: string)
    requires u !in s
    ensures RemoveFirst(s + [u], u) == s
  {
    if s != [] {
      assert (s + [u])[1..] == s[1..] + [u];
      RemoveFirstAppended(s[1..], u);
      assert s == [s[0]] + s[1..];
    }
  }

  /**
   * On a likes array without duplicates, a toggle flips the toggling user's
   * membership, leaves every other user's membership alone and keeps the
   * array free of duplicates; an absent user lands at the end.
   */
  lemma ToggleFlips(s: seq<string>, u: string)
    requires NoDuplicates(s)
    ensures u in Toggled(s, u) <==> u !in s
    ensures forall v :: v != u ==> (v in Toggled(s, u) <==> v in s)
    ensures NoDuplicates(Toggled(s, u))
    ensures u !in s ==> Toggled(s, u) == s + [u]
  {
    if u in s {
      RemoveFirstCount(s, u);
      RemoveFirstDistinct(s, u);
      forall v | v != u
        ensures v in Toggled(s, u) <==> v in s
      {
        assert v in multiset(Toggled(s, u)) <==> v in multiset(s);
      }
    } else {
      var t := s + [u];
      assert forall i :: 0 <= i < |s| ==> t[i] == s[i];
    }
  }

  /** A user who had not liked the post and toggles twice leaves the likes array as it was. */
  lemma ToggleTwiceRestores(s: seq<string>, u: string)
    requires u !in s
    ensures Toggled(Toggled(s, u), u) == s
  {
    RemoveFirstAppended(s, u);
  }

  /**
   * A user who had liked the post and toggles twice ends up at the END of a
   * duplicate-free likes array, so the pair of toggles does not restore the
   * original order unless the user was already last.
   */
  lemma ToggleTwiceMovesToEnd(s: seq<string>, u: string)
    requires NoDuplicates(s) && u in s
    ensures Toggled(Toggled(s, u), u) == RemoveFirst(s, u) + [u]
  {
    RemoveFirstDistinct(s, u);
  }

  /** A user who had liked the post and was already last gets the same array back after two toggles. */
  lemma ToggleTwiceLastRestores(s: seq<string>, u: string)
    requires NoDuplicates(s) && |s| > 0 && s[|s| - 1] == u
    ensures Toggled(Toggled(s, u), u) == s
  {
    var n := |s| - 1;
    assert u !in s[..n] by {
      forall k | 0 <= k < n
        ensures s[..n][k] != u
      {
        assert s[k] != s[n];
      }
    }
    RemoveFirstAt(s, u, n);
    ToggleTwiceMovesToEnd(s, u);
    assert s[..n] + [u] == s;
  }

  /** A concrete case of the above: `["a", "b"]` toggled twice by "a" becomes `["b", "a"]`. */
  lemma ToggleTwiceReorders()
    ensures Toggled(Toggled(["a", "b"], "a"), "a") == ["b", "a"]
  {
    assert "a" in ["a", "b"];
    assert "a" !in ["b"];
  }
}
