/** `find().sort({ date: -1 })` on the posts collection: newest first. */
module Ordering {
  import opened Collection
  import opened Records

  /** Every post is at least as recent as the ones after it. */
  ghost predicate NewestFirst(s: seq<Entry<Post>>) {
    forall i, j :: 0 <= i < j < |s| ==> s[i].doc.date >= s[j].doc.date
  }

  /** Inserts `e` into a newest-first sequence ahead of every post that is not more recent. */
  function InsertByDate(e: Entry<Post>, s: seq<Entry<Post>>): (r: seq<Entry<Post>>)
    ensures |r| == |s| + 1
    ensures multiset(r) == multiset(s) + multiset{e}
  {
    if s == [] || e.doc.date >= s[0].doc.date then [e] + s
    else
      assert s == [s[0]] + s[1..];
      [s[0]] + InsertByDate(e, s[1..])
  }

  /**
   * The posts ordered by date, newest first. Posts with equal dates keep
   * their natural order (the store leaves the order of ties open; this is
   * one admissible choice).
   */
  function SortByDateDesc(c: seq<Entry<Post>>): (r: seq<Entry<Post>>)
    ensures |r| == |c|
    ensures multiset(r) == multiset(c)
  {
    if c == [] then []
    else
      assert c == [c[0]] + c[1..];
      InsertByDate(c[0], SortByDateDesc(c[1..]))
  }

  /** Inserting into a newest-first sequence keeps it newest first; the head is the new post or the old head. */
  lemma {:induction false} InsertByDateSorted(e: Entry<Post>, s: seq<Entry<Post>>)
    requires NewestFirst(s)
    ensures NewestFirst(InsertByDate(e, s))
    ensures InsertByDate(e, s) != []
    ensures InsertByDate(e, s)[0] == e || (s != [] && InsertByDate(e, s)[0] == s[0])
  {
    if s != [] && e.doc.date < s[0].doc.date {
      var t := s[1..];
      InsertByDateSorted(e, t);
      var r := InsertByDate(e, t);
      var out := [s[0]] + r;
      assert s[0].doc.date >= r[0].doc.date;
      forall i, j | 0 <= i < j < |out|
        ensures out[i].doc.date >= out[j].doc.date
      {
        if i > 0 {
          assert out[i] == r[i - 1] && out[j] == r[j - 1];
        } else {
          assert out[j] == r[j - 1];
        }
      }
    }
  }

  /** Listing returns every stored post exactly once, newest first. */
  lemma {:induction false} SortByDateDescCorrect(c: seq<Entry<Post>>)
    ensures NewestFirst(SortByDateDesc(c))
    ensures multiset(SortByDateDesc(c)) == multiset(c)
  {
    if c != [] {
      SortByDateDescCorrect(c[1..]);
      InsertByDateSorted(c[0], SortByDateDesc(c[1..]));
      assert c == [c[0]] + c[1..];
    }
  }

  /** A post strictly more recent than every other one is listed first. */
  lemma NewestListedFirst(c: seq<Entry<Post>>, e: Entry<Post>)
    requires forall i :: 0 <= i < |c| ==> c[i].doc.date < e.doc.date
    ensures SortByDateDesc(c + [e])[0] == e
  {
    var s := SortByDateDesc(c + [e]);
    SortByDateDescCorrect(c + [e]);
    assert e in multiset(s);
    var k :| 0 <= k < |s| && s[k] == e;
    assert s[0].doc.date >= e.doc.date;
    assert s[0] in multiset(c + [e]);
  }
}
