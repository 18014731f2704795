/**
 * A document collection in its natural (insertion) order, keyed by a
 * store-assigned identifier. The three operations the handlers use are
 * `findOne({_id})`, `updateOne({_id}, ...)` and `deleteOne({_id})`; each acts
 * on the first document whose identifier matches.
 */
module Collection {
  import opened Values

  /** A database identifier (an ObjectId), issued by the store. */
  type Id = nat

  datatype Entry<T> = Entry(id: Id, doc: T)

  /** No two documents share an identifier. */
  ghost predicate UniqueIds<T>(c: seq<Entry<T>>) {
    forall i, j :: 0 <= i < j < |c| ==> c[i].id != c[j].id
  }

  /** Every identifier is below `bound`, so `bound` is still unused. */
  ghost predicate IdsBelow<T>(c: seq<Entry<T>>, bound: nat) {
    forall i :: 0 <= i < |c| ==> c[i].id < bound
  }

  ghost predicate Contains<T>(c: seq<Entry<T>>, id: Id) {
    exists i :: 0 <= i < |c| && c[i].id == id
  }

  /** The position of the first document with identifier `id`. */
  function Position<T>(c: seq<Entry<T>>, id: Id): (r: Option<nat>)
    ensures r.Some? ==> r.value < |c| && c[r.value].id == id
    ensures r.Some? ==> forall i :: 0 <= i < r.value ==> c[i].id != id
    ensures r.None? <==> !Contains(c, id)
  {
    if |c| == 0 then None
    else if c[0].id == id then Some(0)
    else match Position(c[1..], id)
      case None => None
      case Some(k) => Some(k + 1)
  }

  /** `findOne({_id: id})`. */
  function Lookup<T>(c: seq<Entry<T>>, id: Id): (r: Option<T>)
    ensures r.Some? <==> Contains(c, id)
    ensures r.Some? ==> exists i :: 0 <= i < |c| && c[i] == Entry(id, r.value) && forall k :: 0 <= k < i ==> c[k].id != id
  {
    match Position(c, id)
    case None => None
    case Some(k) => Some(c[k].doc)
  }

  /** `updateOne({_id: id}, ...)`: the first document with that identifier becomes `d`; no match, no change. */
  function Replace<T>(c: seq<Entry<T>>, id: Id, d: T): (r: seq<Entry<T>>)
    ensures |r| == |c|
    ensures forall i :: 0 <= i < |c| ==> r[i].id == c[i].id && (r[i] == c[i] || r[i] == Entry(id, d))
    ensures !Contains(c, id) ==> r == c
    ensures Contains(c, id) ==> Entry(id, d) in r
  {
    match Position(c, id)
    case None => c
    case Some(k) => c[k := Entry(id, d)]
  }

  /** `deleteOne({_id: id})`: the first document with that identifier is removed; no match, no change. */
  function Delete<T>(c: seq<Entry<T>>, id: Id): (r: seq<Entry<T>>)
    ensures !Contains(c, id) ==> r == c
    ensures Contains(c, id) ==> |r| == |c| - 1
    ensures forall e :: e in r ==> e in c
  {
    match Position(c, id)
    case None => c
    case Some(k) => c[..k] + c[k + 1..]
  }

  /** Two collections with the same identifiers at the same places locate every identifier alike. */
  lemma SamePositions<T>(a: seq<Entry<T>>, b: seq<Entry<T>>, j: Id)
    requires |a| == |b|
    requires forall i :: 0 <= i < |a| ==> a[i].id == b[i].id
    ensures Position(a, j) == Position(b, j)
  {
  }

  /**
   * Updating the document at `id` makes `id` find the new document, keeps the
   * length and every identifier, and leaves every other identifier finding
   * what it found before.
   */
  lemma ReplaceOnlyTouches<T>(c: seq<Entry<T>>, id: Id, d: T)
    requires Contains(c, id)
    ensures |Replace(c, id, d)| == |c|
    ensures forall i :: 0 <= i < |c| ==> Replace(c, id, d)[i].id == c[i].id
    ensures Lookup(Replace(c, id, d), id) == Some(d)
    ensures forall j :: j != id ==> Lookup(Replace(c, id, d), j) == Lookup(c, j)
  {
    var c' := Replace(c, id, d);
    var k := Position(c, id).value;
    assert c' == c[k := Entry(id, d)];
    forall j
      ensures Position(c', j) == Position(c, j)
    {
      SamePositions(c', c, j);
    }
    assert Position(c', id) == Some(k);
  }

  /** Removing position `k` shifts every later document down by one place. */
  lemma RemoveAt<T>(c: seq<Entry<T>>, k: nat)
    requires k < |c|
    ensures |c[..k] + c[k + 1..]| == |c| - 1
    ensures forall i :: 0 <= i < k ==> (c[..k] + c[k + 1..])[i] == c[i]
    ensures forall i :: k < i < |c| ==> (c[..k] + c[k + 1..])[i - 1] == c[i]
  {
  }

  /**
   * Deleting a present identifier from a collection with unique identifiers
   * removes exactly that document: the rest keep their relative order, the
   * identifier no longer resolves, and every other identifier resolves as before.
   */
  lemma DeletePresent<T>(c: seq<Entry<T>>, id: Id)
    requires UniqueIds(c)
    requires Contains(c, id)
    ensures exists k :: 0 <= k < |c| && c[k].id == id && Delete(c, id) == c[..k] + c[k + 1..]
    ensures |Delete(c, id)| == |c| - 1
    ensures UniqueIds(Delete(c, id))
    ensures Lookup(Delete(c, id), id) == None
    ensures forall j :: j != id ==> Lookup(Delete(c, id), j) == Lookup(c, j)
  {
    var k := Position(c, id).value;
    var c' := Delete(c, id);
    assert c' == c[..k] + c[k + 1..];
    RemoveAt(c, k);
    forall i | 0 <= i < |c'|
      ensures c'[i].id != id
    {
      if i >= k { assert c[k].id != c[i + 1].id; }
    }
    assert !Contains(c', id);
    forall j | j != id
      ensures Lookup(c', j) == Lookup(c, j)
    {
      DeleteOther(c, k, j);
    }
  }

  /** After removing position `k`, an identifier other than the one there resolves to the same document. */
  lemma DeleteOther<T>(c: seq<Entry<T>>, k: nat, j: Id)
    requires k < |c| && c[k].id != j
    ensures Lookup(c[..k] + c[k + 1..], j) == Lookup(c, j)
  {
    var c' := c[..k] + c[k + 1..];
    RemoveAt(c, k);
    match Position(c, j)
    case None =>
    case Some(m) =>
      if m < k {
        assert c'[m] == c[m];
        assert Position(c', j) == Some(m);
      } else {
        assert c'[m - 1] == c[m];
        assert Position(c', j) == Some(m - 1);
      }
  }

  /** Deletion keeps identifiers unique and below any bound they were below. */
  lemma DeleteKeepsKeys<T>(c: seq<Entry<T>>, id: Id, bound: nat)
    requires UniqueIds(c) && IdsBelow(c, bound)
    ensures UniqueIds(Delete(c, id)) && IdsBelow(Delete(c, id), bound)
  {
    if Contains(c, id) {
      DeletePresent(c, id);
      var k :| 0 <= k < |c| && c[k].id == id && Delete(c, id) == c[..k] + c[k + 1..];
      assert forall i :: 0 <= i < |Delete(c, id)| ==> Delete(c, id)[i] == if i < k then c[i] else c[i + 1];
    }
  }

  /** Appending a document under a fresh identifier keeps the collection well keyed and makes it resolvable. */
  lemma AppendFresh<T>(c: seq<Entry<T>>, id: Id, d: T)
    requires UniqueIds(c) && IdsBelow(c, id)
    ensures UniqueIds(c + [Entry(id, d)]) && IdsBelow(c + [Entry(id, d)], id + 1)
    ensures Lookup(c + [Entry(id, d)], id) == Some(d)
    ensures forall j :: j != id ==> Lookup(c + [Entry(id, d)], j) == Lookup(c, j)
  {
    var c' := c + [Entry(id, d)];
    assert !Contains(c, id);
    assert c'[|c|] == Entry(id, d);
    assert Position(c', id) == Some(|c|);
    forall j | j != id
      ensures Lookup(c', j) == Lookup(c, j)
    {
      match Position(c, j)
      case None =>
        assert !Contains(c', j);
      case Some(m) =>
        assert c'[m] == c[m];
        assert Position(c', j) == Some(m);
    }
  }
}
