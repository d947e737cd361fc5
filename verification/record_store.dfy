/** The record store: the ordered sequence of user records, and the two
    whole-array rewrites the handlers perform on it, delete-by-id
    (`data.filter`) and replace-by-id (`data.map`). */
module RecordStore {
  import opened Optional
  import opened Seqs
  import opened Users

  /** Some record in `xs` carries `id`. */
  predicate Stored(xs: seq<User>, id: Id) {
    exists i :: 0 <= i < |xs| && xs[i].id == Some(id)
  }

  /** Every stored record carries an id. */
  predicate Identified(xs: seq<User>) {
    forall i :: 0 <= i < |xs| ==> xs[i].id.Some?
  }

  /** No two positions hold records with the same id. */
  predicate UniqueIds(xs: seq<User>) {
    forall i, j :: 0 <= i < j < |xs| ==> xs[i].id != xs[j].id
  }

  /** `data.filter((user) => user.id !== id)`. */
  function RemoveById(xs: seq<User>, id: Id): (r: seq<User>)
    ensures !Stored(r, id)
    ensures forall u :: u in r <==> u in xs && u.id != Some(id)
    ensures forall u: User :: u.id != Some(id) ==> multiset(r)[u] == multiset(xs)[u]
    ensures IsSubsequence(r, xs)
  {
    var r := Filter(xs, (u: User) => u.id != Some(id));
    assert forall i :: 0 <= i < |r| ==> r[i] in r;
    r
  }

  /** `data.map((user) => (user.id === target ? d : user))`. */
  function ReplaceById(xs: seq<User>, target: Id, d: User): (r: seq<User>)
    ensures |r| == |xs|
    ensures forall i :: 0 <= i < |xs| && xs[i].id == Some(target) ==> r[i] == d
    ensures forall i :: 0 <= i < |xs| && xs[i].id != Some(target) ==> r[i] == xs[i]
  {
    Map(xs, (u: User) => if u.id == Some(target) then d else u)
  }

  /** Deleting an id nobody carries leaves the store as it was. */
  lemma RemoveAbsent(xs: seq<User>, id: Id)
    requires !Stored(xs, id)
    ensures RemoveById(xs, id) == xs
  {
    FilterKeepsAll(xs, (u: User) => u.id != Some(id));
  }

  /** Deleting works record by record from the head. */
  lemma RemoveUnfold(xs: seq<User>, id: Id)
    requires xs != []
    ensures RemoveById(xs, id) ==
      (if xs[0].id == Some(id) then [] else [xs[0]]) + RemoveById(xs[1..], id)
  {
  }

  /** Dropping the head keeps ids unique. */
  lemma UniqueTail(xs: seq<User>)
    requires xs != [] && UniqueIds(xs)
    ensures UniqueIds(xs[1..])
  {
    forall i, j | 0 <= i < j < |xs| - 1
      ensures xs[1..][i].id != xs[1..][j].id
    {
      assert xs[1..][i] == xs[i + 1] && xs[1..][j] == xs[j + 1];
    }
  }

  /** With unique ids, the id at the head is stored nowhere else. */
  lemma HeadIdNotInTail(xs: seq<User>, id: Id)
    requires xs != [] && UniqueIds(xs) && xs[0].id == Some(id)
    ensures !Stored(xs[1..], id)
  {
    forall i | 0 <= i < |xs| - 1
      ensures xs[1..][i].id != Some(id)
    {
      assert xs[1..][i] == xs[i + 1];
    }
  }

  /** A stored id not at the head is stored in the tail. */
  lemma StoredInTail(xs: seq<User>, id: Id)
    requires Stored(xs, id) && xs[0].id != Some(id)
    ensures Stored(xs[1..], id)
  {
    var k :| 0 <= k < |xs| && xs[k].id == Some(id);
    assert xs[1..][k - 1] == xs[k];
  }

  /** With unique ids, deleting a stored id removes exactly one record. */
  lemma {:induction false} RemoveStoredDropsOne(xs: seq<User>, id: Id)
    requires UniqueIds(xs)
    requires Stored(xs, id)
    ensures |RemoveById(xs, id)| == |xs| - 1
    decreases |xs|
  {
    RemoveUnfold(xs, id);
    if xs[0].id == Some(id) {
      HeadIdNotInTail(xs, id);
      RemoveAbsent(xs[1..], id);
    } else {
      StoredInTail(xs, id);
      UniqueTail(xs);
      RemoveStoredDropsOne(xs[1..], id);
    }
  }

  /** Deleting keeps ids unique and present: what is left is a selection of
      what was there. */
  lemma RemovePreservesIds(xs: seq<User>, id: Id)
    requires Identified(xs) && UniqueIds(xs)
    ensures Identified(RemoveById(xs, id)) && UniqueIds(RemoveById(xs, id))
  {
    var r := RemoveById(xs, id);
    SubsequencePreservesIds(r, xs);
  }

  /** A subsequence of a store with present, unique ids has present, unique
      ids. */
  lemma {:induction false} SubsequencePreservesIds(a: seq<User>, b: seq<User>)
    requires IsSubsequence(a, b)
    requires Identified(b) && UniqueIds(b)
    ensures Identified(a) && UniqueIds(a)
    decreases |b|
  {
    if a != [] {
      assert b != [];
      assert Identified(b[1..]) && UniqueIds(b[1..]) by {
        forall i | 0 <= i < |b[1..]|
          ensures b[1..][i] == b[i + 1]
        {
        }
      }
      if a[0] == b[0] && IsSubsequence(a[1..], b[1..]) {
        SubsequencePreservesIds(a[1..], b[1..]);
        SubsequenceMembers(a[1..], b[1..]);
        forall j | 0 < j < |a|
          ensures a[0].id != a[j].id
        {
          assert a[j] == a[1..][j - 1];
          assert a[j] in b[1..];
          var k :| 0 <= k < |b[1..]| && b[1..][k] == a[j];
          assert b[k + 1] == a[j];
        }
      } else {
        SubsequencePreservesIds(a, b[1..]);
      }
    }
  }

  /** Every element of a subsequence is an element of the whole. */
  lemma {:induction false} SubsequenceMembers<T>(a: seq<T>, b: seq<T>)
    requires IsSubsequence(a, b)
    ensures forall x :: x in a ==> x in b
    decreases |b|
  {
    if a != [] {
      if a[0] == b[0] && IsSubsequence(a[1..], b[1..]) {
        SubsequenceMembers(a[1..], b[1..]);
        assert a == [a[0]] + a[1..];
        assert b == [b[0]] + b[1..];
      } else {
        SubsequenceMembers(a, b[1..]);
        assert b == [b[0]] + b[1..];
      }
    }
  }

  /** Replacing by a record that carries the target id leaves the id at
      every position as it was. */
  lemma ReplaceKeepsIds(xs: seq<User>, target: Id, d: User)
    requires d.id == Some(target)
    ensures forall i :: 0 <= i < |xs| ==> ReplaceById(xs, target, d)[i].id == xs[i].id
    ensures Identified(xs) ==> Identified(ReplaceById(xs, target, d))
    ensures UniqueIds(xs) ==> UniqueIds(ReplaceById(xs, target, d))
  {
  }

  /** Replacing an id nobody carries leaves the store as it was. */
  lemma ReplaceAbsent(xs: seq<User>, target: Id, d: User)
    requires !Stored(xs, target)
    ensures ReplaceById(xs, target, d) == xs
  {
  }

  /** Writing back the record a position already holds changes nothing when
      ids are unique. */
  lemma ReplaceWithStored(xs: seq<User>, k: int)
    requires UniqueIds(xs)
    requires 0 <= k < |xs| && xs[k].id.Some?
    ensures ReplaceById(xs, xs[k].id.value, xs[k]) == xs
  {
  }

  /** Replacing twice with the same record is replacing once. */
  lemma ReplaceIdempotent(xs: seq<User>, target: Id, d: User)
    requires d.id == Some(target)
    ensures ReplaceById(ReplaceById(xs, target, d), target, d) == ReplaceById(xs, target, d)
  {
  }

  /** Deleting the id of a record just put at the head, with an id no other
      record carries, gives back the store it was put on. */
  lemma RemoveAfterPrepend(xs: seq<User>, u: User, id: Id)
    requires u.id == Some(id)
    requires !Stored(xs, id)
    ensures RemoveById([u] + xs, id) == xs
  {
    var ys := [u] + xs;
    assert ys[1..] == xs;
    RemoveAbsent(xs, id);
    RemoveUnfold(ys, id);
  }
}
