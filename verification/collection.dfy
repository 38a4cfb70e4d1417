/**
  The in-memory user collection of src/App.jsx: an ordered sequence of user
  records with the three operations the cards and the add form drive.

  The add operation takes its new id from the LAST record (last id + 1, or 1
  when empty), not from the largest id. The lemmas below show that strictly
  increasing ids are kept by update, delete and add; under that invariant
  ids are unique and "last + 1" is "largest + 1".
 */
module Collection {
  import opened Users

  /** The ids along the collection, in order. */
  function Ids(users: seq<User>): (ids: seq<int>)
    ensures |ids| == |users|
    ensures forall i :: 0 <= i < |users| ==> ids[i] == users[i].id
  {
    if |users| == 0 then [] else [users[0].id] + Ids(users[1..])
  }

  /** Ids strictly increase along the collection (true of the fetched page). */
  predicate IdsIncreasing(users: seq<User>) {
    forall i, j :: 0 <= i < j < |users| ==> users[i].id < users[j].id
  }

  /** No two records share an id. */
  predicate UniqueIds(users: seq<User>) {
    forall i, j :: 0 <= i < |users| && 0 <= j < |users| && i != j ==> users[i].id != users[j].id
  }

  predicate HasId(users: seq<User>, id: int) {
    exists i :: 0 <= i < |users| && users[i].id == id
  }

  /** Number of records carrying `id`. */
  function Count(users: seq<User>, id: int): (n: nat)
    ensures n <= |users|
    ensures n == 0 <==> !HasId(users, id)
  {
    if |users| == 0 then 0
    else (if users[0].id == id then 1 else 0) + Count(users[1..], id)
  }

  lemma IncreasingImpliesUnique(users: seq<User>)
    requires IdsIncreasing(users)
    ensures UniqueIds(users)
  {
    forall i, j | 0 <= i < |users| && 0 <= j < |users| && i != j
      ensures users[i].id != users[j].id
    {
      if i < j { assert users[i].id < users[j].id; } else { assert users[j].id < users[i].id; }
    }
  }

  // ---------------------------------------------------------------------------
  // handleUpdate: `users.map(user => user.id === updated.id ? updated : user)`
  // ---------------------------------------------------------------------------

  /** Replaces every record whose id matches `updated`'s, keeping length and order. */
  function Update(users: seq<User>, updated: User): (r: seq<User>)
    ensures |r| == |users|
    ensures forall i :: 0 <= i < |users| && users[i].id == updated.id ==> r[i] == updated
    ensures forall i :: 0 <= i < |users| && users[i].id != updated.id ==> r[i] == users[i]
  {
    if |users| == 0 then []
    else [if users[0].id == updated.id then updated else users[0]] + Update(users[1..], updated)
  }

  /** An update whose id is absent is a silent no-op. */
  lemma UpdateAbsentIsIdentity(users: seq<User>, updated: User)
    requires !HasId(users, updated.id)
    ensures Update(users, updated) == users
  {
    var r := Update(users, updated);
    forall i | 0 <= i < |users| ensures r[i] == users[i] {
      assert users[i].id != updated.id;
    }
  }

  /** With unique ids, an update of a present id replaces exactly that one position. */
  lemma UpdateReplacesOne(users: seq<User>, updated: User, k: int)
    requires UniqueIds(users)
    requires 0 <= k < |users| && users[k].id == updated.id
    ensures Update(users, updated) == users[k := updated]
  {
    var r := Update(users, updated);
    forall i | 0 <= i < |users| ensures r[i] == users[k := updated][i] {
      if i != k { assert users[i].id != users[k].id; }
    }
  }

  /** Update never changes the id at any position, whether or not the id is present. */
  lemma UpdateKeepsIds(users: seq<User>, updated: User)
    ensures Ids(Update(users, updated)) == Ids(users)
  {
    var r := Update(users, updated);
    assert |Ids(r)| == |Ids(users)|;
    forall i | 0 <= i < |users| ensures Ids(r)[i] == Ids(users)[i] {
      assert r[i].id == users[i].id;
    }
  }

  lemma UpdatePreservesIncreasing(users: seq<User>, updated: User)
    requires IdsIncreasing(users)
    ensures IdsIncreasing(Update(users, updated))
  {
    var r := Update(users, updated);
    UpdateKeepsIds(users, updated);
    forall i, j | 0 <= i < j < |r| ensures r[i].id < r[j].id {
      assert Ids(r)[i] == Ids(users)[i] && Ids(r)[j] == Ids(users)[j];
    }
  }

  // ---------------------------------------------------------------------------
  // handleDelete: `users.filter(user => user.id !== id)`
  // ---------------------------------------------------------------------------

  /** Drops every record whose id is `id`, keeping the others in order. */
  function Delete(users: seq<User>, id: int): (r: seq<User>)
    ensures forall x :: x in r <==> x in users && x.id != id
    ensures |r| == |users| - Count(users, id)
  {
    if |users| == 0 then []
    else if users[0].id == id then Delete(users[1..], id)
    else [users[0]] + Delete(users[1..], id)
  }

  /** Deleting from a concatenation deletes from each part: together with
      `DeleteSingle` this fixes the result, relative order included. */
  lemma {:induction false} DeleteConcat(a: seq<User>, b: seq<User>, id: int)
    ensures Delete(a + b, id) == Delete(a, id) + Delete(b, id)
  {
    if |a| == 0 {
      assert a + b == b;
    } else {
      assert (a + b)[0] == a[0];
      assert (a + b)[1..] == a[1..] + b;
      DeleteConcat(a[1..], b, id);
      if a[0].id != id {
        calc {
          Delete(a + b, id);
          [a[0]] + Delete(a[1..] + b, id);
          [a[0]] + (Delete(a[1..], id) + Delete(b, id));
          ([a[0]] + Delete(a[1..], id)) + Delete(b, id);
        }
      }
    }
  }

  lemma DeleteSingle(x: User, id: int)
    ensures Delete([x], id) == if x.id == id then [] else [x]
  {
    assert [x][1..] == [];
  }

  /** Deleting an absent id is a silent no-op. */
  lemma {:induction false} DeleteAbsentIsIdentity(users: seq<User>, id: int)
    requires !HasId(users, id)
    ensures Delete(users, id) == users
  {
    if |users| > 0 {
      assert !HasId(users[1..], id) by {
        forall i | 0 <= i < |users[1..]| ensures users[1..][i].id != id {
          assert users[1..][i] == users[i + 1];
        }
      }
      DeleteAbsentIsIdentity(users[1..], id);
    }
  }

  /** With unique ids, a record carries a given id at most once. */
  lemma {:induction false} UniqueCountAtMostOne(users: seq<User>, id: int)
    requires UniqueIds(users)
    ensures Count(users, id) <= 1
  {
    if |users| > 0 {
      var tail := users[1..];
      assert UniqueIds(tail) by {
        forall i, j | 0 <= i < |tail| && 0 <= j < |tail| && i != j
          ensures tail[i].id != tail[j].id
        {
          assert tail[i] == users[i + 1] && tail[j] == users[j + 1];
        }
      }
      UniqueCountAtMostOne(tail, id);
      if users[0].id == id {
        assert !HasId(tail, id) by {
          forall i | 0 <= i < |tail| ensures tail[i].id != id {
            assert tail[i] == users[i + 1];
          }
        }
      }
    }
  }

  /** With unique ids, deleting removes exactly one record when the id is
      present and none when it is absent. */
  lemma DeleteUniqueLength(users: seq<User>, id: int)
    requires UniqueIds(users)
    ensures HasId(users, id) ==> |Delete(users, id)| == |users| - 1
    ensures !HasId(users, id) ==> |Delete(users, id)| == |users|
  {
    UniqueCountAtMostOne(users, id);
  }

  lemma {:induction false} DeletePreservesIncreasing(users: seq<User>, id: int)
    requires IdsIncreasing(users)
    ensures IdsIncreasing(Delete(users, id))
  {
    if |users| > 0 {
      var tail := users[1..];
      assert IdsIncreasing(tail) by {
        forall i, j | 0 <= i < j < |tail| ensures tail[i].id < tail[j].id {
          assert tail[i] == users[i + 1] && tail[j] == users[j + 1];
        }
      }
      DeletePreservesIncreasing(tail, id);
      var rest := Delete(tail, id);
      if users[0].id != id {
        forall x | x in rest ensures users[0].id < x.id {
          assert x in tail;
          var k :| 0 <= k < |tail| && tail[k] == x;
          assert tail[k] == users[k + 1];
        }
        PrependIncreasing(users[0], rest);
      }
    }
  }

  /** A record below every id of an increasing collection can lead it. */
  lemma PrependIncreasing(x: User, rest: seq<User>)
    requires IdsIncreasing(rest)
    requires forall y :: y in rest ==> x.id < y.id
    ensures IdsIncreasing([x] + rest)
  {
    var r := [x] + rest;
    forall i, j | 0 <= i < j < |r| ensures r[i].id < r[j].id {
      assert r[j] == rest[j - 1];
      if i > 0 { assert r[i] == rest[i - 1]; }
    }
  }

  // ---------------------------------------------------------------------------
  // handleAddUser: `id = last id + 1` (or 1), then `[...users, { ...newUser, id }]`
  // ---------------------------------------------------------------------------

  /** The id the add form assigns: the last record's id plus one, or 1. */
  function NextId(users: seq<User>): (id: int)
    ensures |users| == 0 ==> id == 1
    ensures |users| > 0 ==> id == users[|users| - 1].id + 1
  {
    if |users| > 0 then users[|users| - 1].id + 1 else 1
  }

  /** Appends the draft as a new record with id `NextId(users)`. */
  function Add(users: seq<User>, draft: Profile): (r: seq<User>)
    ensures |r| == |users| + 1
    ensures r[..|users|] == users
    ensures r[|users|].profile == draft
    ensures |users| == 0 ==> r[0].id == 1
    ensures |users| > 0 ==> r[|users|].id == users[|users| - 1].id + 1
  {
    users + [User(NextId(users), draft)]
  }

  /** The largest id in a non-empty collection. */
  function MaxId(users: seq<User>): (m: int)
    requires |users| > 0
    ensures HasId(users, m)
    ensures forall i :: 0 <= i < |users| ==> users[i].id <= m
  {
    if |users| == 1 then users[0].id
    else
      var rest := MaxId(users[1..]);
      assert forall i :: 1 <= i < |users| ==> users[i] == users[1..][i - 1];
      if users[0].id >= rest then users[0].id else rest
  }

  /** The "largest id + 1, or 1" policy, as a reference for `NextId`. */
  function MaxPlusOne(users: seq<User>): (id: int)
    ensures forall i :: 0 <= i < |users| ==> users[i].id < id
  {
    if |users| == 0 then 1 else MaxId(users) + 1
  }

  /** Under increasing ids, "last + 1" is "largest + 1" and is not yet in use. */
  lemma NextIdIsMaxPlusOne(users: seq<User>)
    requires IdsIncreasing(users)
    ensures NextId(users) == MaxPlusOne(users)
    ensures !HasId(users, NextId(users))
  {
    if |users| > 0 {
      var m := MaxId(users);
      var k :| 0 <= k < |users| && users[k].id == m;
      assert users[k].id <= users[|users| - 1].id;
    }
  }

  lemma AddPreservesIncreasing(users: seq<User>, draft: Profile)
    requires IdsIncreasing(users)
    ensures IdsIncreasing(Add(users, draft))
  {
    var r := Add(users, draft);
    forall i, j | 0 <= i < j < |r| ensures r[i].id < r[j].id {
      if j == |users| {
        assert r[i] == users[i];
        if i < |users| - 1 { assert users[i].id < users[|users| - 1].id; }
      } else {
        assert r[i] == users[i] && r[j] == users[j];
      }
    }
  }

  /** Every id is positive, so no record has the falsy id 0. */
  predicate IdsPositive(users: seq<User>) {
    forall i :: 0 <= i < |users| ==> users[i].id > 0
  }

  lemma UpdateKeepsPositive(users: seq<User>, updated: User)
    requires IdsPositive(users)
    ensures IdsPositive(Update(users, updated))
  {
    UpdateKeepsIds(users, updated);
    var r := Update(users, updated);
    forall i | 0 <= i < |r| ensures r[i].id > 0 {
      assert Ids(r)[i] == Ids(users)[i];
    }
  }

  lemma DeleteKeepsPositive(users: seq<User>, id: int)
    requires IdsPositive(users)
    ensures IdsPositive(Delete(users, id))
  {
    var r := Delete(users, id);
    forall i | 0 <= i < |r| ensures r[i].id > 0 {
      assert r[i] in users;
      var j :| 0 <= j < |users| && users[j] == r[i];
    }
  }

  /** "Last + 1" over positive ids, or 1 for an empty list, is positive. */
  lemma AddKeepsPositive(users: seq<User>, draft: Profile)
    requires IdsPositive(users)
    ensures IdsPositive(Add(users, draft))
  {
    var r := Add(users, draft);
    forall i | 0 <= i < |r| ensures r[i].id > 0 {
      if i < |users| {
        assert r[i] == r[..|users|][i];
      }
    }
  }

  /** Without the invariant, "last + 1" can repeat an id in use. */
  lemma NextIdCanCollide()
    ensures var users := [User(2, Blank()), User(1, Blank())];
            !UniqueIds(Add(users, Blank()))
  {
    var users := [User(2, Blank()), User(1, Blank())];
    var r := Add(users, Blank());
    assert r[0].id == r[2].id;
  }

  /** Adds each draft in turn. */
  function AddAll(users: seq<User>, drafts: seq<Profile>): (r: seq<User>)
    ensures |r| == |users| + |drafts|
  {
    if |drafts| == 0 then users
    else Add(AddAll(users, drafts[..|drafts| - 1]), drafts[|drafts| - 1])
  }

  /** Starting from an empty collection, n adds assign the ids 1, 2, ..., n. */
  lemma {:induction false} AddAllFromEmpty(drafts: seq<Profile>)
    ensures forall i :: 0 <= i < |drafts| ==> AddAll([], drafts)[i].id == i + 1
  {
    if |drafts| > 0 {
      var front := drafts[..|drafts| - 1];
      AddAllFromEmpty(front);
      var prev := AddAll([], front);
      var r := Add(prev, drafts[|drafts| - 1]);
      forall i | 0 <= i < |drafts| ensures r[i].id == i + 1 {
        if i < |prev| { assert r[i] == prev[i]; }
      }
    }
  }
}
