/**
 * The typed in-memory users repository: an array of `User` records kept in insertion
 * order, read by `findAll`, `findById` and `getAllUsers`, changed by `create`, `update`,
 * `update2` and `remove`. The id generator `uuidv4()` is replaced by an id the caller passes.
 */
module TypedRepository {
  import opened Wrappers
  import opened Users
  import JsArray

  /** What `getAllUsers` returns: the stored array itself, or one projected object per record. */
  datatype Listing = Whole(users: seq<User>) | Picked(rows: seq<map<Field, Value>>)

  /** The callback `(item) => item.id === id` of `find` and `findIndex`. */
  function IdIs(id: string): User -> bool {
    (u: User) => u.id == id
  }

  /** The callback `(item) => item.id !== id` of `filter`. */
  function IdIsNot(id: string): User -> bool {
    (u: User) => u.id != id
  }

  function Ids(users: seq<User>): set<string> {
    set u | u in users :: u.id
  }

  /** The repository's invariant: no two stored records share an id. */
  ghost predicate DistinctIds(users: seq<User>) {
    forall i, j :: 0 <= i < j < |users| ==> users[i].id != users[j].id
  }

  /** The inner callback of `getAllUsers`: `{ ...picked, [currentParam]: user[currentParam] }`. */
  function PickStep(u: User): (map<Field, Value>, Field) -> map<Field, Value> {
    (picked: map<Field, Value>, key: Field) => picked[key := Get(u, key)]
  }

  /** The object the inner `reduce` builds for one record. */
  function Pick(u: User, params: seq<Field>): (m: map<Field, Value>)
    ensures m.Keys == set key | key in params
    ensures forall key :: key in m ==> m[key] == Get(u, key)
  {
    PickSpec(u, params);
    JsArray.Reduce(params, PickStep(u), map[])
  }

  lemma {:induction false} PickSpec(u: User, params: seq<Field>)
    ensures var m := JsArray.Reduce(params, PickStep(u), map[]);
      && m.Keys == (set key | key in params)
      && forall key :: key in m ==> m[key] == Get(u, key)
    decreases |params|
  {
    if |params| > 0 {
      var init := params[..|params| - 1];
      PickSpec(u, init);
      assert params == init + [params[|params| - 1]];
    }
  }

  /** The outer callback of `getAllUsers`: `[...acc, picked]`. */
  function RowStep(params: seq<Field>): (seq<map<Field, Value>>, User) -> seq<map<Field, Value>> {
    (acc: seq<map<Field, Value>>, u: User) => acc + [Pick(u, params)]
  }

  /** The outer `reduce` of `getAllUsers`: one projected object per record, in store order. */
  function Project(users: seq<User>, params: seq<Field>): (rows: seq<map<Field, Value>>)
    ensures |rows| == |users|
    ensures forall i :: 0 <= i < |users| ==> rows[i] == Pick(users[i], params)
  {
    ProjectSpec(users, params);
    JsArray.Reduce(users, RowStep(params), [])
  }

  lemma {:induction false} ProjectSpec(users: seq<User>, params: seq<Field>)
    ensures var rows := JsArray.Reduce(users, RowStep(params), []);
      && |rows| == |users|
      && forall i :: 0 <= i < |users| ==> rows[i] == Pick(users[i], params)
    decreases |users|
  {
    if |users| > 0 {
      ProjectSpec(users[..|users| - 1], params);
    }
  }

  class UsersRepository {
    var users: seq<User>

    ghost predicate Valid()
      reads this
    {
      DistinctIds(users)
    }

    /** A new repository is empty. */
    constructor ()
      ensures users == [] && Valid()
    {
      users := [];
    }

    /** `findAll`: the stored records, in insertion order, as they are. */
    function FindAll(): (r: seq<User>)
      reads this
      ensures |r| == |users| && forall i :: 0 <= i < |r| ==> r[i] == users[i]
    {
      users
    }

    /** `findById`: the first record with the id, or `None` (`undefined`) when none has it. */
    function FindById(id: string): (r: Option<User>)
      reads this
      ensures r.None? <==> id !in Ids(users)
      ensures r.Some? ==> r.value.id == id && (exists k :: 0 <= k < |users| && users[k] == r.value &&
                                                 forall j :: 0 <= j < k ==> users[j].id != id)
    {
      var r := JsArray.Find(users, IdIs(id));
      assert r.None? ==> forall u :: u in users ==> u.id != id;
      r
    }

    /**
     * `getAllUsers(desiredParams)`: the store itself for an empty list; otherwise one object
     * per record, in order, whose keys are exactly the requested names, each read from the record.
     */
    function GetAllUsers(desiredParams: seq<Field>): (r: Listing)
      reads this
      ensures desiredParams == [] ==> r == Whole(FindAll())
      ensures desiredParams != [] ==> r.Picked? && |r.rows| == |users|
      ensures desiredParams != [] ==> forall i :: 0 <= i < |users| ==>
        && r.rows[i].Keys == (set key | key in desiredParams)
        && forall key :: key in r.rows[i] ==> r.rows[i][key] == Get(users[i], key)
    {
      if desiredParams == [] then Whole(users) else Picked(Project(users, desiredParams))
    }

    /** `create`: appends the input with the new id and returns that record. */
    method Create(userToAdd: NewUser, newId: string) returns (user: User)
      modifies this
      ensures user.id == newId && Strip(user) == userToAdd
      ensures users == old(users) + [user]
      ensures old(Valid()) && newId !in Ids(old(users)) ==> Valid()
      ensures newId !in Ids(old(users)) ==> FindById(newId) == Some(user)
    {
      user := WithId(userToAdd, newId);
      users := users + [user];
      if newId !in Ids(old(users)) {
        FindAfterAppend(old(users), user);
      }
    }

    /**
     * `update`: throws when no record has the id; otherwise replaces the first record with
     * the id by its merge with `updateData` and returns the merged record.
     */
    method Update(id: string, updateData: UserPatch) returns (r: Result<User, Error>)
      modifies this
      ensures id !in Ids(old(users)) ==>
        && r == Failure(Error("[UserRepository.update] User with id " + id + " not found"))
        && users == old(users)
      ensures id in Ids(old(users)) ==>
        var k := JsArray.FindIndex(old(users), IdIs(id));
        && r == Success(Merge(old(users)[k], updateData))
        && users == old(users)[k := r.value]
      ensures old(Valid()) ==> Valid()
      ensures r.Success? ==> FindById(id) == Some(r.value)
      ensures updateData == NO_CHANGES ==> users == old(users)
    {
      var userToUpdate := JsArray.Find(users, IdIs(id));
      if userToUpdate.None? {
        return Failure(Error("[UserRepository.update] User with id " + id + " not found"));
      }
      var userUpdated := Merge(userToUpdate.value, updateData);
      var userToUpdateIndex := JsArray.FindIndex(users, IdIs(id));
      MergeAtFirstMatch(users, id, updateData);
      MergeNoChanges(users[userToUpdateIndex]);
      users := users[userToUpdateIndex := userUpdated];
      return Success(userUpdated);
    }

    /** `update2`: the same merge as `update`, but answers `None` (`null`) for an unknown id. */
    method Update2(id: string, updateData: UserPatch) returns (r: Option<User>)
      modifies this
      ensures id !in Ids(old(users)) ==> r == None && users == old(users)
      ensures id in Ids(old(users)) ==>
        var k := JsArray.FindIndex(old(users), IdIs(id));
        && r == Some(Merge(old(users)[k], updateData))
        && users == old(users)[k := r.value]
      ensures old(Valid()) ==> Valid()
      ensures r.Some? ==> FindById(id) == r
      ensures updateData == NO_CHANGES ==> users == old(users)
    {
      var index := JsArray.FindIndex(users, IdIs(id));
      if index == -1 {
        return None;
      }
      MergeAtFirstMatch(users, id, updateData);
      MergeNoChanges(users[index]);
      users := users[index := Merge(users[index], updateData)];
      return Some(users[index]);
    }

    /**
     * `remove`: throws when no record has the id; otherwise drops every record with the id,
     * keeping the others in order, and returns the first record that had it.
     */
    method Remove(id: string) returns (r: Result<User, Error>)
      modifies this
      ensures id !in Ids(old(users)) ==>
        && r == Failure(Error("User with id " + id + " not found"))
        && users == old(users)
      ensures id in Ids(old(users)) ==>
        && r == Success(old(users)[JsArray.FindIndex(old(users), IdIs(id))])
        && users == JsArray.Filter(old(users), IdIsNot(id))
      ensures id !in Ids(users) && FindById(id) == None
      ensures forall other :: other != id ==> FindById(other) == old(FindById(other))
      ensures old(Valid()) ==> Valid()
      ensures old(Valid()) && r.Success? ==>
        var k := JsArray.FindIndex(old(users), IdIs(id));
        users == old(users)[..k] + old(users)[k + 1..] && |users| == |old(users)| - 1
    {
      var userToRemove := FindById(id);
      if userToRemove.None? {
        return Failure(Error("User with id " + id + " not found"));
      }
      RemoveSpec(users, id);
      if DistinctIds(users) {
        RemoveUnique(users, id);
      }
      users := JsArray.Filter(users, IdIsNot(id));
      return Success(userToRemove.value);
    }
  }

  /**
   * A client session: create Alice and Bob with the distinct ids `x` and `y`, list the store,
   * remove Alice and list it again.
   */
  method AliceAndBob(x: string, y: string) returns (before: seq<User>, removed: Result<User, Error>, after: seq<User>)
    requires x != y
    ensures |before| == 2 && before[0].id == x && before[1].id == y
    ensures before[0].name == "Alice" && before[0].role == AdminRole
    ensures before[1].name == "Bob" && before[1].role == UserRole
    ensures removed == Success(before[0])
    ensures after == [before[1]]
  {
    var repo := new UsersRepository();
    var alice := repo.Create(NewUser("Alice", "alice@email.com", true, AdminRole, None, None), x);
    var bob := repo.Create(NewUser("Bob", "bob@email.com", false, UserRole, None, None), y);
    before := repo.FindAll();
    removed := repo.Remove(x);
    after := repo.FindAll();
  }

  /** A record whose id is new to the store is what a lookup of that id finds after it is appended. */
  lemma FindAfterAppend(users: seq<User>, u: User)
    requires u.id !in Ids(users)
    ensures JsArray.Find(users + [u], IdIs(u.id)) == Some(u)
    ensures DistinctIds(users) ==> DistinctIds(users + [u])
  {
    var s := users + [u];
    assert forall i :: 0 <= i < |users| ==> s[i] == users[i] && s[i] in users;
    JsArray.FindAfterAppend(users, IdIs(u.id), u);
  }

  /**
   * Replacing the first record with `id` by its merge keeps it the first record with `id`,
   * so a lookup of `id` then finds the merged record; the set of ids is the same, so
   * distinct ids stay distinct.
   */
  lemma MergeAtFirstMatch(users: seq<User>, id: string, p: UserPatch)
    requires id in Ids(users)
    ensures var k := JsArray.FindIndex(users, IdIs(id));
      && 0 <= k
      && JsArray.Find(users[k := Merge(users[k], p)], IdIs(id)) == Some(Merge(users[k], p))
      && (DistinctIds(users) ==> DistinctIds(users[k := Merge(users[k], p)]))
      && Ids(users[k := Merge(users[k], p)]) == Ids(users)
  {
    var k := JsArray.FindIndex(users, IdIs(id));
    var s := users[k := Merge(users[k], p)];
    assert forall i :: 0 <= i < |s| ==> s[i].id == users[i].id;
    JsArray.FindAfterReplace(users, IdIs(id), Merge(users[k], p));
    forall x | x in Ids(s) ensures x in Ids(users) {
      var i :| 0 <= i < |s| && s[i].id == x;
      assert users[i] in users;
    }
    forall x | x in Ids(users) ensures x in Ids(s) {
      var i :| 0 <= i < |users| && users[i].id == x;
      assert s[i] in s;
    }
  }

  /**
   * After filtering out `id`, no record has `id`, every other id finds what it found before,
   * and distinct ids stay distinct.
   */
  lemma RemoveSpec(users: seq<User>, id: string)
    ensures var s := JsArray.Filter(users, IdIsNot(id));
      && id !in Ids(s)
      && (forall other :: other != id ==> JsArray.Find(s, IdIs(other)) == JsArray.Find(users, IdIs(other)))
      && (DistinctIds(users) ==> DistinctIds(s))
  {
    var s := JsArray.Filter(users, IdIsNot(id));
    forall other | other != id
      ensures JsArray.Find(s, IdIs(other)) == JsArray.Find(users, IdIs(other))
    {
      JsArray.FindThroughFilter(users, IdIsNot(id), IdIs(other));
    }
    if DistinctIds(users) {
      FilterKeepsDistinct(users, id);
    }
  }

  /** With distinct ids, filtering out a stored id removes exactly the one record that has it. */
  lemma RemoveUnique(users: seq<User>, id: string)
    requires DistinctIds(users) && id in Ids(users)
    ensures var k := JsArray.FindIndex(users, IdIs(id));
      && 0 <= k
      && JsArray.Filter(users, IdIsNot(id)) == users[..k] + users[k + 1..]
  {
    var k := JsArray.FindIndex(users, IdIs(id));
    var keep := IdIsNot(id);
    var before, after := users[..k], users[k + 1..];
    forall i | 0 <= i < |before| ensures keep(before[i]) {
      assert before[i] == users[i];
    }
    forall i | 0 <= i < |after| ensures keep(after[i]) {
      assert after[i] == users[k + 1 + i];
    }
    assert users == before + [users[k]] + after;
    JsArray.FilterDropsOne(before, users[k], after, keep);
  }

  lemma {:induction false} FilterKeepsDistinct(users: seq<User>, id: string)
    requires DistinctIds(users)
    ensures DistinctIds(JsArray.Filter(users, IdIsNot(id)))
    decreases |users|
  {
    if |users| > 0 {
      var rest := JsArray.Filter(users[1..], IdIsNot(id));
      assert DistinctIds(users[1..]);
      FilterKeepsDistinct(users[1..], id);
      forall i | 0 <= i < |rest| ensures rest[i].id != users[0].id {
        var j :| 0 <= j < |users[1..]| && users[1..][j] == rest[i];
        assert users[j + 1] == rest[i];
      }
    }
  }
}
