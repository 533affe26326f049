/** The writing half of src/database.rs: an in-memory store holding the users and
    runs tables, whose methods are the INSERT, UPDATE and DELETE statements and the
    add_run_wrapper composite, and what they promise. */
module Database {
  import opened Wrappers
  import opened Models
  import opened Queries

  /** What the schema and the store's counters guarantee of the two tables. Every
      id below the counter of its sequence, every timestamp before the clock, and
      every run pointing at a user (the runs.user_id foreign key). */
  ghost predicate TablesValid(users: seq<User>, runs: seq<Run>, nextUserId: int, nextRunId: int, clock: int) {
    && KeyUnique(users)
    && UserIdsUnique(users)
    && RunIdsUnique(runs)
    && (forall i :: 0 <= i < |users| ==> users[i].id < nextUserId)
    && (forall i :: 0 <= i < |runs| ==> runs[i].id < nextRunId && runs[i].runDatetime < clock)
    && (forall i :: 0 <= i < |runs| ==> UserExists(users, runs[i].userId))
  }

  /** Some user has id `userId`: the foreign key of runs.user_id is met. */
  predicate UserExists(users: seq<User>, userId: int) {
    exists u :: u in users && u.id == userId
  }

  // ---------------------------------------------------------------------------
  // The runs table after UPDATE and DELETE
  // ---------------------------------------------------------------------------

  /** `UPDATE runs SET distance = $1 WHERE id = $2`. */
  function WithDistance(runs: seq<Run>, runId: int, distance: real): (r: seq<Run>)
    ensures |r| == |runs|
    ensures forall i :: 0 <= i < |r| ==>
      r[i].id == runs[i].id && r[i].runDatetime == runs[i].runDatetime && r[i].userId == runs[i].userId
    ensures forall i :: 0 <= i < |r| ==>
      r[i].distance == if runs[i].id == runId then distance else runs[i].distance
  {
    if runs == [] then []
    else
      [if runs[0].id == runId then runs[0].(distance := distance) else runs[0]]
        + WithDistance(runs[1..], runId, distance)
  }

  /** Updating an id that no run has leaves the table as it was. */
  lemma {:induction false} WithDistanceUnknown(runs: seq<Run>, runId: int, distance: real)
    requires forall x :: x in runs ==> x.id != runId
    ensures WithDistance(runs, runId, distance) == runs
  {
    if runs != [] {
      assert runs[0] in runs;
      WithDistanceUnknown(runs[1..], runId, distance);
    }
  }

  /** Updating the id of run `k` gives run `k` the new distance and changes no other
      run, because run ids are unique. */
  lemma WithDistanceKnown(runs: seq<Run>, runId: int, distance: real, k: nat)
    requires RunIdsUnique(runs) && k < |runs| && runs[k].id == runId
    ensures WithDistance(runs, runId, distance)[k] == runs[k].(distance := distance)
    ensures forall i :: 0 <= i < |runs| && i != k ==> WithDistance(runs, runId, distance)[i] == runs[i]
  {
    var r := WithDistance(runs, runId, distance);
    forall i | 0 <= i < |runs| && i != k ensures r[i] == runs[i] {
      assert runs[i].id != runId;
    }
  }

  /** `DELETE FROM runs WHERE id = $1`. */
  function WithoutRun(runs: seq<Run>, runId: int): (r: seq<Run>)
    ensures forall x :: x in r <==> x in runs && x.id != runId
    ensures multiset(r) <= multiset(runs)
  {
    if runs == [] then []
    else
      assert runs == [runs[0]] + runs[1..];
      (if runs[0].id == runId then [] else [runs[0]]) + WithoutRun(runs[1..], runId)
  }

  /** Deleting an id that no run has leaves the table as it was. */
  lemma {:induction false} WithoutRunUnknown(runs: seq<Run>, runId: int)
    requires forall x :: x in runs ==> x.id != runId
    ensures WithoutRun(runs, runId) == runs
  {
    if runs != [] {
      assert runs[0] in runs;
      WithoutRunUnknown(runs[1..], runId);
      assert runs == [runs[0]] + runs[1..];
    }
  }

  /** Deleting the id of run `k` removes exactly that run, because run ids are unique. */
  lemma {:induction false} WithoutRunKnown(runs: seq<Run>, runId: int, k: nat)
    requires RunIdsUnique(runs) && k < |runs| && runs[k].id == runId
    ensures multiset(WithoutRun(runs, runId)) == multiset(runs) - multiset{runs[k]}
    ensures |WithoutRun(runs, runId)| == |runs| - 1
  {
    assert runs == [runs[0]] + runs[1..];
    if k == 0 {
      forall x | x in runs[1..] ensures x.id != runId {
        var j :| 0 <= j < |runs[1..]| && runs[1..][j] == x;
        assert runs[j + 1] == x;
      }
      WithoutRunUnknown(runs[1..], runId);
    } else {
      assert runs[0].id != runId;
      RunIdsUniqueTail(runs);
      WithoutRunKnown(runs[1..], runId, k - 1);
    }
  }

  lemma RunIdsUniqueTail(runs: seq<Run>)
    requires RunIdsUnique(runs) && runs != []
    ensures RunIdsUnique(runs[1..])
  {
    forall i, j | 0 <= i < |runs[1..]| && 0 <= j < |runs[1..]| && runs[1..][i].id == runs[1..][j].id
      ensures i == j
    {
      assert runs[i + 1].id == runs[j + 1].id;
    }
  }

  /** Deleting keeps run ids unique. */
  lemma {:induction false} WithoutRunIdsUnique(runs: seq<Run>, runId: int)
    requires RunIdsUnique(runs)
    ensures RunIdsUnique(WithoutRun(runs, runId))
  {
    if runs != [] {
      RunIdsUniqueTail(runs);
      WithoutRunIdsUnique(runs[1..], runId);
      var tail := WithoutRun(runs[1..], runId);
      var r := (if runs[0].id == runId then [] else [runs[0]]) + tail;
      forall j | 0 <= j < |tail| ensures tail[j].id != runs[0].id {
        assert tail[j] in runs[1..];
        var m :| 0 <= m < |runs[1..]| && runs[1..][m] == tail[j];
        assert runs[m + 1] == tail[j];
      }
      assert RunIdsUnique(r) by {
        forall i, j | 0 <= i < |r| && 0 <= j < |r| && r[i].id == r[j].id ensures i == j {
          if runs[0].id != runId && i > 0 && j > 0 {
            assert r[i] == tail[i - 1] && r[j] == tail[j - 1];
          }
        }
      }
    }
  }

  // ---------------------------------------------------------------------------
  // The store
  // ---------------------------------------------------------------------------

  /** The two tables and the values the database assigns on insert: the next value
      of each id sequence and its clock, whose reading becomes a run's run_datetime.
      Values of a sequence are drawn before constraints are checked, so an insert
      that does nothing or fails still uses one up. */
  class Store {
    var users: seq<User>
    var runs: seq<Run>
    var nextUserId: int
    var nextRunId: int
    var clock: int

    ghost predicate Valid()
      reads this
    {
      TablesValid(users, runs, nextUserId, nextRunId, clock)
    }

    /** An empty database; both id sequences start at 1. */
    constructor ()
      ensures Valid()
      ensures users == [] && runs == []
      ensures nextUserId == 1 && nextRunId == 1 && clock == 0
    {
      users, runs := [], [];
      nextUserId, nextRunId := 1, 1;
      clock := 0;
    }

    /** `create_user`: `INSERT INTO users ... ON CONFLICT (chat_id, user_name) DO NOTHING`.
        Appends one user unless the key is taken; succeeds either way. */
    method CreateUser(userName: string, chatId: ChatId) returns (res: DbResult<()>)
      requires Valid()
      modifies this
      ensures Valid()
      ensures res == Ok(())
      ensures users == if KeyTaken(old(users), userName, chatId) then old(users)
                       else old(users) + [User(old(nextUserId), chatId, userName)]
      ensures nextUserId == old(nextUserId) + 1
      ensures runs == old(runs) && nextRunId == old(nextRunId) && clock == old(clock)
    {
      var id := nextUserId;
      nextUserId := nextUserId + 1;
      if !KeyTaken(users, userName, chatId) {
        forall k | 0 <= k < |users| ensures !HasKey(users[k], userName, chatId) {
          assert users[k] in users;
        }
        users := users + [User(id, chatId, userName)];
      }
      res := Ok(());
    }

    /** `add_run`: `INSERT INTO runs (distance, user_id)`; the store gives the run the
        next id and the current time. Fails, changing no table, when no user has `userId`. */
    method AddRun(distance: real, userId: int) returns (res: DbResult<()>)
      requires Valid()
      modifies this
      ensures Valid()
      ensures res == if UserExists(old(users), userId) then Ok(()) else Err(ForeignKeyViolation)
      ensures runs == if res.Ok? then old(runs) + [Run(old(nextRunId), distance, old(clock), userId)]
                      else old(runs)
      ensures nextRunId == old(nextRunId) + 1 && clock == old(clock) + 1
      ensures users == old(users) && nextUserId == old(nextUserId)
    {
      var id, now := nextRunId, clock;
      nextRunId, clock := nextRunId + 1, clock + 1;
      if UserExists(users, userId) {
        var owner :| owner in users && owner.id == userId;
        runs := runs + [Run(id, distance, now, userId)];
        assert runs[|runs| - 1].userId == owner.id;
        res := Ok(());
      } else {
        res := Err(ForeignKeyViolation);
      }
    }

    /** `add_run_wrapper`: looks the user up, creates it when absent, looks it up again
        and adds the run for it. Afterwards the user exists, and the runs table has
        exactly one new row, with the distance given, owned by that user. */
    method AddRunWrapper(distance: real, userName: string, chatId: ChatId) returns (res: DbResult<()>)
      requires Valid()
      modifies this
      ensures Valid()
      ensures res == Ok(())
      ensures users == if KeyTaken(old(users), userName, chatId) then old(users)
                       else old(users) + [User(old(nextUserId), chatId, userName)]
      ensures nextUserId == old(nextUserId) + (if KeyTaken(old(users), userName, chatId) then 0 else 1)
      ensures GetUser(users, userName, chatId).Some?
      ensures runs == old(runs) + [Run(old(nextRunId), distance, old(clock), GetUser(users, userName, chatId).value.id)]
      ensures nextRunId == old(nextRunId) + 1 && clock == old(clock) + 1
    {
      var user := GetUser(users, userName, chatId);
      if user.Some? {
        assert UserExists(users, user.value.id);
        res := AddRun(distance, user.value.id);
      } else {
        var created := CreateUser(userName, chatId);
        assert users[|users| - 1] in users;
        user := GetUser(users, userName, chatId);
        if user.Some? {
          assert UserExists(users, user.value.id);
          res := AddRun(distance, user.value.id);
        } else {
          // The branch that logs "Unable to add run to database." and adds nothing:
          // create_user has just made the key present, so the lookup cannot miss.
          assert false;
        }
      }
    }

    /** `update_run`: sets the distance of the run with id `runId`. No owner is
        checked, and an unknown id changes nothing and still succeeds. */
    method UpdateRun(runId: int, distance: real) returns (res: DbResult<()>)
      requires Valid()
      modifies this
      ensures Valid()
      ensures res == Ok(())
      ensures runs == WithDistance(old(runs), runId, distance)
      ensures users == old(users) && nextUserId == old(nextUserId)
      ensures nextRunId == old(nextRunId) && clock == old(clock)
    {
      var updated := WithDistance(runs, runId, distance);
      assert RunIdsUnique(updated) by {
        forall i, j | 0 <= i < |updated| && 0 <= j < |updated| && updated[i].id == updated[j].id
          ensures i == j
        {
          assert runs[i].id == runs[j].id;
        }
      }
      runs := updated;
      res := Ok(());
    }

    /** `delete_run`: removes the run with id `runId`. No owner is checked, and an
        unknown id changes nothing and still succeeds. */
    method DeleteRun(runId: int) returns (res: DbResult<()>)
      requires Valid()
      modifies this
      ensures Valid()
      ensures res == Ok(())
      ensures runs == WithoutRun(old(runs), runId)
      ensures users == old(users) && nextUserId == old(nextUserId)
      ensures nextRunId == old(nextRunId) && clock == old(clock)
    {
      var remaining := WithoutRun(runs, runId);
      WithoutRunIdsUnique(runs, runId);
      forall i | 0 <= i < |remaining|
        ensures remaining[i].id < nextRunId && remaining[i].runDatetime < clock
        ensures UserExists(users, remaining[i].userId)
      {
        assert remaining[i] in runs;
      }
      runs := remaining;
      res := Ok(());
    }
  }

  // ---------------------------------------------------------------------------
  // Callers' view: what a sequence of statements leaves behind
  // ---------------------------------------------------------------------------

  /** create_user twice with one key: the second call changes nothing. */
  method CreateUserTwice(store: Store, userName: string, chatId: ChatId)
    requires store.Valid()
    modifies store
    ensures store.Valid()
    ensures store.users == if KeyTaken(old(store.users), userName, chatId) then old(store.users)
                           else old(store.users) + [User(old(store.nextUserId), chatId, userName)]
    ensures store.runs == old(store.runs)
  {
    var first := store.CreateUser(userName, chatId);
    ghost var afterFirst := store.users;
    assert KeyTaken(afterFirst, userName, chatId) by {
      if !KeyTaken(old(store.users), userName, chatId) {
        assert afterFirst[|afterFirst| - 1] in afterFirst;
      }
    }
    var second := store.CreateUser(userName, chatId);
    assert store.users == afterFirst;
  }

  /** add_run_wrapper twice with the same user name and chat: at most one user is
      created, and two runs are added, both owned by that user. */
  method AddRunTwice(store: Store, first: real, second: real, userName: string, chatId: ChatId)
    requires store.Valid()
    modifies store
    ensures store.Valid()
    ensures store.users == if KeyTaken(old(store.users), userName, chatId) then old(store.users)
                           else old(store.users) + [User(old(store.nextUserId), chatId, userName)]
    ensures GetUser(store.users, userName, chatId).Some?
    ensures var owner := GetUser(store.users, userName, chatId).value.id;
      store.runs == old(store.runs) + [Run(old(store.nextRunId), first, old(store.clock), owner),
                                       Run(old(store.nextRunId) + 1, second, old(store.clock) + 1, owner)]
  {
    var r1 := store.AddRunWrapper(first, userName, chatId);
    ghost var usersAfterFirst := store.users;
    var r2 := store.AddRunWrapper(second, userName, chatId);
    assert store.users == usersAfterFirst;
  }

  /** A run added through add_run_wrapper is the first one get_runs lists for its
      chat, with the distance given, whenever the limit is at least one. */
  method AddThenList(store: Store, distance: real, userName: string, chatId: ChatId, limit: int)
    returns (listed: DbResult<Option<seq<Run>>>)
    requires store.Valid() && limit >= 1
    modifies store
    ensures store.Valid()
    ensures store.users == if KeyTaken(old(store.users), userName, chatId) then old(store.users)
                           else old(store.users) + [User(old(store.nextUserId), chatId, userName)]
    ensures GetUser(store.users, userName, chatId).Some?
    ensures store.runs == old(store.runs) + [Run(old(store.nextRunId), distance, old(store.clock), GetUser(store.users, userName, chatId).value.id)]
    ensures listed == GetRuns(store.users, store.runs, chatId, limit)
    ensures listed.Ok? && listed.value.Some? && listed.value.value != []
    ensures listed.value.value[0] == Run(old(store.nextRunId), distance, old(store.clock), GetUser(store.users, userName, chatId).value.id)
  {
    var added := store.AddRunWrapper(distance, userName, chatId);
    var x := store.runs[|store.runs| - 1];
    var owner := GetUser(store.users, userName, chatId).value;
    assert InChat(store.users, chatId, x);
    forall y | y in store.runs && y != x ensures y.runDatetime < x.runDatetime {
      assert y in old(store.runs);
      var i :| 0 <= i < |old(store.runs)| && old(store.runs)[i] == y;
    }
    NewestRunListedFirst(store.users, store.runs, chatId, limit, x);
    listed := GetRuns(store.users, store.runs, chatId, limit);
  }
}
