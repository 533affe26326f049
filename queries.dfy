/** The read-only half of src/database.rs: the queries over the users and runs
    tables, written as functions of the two tables' contents, and what they promise. */
module Queries {
  import opened Wrappers
  import opened Models

  /** What a statement can fail with in this model. A negative LIMIT is refused by
      PostgreSQL; a run whose user_id names no user breaks the runs.user_id foreign key. */
  datatype DbError = NegativeLimit | ForeignKeyViolation

  /** `DBResult<T>` of src/database.rs. */
  type DbResult<T> = Result<T, DbError>

  // ---------------------------------------------------------------------------
  // Table invariants
  // ---------------------------------------------------------------------------

  /** `u` has the key `(chat_id, user_name)` asked for. */
  predicate HasKey(u: User, userName: string, chatId: ChatId) {
    u.userName == userName && u.chatId == chatId
  }

  /** The unique constraint on `(chat_id, user_name)` of the users table. */
  ghost predicate KeyUnique(users: seq<User>) {
    forall i, j ::
      (0 <= i < |users| && 0 <= j < |users| &&
       users[i].chatId == users[j].chatId && users[i].userName == users[j].userName) ==> i == j
  }

  /** users.id is a primary key. */
  ghost predicate UserIdsUnique(users: seq<User>) {
    forall i, j :: 0 <= i < |users| && 0 <= j < |users| && users[i].id == users[j].id ==> i == j
  }

  /** runs.id is a primary key. */
  ghost predicate RunIdsUnique(runs: seq<Run>) {
    forall i, j :: 0 <= i < |runs| && 0 <= j < |runs| && runs[i].id == runs[j].id ==> i == j
  }

  /** Run `x` belongs to a user of chat `chatId`. */
  ghost predicate InChat(users: seq<User>, chatId: ChatId, x: Run) {
    exists u :: u in users && u.chatId == chatId && u.id == x.userId
  }

  // ---------------------------------------------------------------------------
  // get_user
  // ---------------------------------------------------------------------------

  /** Some user already has the key `(chatId, userName)`. */
  predicate KeyTaken(users: seq<User>, userName: string, chatId: ChatId) {
    exists u :: u in users && HasKey(u, userName, chatId)
  }

  /** `get_user`: the first user whose user_name and chat_id are the ones given. */
  function GetUser(users: seq<User>, userName: string, chatId: ChatId): (r: Option<User>)
    ensures r.Some? <==> KeyTaken(users, userName, chatId)
    ensures r.Some? ==> r.value in users && HasKey(r.value, userName, chatId)
  {
    if users == [] then None
    else if HasKey(users[0], userName, chatId) then Some(users[0])
    else GetUser(users[1..], userName, chatId)
  }

  /** Under the unique key, the user found is the only one with that key. */
  lemma GetUserUnique(users: seq<User>, userName: string, chatId: ChatId, u: User)
    requires KeyUnique(users)
    requires u in users && HasKey(u, userName, chatId)
    ensures GetUser(users, userName, chatId) == Some(u)
  {
    var found := GetUser(users, userName, chatId).value;
    var i :| 0 <= i < |users| && users[i] == u;
    var j :| 0 <= j < |users| && users[j] == found;
    assert i == j;
  }

  // ---------------------------------------------------------------------------
  // get_users_in_chat
  // ---------------------------------------------------------------------------

  /** The rows of `SELECT ... FROM users WHERE chat_id = $1`, in table order. */
  function UsersInChat(users: seq<User>, chatId: ChatId): (r: seq<User>)
    ensures forall u :: u in r <==> u in users && u.chatId == chatId
    ensures multiset(r) <= multiset(users)
  {
    if users == [] then []
    else
      assert users == [users[0]] + users[1..];
      (if users[0].chatId == chatId then [users[0]] else []) + UsersInChat(users[1..], chatId)
  }

  /** `get_users_in_chat`: the chat's users, or "no data" when it has none. */
  function GetUsersInChat(users: seq<User>, chatId: ChatId): (r: Option<seq<User>>)
    ensures r.None? <==> forall u :: u in users ==> u.chatId != chatId
    ensures r.Some? ==> r.value != [] && forall u :: u in r.value <==> u in users && u.chatId == chatId
    ensures r.Some? ==> multiset(r.value) <= multiset(users)
  {
    var members := UsersInChat(users, chatId);
    if members != [] then assert members[0] in members; Some(members) else None
  }

  /** `users.iter().map(|user| user.id).collect()`. */
  function UserIds(us: seq<User>): (ids: seq<int>)
    ensures forall id :: id in ids <==> exists u :: u in us && u.id == id
  {
    if us == [] then [] else [us[0].id] + UserIds(us[1..])
  }

  /** The ids of the chat's users, as get_runs and get_tally bind them to `ANY($1)`. */
  function ChatUserIds(users: seq<User>, chatId: ChatId): (ids: seq<int>)
    ensures forall id :: id in ids <==> exists u :: u in users && u.chatId == chatId && u.id == id
  {
    UserIds(UsersInChat(users, chatId))
  }

  // ---------------------------------------------------------------------------
  // get_runs
  // ---------------------------------------------------------------------------

  /** The rows of `SELECT * FROM runs WHERE user_id = ANY(ids)`, in table order. */
  function RunsOwnedBy(runs: seq<Run>, ids: seq<int>): (r: seq<Run>)
    ensures forall x :: x in r <==> x in runs && x.userId in ids
    ensures multiset(r) <= multiset(runs)
  {
    if runs == [] then []
    else
      assert runs == [runs[0]] + runs[1..];
      (if runs[0].userId in ids then [runs[0]] else []) + RunsOwnedBy(runs[1..], ids)
  }

  /** The chat's runs, in table order. */
  function ChatRuns(users: seq<User>, runs: seq<Run>, chatId: ChatId): (r: seq<Run>)
    ensures forall x :: x in r <==> x in runs && InChat(users, chatId, x)
    ensures multiset(r) <= multiset(runs)
  {
    RunsOwnedBy(runs, ChatUserIds(users, chatId))
  }

  /** `ORDER BY run_datetime DESC` holds of `s`. */
  predicate NewestFirst(s: seq<Run>) {
    forall i, j :: 0 <= i < j < |s| ==> s[i].runDatetime >= s[j].runDatetime
  }

  /** The head of a newest-first sequence is at least as recent as the rest. */
  lemma NewestFirstHead(s: seq<Run>)
    requires NewestFirst(s) && s != []
    ensures forall y :: y in multiset(s[1..]) ==> y.runDatetime <= s[0].runDatetime
  {
    forall y | y in multiset(s[1..]) ensures y.runDatetime <= s[0].runDatetime {
      var k :| 0 <= k < |s[1..]| && s[1..][k] == y;
      assert s[k + 1] == y;
    }
  }

  /** A bound on every element of a multiset bounds every element of a sequence with
      that multiset. */
  lemma BoundedByMultiset(s: seq<Run>, m: multiset<Run>, t: int)
    requires multiset(s) == m
    requires forall y :: y in m ==> y.runDatetime <= t
    ensures forall k :: 0 <= k < |s| ==> s[k].runDatetime <= t
  {
    forall k | 0 <= k < |s| ensures s[k].runDatetime <= t {
      assert s[k] in multiset(s);
    }
  }

  /** Splitting a newest-first sequence leaves nothing in the back newer than the front. */
  lemma NewestFirstSplit(front: seq<Run>, back: seq<Run>)
    requires NewestFirst(front + back)
    ensures forall x, y :: x in front && y in back ==> y.runDatetime <= x.runDatetime
  {
    forall x, y | x in front && y in back ensures y.runDatetime <= x.runDatetime {
      var i :| 0 <= i < |front| && front[i] == x;
      var j :| 0 <= j < |back| && back[j] == y;
      assert (front + back)[i] == x && (front + back)[|front| + j] == y;
    }
  }

  /** Inserts `x` into a newest-first sequence. */
  function InsertByTime(x: Run, s: seq<Run>): (r: seq<Run>)
    requires NewestFirst(s)
    ensures NewestFirst(r)
    ensures multiset(r) == multiset(s) + multiset{x}
  {
    if s == [] || x.runDatetime >= s[0].runDatetime then [x] + s
    else
      var rest := InsertByTime(x, s[1..]);
      assert s == [s[0]] + s[1..];
      NewestFirstHead(s);
      BoundedByMultiset(rest, multiset(s[1..]) + multiset{x}, s[0].runDatetime);
      [s[0]] + rest
  }

  /** `ORDER BY run_datetime DESC`: a newest-first permutation of `s`. */
  function SortNewestFirst(s: seq<Run>): (r: seq<Run>)
    ensures NewestFirst(r)
    ensures multiset(r) == multiset(s)
  {
    if s == [] then []
    else
      assert s == [s[0]] + s[1..];
      InsertByTime(s[0], SortNewestFirst(s[1..]))
  }

  /** `LIMIT limit`: the first `limit` rows. */
  function Page(rows: seq<Run>, limit: nat): (page: seq<Run>)
    ensures |page| == if limit < |rows| then limit else |rows|
    ensures page == rows[..|page|]
  {
    if limit < |rows| then rows[..limit] else rows
  }

  /** The first `limit` rows of `rows` sorted newest first are the `limit` newest of them. */
  lemma NewestPage(rows: seq<Run>, limit: nat)
    ensures var page := Page(SortNewestFirst(rows), limit);
      multiset(page) <= multiset(rows) &&
      (page == [] <==> limit == 0 || rows == []) &&
      forall x, y :: x in page && y in multiset(rows) - multiset(page) ==> y.runDatetime <= x.runDatetime
  {
    var sorted := SortNewestFirst(rows);
    var page := Page(sorted, limit);
    var rest := sorted[|page|..];
    assert sorted == page + rest;
    assert multiset(rows) == multiset(page) + multiset(rest);
    assert |sorted| == |rows| by { assert |multiset(sorted)| == |multiset(rows)|; }
    NewestFirstSplit(page, rest);
    forall x, y | x in page && y in multiset(rows) - multiset(page) ensures y.runDatetime <= x.runDatetime {
      assert y in multiset(rest);
    }
  }

  /** `get_runs`: the chat's `limit` most recent runs, newest first; "no data" when
      the chat has no users or the page is empty. The LIMIT is only sent, and so only
      refused when negative, once the chat has users. */
  function GetRuns(users: seq<User>, runs: seq<Run>, chatId: ChatId, limit: int): (r: DbResult<Option<seq<Run>>>)
    ensures r.Err? <==> (exists u :: u in users && u.chatId == chatId) && limit < 0
    ensures r.Ok? && r.value.Some? ==> r.value.value != [] && |r.value.value| <= limit && NewestFirst(r.value.value)
  {
    match GetUsersInChat(users, chatId)
    case None => Ok(None)
    case Some(members) =>
      if limit < 0 then Err(NegativeLimit)
      else
        var page := Page(SortNewestFirst(RunsOwnedBy(runs, UserIds(members))), limit);
        if page != [] then Ok(Some(page)) else Ok(None)
  }

  /** The page get_runs returns is the first `limit` rows of the chat's runs sorted newest first. */
  lemma GetRunsIsSortedPrefix(users: seq<User>, runs: seq<Run>, chatId: ChatId, limit: int)
    requires GetRuns(users, runs, chatId, limit).Ok?
    ensures GetRuns(users, runs, chatId, limit).value ==
      if (forall u :: u in users ==> u.chatId != chatId) then None
      else var page := Page(SortNewestFirst(ChatRuns(users, runs, chatId)), limit);
        if page == [] then None else Some(page)
  {
    var members := UsersInChat(users, chatId);
    assert ChatRuns(users, runs, chatId) == RunsOwnedBy(runs, UserIds(members));
  }

  /** "No data" exactly when the chat has no users, the limit is zero, or none of the
      chat's users has a run; never `Some([])`. */
  lemma GetRunsNoData(users: seq<User>, runs: seq<Run>, chatId: ChatId, limit: int)
    requires GetRuns(users, runs, chatId, limit).Ok?
    ensures GetRuns(users, runs, chatId, limit).value.None? <==>
      (forall u :: u in users ==> u.chatId != chatId) || limit == 0 ||
      (forall x :: x in runs ==> !InChat(users, chatId, x))
    ensures GetRuns(users, runs, chatId, limit) != Ok(Some([]))
  {
    GetRunsIsSortedPrefix(users, runs, chatId, limit);
    var chat := ChatRuns(users, runs, chatId);
    if limit >= 0 {
      NewestPage(chat, limit);
      if chat != [] {
        assert chat[0] in chat;
      }
    }
  }

  /** Every listed run is a run of the chat, and the page holds the chat's newest
      runs: no run of the chat that is left off the page is newer than one on it. */
  lemma GetRunsNewest(users: seq<User>, runs: seq<Run>, chatId: ChatId, limit: int, page: seq<Run>)
    requires GetRuns(users, runs, chatId, limit) == Ok(Some(page))
    ensures |page| == if limit < |ChatRuns(users, runs, chatId)| then limit else |ChatRuns(users, runs, chatId)|
    ensures forall x :: x in page ==> x in runs && InChat(users, chatId, x)
    ensures multiset(page) <= multiset(ChatRuns(users, runs, chatId))
    ensures forall x, y :: x in page && y in multiset(ChatRuns(users, runs, chatId)) - multiset(page) ==>
      y.runDatetime <= x.runDatetime
  {
    GetRunsIsSortedPrefix(users, runs, chatId, limit);
    var chat := ChatRuns(users, runs, chatId);
    NewestPage(chat, limit);
    var sorted := SortNewestFirst(chat);
    assert |sorted| == |chat| by { assert |multiset(sorted)| == |multiset(chat)|; }
    forall x | x in page ensures x in runs && InChat(users, chatId, x) {
      assert x in multiset(chat);
    }
  }

  /** A run of the chat that is newer than every other run is listed first whenever
      the limit admits at least one row. */
  lemma NewestRunListedFirst(users: seq<User>, runs: seq<Run>, chatId: ChatId, limit: int, x: Run)
    requires x in runs && InChat(users, chatId, x) && limit >= 1
    requires forall y :: y in runs && y != x ==> y.runDatetime < x.runDatetime
    ensures GetRuns(users, runs, chatId, limit).Ok?
    ensures GetRuns(users, runs, chatId, limit).value.Some?
    ensures GetRuns(users, runs, chatId, limit).value.value[0] == x
  {
    GetRunsIsSortedPrefix(users, runs, chatId, limit);
    var chat := ChatRuns(users, runs, chatId);
    var rows := SortNewestFirst(chat);
    assert x in multiset(rows);
    var k :| 0 <= k < |rows| && rows[k] == x;
    assert rows[0] in multiset(chat);
    assert Page(rows, limit)[0] == rows[0];
  }

  // ---------------------------------------------------------------------------
  // get_tally
  // ---------------------------------------------------------------------------

  /** One row of `runs JOIN users ON users.id = runs.user_id`, reduced to the
      columns the tally reads. */
  datatype JoinedRow = JoinedRow(userName: string, distance: real)

  /** Row `w` is what run `x` joined with one of `users` gives. */
  ghost predicate JoinedFrom(users: seq<User>, x: Run, w: JoinedRow) {
    w.distance == x.distance && exists u :: u in users && u.id == x.userId && u.userName == w.userName
  }

  /** The rows the join produces for run `x`: one per user whose id is `x.userId`. */
  function JoinRun(users: seq<User>, x: Run): (r: seq<JoinedRow>)
    ensures |r| <= |users|
    ensures forall w :: w in r ==> JoinedFrom(users, x, w)
  {
    if users == [] then []
    else
      (if users[0].id == x.userId then [JoinedRow(users[0].userName, x.distance)] else [])
        + JoinRun(users[1..], x)
  }

  /** `FROM runs JOIN users ON users.id = runs.user_id WHERE user_id = ANY(ids)`. */
  function JoinRows(users: seq<User>, runs: seq<Run>, ids: seq<int>): (r: seq<JoinedRow>)
    ensures forall w :: w in r ==> exists x :: x in runs && x.userId in ids && JoinedFrom(users, x, w)
  {
    if runs == [] then []
    else
      assert runs[0] in runs;
      (if runs[0].userId in ids then JoinRun(users, runs[0]) else []) + JoinRows(users, runs[1..], ids)
  }

  /** `COUNT(*)` of the group `user_name = name`. */
  function CountNamed(rows: seq<JoinedRow>, name: string): (n: nat)
    ensures n <= |rows|
    ensures n > 0 <==> exists w :: w in rows && w.userName == name
  {
    if rows == [] then 0
    else (if rows[0].userName == name then 1 else 0) + CountNamed(rows[1..], name)
  }

  /** `SUM(distance)` of the group `user_name = name`. */
  function SumNamed(rows: seq<JoinedRow>, name: string): (total: real)
    ensures (forall w :: w in rows ==> w.userName != name) ==> total == 0.0
    ensures (forall w :: w in rows && w.userName == name ==> w.distance >= 0.0) ==> total >= 0.0
  {
    if rows == [] then 0.0
    else (if rows[0].userName == name then rows[0].distance else 0.0) + SumNamed(rows[1..], name)
  }

  /** The `user_name` column of the joined rows. */
  function Names(rows: seq<JoinedRow>): (r: seq<string>)
    ensures |r| == |rows|
    ensures forall n :: n in r <==> CountNamed(rows, n) > 0
  {
    if rows == [] then [] else [rows[0].userName] + Names(rows[1..])
  }

  /** The distinct values of `s` (the keys of GROUP BY). */
  function Distinct(s: seq<string>): (r: seq<string>)
    ensures |r| <= |s|
    ensures forall n :: n in r <==> n in s
    ensures forall i, j :: 0 <= i < j < |r| ==> r[i] != r[j]
  {
    if s == [] then []
    else if s[0] in s[1..] then Distinct(s[1..])
    else [s[0]] + Distinct(s[1..])
  }

  /** `GROUP BY user_name` with `COUNT(*)` cast to u32 and `SUM(distance)`. The query
      has no ORDER BY; groups come out in the order of Distinct. */
  function GroupByName(rows: seq<JoinedRow>): (scores: seq<Score>)
    ensures |scores| <= |rows|
    ensures forall s :: s in scores ==> CountNamed(rows, s.userName) > 0
  {
    var names := Distinct(Names(rows));
    seq(|names|, i requires 0 <= i < |names| =>
      Score(names[i], AsU32(CountNamed(rows, names[i])), SumNamed(rows, names[i])))
  }

  /** One score per group: names are distinct, a name has a score exactly when some
      row carries it, and each score holds its group's count and sum. */
  lemma GroupByNameSpec(rows: seq<JoinedRow>)
    ensures var scores := GroupByName(rows);
      (forall i, j :: 0 <= i < j < |scores| ==> scores[i].userName != scores[j].userName) &&
      (forall n :: (exists s :: s in scores && s.userName == n) <==> CountNamed(rows, n) > 0) &&
      (forall s :: s in scores ==>
        s.medals == AsU32(CountNamed(rows, s.userName)) && s.distance == SumNamed(rows, s.userName))
  {
    var names := Distinct(Names(rows));
    var scores := GroupByName(rows);
    forall n ensures (exists s :: s in scores && s.userName == n) <==> CountNamed(rows, n) > 0 {
      if CountNamed(rows, n) > 0 {
        var i :| 0 <= i < |names| && names[i] == n;
        assert scores[i] in scores;
      }
    }
  }

  /** `get_tally`: "no data" when the chat has no users; otherwise the per-name
      groups of the chat's runs, which may be `Some([])`. */
  function GetTally(users: seq<User>, runs: seq<Run>, chatId: ChatId): (r: Option<seq<Score>>)
    ensures r.None? <==> forall u :: u in users ==> u.chatId != chatId
  {
    match GetUsersInChat(users, chatId)
    case None => None
    case Some(members) => Some(GroupByName(JoinRows(users, runs, UserIds(members))))
  }

  // ---------------------------------------------------------------------------
  // What a tally means for the chat's users
  // ---------------------------------------------------------------------------

  /** The runs of user `id`, in table order. */
  function RunsOf(runs: seq<Run>, id: int): seq<Run> {
    RunsOwnedBy(runs, [id])
  }

  /** The total distance of `runs`. */
  function TotalDistance(runs: seq<Run>): real {
    if runs == [] then 0.0 else runs[0].distance + TotalDistance(runs[1..])
  }

  lemma {:induction false} CountNamedAppend(a: seq<JoinedRow>, b: seq<JoinedRow>, name: string)
    ensures CountNamed(a + b, name) == CountNamed(a, name) + CountNamed(b, name)
    ensures SumNamed(a + b, name) == SumNamed(a, name) + SumNamed(b, name)
  {
    if a != [] {
      assert (a + b)[1..] == a[1..] + b;
      CountNamedAppend(a[1..], b, name);
    } else {
      assert a + b == b;
    }
  }

  lemma {:induction false} TotalDistanceAppend(a: seq<Run>, b: seq<Run>)
    ensures TotalDistance(a + b) == TotalDistance(a) + TotalDistance(b)
  {
    if a != [] {
      assert (a + b)[1..] == a[1..] + b;
      TotalDistanceAppend(a[1..], b);
    } else {
      assert a + b == b;
    }
  }

  /** A run whose owner id no user has joins into no row. */
  lemma {:induction false} JoinRunNone(users: seq<User>, x: Run)
    requires forall u :: u in users ==> u.id != x.userId
    ensures JoinRun(users, x) == []
  {
    if users != [] {
      assert users[0] in users;
      JoinRunNone(users[1..], x);
    }
  }

  /** With unique user ids, a run joins into exactly one row, with its owner's name. */
  lemma {:induction false} JoinRunOwner(users: seq<User>, x: Run, v: User)
    requires UserIdsUnique(users) && v in users && v.id == x.userId
    ensures JoinRun(users, x) == [JoinedRow(v.userName, x.distance)]
  {
    if users[0] == v {
      forall u | u in users[1..] ensures u.id != x.userId {
        var k :| 0 <= k < |users[1..]| && users[1..][k] == u;
        assert users[k + 1] == u;
      }
      JoinRunNone(users[1..], x);
    } else {
      assert users[0].id != x.userId by {
        var k :| 0 <= k < |users| && users[k] == v;
        assert k != 0;
      }
      assert UserIdsUnique(users[1..]) by {
        forall i, j | 0 <= i < |users[1..]| && 0 <= j < |users[1..]| && users[1..][i].id == users[1..][j].id
          ensures i == j
        {
          assert users[i + 1].id == users[j + 1].id;
        }
      }
      JoinRunOwner(users[1..], x, v);
    }
  }

  /** The joined rows of one run of the table, restricted to the chat, add one to the
      group of the chat's user `u` exactly when that run is `u`'s. */
  lemma HeadOfUser(users: seq<User>, x: Run, chatId: ChatId, u: User)
    requires KeyUnique(users) && UserIdsUnique(users)
    requires u in users && u.chatId == chatId
    ensures var head := if x.userId in ChatUserIds(users, chatId) then JoinRun(users, x) else [];
      CountNamed(head, u.userName) == (if x.userId == u.id then 1 else 0) &&
      SumNamed(head, u.userName) == (if x.userId == u.id then x.distance else 0.0)
  {
    if x.userId in ChatUserIds(users, chatId) {
      var v :| v in users && v.chatId == chatId && v.id == x.userId;
      JoinRunOwner(users, x, v);
      var i :| 0 <= i < |users| && users[i] == u;
      var j :| 0 <= j < |users| && users[j] == v;
      assert v.userName == u.userName <==> i == j;
    } else {
      assert u.id in ChatUserIds(users, chatId);
    }
  }

  /** The joined rows of a non-empty runs table: those of its first run, then the rest. */
  lemma JoinRowsCons(users: seq<User>, runs: seq<Run>, ids: seq<int>)
    requires runs != []
    ensures JoinRows(users, runs, ids) ==
      (if runs[0].userId in ids then JoinRun(users, runs[0]) else []) + JoinRows(users, runs[1..], ids)
  {
  }

  /** Grouping the chat's joined rows by name counts and sums exactly the runs of the
      chat's user `u`: within a chat user names are unique and user ids are unique. */
  lemma {:induction false} GroupOfUser(users: seq<User>, runs: seq<Run>, chatId: ChatId, u: User)
    requires KeyUnique(users) && UserIdsUnique(users)
    requires u in users && u.chatId == chatId
    ensures CountNamed(JoinRows(users, runs, ChatUserIds(users, chatId)), u.userName) == |RunsOf(runs, u.id)|
    ensures SumNamed(JoinRows(users, runs, ChatUserIds(users, chatId)), u.userName) == TotalDistance(RunsOf(runs, u.id))
  {
    var ids := ChatUserIds(users, chatId);
    if runs != [] {
      var x := runs[0];
      var head := if x.userId in ids then JoinRun(users, x) else [];
      var tail := JoinRows(users, runs[1..], ids);
      JoinRowsCons(users, runs, ids);
      CountNamedAppend(head, tail, u.userName);
      HeadOfUser(users, x, chatId, u);
      GroupOfUser(users, runs[1..], chatId, u);
      var mine := if x.userId in [u.id] then [x] else [];
      assert RunsOf(runs, u.id) == mine + RunsOf(runs[1..], u.id);
      TotalDistanceAppend(mine, RunsOf(runs[1..], u.id));
    }
  }

  /** Every joined row of the chat carries the name of one of the chat's users. */
  lemma {:induction false} JoinedNamesInChat(users: seq<User>, runs: seq<Run>, chatId: ChatId, name: string)
    requires UserIdsUnique(users)
    requires CountNamed(JoinRows(users, runs, ChatUserIds(users, chatId)), name) > 0
    ensures exists u :: u in users && u.chatId == chatId && u.userName == name
  {
    var ids := ChatUserIds(users, chatId);
    var x := runs[0];
    var head := if x.userId in ids then JoinRun(users, x) else [];
    JoinRowsCons(users, runs, ids);
    CountNamedAppend(head, JoinRows(users, runs[1..], ids), name);
    if CountNamed(head, name) > 0 {
      var v :| v in users && v.chatId == chatId && v.id == x.userId;
      JoinRunOwner(users, x, v);
    } else {
      JoinedNamesInChat(users, runs[1..], chatId, name);
    }
  }

  /** Score `s` is the run count (as u32) and total distance of a user of the chat
      who has runs and is named `s.userName`. */
  ghost predicate TallyOfUser(users: seq<User>, runs: seq<Run>, chatId: ChatId, s: Score) {
    exists u :: u in users && u.chatId == chatId && u.userName == s.userName &&
      RunsOf(runs, u.id) != [] && s.medals == AsU32(|RunsOf(runs, u.id)|) &&
      s.distance == TotalDistance(RunsOf(runs, u.id))
  }

  /** The tally of a chat with users holds one score per user of the chat who has
      runs, with that user's run count (as u32) and total distance, and nothing else. */
  lemma GetTallyScores(users: seq<User>, runs: seq<Run>, chatId: ChatId)
    requires KeyUnique(users) && UserIdsUnique(users)
    requires exists u :: u in users && u.chatId == chatId
    ensures GetTally(users, runs, chatId).Some?
    ensures var scores := GetTally(users, runs, chatId).value;
      (forall i, j :: 0 <= i < j < |scores| ==> scores[i].userName != scores[j].userName) &&
      (forall s :: s in scores ==> TallyOfUser(users, runs, chatId, s)) &&
      (forall u :: u in users && u.chatId == chatId && RunsOf(runs, u.id) != [] ==>
         exists s :: s in scores && s.userName == u.userName)
  {
    var rows := JoinRows(users, runs, ChatUserIds(users, chatId));
    var scores := GetTally(users, runs, chatId).value;
    assert scores == GroupByName(rows);
    GroupByNameSpec(rows);
    forall s | s in scores ensures TallyOfUser(users, runs, chatId, s) {
      JoinedNamesInChat(users, runs, chatId, s.userName);
      var u :| u in users && u.chatId == chatId && u.userName == s.userName;
      GroupOfUser(users, runs, chatId, u);
    }
    forall u | u in users && u.chatId == chatId && RunsOf(runs, u.id) != []
      ensures exists s :: s in scores && s.userName == u.userName
    {
      GroupOfUser(users, runs, chatId, u);
    }
  }

  lemma {:induction false} JoinRowsNone(users: seq<User>, runs: seq<Run>, ids: seq<int>)
    requires forall x :: x in runs ==> x.userId !in ids
    ensures JoinRows(users, runs, ids) == []
  {
    if runs != [] {
      assert runs[0] in runs;
      JoinRowsNone(users, runs[1..], ids);
    }
  }

  /** A chat whose users have no runs gets an empty tally, not "no data". */
  lemma TallyWithoutRuns(users: seq<User>, runs: seq<Run>, chatId: ChatId)
    requires exists u :: u in users && u.chatId == chatId
    requires forall x :: x in runs ==> !InChat(users, chatId, x)
    ensures GetTally(users, runs, chatId) == Some([])
  {
    var ids := ChatUserIds(users, chatId);
    forall x | x in runs ensures x.userId !in ids {
      assert !InChat(users, chatId, x);
    }
    JoinRowsNone(users, runs, ids);
    var empty: seq<JoinedRow> := [];
    assert Distinct(Names(empty)) == [];
    assert GroupByName(empty) == [];
  }

  /** Two users of one chat and a user of the same name in another chat. */
  const EXAMPLE_USERS: seq<User> := [User(1, "chat", "a"), User(2, "chat", "b"), User(3, "other", "a")]

  /** 5 km and 3 km by "a", 10 km by "b", and 7 km by the other chat's "a". */
  const EXAMPLE_RUNS: seq<Run> := [Run(1, 5.0, 1, 1), Run(2, 3.0, 2, 1), Run(3, 10.0, 3, 2), Run(4, 7.0, 4, 3)]

  lemma ExampleMembers()
    ensures UsersInChat(EXAMPLE_USERS, "chat") == [User(1, "chat", "a"), User(2, "chat", "b")]
  {
    assert EXAMPLE_USERS[1..][1..] == [User(3, "other", "a")];
  }

  lemma ExampleIds()
    ensures UserIds([User(1, "chat", "a"), User(2, "chat", "b")]) == [1, 2]
  {
    var members := [User(1, "chat", "a"), User(2, "chat", "b")];
    assert UserIds(members[1..]) == [2];
  }

  lemma ExampleJoin()
    ensures JoinRows(EXAMPLE_USERS, EXAMPLE_RUNS, [1, 2])
      == [JoinedRow("a", 5.0), JoinedRow("a", 3.0), JoinedRow("b", 10.0)]
  {
    var users, runs, ids := EXAMPLE_USERS, EXAMPLE_RUNS, [1, 2];
    assert JoinRows(users, runs[3..], ids) == [] by {
      assert runs[3..][1..] == [];
    }
    assert JoinRows(users, runs[2..], ids) == [JoinedRow("b", 10.0)] by {
      assert runs[2..][1..] == runs[3..];
      assert JoinRun(users, runs[2]) == [JoinedRow("b", 10.0)];
    }
    assert JoinRows(users, runs[1..], ids) == [JoinedRow("a", 3.0), JoinedRow("b", 10.0)] by {
      assert runs[1..][1..] == runs[2..];
      assert JoinRun(users, runs[1]) == [JoinedRow("a", 3.0)];
    }
    assert JoinRun(users, runs[0]) == [JoinedRow("a", 5.0)];
  }

  lemma ExampleGroups()
    ensures GroupByName([JoinedRow("a", 5.0), JoinedRow("a", 3.0), JoinedRow("b", 10.0)])
      == [Score("a", 2, 8.0), Score("b", 1, 10.0)]
  {
    var rows := [JoinedRow("a", 5.0), JoinedRow("a", 3.0), JoinedRow("b", 10.0)];
    assert Names(rows) == ["a", "a", "b"];
    assert Distinct(["b"]) == ["b"];
    assert Distinct(["a", "b"]) == ["a", "b"] by { assert ["a", "b"][1..] == ["b"]; }
    assert Distinct(["a", "a", "b"]) == ["a", "b"] by { assert ["a", "a", "b"][1..] == ["a", "b"]; }
    assert CountNamed(rows, "a") == 2 && SumNamed(rows, "a") == 8.0;
    assert CountNamed(rows, "b") == 1 && SumNamed(rows, "b") == 10.0;
  }

  /** The tally of the example chat: "a" with 2 medals and 8 km, "b" with 1 medal and
      10 km; the other chat's run is not counted. */
  lemma TallyExample()
    ensures GetTally(EXAMPLE_USERS, EXAMPLE_RUNS, "chat").Some?
    ensures var scores := GetTally(EXAMPLE_USERS, EXAMPLE_RUNS, "chat").value;
      |scores| == 2 && Score("a", 2, 8.0) in scores && Score("b", 1, 10.0) in scores
  {
    ExampleMembers();
    ExampleIds();
    ExampleJoin();
    ExampleGroups();
  }
}
