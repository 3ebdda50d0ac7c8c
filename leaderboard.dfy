/**
  The leaderboard (getLeaderboard in src/controllers/leaderboardController.js,
  from the loading of users on): every user starts at zero, each counted pick adds
  3, 1 or 0 points to its user, the points of the user's latest game are kept, and
  the table is ordered by total points, highest first.

  The query results are inputs: the users, the picks with their game and user
  populated, the start of the period (`since`) and the clock (`now`).
 */
module Leaderboard {

  import opened Values
  import opened StableSort

  /** A user as loaded with the fields 'username avatarUrl'. */
  datatype UserRow = UserRow(id: string, username: Option<string>, avatarUrl: Option<string>)

  /** A pick's game, populated with 'gameTime firstGoalPlayerId gwGoalPlayerId'. */
  datatype GameRow = GameRow(gameTime: Option<int>, firstGoalPlayerId: Ref, gwGoalPlayerId: Ref)

  /** A pick; `game` and `userId` are None when population found no document. */
  datatype PickRow = PickRow(game: Option<GameRow>, userId: Option<string>, firstGoalPlayerId: Ref, gwGoalPlayerId: Ref)

  /** An entry of the `scores` dictionary. */
  datatype Score = Score(id: string, username: string, avatarUrl: Option<string>,
                         totalPoints: int, lastGamePoints: int, lastGameTime: int)

  /** A row of the returned leaderboard. */
  datatype Entry = Entry(id: string, username: string, avatarUrl: Option<string>,
                         totalPoints: int, lastGamePoints: int)

  /** new Date(0), the starting last_game_time. */
  const Epoch: int := 0

  predicate DistinctIds(users: seq<UserRow>) {
    forall i, j :: 0 <= i < j < |users| ==> users[i].id != users[j].id
  }

  // ---------------------------------------------------------------------------
  // Scoring one pick

  /** A pick field is correct when both ids are present and their texts are equal. */
  predicate Correct(picked: Ref, result: Ref) {
    picked.ObjectId? && result.ObjectId? && IdText(picked) == IdText(result)
  }

  predicate CorrectFirst(p: PickRow) {
    p.game.Some? && Correct(p.firstGoalPlayerId, p.game.value.firstGoalPlayerId)
  }

  predicate CorrectGwg(p: PickRow) {
    p.game.Some? && Correct(p.gwGoalPlayerId, p.game.value.gwGoalPlayerId)
  }

  /** 3 points for both picks right, 1 for exactly one, 0 for none. */
  function PickPoints(p: PickRow): (pts: int)
    ensures pts == 3 <==> CorrectFirst(p) && CorrectGwg(p)
    ensures pts == 1 <==> CorrectFirst(p) != CorrectGwg(p)
    ensures pts == 0 <==> !CorrectFirst(p) && !CorrectGwg(p)
  {
    if CorrectFirst(p) && CorrectGwg(p) then 3
    else if CorrectFirst(p) || CorrectGwg(p) then 1
    else 0
  }

  // ---------------------------------------------------------------------------
  // Which picks count

  /** The `valid` filter: a populated game played in [since, now) with at least one
      result field set, and a populated user. */
  predicate Counts(p: PickRow, since: int, now: int) {
    && p.game.Some?
    && p.game.value.gameTime.Some?
    && since <= p.game.value.gameTime.value < now
    && (p.game.value.firstGoalPlayerId != NoId || p.game.value.gwGoalPlayerId != NoId)
    && p.userId.Some?
  }

  function ValidPicks(picks: seq<PickRow>, since: int, now: int): (r: seq<PickRow>)
    ensures |r| <= |picks|
    ensures forall p :: p in r <==> p in picks && Counts(p, since, now)
  {
    if picks == [] then []
    else
      var last := picks[|picks| - 1];
      ValidPicks(picks[..|picks| - 1], since, now) + (if Counts(last, since, now) then [last] else [])
  }

  /** The filter keeps order: it distributes over concatenation ... */
  lemma {:induction false} ValidPicksAppend(a: seq<PickRow>, b: seq<PickRow>, since: int, now: int)
    ensures ValidPicks(a + b, since, now) == ValidPicks(a, since, now) + ValidPicks(b, since, now)
    decreases |b|
  {
    if b == [] {
      assert a + b == a;
    } else {
      assert (a + b)[..|a + b| - 1] == a + b[..|b| - 1];
      ValidPicksAppend(a, b[..|b| - 1], since, now);
    }
  }

  /** ... and on one pick it keeps that pick exactly when it counts. */
  lemma ValidPicksOne(p: PickRow, since: int, now: int)
    ensures ValidPicks([p], since, now) == if Counts(p, since, now) then [p] else []
  {
    assert [p][..0] == [];
  }

  function GameTimeOf(p: PickRow): int {
    if p.game.Some? && p.game.value.gameTime.Some? then p.game.value.gameTime.value else Epoch
  }

  // ---------------------------------------------------------------------------
  // Per-user results, as independent definitions over the counted picks

  predicate PickOf(uid: string, p: PickRow) {
    p.userId == Some(uid)
  }

  /** The number of uid's picks in vs. */
  function PickCount(uid: string, vs: seq<PickRow>): nat {
    if vs == [] then 0 else PickCount(uid, vs[..|vs| - 1]) + (if PickOf(uid, vs[|vs| - 1]) then 1 else 0)
  }

  /** The sum of the points of uid's picks in vs. */
  function UserTotal(uid: string, vs: seq<PickRow>): int {
    if vs == [] then 0
    else UserTotal(uid, vs[..|vs| - 1]) + (if PickOf(uid, vs[|vs| - 1]) then PickPoints(vs[|vs| - 1]) else 0)
  }

  /** (last_game_time, last_game_points) after visiting vs in order: a pick of uid
      replaces them when its game time is strictly later. */
  function LastGame(uid: string, vs: seq<PickRow>): (int, int) {
    if vs == [] then (Epoch, 0)
    else
      var prev := LastGame(uid, vs[..|vs| - 1]);
      var p := vs[|vs| - 1];
      if PickOf(uid, p) && GameTimeOf(p) > prev.0 then (GameTimeOf(p), PickPoints(p)) else prev
  }

  /** Pick k is uid's pick with the latest game time, and no earlier pick of uid
      has that time. */
  predicate FirstLatest(uid: string, vs: seq<PickRow>, k: int) {
    && 0 <= k < |vs|
    && PickOf(uid, vs[k])
    && (forall j :: 0 <= j < |vs| && PickOf(uid, vs[j]) ==> GameTimeOf(vs[j]) <= GameTimeOf(vs[k]))
    && (forall j :: 0 <= j < k && PickOf(uid, vs[j]) ==> GameTimeOf(vs[j]) < GameTimeOf(vs[k]))
  }

  /** Each pick is worth at most 3 points, so a total lies in [0, 3 * picks]. */
  lemma {:induction false} UserTotalBounds(uid: string, vs: seq<PickRow>)
    ensures 0 <= UserTotal(uid, vs) <= 3 * PickCount(uid, vs)
  {
    if vs != [] {
      UserTotalBounds(uid, vs[..|vs| - 1]);
    }
  }

  /** last_game_points is the points of the first of uid's picks with the latest game
      time, when that time is after the epoch, and 0 otherwise. */
  lemma {:induction false} LastGameIsFirstLatest(uid: string, vs: seq<PickRow>)
    ensures var (t, pts) := LastGame(uid, vs);
            && t >= Epoch
            && (forall j :: 0 <= j < |vs| && PickOf(uid, vs[j]) ==> GameTimeOf(vs[j]) <= t)
            && (t == Epoch ==> pts == 0)
            && (t > Epoch ==> exists k :: FirstLatest(uid, vs, k) && GameTimeOf(vs[k]) == t && pts == PickPoints(vs[k]))
  {
    if vs != [] {
      var init, p := vs[..|vs| - 1], vs[|vs| - 1];
      LastGameIsFirstLatest(uid, init);
      var (t0, pts0) := LastGame(uid, init);
      forall j | 0 <= j < |init| ensures init[j] == vs[j] {
      }
      if PickOf(uid, p) && GameTimeOf(p) > t0 {
        assert FirstLatest(uid, vs, |vs| - 1);
      } else if t0 > Epoch {
        var k :| FirstLatest(uid, init, k) && GameTimeOf(init[k]) == t0 && pts0 == PickPoints(init[k]);
        assert FirstLatest(uid, vs, k);
      }
    }
  }

  // ---------------------------------------------------------------------------
  // The table

  function DisplayName(u: UserRow): string {
    if u.username.Some? && u.username.value != "" then u.username.value else "Unknown"
  }

  function Avatar(u: UserRow): Option<string> {
    if u.avatarUrl.Some? && u.avatarUrl.value != "" then u.avatarUrl else None
  }

  /** The initial dictionary entry of a user. */
  function ZeroScore(u: UserRow): Score {
    Score(u.id, DisplayName(u), Avatar(u), 0, 0, Epoch)
  }

  /** A user's dictionary entry after the counted picks vs. */
  function Tallied(u: UserRow, vs: seq<PickRow>): Score {
    var (t, pts) := LastGame(u.id, vs);
    Score(u.id, DisplayName(u), Avatar(u), UserTotal(u.id, vs), pts, t)
  }

  function ToEntry(s: Score): Entry {
    Entry(s.id, s.username, s.avatarUrl, s.totalPoints, s.lastGamePoints)
  }

  /** The rows before sorting: one per user, in the order the users were loaded. */
  function Unsorted(users: seq<UserRow>, vs: seq<PickRow>): (r: seq<Entry>)
    ensures |r| == |users|
  {
    seq(|users|, i requires 0 <= i < |users| => ToEntry(Tallied(users[i], vs)))
  }

  /** Sorting by this key ascending is sorting by total points descending. */
  function TotalKey(e: Entry): int {
    -e.totalPoints
  }

  /** The dictionary holds exactly the users' ids, each mapped to its user's entry
      after the counted picks vs. */
  ghost predicate Reflects(scores: map<string, Score>, users: seq<UserRow>, vs: seq<PickRow>) {
    && (forall id :: id in scores <==> exists k :: 0 <= k < |users| && users[k].id == id)
    && (forall k :: 0 <= k < |users| ==> scores[users[k].id] == Tallied(users[k], vs))
  }

  /** Step 2: one zeroed entry per user, keyed by id. */
  method InitScores(users: seq<UserRow>) returns (scores: map<string, Score>)
    requires DistinctIds(users)
    ensures Reflects(scores, users, [])
    ensures forall k :: 0 <= k < |users| ==> scores[users[k].id] == ZeroScore(users[k])
  {
    scores := map[];
    for i := 0 to |users|
      invariant forall id :: id in scores <==> exists k :: 0 <= k < i && users[k].id == id
      invariant forall k :: 0 <= k < i ==> scores[users[k].id] == ZeroScore(users[k])
    {
      scores := scores[users[i].id := ZeroScore(users[i])];
    }
  }

  /** One iteration of step 5: pick vs[i] adds its points to its user, when that user
      is in the dictionary, and becomes the user's last game when it is strictly later. */
  method TallyPick(scores: map<string, Score>, users: seq<UserRow>, vs: seq<PickRow>, i: nat)
    returns (next: map<string, Score>)
    requires i < |vs| && vs[i].userId.Some?
    requires Reflects(scores, users, vs[..i])
    ensures Reflects(next, users, vs[..i + 1])
  {
    var p := vs[i];
    assert vs[..i + 1][..i] == vs[..i];
    assert vs[..i + 1][i] == p;
    var userId := p.userId.value;
    if userId !in scores {
      return scores;
    }
    var pts := PickPoints(p);
    var entry := scores[userId];
    entry := entry.(totalPoints := entry.totalPoints + pts);
    var gameTime := GameTimeOf(p);
    if gameTime > entry.lastGameTime {
      entry := entry.(lastGameTime := gameTime, lastGamePoints := pts);
    }
    next := scores[userId := entry];
  }

  /** Step 6 before sorting: the dictionary's values in insertion order, which is the
      order of the users, projected to the returned fields. */
  method Rows(scores: map<string, Score>, users: seq<UserRow>, vs: seq<PickRow>)
    returns (rows: seq<Entry>)
    requires Reflects(scores, users, vs)
    ensures rows == Unsorted(users, vs)
  {
    rows := [];
    for i := 0 to |users|
      invariant rows == Unsorted(users, vs)[..i]
    {
      rows := rows + [ToEntry(scores[users[i].id])];
    }
  }

  /** The sorted table holds one row per user, each with that user's results. */
  lemma BoardMembers(users: seq<UserRow>, vs: seq<PickRow>)
    ensures |SortByKey(Unsorted(users, vs), TotalKey)| == |users|
    ensures forall u :: u in users ==> ToEntry(Tallied(u, vs)) in SortByKey(Unsorted(users, vs), TotalKey)
    ensures forall e :: e in SortByKey(Unsorted(users, vs), TotalKey) ==>
              exists u :: u in users && e == ToEntry(Tallied(u, vs))
  {
    var rows := Unsorted(users, vs);
    var board := SortByKey(rows, TotalKey);
    SortFacts(rows, TotalKey);
    forall u | u in users ensures ToEntry(Tallied(u, vs)) in board {
      var k :| 0 <= k < |users| && users[k] == u;
      assert rows[k] in multiset(rows);
    }
    forall e | e in board ensures exists u :: u in users && e == ToEntry(Tallied(u, vs)) {
      assert e in multiset(rows);
      var k :| 0 <= k < |rows| && rows[k] == e;
      assert users[k] in users;
    }
  }

  /** getLeaderboard from the loaded users on. */
  method GetLeaderboard(users: seq<UserRow>, picks: seq<PickRow>, since: int, now: int)
    returns (board: seq<Entry>)
    requires DistinctIds(users)
    ensures board == SortByKey(Unsorted(users, ValidPicks(picks, since, now)), TotalKey)
    ensures multiset(board) == multiset(Unsorted(users, ValidPicks(picks, since, now)))
    ensures forall i, j :: 0 <= i < j < |board| ==> board[i].totalPoints >= board[j].totalPoints
    ensures |board| == |users|
    ensures forall u :: u in users ==> ToEntry(Tallied(u, ValidPicks(picks, since, now))) in board
    ensures forall e :: e in board ==> exists u :: u in users && e == ToEntry(Tallied(u, ValidPicks(picks, since, now)))
  {
    var scores := InitScores(users);
    var valid := ValidPicks(picks, since, now);
    assert valid[..0] == [];
    for i := 0 to |valid|
      invariant Reflects(scores, users, valid[..i])
    {
      assert valid[i] in valid;
      scores := TallyPick(scores, users, valid, i);
    }
    assert valid[..|valid|] == valid;
    var rows := Rows(scores, users, valid);
    var table := new Entry[|rows|](k requires 0 <= k < |rows| => rows[k]);
    assert table[..] == rows;
    InsertionSort(table, TotalKey);
    board := table[..];
    SortFacts(rows, TotalKey);
    BoardMembers(users, valid);
  }
}
