/**
  Default-pick generation (the cron body of src/cron/defaultPicks.js): for every
  game about to start and every user with both defaults set, a default pick is
  prepared, games in the outer loop and users in the inner one; the candidates whose
  `userId:gameId` key already belongs to a stored pick are dropped, and the rest are
  inserted.

  The three queries are replaced by their results (games, users, existing picks);
  the clock is the parameter `now`, read once.
 */
module DefaultPicks {

  import opened Values

  /** A user as the users query returns it; a default is None when it is absent. */
  datatype UserDoc = UserDoc(id: string, defaultFirstGoal: Option<string>, defaultGWG: Option<string>)

  /** A prepared default pick. */
  datatype Candidate = Candidate(userId: string, gameId: string,
                                 firstGoalPlayerId: Option<string>, gwGoalPlayerId: Option<string>,
                                 isDefault: bool, submittedAt: int)

  /** A stored pick as the existing-picks query returns it ('userId gameId'). */
  datatype ExistingPick = ExistingPick(userId: string, gameId: string)

  /** A game as the games query sees it. */
  datatype GameDoc = GameDoc(id: string, isActive: bool, gameTime: Option<int>)

  /** One hour in milliseconds: the look-ahead window of the games query. */
  const WindowMs: int := 60 * 60 * 1000

  // ---------------------------------------------------------------------------
  // Candidates

  /** users.find(u => u._id.equals(id)): the first user with that id. */
  function FindUser(users: seq<UserDoc>, id: string): (r: Option<UserDoc>)
    ensures r.Some? <==> exists k :: 0 <= k < |users| && users[k].id == id
    ensures r.Some? ==> exists k :: 0 <= k < |users| && users[k] == r.value && r.value.id == id &&
                                   forall m :: 0 <= m < k ==> users[m].id != id
  {
    if users == [] then None
    else if users[0].id == id then Some(users[0])
    else
      var rest := FindUser(users[1..], id);
      if rest.Some? then
        var k :| 0 <= k < |users[1..]| && users[1..][k] == rest.value && rest.value.id == id &&
                 forall m :: 0 <= m < k ==> users[1..][m].id != id;
        assert users[k + 1] == rest.value;
        Some(rest.value)
      else
        assert forall k :: 1 <= k < |users| ==> users[k] == users[1..][k - 1];
        None
  }

  /** The candidate for user u and game gameId; its defaults come from the user that
      users.find returns for u's id. */
  function MakeCandidate(gameId: string, u: UserDoc, users: seq<UserDoc>, now: int): (r: Candidate)
    requires u in users
    ensures r.userId == u.id && r.gameId == gameId && r.isDefault && r.submittedAt == now
  {
    var found := FindUser(users, u.id).value;
    Candidate(u.id, gameId, found.defaultFirstGoal, found.defaultGWG, true, now)
  }

  /** A candidate's defaults are those of the first user in the list with its id. */
  lemma CandidateDefaults(gameId: string, u: UserDoc, users: seq<UserDoc>, now: int)
    requires u in users
    ensures var c := MakeCandidate(gameId, u, users, now);
            exists k :: 0 <= k < |users| && users[k].id == u.id &&
                        (forall m :: 0 <= m < k ==> users[m].id != u.id) &&
                        c.firstGoalPlayerId == users[k].defaultFirstGoal && c.gwGoalPlayerId == users[k].defaultGWG
  {
  }

  /** The inner loop for one game: one candidate per user of us, in order. */
  function Row(gameId: string, us: seq<UserDoc>, users: seq<UserDoc>, now: int): (r: seq<Candidate>)
    requires forall u :: u in us ==> u in users
    ensures |r| == |us|
  {
    if us == [] then []
    else Row(gameId, us[..|us| - 1], users, now) + [MakeCandidate(gameId, us[|us| - 1], users, now)]
  }

  /** Candidate j of a game's row is the one of user j. */
  lemma {:induction false} RowIndex(gameId: string, us: seq<UserDoc>, users: seq<UserDoc>, now: int, j: nat)
    requires forall u :: u in us ==> u in users
    requires j < |us|
    ensures Row(gameId, us, users, now)[j] == MakeCandidate(gameId, us[j], users, now)
  {
    var init := us[..|us| - 1];
    if j < |init| {
      RowIndex(gameId, init, users, now, j);
    }
  }

  /** Both loops: the rows of the games, in order. */
  function Cross(games: seq<string>, users: seq<UserDoc>, now: int): seq<Candidate>
  {
    if games == [] then []
    else Cross(games[..|games| - 1], users, now) + Row(games[|games| - 1], users, users, now)
  }

  lemma {:induction false} CrossLength(games: seq<string>, users: seq<UserDoc>, now: int)
    ensures |Cross(games, users, now)| == |games| * |users|
  {
    if games != [] {
      CrossLength(games[..|games| - 1], users, now);
      assert (|games| - 1) * |users| + |users| == |games| * |users|;
    }
  }

  /** Nothing is generated when there is no game or no user. */
  lemma CrossEmptyIff(games: seq<string>, users: seq<UserDoc>, now: int)
    ensures Cross(games, users, now) == [] <==> games == [] || users == []
  {
    CrossLength(games, users, now);
  }

  /** The loops over a + b produce the candidates of a, then those of b. */
  lemma {:induction false} CrossAppend(a: seq<string>, b: seq<string>, users: seq<UserDoc>, now: int)
    ensures Cross(a + b, users, now) == Cross(a, users, now) + Cross(b, users, now)
  {
    if b == [] {
      assert a + b == a;
    } else {
      var init, g := b[..|b| - 1], b[|b| - 1];
      var ab := a + b;
      assert ab[..|ab| - 1] == a + init && ab[|ab| - 1] == g;
      CrossAppend(a, init, users, now);
      calc {
        Cross(ab, users, now);
      ==
        Cross(a + init, users, now) + Row(g, users, users, now);
      ==
        Cross(a, users, now) + Cross(init, users, now) + Row(g, users, users, now);
      ==
        Cross(a, users, now) + (Cross(init, users, now) + Row(g, users, users, now));
      }
    }
  }

  /** The candidates of game i sit between those of the games before and after it. */
  lemma CrossSplit(games: seq<string>, users: seq<UserDoc>, now: int, i: nat)
    requires i < |games|
    ensures Cross(games, users, now) ==
            Cross(games[..i], users, now) + Row(games[i], users, users, now) + Cross(games[i + 1..], users, now)
  {
    var before, here, after := games[..i], [games[i]], games[i + 1..];
    assert games == before + here + after;
    CrossAppend(before + here, after, users, now);
    CrossAppend(before, here, users, now);
    assert here[..0] == [];
  }

  /** Candidate number i * |users| + j is the one of game i and user j. */
  lemma CrossIndex(games: seq<string>, users: seq<UserDoc>, now: int, i: nat, j: nat)
    requires i < |games| && j < |users|
    ensures i * |users| + j < |Cross(games, users, now)|
    ensures Cross(games, users, now)[i * |users| + j] == MakeCandidate(games[i], users[j], users, now)
  {
    CrossSplit(games, users, now, i);
    var pre := Cross(games[..i], users, now);
    var row := Row(games[i], users, users, now);
    var post := Cross(games[i + 1..], users, now);
    CrossLength(games[..i], users, now);
    assert |pre| == i * |users|;
    RowIndex(games[i], users, users, now, j);
    assert (pre + row + post)[|pre| + j] == row[j];
  }

  /** Every candidate is a default pick stamped now, for a listed game and user. */
  lemma {:induction false} CrossMembers(games: seq<string>, users: seq<UserDoc>, now: int, c: Candidate)
    requires c in Cross(games, users, now)
    ensures c.isDefault && c.submittedAt == now
    ensures c.gameId in games
    ensures exists u :: u in users && c == MakeCandidate(c.gameId, u, users, now)
  {
    var init := games[..|games| - 1];
    if c in Cross(init, users, now) {
      CrossMembers(init, users, now, c);
    } else {
      var row := Row(games[|games| - 1], users, users, now);
      var j :| 0 <= j < |row| && row[j] == c;
      RowIndex(games[|games| - 1], users, users, now, j);
      assert users[j] in users;
    }
  }

  // ---------------------------------------------------------------------------
  // Keys and the filter

  /** `${userId}:${gameId}` */
  function Key(userId: string, gameId: string): string {
    userId + ":" + gameId
  }

  predicate ColonFree(s: string) {
    forall k :: 0 <= k < |s| ==> s[k] != ':'
  }

  /** Keys of ids without a colon (ObjectId hex text has none) identify the pair. */
  lemma KeyInjective(u1: string, g1: string, u2: string, g2: string)
    requires ColonFree(u1) && ColonFree(u2)
    requires Key(u1, g1) == Key(u2, g2)
    ensures u1 == u2 && g1 == g2
  {
    var k1, k2 := Key(u1, g1), Key(u2, g2);
    assert k1[|u1|] == ':' && k2[|u2|] == ':';
    assert |u1| == |u2|;
    assert u1 == k1[..|u1|] && u2 == k2[..|u2|];
    assert g1 == k1[|u1| + 1..] && g2 == k2[|u2| + 1..];
  }

  /** existingSet */
  function ExistingKeys(existing: seq<ExistingPick>): set<string> {
    set e | e in existing :: Key(e.userId, e.gameId)
  }

  function CandidateKey(c: Candidate): string {
    Key(c.userId, c.gameId)
  }

  /** toInsert.filter(p => !existingSet.has(key(p))) */
  function KeepNew(cs: seq<Candidate>, keys: set<string>): (r: seq<Candidate>)
    ensures |r| <= |cs|
    ensures forall c :: c in r <==> c in cs && CandidateKey(c) !in keys
  {
    if cs == [] then []
    else
      var last := cs[|cs| - 1];
      KeepNew(cs[..|cs| - 1], keys) + (if CandidateKey(last) in keys then [] else [last])
  }

  /** The filter keeps order: it distributes over concatenation. */
  lemma {:induction false} KeepNewAppend(a: seq<Candidate>, b: seq<Candidate>, keys: set<string>)
    ensures KeepNew(a + b, keys) == KeepNew(a, keys) + KeepNew(b, keys)
  {
    if b == [] {
      assert a + b == a;
    } else {
      assert (a + b)[..|a + b| - 1] == a + b[..|b| - 1];
      KeepNewAppend(a, b[..|b| - 1], keys);
    }
  }

  /** Nothing is dropped when no key is taken. */
  lemma {:induction false} KeepNewNothingTaken(cs: seq<Candidate>, keys: set<string>)
    requires forall c :: c in cs ==> CandidateKey(c) !in keys
    ensures KeepNew(cs, keys) == cs
  {
    if cs != [] {
      KeepNewNothingTaken(cs[..|cs| - 1], keys);
      assert cs[..|cs| - 1] + [cs[|cs| - 1]] == cs;
    }
  }

  /** With colon-free ids, a candidate survives exactly when no stored pick has its
      user and game. */
  lemma SurvivesIffNoStoredPick(cs: seq<Candidate>, existing: seq<ExistingPick>, c: Candidate)
    requires c in cs && ColonFree(c.userId)
    requires forall e :: e in existing ==> ColonFree(e.userId)
    ensures c in KeepNew(cs, ExistingKeys(existing)) <==>
            forall e :: e in existing ==> !(e.userId == c.userId && e.gameId == c.gameId)
  {
    if c !in KeepNew(cs, ExistingKeys(existing)) {
      var e :| e in existing && Key(e.userId, e.gameId) == CandidateKey(c);
      KeyInjective(e.userId, e.gameId, c.userId, c.gameId);
    }
  }

  // ---------------------------------------------------------------------------
  // The cron body

  /** The inner loop: appends one candidate per user for game gameId. */
  method PushRow(toInsert: seq<Candidate>, gameId: string, users: seq<UserDoc>, now: int)
    returns (extended: seq<Candidate>)
    ensures extended == toInsert + Row(gameId, users, users, now)
  {
    extended := toInsert;
    for j := 0 to |users|
      invariant extended == toInsert + Row(gameId, users[..j], users, now)
    {
      var u := users[j];
      var found := FindUser(users, u.id);
      assert users[..j + 1][..j] == users[..j];
      extended := extended + [Candidate(u.id, gameId, found.value.defaultFirstGoal, found.value.defaultGWG, true, now)];
    }
    assert users[..|users|] == users;
  }

  /** Builds toInsert with the nested loops, games outside. */
  method BuildCandidates(games: seq<string>, users: seq<UserDoc>, now: int) returns (toInsert: seq<Candidate>)
    ensures toInsert == Cross(games, users, now)
  {
    toInsert := [];
    for i := 0 to |games|
      invariant toInsert == Cross(games[..i], users, now)
    {
      assert games[..i + 1][..i] == games[..i];
      toInsert := PushRow(toInsert, games[i], users, now);
    }
    assert games[..|games|] == games;
  }

  /** Builds existingSet and filters toInsert with it. */
  method FilterExisting(toInsert: seq<Candidate>, existing: seq<ExistingPick>) returns (filtered: seq<Candidate>)
    ensures filtered == KeepNew(toInsert, ExistingKeys(existing))
  {
    var existingSet: set<string> := {};
    for k := 0 to |existing|
      invariant existingSet == ExistingKeys(existing[..k])
    {
      assert existing[..k + 1] == existing[..k] + [existing[k]];
      existingSet := existingSet + {Key(existing[k].userId, existing[k].gameId)};
    }
    assert existing[..|existing|] == existing;
    filtered := [];
    for k := 0 to |toInsert|
      invariant filtered == KeepNew(toInsert[..k], existingSet)
    {
      assert toInsert[..k + 1][..k] == toInsert[..k];
      var p := toInsert[k];
      if Key(p.userId, p.gameId) !in existingSet {
        filtered := filtered + [p];
      }
    }
    assert toInsert[..|toInsert|] == toInsert;
  }

  /** The cron body from the games query's result on: returns the picks handed to
      insertMany, or [] when it returns early or the insert is skipped. */
  method GenerateDefaultPicks(games: seq<string>, users: seq<UserDoc>, existing: seq<ExistingPick>, now: int)
    returns (inserted: seq<Candidate>)
    ensures games == [] || users == [] ==> inserted == []
    ensures inserted == KeepNew(Cross(games, users, now), ExistingKeys(existing))
  {
    CrossEmptyIff(games, users, now);
    if |games| == 0 {
      return [];
    }
    if |users| == 0 {
      return [];
    }
    var toInsert := BuildCandidates(games, users, now);
    var filtered := FilterExisting(toInsert, existing);
    if |filtered| > 0 {
      inserted := filtered;
    } else {
      inserted := [];
    }
  }

  // ---------------------------------------------------------------------------
  // The two queries, and what they hand to the loops

  /** The games query: active games starting within the next hour. */
  function GamesInWindow(all: seq<GameDoc>, now: int): (r: seq<string>)
    ensures forall id :: id in r <==> exists g :: g in all && g.id == id && InWindow(g, now)
  {
    if all == [] then []
    else
      var last := all[|all| - 1];
      assert forall g :: g in all <==> g in all[..|all| - 1] || g == last;
      GamesInWindow(all[..|all| - 1], now) + (if InWindow(last, now) then [last.id] else [])
  }

  predicate InWindow(g: GameDoc, now: int) {
    g.isActive && g.gameTime.Some? && now <= g.gameTime.value <= now + WindowMs
  }

  predicate HasBothDefaults(u: UserDoc) {
    u.defaultFirstGoal.Some? && u.defaultGWG.Some?
  }

  /** The users query's filter: users with both defaults set. */
  function Qualifying(all: seq<UserDoc>): (r: seq<UserDoc>)
    ensures forall u :: u in r <==> u in all && HasBothDefaults(u)
  {
    if all == [] then []
    else
      var last := all[|all| - 1];
      Qualifying(all[..|all| - 1]) + (if HasBothDefaults(last) then [last] else [])
  }

  /** As written, the users query projects to the id alone, so the loops see no defaults. */
  function LoadedAsWritten(all: seq<UserDoc>): (r: seq<UserDoc>)
    ensures |r| == |Qualifying(all)|
    ensures forall k :: 0 <= k < |r| ==> r[k] == UserDoc(Qualifying(all)[k].id, None, None)
    ensures forall u :: u in r ==> u.defaultFirstGoal.None? && u.defaultGWG.None?
  {
    var q := Qualifying(all);
    seq(|q|, k requires 0 <= k < |q| => UserDoc(q[k].id, None, None))
  }

  /** As written, every candidate lacks both player ids, which the pick schema requires. */
  lemma AsWrittenCandidatesLackDefaults(games: seq<string>, all: seq<UserDoc>, now: int, c: Candidate)
    requires c in Cross(games, LoadedAsWritten(all), now)
    ensures c.firstGoalPlayerId.None? && c.gwGoalPlayerId.None?
  {
    var users := LoadedAsWritten(all);
    CrossMembers(games, users, now, c);
    var u :| u in users && c == MakeCandidate(c.gameId, u, users, now);
    assert FindUser(users, u.id).value in users;
  }

  /** The evident intent is that the users query also returns the two defaults, that is,
      the loops see Qualifying(all) itself. Each candidate then carries the defaults of a
      qualifying user with its id. */
  lemma CandidatesCarryDefaults(games: seq<string>, all: seq<UserDoc>, now: int, c: Candidate)
    requires c in Cross(games, Qualifying(all), now)
    ensures c.firstGoalPlayerId.Some? && c.gwGoalPlayerId.Some?
    ensures exists u :: u in all && HasBothDefaults(u) && u.id == c.userId &&
                        c.firstGoalPlayerId == u.defaultFirstGoal && c.gwGoalPlayerId == u.defaultGWG
  {
    var users := Qualifying(all);
    CrossMembers(games, users, now, c);
    var u :| u in users && c == MakeCandidate(c.gameId, u, users, now);
    var found := FindUser(users, u.id).value;
    assert found in users;
  }

  /** One game and one user give the one candidate carrying that user's defaults. */
  lemma CrossOfOne(gameId: string, v: UserDoc, now: int)
    ensures Cross([gameId], [v], now) == [Candidate(v.id, gameId, v.defaultFirstGoal, v.defaultGWG, true, now)]
  {
    assert [gameId][..0] == [];
    assert [v][..0] == [];
    assert FindUser([v], v.id) == Some(v);
  }

  /** The discrepancy on one game starting within the hour and one user with both
      defaults set, and no stored pick: as written the run prepares a pick without
      player ids; with the defaults loaded, the pick carries them. */
  lemma AsWrittenVersusCorrected(now: int)
    ensures var g := GameDoc("g1", true, Some(now + 10));
            var u := UserDoc("u1", Some("p1"), Some("p2"));
            && KeepNew(Cross(GamesInWindow([g], now), LoadedAsWritten([u]), now), ExistingKeys([]))
               == [Candidate("u1", "g1", None, None, true, now)]
            && KeepNew(Cross(GamesInWindow([g], now), Qualifying([u]), now), ExistingKeys([]))
               == [Candidate("u1", "g1", Some("p1"), Some("p2"), true, now)]
  {
    var g := GameDoc("g1", true, Some(now + 10));
    var u := UserDoc("u1", Some("p1"), Some("p2"));
    var bare := UserDoc("u1", None, None);
    assert InWindow(g, now);
    assert [g][..0] == [];
    assert GamesInWindow([g], now) == ["g1"];
    assert [u][..0] == [];
    assert Qualifying([u]) == [u];
    assert LoadedAsWritten([u]) == [bare];
    CrossOfOne("g1", bare, now);
    CrossOfOne("g1", u, now);
    KeepNewNothingTaken([Candidate("u1", "g1", None, None, true, now)], ExistingKeys([]));
    KeepNewNothingTaken([Candidate("u1", "g1", Some("p1"), Some("p2"), true, now)], ExistingKeys([]));
  }

  /** The cron body as written, with the queries' filters applied to whole collections:
      the users query returns ids only, so every pick it would insert lacks both player
      ids. */
  method RunDefaultPicksAsWritten(allGames: seq<GameDoc>, allUsers: seq<UserDoc>, existing: seq<ExistingPick>, now: int)
    returns (inserted: seq<Candidate>)
    ensures inserted == KeepNew(Cross(GamesInWindow(allGames, now), LoadedAsWritten(allUsers), now),
                                ExistingKeys(existing))
    ensures forall c :: c in inserted ==>
              && c.isDefault && c.submittedAt == now
              && c.firstGoalPlayerId.None? && c.gwGoalPlayerId.None?
              && CandidateKey(c) !in ExistingKeys(existing)
  {
    var games := GamesInWindow(allGames, now);
    var users := LoadedAsWritten(allUsers);
    inserted := GenerateDefaultPicks(games, users, existing, now);
    forall c | c in inserted
      ensures && c.isDefault && c.submittedAt == now
              && c.firstGoalPlayerId.None? && c.gwGoalPlayerId.None?
    {
      CrossMembers(games, users, now, c);
      AsWrittenCandidatesLackDefaults(games, allUsers, now, c);
    }
  }

  /** The corrected cron body: as above, but the users query returns the defaults
      (the loops see Qualifying(allUsers)). Every inserted pick is a default pick for a game
      starting within the hour, by a user with both defaults, carrying them, and with
      no stored pick for its key. */
  method RunDefaultPicks(allGames: seq<GameDoc>, allUsers: seq<UserDoc>, existing: seq<ExistingPick>, now: int)
    returns (inserted: seq<Candidate>)
    ensures inserted == KeepNew(Cross(GamesInWindow(allGames, now), Qualifying(allUsers), now),
                                ExistingKeys(existing))
    ensures forall c :: c in inserted ==>
              && c.isDefault && c.submittedAt == now
              && (exists g :: g in allGames && g.id == c.gameId && InWindow(g, now))
              && (exists u :: u in allUsers && HasBothDefaults(u) && u.id == c.userId &&
                              c.firstGoalPlayerId == u.defaultFirstGoal && c.gwGoalPlayerId == u.defaultGWG)
              && CandidateKey(c) !in ExistingKeys(existing)
  {
    var games := GamesInWindow(allGames, now);
    var users := Qualifying(allUsers);
    inserted := GenerateDefaultPicks(games, users, existing, now);
    forall c | c in inserted
      ensures && c.isDefault && c.submittedAt == now
              && (exists g :: g in allGames && g.id == c.gameId && InWindow(g, now))
              && (exists u :: u in allUsers && HasBothDefaults(u) && u.id == c.userId &&
                              c.firstGoalPlayerId == u.defaultFirstGoal && c.gwGoalPlayerId == u.defaultGWG)
    {
      CrossMembers(games, users, now, c);
      CandidatesCarryDefaults(games, allUsers, now, c);
    }
  }
}
