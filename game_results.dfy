/**
  Game-result derivation (src/cron/fetchGameResults.js): from one game's
  play-by-play payload it derives the tracked team's first goal, the game-winning
  goal, the final score and the winner, and writes them to the stored game only
  when something differs.

  The database is replaced by values: the Player collection is a map from external
  player id to internal id, the stored game is a GameDoc, and the write is the
  returned Outcome. The clock is the integer `now` in milliseconds.
 */
module GameResults {

  import opened Values
  import opened StableSort
  import Decimal
  import FetchClient

  /** The tracked team. */
  const StarsTeamCode: string := "DAL"
  /** The goalie credited with the game-winning goal of a shootout the tracked team won. */
  const ShootoutGoalieId: int := 8479979
  /** Default of GAME_FINAL_CACHE_HOURS. */
  const DefaultFinalCacheCutoffHours: int := 48

  // ---------------------------------------------------------------------------
  // The play-by-play payload. A key that is missing reads as None; a missing
  // team block reads as a block whose fields are all None, since the code only
  // reaches into it through optional chaining.

  datatype Details = Details(eventOwnerTeamId: Option<int>, scoringPlayerId: Option<int>)

  datatype Play = Play(typeDescKey: string, sortOrder: int, details: Option<Details>)

  datatype TeamBlock = TeamBlock(id: Option<int>, abbrev: Option<string>, score: Option<int>)

  /** `lastPeriodType` is gameOutcome.lastPeriodType; `shootoutInUse` is true only
      when the payload holds the boolean true. A score that is not a finite number
      reads as None. */
  datatype Payload = Payload(
    plays: seq<Play>,
    homeTeam: TeamBlock,
    awayTeam: TeamBlock,
    shootoutInUse: bool,
    lastPeriodType: Option<string>)

  // ---------------------------------------------------------------------------
  // The stored game, with the field names the core reads.

  datatype GameDoc = GameDoc(
    gamePk: Option<int>,
    gameTime: Option<int>,
    homeTeam: string,
    awayTeam: string,
    firstGoalPlayerId: Ref,
    gwGoalPlayerId: Ref,
    finalScore: Option<string>,
    winner: Option<string>)

  /** The Player collection, as playerId -> internal id (hex text). */
  type PlayerIndex = map<int, string>

  /** The `update` object: absent player fields are None. */
  datatype Update = Update(
    firstGoalPlayerId: Option<string>,
    gwGoalPlayerId: Option<string>,
    finalScore: string,
    winner: string)

  /** Deployment settings (GAME_SYNC_MAX_RETRIES, GAME_FINAL_CACHE_HOURS). */
  datatype Settings = Settings(maxRetries429: int, finalCacheCutoffHours: int)

  const DefaultSettings: Settings :=
    Settings(FetchClient.DefaultMaxRetries429, DefaultFinalCacheCutoffHours)

  /** What processing one game did. Only Written stands for a database write. */
  datatype Outcome =
    | InvalidGame                          // no gamePk
    | NotStarted                           // no gameTime, or it lies in the future
    | CachedFinal                          // settled and older than the cache horizon
    | FetchFailed(error: FetchClient.FetchError)
    | NotFinal                             // the payload scores are not both numbers
    | Unchanged(update: Update)
    | Written(update: Update)

  // ---------------------------------------------------------------------------
  // Extraction

  /** The goal plays, in payload order. */
  function ExtractScoringPlays(plays: seq<Play>): (r: seq<Play>)
    ensures |r| <= |plays|
    ensures forall p :: p in r <==> p in plays && p.typeDescKey == "goal"
  {
    if plays == [] then []
    else
      var last := plays[|plays| - 1];
      ExtractScoringPlays(plays[..|plays| - 1]) + (if last.typeDescKey == "goal" then [last] else [])
  }

  /** The filter keeps the payload's order: it distributes over concatenation. */
  lemma {:induction false} ExtractAppend(a: seq<Play>, b: seq<Play>)
    ensures ExtractScoringPlays(a + b) == ExtractScoringPlays(a) + ExtractScoringPlays(b)
  {
    if b == [] {
      assert a + b == a;
    } else {
      assert (a + b)[..|a + b| - 1] == a + b[..|b| - 1];
      ExtractAppend(a, b[..|b| - 1]);
    }
  }

  /** A single play is kept exactly when it is a goal. */
  lemma ExtractOne(p: Play)
    ensures ExtractScoringPlays([p]) == if p.typeDescKey == "goal" then [p] else []
  {
    assert [p][..0] == [];
  }

  function SortOrderKey(p: Play): int {
    p.sortOrder
  }

  /** getScorerExternalId: details.scoringPlayerId, or null when the play has no
      details or no scorer. */
  function ScorerExternalId(p: Play): (r: Option<int>)
    ensures r.None? <==> p.details.None? || p.details.value.scoringPlayerId.None?
    ensures r.Some? ==> p.details.Some? && r == p.details.value.scoringPlayerId
  {
    match p.details
    case None => None
    case Some(d) => d.scoringPlayerId
  }

  function OwnerTeamId(p: Play): Option<int> {
    match p.details
    case None => None
    case Some(d) => d.eventOwnerTeamId
  }

  // ---------------------------------------------------------------------------
  // First goal of the tracked team

  /** The tracked team's id: the away block's when its abbrev is DAL, else the home block's. */
  function StarsTeamId(payload: Payload): Option<int> {
    if payload.awayTeam.abbrev == Some(StarsTeamCode) then payload.awayTeam.id else payload.homeTeam.id
  }

  /** The index of the first play owned by team (strict equality, so a missing
      owner matches a missing team id). */
  function FirstOwnedIndex(plays: seq<Play>, team: Option<int>): (r: Option<nat>)
    ensures r.Some? ==> r.value < |plays| && OwnerTeamId(plays[r.value]) == team
    ensures r.Some? ==> forall j :: 0 <= j < r.value ==> OwnerTeamId(plays[j]) != team
    ensures r.None? ==> forall j :: 0 <= j < |plays| ==> OwnerTeamId(plays[j]) != team
  {
    if plays == [] then None
    else if OwnerTeamId(plays[0]) == team then Some(0)
    else
      match FirstOwnedIndex(plays[1..], team)
      case None => None
      case Some(k) => Some(k + 1)
  }

  /** findFirstStarsGoal: the first of the given plays owned by the tracked team. */
  function FindFirstStarsGoal(scoringPlays: seq<Play>, payload: Payload): (r: Option<Play>)
    ensures r.None? <==> forall p :: p in scoringPlays ==> OwnerTeamId(p) != StarsTeamId(payload)
    ensures r.Some? ==> r.value in scoringPlays && OwnerTeamId(r.value) == StarsTeamId(payload)
    ensures r.Some? ==> exists k :: 0 <= k < |scoringPlays| && scoringPlays[k] == r.value &&
                                   forall j :: 0 <= j < k ==> OwnerTeamId(scoringPlays[j]) != StarsTeamId(payload)
  {
    match FirstOwnedIndex(scoringPlays, StarsTeamId(payload))
    case None => None
    case Some(k) => Some(scoringPlays[k])
  }

  // ---------------------------------------------------------------------------
  // Game-winning goal

  /** What a goal's owner is matched against: the payload's team ids and the
      stored game's team codes. */
  datatype Attribution = Attribution(homeId: Option<int>, awayId: Option<int>, homeCode: string, awayCode: string)

  function AttributionOf(payload: Payload, homeCode: string, awayCode: string): Attribution {
    Attribution(payload.homeTeam.id, payload.awayTeam.id, homeCode, awayCode)
  }

  /** The team code of a play's owner: home first, then away, else none. */
  function TeamCodeOf(p: Play, at: Attribution): (r: Option<string>)
    ensures r.None? <==> OwnerTeamId(p) != at.homeId && OwnerTeamId(p) != at.awayId
    ensures OwnerTeamId(p) == at.homeId ==> r == Some(at.homeCode)
    ensures OwnerTeamId(p) == at.awayId && OwnerTeamId(p) != at.homeId ==> r == Some(at.awayCode)
  {
    var teamId := OwnerTeamId(p);
    if teamId == at.homeId then Some(at.homeCode)
    else if teamId == at.awayId then Some(at.awayCode)
    else None
  }

  /** A goal play that counts for the team with the given code. */
  predicate CreditedTo(p: Play, at: Attribution, code: string) {
    p.typeDescKey == "goal" && TeamCodeOf(p, at) == Some(code)
  }

  /** The number of goals in s credited to code. */
  function GoalsCredited(s: seq<Play>, at: Attribution, code: string): nat {
    if s == [] then 0
    else GoalsCredited(s[..|s| - 1], at, code) + (if CreditedTo(s[|s| - 1], at, code) then 1 else 0)
  }

  predicate ScoresPresent(payload: Payload) {
    payload.homeTeam.score.Some? && payload.awayTeam.score.Some?
  }

  /** The winning code: home when its score is higher, else away (also on a tie). */
  function WinningCode(home: int, away: int, homeCode: string, awayCode: string): string {
    if home > away then homeCode else awayCode
  }

  function LosingScore(home: int, away: int): int {
    if home < away then home else away
  }

  /** The scan from position i with goals credited so far: the first later goal
      credited to code at which the count reaches target. */
  function ScanForGoal(s: seq<Play>, i: nat, goals: int, at: Attribution, code: string, target: int): (r: Option<nat>)
    requires i <= |s|
    ensures r.Some? ==> i <= r.value < |s|
    decreases |s| - i
  {
    if i == |s| then None
    else if CreditedTo(s[i], at, code) then
      if goals + 1 == target then Some(i) else ScanForGoal(s, i + 1, goals + 1, at, code, target)
    else ScanForGoal(s, i + 1, goals, at, code, target)
  }

  /** The position in the ordered plays of the winner's (loser's final + 1)-th goal. */
  function GwgIndex(sorted: seq<Play>, payload: Payload, homeCode: string, awayCode: string): (r: Option<nat>)
    requires ScoresPresent(payload)
    ensures r.Some? ==> r.value < |sorted|
  {
    var home, away := payload.homeTeam.score.value, payload.awayTeam.score.value;
    ScanForGoal(sorted, 0, 0, AttributionOf(payload, homeCode, awayCode),
                WinningCode(home, away, homeCode, awayCode), LosingScore(home, away) + 1)
  }

  /** What findGWGPlayByLosingTotal returns for the given plays. */
  function GwgPlay(plays: seq<Play>, payload: Payload, homeCode: string, awayCode: string): Option<Play> {
    if !ScoresPresent(payload) then None
    else
      var sorted := SortByKey(plays, SortOrderKey);
      SortFacts(plays, SortOrderKey);
      match GwgIndex(sorted, payload, homeCode, awayCode)
      case None => None
      case Some(k) => Some(sorted[k])
  }

  /** findGWGPlayByLosingTotal: sorts the plays in place by sortOrder, then counts
      the winner's goals until the count reaches the loser's final score + 1. */
  method FindGwgPlayByLosingTotal(plays: array<Play>, payload: Payload, homeCode: string, awayCode: string)
    returns (r: Option<Play>)
    modifies plays
    ensures plays[..] == if ScoresPresent(payload) then SortByKey(old(plays[..]), SortOrderKey) else old(plays[..])
    ensures r == GwgPlay(old(plays[..]), payload, homeCode, awayCode)
  {
    if payload.homeTeam.score.None? || payload.awayTeam.score.None? {
      return None;
    }
    var home, away := payload.homeTeam.score.value, payload.awayTeam.score.value;
    var winningCode := WinningCode(home, away, homeCode, awayCode);
    var losingFinalScore := LosingScore(home, away);
    var at := AttributionOf(payload, homeCode, awayCode);
    InsertionSort(plays, SortOrderKey);
    ghost var sorted := plays[..];
    var winnerGoals := 0;
    var i := 0;
    while i < plays.Length
      invariant 0 <= i <= plays.Length
      invariant plays[..] == sorted
      invariant GwgIndex(sorted, payload, homeCode, awayCode)
             == ScanForGoal(sorted, i, winnerGoals, at, winningCode, losingFinalScore + 1)
    {
      var play := plays[i];
      if play.typeDescKey == "goal" {
        var teamCode := TeamCodeOf(play, at);
        if teamCode == Some(winningCode) {
          winnerGoals := winnerGoals + 1;
          if winnerGoals == losingFinalScore + 1 {
            return Some(play);
          }
        }
      }
      i := i + 1;
    }
    return None;
  }

  lemma {:induction false} GoalsCreditedPrefix(s: seq<Play>, at: Attribution, code: string, j: nat)
    requires j <= |s|
    ensures GoalsCredited(s[..j], at, code) <= GoalsCredited(s, at, code)
    decreases |s|
  {
    if j < |s| {
      var init := s[..|s| - 1];
      assert init[..j] == s[..j];
      GoalsCreditedPrefix(init, at, code, j);
    } else {
      assert s[..j] == s;
    }
  }

  lemma {:induction false} ScanFindsTarget(s: seq<Play>, i: nat, goals: int, at: Attribution, code: string, target: int)
    requires i <= |s| && goals == GoalsCredited(s[..i], at, code) && goals < target
    ensures var r := ScanForGoal(s, i, goals, at, code, target);
            (r.Some? <==> GoalsCredited(s, at, code) >= target) &&
            (r.Some? ==> CreditedTo(s[r.value], at, code) &&
                         GoalsCredited(s[..r.value], at, code) == target - 1 &&
                         GoalsCredited(s[..r.value + 1], at, code) == target)
    decreases |s| - i
  {
    if i == |s| {
      assert s[..i] == s;
    } else {
      assert s[..i + 1][..i] == s[..i];
      var next := GoalsCredited(s[..i + 1], at, code);
      if CreditedTo(s[i], at, code) && goals + 1 == target {
        GoalsCreditedPrefix(s, at, code, i + 1);
      } else {
        ScanFindsTarget(s, i + 1, next, at, code, target);
      }
    }
  }

  lemma {:induction false} ScanPastTarget(s: seq<Play>, i: nat, goals: int, at: Attribution, code: string, target: int)
    requires i <= |s| && goals >= target
    ensures ScanForGoal(s, i, goals, at, code, target).None?
    decreases |s| - i
  {
    if i < |s| {
      ScanPastTarget(s, i + 1, if CreditedTo(s[i], at, code) then goals + 1 else goals, at, code, target);
    }
  }

  /** The game-winning goal is the play at which the winner's goal count (goal plays
      only, owners resolved through the team ids) first reaches the loser's final
      score + 1: before it the winner had exactly the loser's final tally. There is
      one exactly when the winner has at least that many goals. */
  lemma GwgIsDecisive(sorted: seq<Play>, payload: Payload, homeCode: string, awayCode: string)
    requires ScoresPresent(payload)
    ensures var home, away := payload.homeTeam.score.value, payload.awayTeam.score.value;
            var at, code, losing := AttributionOf(payload, homeCode, awayCode),
                                    WinningCode(home, away, homeCode, awayCode), LosingScore(home, away);
            var r := GwgIndex(sorted, payload, homeCode, awayCode);
            (r.Some? <==> losing >= 0 && GoalsCredited(sorted, at, code) >= losing + 1) &&
            (r.Some? ==> CreditedTo(sorted[r.value], at, code) &&
                         GoalsCredited(sorted[..r.value], at, code) == losing &&
                         GoalsCredited(sorted[..r.value + 1], at, code) == losing + 1)
  {
    var home, away := payload.homeTeam.score.value, payload.awayTeam.score.value;
    var at, code, losing := AttributionOf(payload, homeCode, awayCode),
                            WinningCode(home, away, homeCode, awayCode), LosingScore(home, away);
    assert sorted[..0] == [];
    if losing >= 0 {
      ScanFindsTarget(sorted, 0, 0, at, code, losing + 1);
    } else {
      ScanPastTarget(sorted, 0, 0, at, code, losing + 1);
    }
  }

  lemma {:induction false} GoalsCreditedInsert(s: seq<Play>, x: Play, at: Attribution, code: string)
    ensures GoalsCredited(Insert(s, x, SortOrderKey), at, code)
         == GoalsCredited(s, at, code) + (if CreditedTo(x, at, code) then 1 else 0)
  {
    if s == [] || SortOrderKey(s[|s| - 1]) <= SortOrderKey(x) {
      assert (s + [x])[..|s|] == s;
    } else {
      var init, last := s[..|s| - 1], s[|s| - 1];
      GoalsCreditedInsert(init, x, at, code);
      var r := Insert(init, x, SortOrderKey) + [last];
      assert r[..|r| - 1] == Insert(init, x, SortOrderKey);
    }
  }

  /** Ordering the plays does not change how many goals each team has. */
  lemma {:induction false} GoalsCreditedSorted(s: seq<Play>, at: Attribution, code: string)
    ensures GoalsCredited(SortByKey(s, SortOrderKey), at, code) == GoalsCredited(s, at, code)
  {
    if s != [] {
      GoalsCreditedSorted(s[..|s| - 1], at, code);
      GoalsCreditedInsert(SortByKey(s[..|s| - 1], SortOrderKey), s[|s| - 1], at, code);
    }
  }

  /** Keeping only the goal plays does not change how many goals each team has. */
  lemma {:induction false} GoalsCreditedExtracted(s: seq<Play>, at: Attribution, code: string)
    ensures GoalsCredited(ExtractScoringPlays(s), at, code) == GoalsCredited(s, at, code)
  {
    if s != [] {
      var init, last := s[..|s| - 1], s[|s| - 1];
      GoalsCreditedExtracted(init, at, code);
      var e := ExtractScoringPlays(init);
      if last.typeDescKey == "goal" {
        assert (e + [last])[..|e|] == e;
      } else {
        assert e + [] == e;
      }
    }
  }

  /** In a decided game whose payload credits the winner with as many goal plays as
      its final score, a game-winning goal is always found. */
  lemma GwgFoundInDecidedGame(payload: Payload, homeCode: string, awayCode: string)
    requires ScoresPresent(payload)
    requires var home, away := payload.homeTeam.score.value, payload.awayTeam.score.value;
             0 <= LosingScore(home, away) && home != away &&
             GoalsCredited(payload.plays, AttributionOf(payload, homeCode, awayCode),
                           WinningCode(home, away, homeCode, awayCode)) == (if home > away then home else away)
    ensures GwgPlay(SortByKey(ExtractScoringPlays(payload.plays), SortOrderKey), payload, homeCode, awayCode).Some?
  {
    var home, away := payload.homeTeam.score.value, payload.awayTeam.score.value;
    var at, code := AttributionOf(payload, homeCode, awayCode), WinningCode(home, away, homeCode, awayCode);
    var sorted := SortByKey(ExtractScoringPlays(payload.plays), SortOrderKey);
    GoalsCreditedExtracted(payload.plays, at, code);
    GoalsCreditedSorted(ExtractScoringPlays(payload.plays), at, code);
    SortIdempotent(ExtractScoringPlays(payload.plays), SortOrderKey);
    GoalsCreditedSorted(sorted, at, code);
    GwgIsDecisive(SortByKey(sorted, SortOrderKey), payload, homeCode, awayCode);
  }

  // ---------------------------------------------------------------------------
  // External-id translation

  /** convertExternalPlayerIdToObjectId: a falsy id (missing or 0) or one without a
      Player gives None; otherwise the Player's internal id. */
  function ConvertExternalPlayerId(players: PlayerIndex, externalId: Option<int>): (r: Option<string>)
    ensures r.Some? <==> externalId.Some? && externalId.value != 0 && externalId.value in players
    ensures r.Some? ==> r.value == players[externalId.value]
  {
    if externalId.None? || externalId.value == 0 then None
    else if externalId.value in players then Some(players[externalId.value])
    else None
  }

  // ---------------------------------------------------------------------------
  // Final score text

  /** `${home}-${away}`; the text determines both scores. */
  function FinalScoreText(home: int, away: int): (s: string)
    ensures ParseFinalScore(s) == Some((home, away))
  {
    var h, a := Decimal.IntToText(home), Decimal.IntToText(away);
    var s := h + "-" + a;
    assert s[..|h|] == h && s[|h| + 1..] == a;
    assert forall j :: 1 <= j < |h| ==> s[j] == h[1..][j - 1];
    DashFromFindsFirst(s, 1, |h|);
    Decimal.IntTextRoundTrip(home);
    Decimal.IntTextRoundTrip(away);
    s
  }

  /** The index of the first '-' at or after i, or |s|. */
  function DashFrom(s: string, i: nat): (k: nat)
    requires i <= |s|
    ensures i <= k <= |s|
    decreases |s| - i
  {
    if i == |s| || s[i] == '-' then i else DashFrom(s, i + 1)
  }

  /** Reads a final score back: the text before the first '-' after the first
      character, and the text after it. */
  function ParseFinalScore(s: string): Option<(int, int)> {
    if s == [] then None
    else
      var k := DashFrom(s, 1);
      if k == |s| then None
      else
        match (Decimal.ParseInt(s[..k]), Decimal.ParseInt(s[k + 1..]))
        case (Some(home), Some(away)) => Some((home, away))
        case _ => None
  }

  lemma {:induction false} DashFromFindsFirst(s: string, i: nat, k: nat)
    requires i <= k < |s| && s[k] == '-'
    requires forall j :: i <= j < k ==> s[j] != '-'
    ensures DashFrom(s, i) == k
    decreases k - i
  {
    if i < k {
      DashFromFindsFirst(s, i + 1, k);
    }
  }

  /** The final-score text determines both scores. */
  // ---------------------------------------------------------------------------
  // The derived update

  /** The Stars won: the winner the update records is DAL, and the game is not tied. */
  function StarsWon(game: GameDoc, home: int, away: int): (r: bool)
    ensures r <==> home != away && (if home > away then game.homeTeam else game.awayTeam) == StarsTeamCode
  {
    (game.homeTeam == StarsTeamCode && home > away) || (game.awayTeam == StarsTeamCode && away > home)
  }

  predicate EndedInShootout(payload: Payload) {
    payload.shootoutInUse && payload.lastPeriodType == Some("SO")
  }

  /** The goal plays in sortOrder order, as processSingleGame prepares them. */
  function ScoringPlaysInOrder(payload: Payload): seq<Play> {
    SortByKey(ExtractScoringPlays(payload.plays), SortOrderKey)
  }

  function PlayerOf(players: PlayerIndex, play: Option<Play>): Option<string> {
    match play
    case None => None
    case Some(p) => ConvertExternalPlayerId(players, ScorerExternalId(p))
  }

  /** The first Stars goal is the Stars-owned goal play with the smallest sortOrder
      (ties go to the earlier play in the payload, by stability), and there is one
      exactly when the payload has a Stars-owned goal play. */
  lemma FirstStarsGoalIsEarliest(payload: Payload)
    ensures var sorted := ScoringPlaysInOrder(payload);
            var first := FirstOwnedIndex(sorted, StarsTeamId(payload));
            && (first.None? <==>
                  forall p :: p in payload.plays && p.typeDescKey == "goal" ==> OwnerTeamId(p) != StarsTeamId(payload))
            && (first.Some? ==>
                  forall p :: p in payload.plays && p.typeDescKey == "goal" && OwnerTeamId(p) == StarsTeamId(payload) ==>
                    sorted[first.value].sortOrder <= p.sortOrder)
  {
    var e := ExtractScoringPlays(payload.plays);
    var sorted := ScoringPlaysInOrder(payload);
    var team := StarsTeamId(payload);
    var first := FirstOwnedIndex(sorted, team);
    SortFacts(e, SortOrderKey);
    forall p | p in payload.plays && p.typeDescKey == "goal" && OwnerTeamId(p) == team
      ensures first.Some? && sorted[first.value].sortOrder <= p.sortOrder
    {
      assert p in multiset(e);
      assert p in multiset(sorted);
      var j :| 0 <= j < |sorted| && sorted[j] == p;
    }
    if first.Some? {
      var q := sorted[first.value];
      assert q in multiset(sorted);
      assert q in multiset(e);
    }
  }

  /** The `update` object processSingleGame builds for a payload with both scores. */
  function DerivedUpdate(game: GameDoc, payload: Payload, players: PlayerIndex): (u: Update)
    requires ScoresPresent(payload)
    ensures var home, away := payload.homeTeam.score.value, payload.awayTeam.score.value;
            && ParseFinalScore(u.finalScore) == Some((home, away))
            && u.winner == (if home > away then game.homeTeam else game.awayTeam)
            && (StarsWon(game, home, away) && EndedInShootout(payload) ==>
                  u.gwGoalPlayerId == ConvertExternalPlayerId(players, Some(ShootoutGoalieId)))
    // the first-goal field is the translated scorer of the first Stars-owned goal in sortOrder
    ensures var sorted := ScoringPlaysInOrder(payload);
            var first := FirstOwnedIndex(sorted, StarsTeamId(payload));
            u.firstGoalPlayerId ==
              if first.Some? then ConvertExternalPlayerId(players, ScorerExternalId(sorted[first.value])) else None
    // outside a Stars shootout win, the GWG field is the translated scorer of the decisive goal
    ensures var home, away := payload.homeTeam.score.value, payload.awayTeam.score.value;
            var sorted := ScoringPlaysInOrder(payload);
            var gwg := GwgIndex(sorted, payload, game.homeTeam, game.awayTeam);
            !(StarsWon(game, home, away) && EndedInShootout(payload)) ==>
              u.gwGoalPlayerId ==
                if gwg.Some? then ConvertExternalPlayerId(players, ScorerExternalId(sorted[gwg.value])) else None
    ensures u.firstGoalPlayerId.Some? ==> u.firstGoalPlayerId.value in players.Values
    ensures u.gwGoalPlayerId.Some? ==> u.gwGoalPlayerId.value in players.Values
  {
    var home, away := payload.homeTeam.score.value, payload.awayTeam.score.value;
    var sorted := ScoringPlaysInOrder(payload);
    SortIdempotent(ExtractScoringPlays(payload.plays), SortOrderKey);
    var gw :=
      if StarsWon(game, home, away) && EndedInShootout(payload)
      then ConvertExternalPlayerId(players, Some(ShootoutGoalieId))
      else PlayerOf(players, GwgPlay(sorted, payload, game.homeTeam, game.awayTeam));
    Update(PlayerOf(players, FindFirstStarsGoal(sorted, payload)), gw, FinalScoreText(home, away),
           if home > away then game.homeTeam else game.awayTeam)
  }

  // ---------------------------------------------------------------------------
  // Write guard

  /** eqId: two references are equal when their id texts are, so two missing
      references are equal and a missing one never equals an ObjectId. */
  function EqId(a: Ref, b: Ref): (r: bool)
    ensures r <==> (a.NoId? && b.NoId?) || (a.ObjectId? && b.ObjectId? && a.hex == b.hex)
  {
    IdText(a) == IdText(b)
  }

  predicate Truthy(s: Option<string>) {
    s.Some? && s.value != ""
  }

  /** needsUpdate: some present field of u differs from the stored one. Nothing is
      written exactly when every present field already holds the stored value, the
      player ids as the same ObjectIds. */
  function NeedsUpdate(game: GameDoc, u: Update): (r: bool)
    ensures !r <==>
              && (u.firstGoalPlayerId.Some? ==> game.firstGoalPlayerId == ObjectId(u.firstGoalPlayerId.value))
              && (u.gwGoalPlayerId.Some? ==> game.gwGoalPlayerId == ObjectId(u.gwGoalPlayerId.value))
              && (u.finalScore != "" ==> game.finalScore == Some(u.finalScore))
              && (u.winner != "" ==> game.winner == Some(u.winner))
  {
    || (u.firstGoalPlayerId.Some? && !EqId(game.firstGoalPlayerId, ObjectId(u.firstGoalPlayerId.value)))
    || (u.gwGoalPlayerId.Some? && !EqId(game.gwGoalPlayerId, ObjectId(u.gwGoalPlayerId.value)))
    || (u.finalScore != "" && game.finalScore != Some(u.finalScore))
    || (u.winner != "" && game.winner != Some(u.winner))
  }

  /** The stored game after `$set: update`. */
  function ApplyUpdate(game: GameDoc, u: Update): (g: GameDoc)
    // a field absent from the update keeps its stored value
    ensures u.firstGoalPlayerId.None? ==> g.firstGoalPlayerId == game.firstGoalPlayerId
    ensures u.gwGoalPlayerId.None? ==> g.gwGoalPlayerId == game.gwGoalPlayerId
    ensures g.gamePk == game.gamePk && g.gameTime == game.gameTime
    ensures g.homeTeam == game.homeTeam && g.awayTeam == game.awayTeam
    // after the write, the guard sees nothing left to write
    ensures !NeedsUpdate(g, u)
  {
    game.(
      firstGoalPlayerId := if u.firstGoalPlayerId.Some? then ObjectId(u.firstGoalPlayerId.value) else game.firstGoalPlayerId,
      gwGoalPlayerId := if u.gwGoalPlayerId.Some? then ObjectId(u.gwGoalPlayerId.value) else game.gwGoalPlayerId,
      finalScore := Some(u.finalScore),
      winner := Some(u.winner))
  }

  /** With a non-empty score text and winner, the guard fires exactly when the
      write would change the stored game. */
  lemma NeedsUpdateIffChange(game: GameDoc, u: Update)
    requires u.finalScore != "" && u.winner != ""
    ensures NeedsUpdate(game, u) <==> ApplyUpdate(game, u) != game
  {
  }

  /** Processing the same payload again after the write derives the same update and
      writes nothing. */
  lemma RerunWritesNothing(game: GameDoc, payload: Payload, players: PlayerIndex)
    requires ScoresPresent(payload)
    ensures var u := DerivedUpdate(game, payload, players);
            var stored := ApplyUpdate(game, u);
            DerivedUpdate(stored, payload, players) == u && !NeedsUpdate(stored, u)
  {
  }

  // ---------------------------------------------------------------------------
  // Processing one game

  predicate HasGamePk(game: GameDoc) {
    game.gamePk.Some? && game.gamePk.value != 0
  }

  predicate HasStarted(game: GameDoc, now: int) {
    game.gameTime.Some? && game.gameTime.value <= now
  }

  /** Settled (final score and winner both set) and older than the cache horizon. */
  function IsCachedFinal(game: GameDoc, now: int, cutoffHours: int): (r: bool)
    requires game.gameTime.Some?
    ensures r ==> Truthy(game.finalScore) && Truthy(game.winner)
    ensures r && cutoffHours >= 0 ==> game.gameTime.value < now
  {
    Truthy(game.finalScore) && Truthy(game.winner) && now - game.gameTime.value > cutoffHours * 3600 * 1000
  }

  /** The part of processSingleGame that fills `update` field by field once both
      payload scores are known. */
  method BuildUpdate(game: GameDoc, payload: Payload, players: PlayerIndex) returns (update: Update)
    requires ScoresPresent(payload)
    ensures update == DerivedUpdate(game, payload, players)
  {
    var homeScore, awayScore := payload.homeTeam.score.value, payload.awayTeam.score.value;

    var extracted := ExtractScoringPlays(payload.plays);
    var scoringPlays := new Play[|extracted|](i requires 0 <= i < |extracted| => extracted[i]);
    assert scoringPlays[..] == extracted;
    InsertionSort(scoringPlays, SortOrderKey);

    var firstGoal: Option<string> := None;
    var firstStarsPlay := FindFirstStarsGoal(scoringPlays[..], payload);
    if firstStarsPlay.Some? {
      var firstStarsExternal := ScorerExternalId(firstStarsPlay.value);
      if firstStarsExternal.Some? && firstStarsExternal.value != 0 {
        firstGoal := ConvertExternalPlayerId(players, firstStarsExternal);
      }
    }

    var finalScore := FinalScoreText(homeScore, awayScore);
    var winner := if homeScore > awayScore then game.homeTeam else game.awayTeam;

    var gwGoal: Option<string> := None;
    if StarsWon(game, homeScore, awayScore) && EndedInShootout(payload) {
      gwGoal := ConvertExternalPlayerId(players, Some(ShootoutGoalieId));
    } else {
      var gwPlay := FindGwgPlayByLosingTotal(scoringPlays, payload, game.homeTeam, game.awayTeam);
      var gwExternal := if gwPlay.Some? then ScorerExternalId(gwPlay.value) else None;
      if gwExternal.Some? && gwExternal.value != 0 {
        gwGoal := ConvertExternalPlayerId(players, gwExternal);
      }
    }

    update := Update(firstGoal, gwGoal, finalScore, winner);
  }

  /** processSingleGame: the skip rules, the fetch, the finality gate, the update
      built field by field and the write guard. Returns the outcome and the number
      of responses received from the provider. */
  method ProcessSingleGame(
    game: GameDoc, now: int, responses: seq<FetchClient.Response<Payload>>,
    players: PlayerIndex, settings: Settings)
    returns (outcome: Outcome, requests: nat)
    ensures !HasGamePk(game) ==> outcome == InvalidGame && requests == 0
    ensures HasGamePk(game) && !HasStarted(game, now) ==> outcome == NotStarted && requests == 0
    ensures HasGamePk(game) && HasStarted(game, now) && IsCachedFinal(game, now, settings.finalCacheCutoffHours) ==>
              outcome == CachedFinal && requests == 0
    ensures HasGamePk(game) && HasStarted(game, now) && !IsCachedFinal(game, now, settings.finalCacheCutoffHours) ==>
              var f := FetchClient.FetchPlayByPlay(responses, 1, settings.maxRetries429);
              && requests == f.requests
              && (f.result.Failure? ==> outcome == FetchFailed(f.result.error))
              && (f.result.Success? && !ScoresPresent(f.result.value) ==> outcome == NotFinal)
              && (f.result.Success? && ScoresPresent(f.result.value) ==>
                    var u := DerivedUpdate(game, f.result.value, players);
                    outcome == if NeedsUpdate(game, u) then Written(u) else Unchanged(u))
  {
    if !HasGamePk(game) {
      return InvalidGame, 0;
    }
    if game.gameTime.None? || game.gameTime.value > now {
      return NotStarted, 0;
    }
    var alreadyFinal := Truthy(game.finalScore) && Truthy(game.winner);
    var olderThanCutoff := now - game.gameTime.value > settings.finalCacheCutoffHours * 3600 * 1000;
    if alreadyFinal && olderThanCutoff {
      return CachedFinal, 0;
    }

    var fetched := FetchClient.FetchPlayByPlay(responses, 1, settings.maxRetries429);
    requests := fetched.requests;
    if fetched.result.Failure? {
      return FetchFailed(fetched.result.error), requests;
    }
    var payload := fetched.result.value;
    if payload.homeTeam.score.None? || payload.awayTeam.score.None? {
      return NotFinal, requests;
    }
    var update := BuildUpdate(game, payload, players);
    if NeedsUpdate(game, update) {
      outcome := Written(update);
    } else {
      outcome := Unchanged(update);
    }
  }
}
