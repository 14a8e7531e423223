/**
 The `POST /api/play` handler: it runs `determineWin`, then writes
 `gamesPlayed: (await getGameStats()).gamesPlayed + 1`, then answers
 `{ win: true, prize }` or `{ win: false, message }`. The stats read in that write
 are the ones `determineWin` has just left, so a win is counted twice in `gamesPlayed`.
 `Play` is the handler as written; `PlayCounted` is the handler that counts every
 play once.
 */
module Routes {
  import opened JsValues
  import opened Schema
  import opened Storage
  import opened Draw

  /** The message of a losing play. */
  const LoseMessage: string := "Better luck next time!"

  /** The body of the 200 response. */
  datatype PlayResponse = Win(prize: Prize) | Lose(message: string)

  datatype PlayResult = PlayResult(store: Store, response: PlayResponse)

  /** The handler's own stats write: one more than the `gamesPlayed` of `s`. */
  function CountGame(s: GameStats): StatsPatch {
    StatsPatch(Keep, Keep, Keep, Set(Incremented(s.gamesPlayed)), Keep)
  }

  /** The response for the prize `determineWin` returned. */
  function Respond(prize: Option<Prize>): PlayResponse {
    if prize.Some? then Win(prize.value) else Lose(LoseMessage)
  }

  /** `POST /api/play` as written: the count is taken from the stats after the draw. */
  function Play(st: Store, u1: real, u2: real): (r: PlayResult)
    requires 0.0 <= u1 < 1.0 && 0.0 <= u2 < 1.0
    ensures var d := DetermineWin(st, u1, u2);
      && (r.response.Win? <==> d.prize.Some?)
      && (r.response.Win? ==> r.response.prize == d.prize.value)
      && (r.response.Lose? ==> r.response.message == LoseMessage)
      && r.store.prizes == d.store.prizes
    ensures r.response.Lose? ==>
      && Num(r.store.stats.gamesPlayed) == Num(st.stats.gamesPlayed) + 1
      && r.store.stats.prizesWon == st.stats.prizesWon
      && r.store.prizes == st.prizes
    ensures r.response.Win? ==>
      && Num(r.store.stats.gamesPlayed) == Num(st.stats.gamesPlayed) + 2
      && Num(r.store.stats.prizesWon) == Num(st.stats.prizesWon) + 1
    ensures r.store.stats.id == st.stats.id && r.store.stats.totalPlayers == st.stats.totalPlayers
    ensures r.store.stats.weeklyGrowth == st.stats.weeklyGrowth
    ensures r.store.users == st.users && r.store.nextUserId == st.nextUserId
    ensures r.store.settings == st.settings && r.store.nextPrizeId == st.nextPrizeId
    ensures Valid(st) ==> Valid(r.store)
  {
    var d := DetermineWin(st, u1, u2);
    var after := UpdateGameStats(d.store, CountGame(d.store.stats)).store;
    PlayResult(after, Respond(d.prize))
  }

  /** The handler with every play counted once: the count is taken from the stats before
      the draw, so the draw's own increment is overwritten rather than added to. */
  function PlayCounted(st: Store, u1: real, u2: real): (r: PlayResult)
    requires 0.0 <= u1 < 1.0 && 0.0 <= u2 < 1.0
    ensures var w := Play(st, u1, u2);
      && r.response == w.response
      && r.store == w.store.(stats := r.store.stats)
    ensures Num(r.store.stats.gamesPlayed) == Num(st.stats.gamesPlayed) + 1
    ensures r.response.Lose? ==> r.store.stats.prizesWon == st.stats.prizesWon
    ensures r.response.Win? ==> Num(r.store.stats.prizesWon) == Num(st.stats.prizesWon) + 1
    ensures r.store.stats.id == st.stats.id && r.store.stats.totalPlayers == st.stats.totalPlayers
    ensures r.store.stats.weeklyGrowth == st.stats.weeklyGrowth
    ensures Valid(st) ==> Valid(r.store)
  {
    var d := DetermineWin(st, u1, u2);
    var after := UpdateGameStats(d.store, CountGame(st.stats)).store;
    PlayResult(after, Respond(d.prize))
  }

  // ---------------------------------------------------------------- a run of plays

  /** Each play's two `Math.random()` readings lie in [0, 1). */
  predicate InRange(draws: seq<(real, real)>) {
    forall i :: 0 <= i < |draws| ==> 0.0 <= draws[i].0 < 1.0 && 0.0 <= draws[i].1 < 1.0
  }

  /** The handler in either form. */
  function Handler(counted: bool, st: Store, u1: real, u2: real): PlayResult
    requires 0.0 <= u1 < 1.0 && 0.0 <= u2 < 1.0
  {
    if counted then PlayCounted(st, u1, u2) else Play(st, u1, u2)
  }

  /** The store after a run of plays and the number of them that won. */
  datatype Session = Session(store: Store, wins: nat)

  /** Plays `draws` one after another from `st`. */
  function PlayAll(counted: bool, st: Store, draws: seq<(real, real)>): (r: Session)
    requires InRange(draws)
    ensures r.wins <= |draws|
    decreases |draws|
  {
    if |draws| == 0 then Session(st, 0)
    else
      var first := Handler(counted, st, draws[0].0, draws[0].1);
      var rest := PlayAll(counted, first.store, draws[1..]);
      Session(rest.store, rest.wins + if first.response.Win? then 1 else 0)
  }

  /** As written, `gamesPlayed` grows by the number of plays plus the number of wins, and
      `prizesWon` by the number of wins. */
  lemma {:induction false} PlayAllCountsAsWritten(st: Store, draws: seq<(real, real)>)
    requires InRange(draws)
    ensures var r := PlayAll(false, st, draws);
      && Num(r.store.stats.gamesPlayed) == Num(st.stats.gamesPlayed) + |draws| + r.wins
      && Num(r.store.stats.prizesWon) == Num(st.stats.prizesWon) + r.wins
    decreases |draws|
  {
    if |draws| > 0 {
      var first := Handler(false, st, draws[0].0, draws[0].1);
      PlayAllCountsAsWritten(first.store, draws[1..]);
    }
  }

  /** Counted once, `gamesPlayed` grows by exactly the number of plays, and `prizesWon` by
      the number of wins. */
  lemma {:induction false} PlayAllCountsCorrected(st: Store, draws: seq<(real, real)>)
    requires InRange(draws)
    ensures var r := PlayAll(true, st, draws);
      && Num(r.store.stats.gamesPlayed) == Num(st.stats.gamesPlayed) + |draws|
      && Num(r.store.stats.prizesWon) == Num(st.stats.prizesWon) + r.wins
    decreases |draws|
  {
    if |draws| > 0 {
      var first := Handler(true, st, draws[0].0, draws[0].1);
      PlayAllCountsCorrected(first.store, draws[1..]);
    }
  }

  /** Every play of a run leaves the store valid. */
  lemma {:induction false} PlayAllKeepsValid(counted: bool, st: Store, draws: seq<(real, real)>)
    requires InRange(draws) && Valid(st)
    ensures Valid(PlayAll(counted, st, draws).store)
    decreases |draws|
  {
    if |draws| > 0 {
      var first := Handler(counted, st, draws[0].0, draws[0].1);
      PlayAllKeepsValid(counted, first.store, draws[1..]);
    }
  }

  /** Counting each play once changes nothing but the count: from stores that agree on
      settings and prizes, both handlers win the same plays and leave the same prizes. */
  lemma {:induction false} CountingChangesOnlyTheCount(st: Store, other: Store, draws: seq<(real, real)>)
    requires InRange(draws)
    requires other.prizes == st.prizes && other.settings == st.settings
    ensures PlayAll(true, other, draws).wins == PlayAll(false, st, draws).wins
    ensures PlayAll(true, other, draws).store.prizes == PlayAll(false, st, draws).store.prizes
    decreases |draws|
  {
    if |draws| > 0 {
      var (u1, u2) := draws[0];
      DrawIgnoresRest(st, other, u1, u2);
      var a := Handler(false, st, u1, u2);
      var b := Handler(true, other, u1, u2);
      CountingChangesOnlyTheCount(a.store, b.store, draws[1..]);
    }
  }

  // ---------------------------------------------------------------- the last unit

  /** A store holding one active prize with a single unit left, at a rate of 100. */
  predicate LastUnitStore(st: Store, p: Prize) {
    && st.settings.globalWinRate == Some(100)
    && p.isActive && p.stock == Some(1) && p.probability > 0
    && st.prizes == [p]
  }

  /** Winning the last unit leaves stock 0, which reads as unlimited: the next play wins the
      same prize again and leaves its stock at 0. */
  lemma LastUnitNeverRunsOut(st: Store, p: Prize, u: real)
    requires LastUnitStore(st, p) && 0.0 <= u < 1.0
    ensures var first := Play(st, 0.0, u);
      && first.response == Win(p)
      && first.store.prizes == [p.(stock := Some(0))]
      && var second := Play(first.store, 0.0, u);
         && second.response == Win(p.(stock := Some(0)))
         && second.store.prizes == [p.(stock := Some(0))]
  {
    var ps := st.prizes;
    AllEligibleKept(ps);
    assert Weight(ps) == p.probability by { assert ps[1..] == []; }
    assert GatePasses(st.settings, 0.0);
    var first := Play(st, 0.0, u);
    var q := p.(stock := Some(0));
    assert first.store.prizes == [q] by {
      assert |first.store.prizes| == 1;
    }
    var ps2 := first.store.prizes;
    AllEligibleKept(ps2);
    assert Weight(ps2) == q.probability by { assert ps2[1..] == []; }
    assert GatePasses(first.store.settings, 0.0);
  }
}
