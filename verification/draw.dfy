/**
 The prize draw (`determineWin`). The two `Math.random()` readings are parameters
 `u1` and `u2` in [0, 1); the code scales them to `r1 = u1 * 100` and
 `r2 = u2 * totalWeight`. Reals are exact, so the running subtraction of the
 roulette loop has no rounding.
 */
module Draw {
  import opened JsValues
  import opened Schema
  import opened Storage

  // ---------------------------------------------------------------- stage 1: win gate

  /** The configured win rate; a null rate compares as 0. */
  function WinRate(s: GameSettings): int {
    Num(s.globalWinRate)
  }

  /** `Math.random() * 100 < globalWinRate`. */
  predicate GatePasses(s: GameSettings, u1: real)
    ensures GatePasses(s, u1) && u1 >= 0.0 ==> WinRate(s) > 0
    ensures 0.0 <= u1 < 1.0 && WinRate(s) >= 100 ==> GatePasses(s, u1)
  {
    u1 * 100.0 < WinRate(s) as real
  }

  // ---------------------------------------------------------------- stage 2: eligible list

  /** The filter: active, and stock `=== 0` (unlimited) or `> 0`. */
  predicate Eligible(p: Prize)
    ensures Eligible(p) ==> p.isActive && p.stock.Some? && p.stock.value >= 0
    ensures p.isActive && p.stock.Some? && p.stock.value >= 0 ==> Eligible(p)
  {
    p.isActive && (p.stock == Some(0) || (p.stock.Some? && p.stock.value > 0))
  }

  /** The filter keeps exactly the active prizes with a non-null, non-negative stock. */
  lemma EligibleIffStocked(p: Prize)
    ensures Eligible(p) <==> p.isActive && p.stock.Some? && p.stock.value >= 0
    ensures p.stock.None? || (p.stock.Some? && p.stock.value < 0) ==> !Eligible(p)
  {
  }

  /** `Array.from(prizes.values()).filter(...)`, in insertion order. */
  function EligiblePrizes(ps: seq<Prize>): (r: seq<Prize>)
    ensures |r| <= |ps|
    ensures forall p :: p in r <==> p in ps && Eligible(p)
  {
    if |ps| == 0 then []
    else
      var rest := EligiblePrizes(ps[1..]);
      assert forall p :: p in ps[1..] ==> p in ps;
      if Eligible(ps[0]) then [ps[0]] + rest else rest
  }

  /** The filter keeps the insertion order: filtering a concatenation concatenates the
      filtered parts. */
  lemma {:induction false} EligibleAppend(a: seq<Prize>, b: seq<Prize>)
    ensures EligiblePrizes(a + b) == EligiblePrizes(a) + EligiblePrizes(b)
  {
    if |a| > 0 {
      EligibleAppend(a[1..], b);
      assert (a + b)[1..] == a[1..] + b;
    } else {
      assert a + b == b;
    }
  }

  /** Eligible prizes of a valid store still have ascending ids. */
  lemma {:induction false} EligibleIdsAscending(ps: seq<Prize>)
    requires IdsAscending(ps)
    ensures IdsAscending(EligiblePrizes(ps))
  {
    if |ps| > 0 {
      var tail := ps[1..];
      assert IdsAscending(tail) by {
        forall a, b | 0 <= a < b < |tail| ensures tail[a].id < tail[b].id {
          assert tail[a] == ps[a + 1] && tail[b] == ps[b + 1];
        }
      }
      EligibleIdsAscending(tail);
      var rest := EligiblePrizes(tail);
      if Eligible(ps[0]) {
        var r := [ps[0]] + rest;
        forall a, b | 0 <= a < b < |r| ensures r[a].id < r[b].id {
          assert r[b] == rest[b - 1];
          if a == 0 {
            assert rest[b - 1] in tail;
            var k :| 0 <= k < |tail| && tail[k] == rest[b - 1];
            assert ps[k + 1] == r[b];
          } else {
            assert r[a] == rest[a - 1];
          }
        }
      }
    }
  }

  // ---------------------------------------------------------------- stage 3: roulette

  /** `prizes.reduce((sum, p) => sum + p.probability, 0)`. */
  function Weight(ps: seq<Prize>): (r: int)
    ensures (forall i :: 0 <= i < |ps| ==> ps[i].probability >= 0) ==> r >= 0
  {
    if |ps| == 0 then 0 else ps[0].probability + Weight(ps[1..])
  }

  /** The inclusive cumulative weight of positions 0..k. */
  function CumThrough(ps: seq<Prize>, k: nat): int
    requires k < |ps|
  {
    Weight(ps[..k + 1])
  }

  /** Extending a prefix by one prize adds that prize's weight. */
  lemma {:induction false} WeightSnoc(ps: seq<Prize>, k: nat)
    requires k < |ps|
    ensures Weight(ps[..k + 1]) == Weight(ps[..k]) + ps[k].probability
  {
    if k == 0 {
      assert ps[..1][1..] == [];
    } else {
      WeightSnoc(ps[1..], k - 1);
      assert ps[..k + 1][1..] == ps[1..][..k];
      assert ps[..k][1..] == ps[1..][..k - 1];
    }
  }

  /** Cumulative weights of the tail are those of the whole list less its head. */
  lemma CumThroughTail(ps: seq<Prize>)
    requires |ps| > 0
    ensures forall j :: 1 <= j < |ps| ==>
      CumThrough(ps, j) == ps[0].probability + CumThrough(ps[1..], j - 1)
  {
    forall j | 1 <= j < |ps|
      ensures CumThrough(ps, j) == ps[0].probability + CumThrough(ps[1..], j - 1)
    {
      assert ps[..j + 1][1..] == ps[1..][..j];
    }
  }

  /** The first cumulative weight is the first prize's own. */
  lemma CumThroughFirst(ps: seq<Prize>)
    requires |ps| > 0
    ensures CumThrough(ps, 0) == ps[0].probability
  {
    var first := ps[..1];
    assert first == [ps[0]];
    assert first[1..] == [];
    assert Weight(first[1..]) == 0;
    assert Weight(first) == first[0].probability + Weight(first[1..]);
  }

  /** The last cumulative weight is the total. */
  lemma CumThroughLast(ps: seq<Prize>)
    requires |ps| > 0
    ensures CumThrough(ps, |ps| - 1) == Weight(ps)
  {
    assert ps[..|ps|] == ps;
  }

  /** Position k is where the roulette stops for `random`: the first whose inclusive
      cumulative weight reaches it. */
  predicate IsFirstCrossing(ps: seq<Prize>, random: real, k: nat) {
    && k < |ps|
    && random <= CumThrough(ps, k) as real
    && forall j :: 0 <= j < k ==> CumThrough(ps, j) as real < random
  }

  /** No cumulative weight reaches `random`. */
  predicate NoCrossing(ps: seq<Prize>, random: real) {
    forall j :: 0 <= j < |ps| ==> CumThrough(ps, j) as real < random
  }

  /** There is at most one first crossing. */
  lemma FirstCrossingUnique(ps: seq<Prize>, random: real, k: nat, m: nat)
    requires IsFirstCrossing(ps, random, k) && IsFirstCrossing(ps, random, m)
    ensures k == m
  {
  }

  /** `for (prize of list) { random -= prize.probability; if (random <= 0) ... }`:
      the position the loop stops at, or none when it runs out. */
  function Roulette(ps: seq<Prize>, random: real): (r: Option<nat>)
    ensures r.Some? ==> IsFirstCrossing(ps, random, r.value)
    ensures r.None? <==> NoCrossing(ps, random)
  {
    if |ps| == 0 then None
    else
      var rest := random - ps[0].probability as real;
      CumThroughFirst(ps);
      CumThroughTail(ps);
      if rest <= 0.0 then Some(0)
      else
        match Roulette(ps[1..], rest)
        case None => None
        case Some(k) => Some(k + 1)
  }

  /** The selection loop as the code writes it, with a running remainder. It stops
      where `Roulette` does. */
  method SelectWinner(ps: seq<Prize>, r2: real) returns (winner: Option<nat>)
    ensures winner.Some? ==> IsFirstCrossing(ps, r2, winner.value)
    ensures winner.None? ==> NoCrossing(ps, r2)
    ensures winner == Roulette(ps, r2)
  {
    var random := r2;
    var i := 0;
    while i < |ps|
      invariant 0 <= i <= |ps|
      invariant random == r2 - Weight(ps[..i]) as real
      invariant forall j :: 0 <= j < i ==> CumThrough(ps, j) as real < r2
    {
      WeightSnoc(ps, i);
      random := random - ps[i].probability as real;
      if random <= 0.0 {
        winner := Some(i);
        var expected := Roulette(ps, r2);
        if expected.Some? { FirstCrossingUnique(ps, r2, i, expected.value); }
        return;
      }
      i := i + 1;
    }
    winner := None;
  }

  /** `Math.random() * totalWeight`: the point the roulette looks for, as a fraction `u`
      of the total weight. */
  function Scaled(u: real, total: int): real {
    u * total as real
  }

  /** The roulette's pick, or the first prize when the loop runs out (the fallback). */
  function PickWinner(elig: seq<Prize>, random: real): (w: Prize)
    requires |elig| > 0
    ensures w in elig
  {
    match Roulette(elig, random)
    case Some(k) => elig[k]
    case None => elig[0]
  }

  // ---------------------------------------------------------------- stage 4: effects

  /** The stock a won prize is left with: one less when positive; null, zero ("unlimited")
      and negative stocks are left alone. */
  function StockAfterWin(stock: Option<int>): (r: Option<int>)
    ensures r.Some? <==> stock.Some?
    ensures stock.Some? && stock.value > 0 ==> r == Some(stock.value - 1)
    ensures stock.Some? && stock.value <= 0 ==> r == stock
    ensures stock.Some? && stock.value >= 0 ==> r.value >= 0
  {
    if stock.Some? && stock.value > 0 then Some(stock.value - 1) else stock
  }

  /** The stats patch a win writes: `prizesWon + 1` and `gamesPlayed + 1`. */
  function WinStatsPatch(s: GameStats): StatsPatch {
    StatsPatch(Keep, Keep, Set(Incremented(s.prizesWon)), Set(Incremented(s.gamesPlayed)), Keep)
  }

  /** In a valid store, a stored prize is the only entry holding its id. */
  lemma StoredUnderItsId(st: Store, w: Prize)
    ensures Valid(st) && w in st.prizes ==>
      forall j :: 0 <= j < |st.prizes| && st.prizes[j].id == w.id ==> st.prizes[j] == w
  {
    if Valid(st) && w in st.prizes {
      forall j | 0 <= j < |st.prizes| && st.prizes[j].id == w.id
        ensures st.prizes[j] == w
      {
        var i :| 0 <= i < |st.prizes| && st.prizes[i] == w;
        IndexOfUnique(st.prizes, w.id, i, j);
      }
    }
  }

  /** The effects of a win for `w`: the decrement through `updatePrize` when its stock is
      positive, then the stats update. Exactly the winner's stock and the two counters change. */
  function Award(st: Store, w: Prize): (r: Store)
    ensures r.users == st.users && r.nextUserId == st.nextUserId
    ensures r.nextPrizeId == st.nextPrizeId && r.settings == st.settings
    ensures Num(r.stats.prizesWon) == Num(st.stats.prizesWon) + 1
    ensures Num(r.stats.gamesPlayed) == Num(st.stats.gamesPlayed) + 1
    ensures r.stats.id == st.stats.id && r.stats.totalPlayers == st.stats.totalPlayers
    ensures r.stats.weeklyGrowth == st.stats.weeklyGrowth
    ensures |r.prizes| == |st.prizes|
    ensures Valid(st) && w in st.prizes ==> forall j :: 0 <= j < |st.prizes| ==>
      r.prizes[j] == (if st.prizes[j].id == w.id then w.(stock := StockAfterWin(w.stock)) else st.prizes[j])
    ensures Valid(st) ==> Valid(r)
  {
    var afterStock :=
      if w.stock.Some? && w.stock.value > 0
      then UpdatePrize(st, w.id, StockPatch(Some(w.stock.value - 1))).store
      else st;
    StoredUnderItsId(st, w);
    StockPatchOnlyTouchesStock(w, Some(w.stock.GetOr(0) - 1));
    UpdateGameStats(afterStock, WinStatsPatch(afterStock.stats)).store
  }

  // ---------------------------------------------------------------- the draw

  datatype DrawResult = DrawResult(store: Store, prize: Option<Prize>)

  /** Stages 1 to 3 of `determineWin`: the prize it returns, if any. */
  function DrawnPrize(st: Store, u1: real, u2: real): (r: Option<Prize>)
    requires 0.0 <= u1 < 1.0 && 0.0 <= u2 < 1.0
    ensures r.Some? ==> GatePasses(st.settings, u1)
    ensures r.Some? ==> r.value in st.prizes && Eligible(r.value)
    ensures r.None? <==>
      (|| !GatePasses(st.settings, u1)
       || |EligiblePrizes(st.prizes)| == 0
       || Weight(EligiblePrizes(st.prizes)) == 0)
  {
    if !GatePasses(st.settings, u1) then None
    else
      var elig := EligiblePrizes(st.prizes);
      if |elig| == 0 then None
      else
        var total := Weight(elig);
        if total == 0 then None
        else Some(PickWinner(elig, Scaled(u2, total)))
  }

  /** `determineWin`: the gate, the eligible list, the roulette with its fallback, and the
      effects. Whatever is returned is an eligible stored prize drawn after the gate passed;
      a null result leaves the store as it was. */
  function DetermineWin(st: Store, u1: real, u2: real): (r: DrawResult)
    requires 0.0 <= u1 < 1.0 && 0.0 <= u2 < 1.0
    ensures r.prize.Some? ==> GatePasses(st.settings, u1)
    ensures WinRate(st.settings) <= 0 ==> r.prize.None?
    ensures r.prize.Some? ==> r.prize.value in st.prizes && Eligible(r.prize.value)
    ensures r.prize.None? <==>
      (|| !GatePasses(st.settings, u1)
       || |EligiblePrizes(st.prizes)| == 0
       || Weight(EligiblePrizes(st.prizes)) == 0)
    ensures r.prize.None? ==> r.store == st
    ensures r.prize.Some? ==> r.store == Award(st, r.prize.value)
  {
    match DrawnPrize(st, u1, u2)
    case None => DrawResult(st, None)
    case Some(winner) => DrawResult(Award(st, winner), Some(winner))
  }

  // ---------------------------------------------------------------- properties of the draw

  /** The draw reads only the settings and the prizes: stores that agree on those draw the
      same prize and leave the same prizes. */
  lemma DrawIgnoresRest(st: Store, other: Store, u1: real, u2: real)
    requires 0.0 <= u1 < 1.0 && 0.0 <= u2 < 1.0
    requires other.prizes == st.prizes && other.settings == st.settings
    ensures DetermineWin(other, u1, u2).prize == DetermineWin(st, u1, u2).prize
    ensures DetermineWin(other, u1, u2).store.prizes == DetermineWin(st, u1, u2).store.prizes
  {
  }

  /** A rate of 100 or more always passes the gate. */
  lemma FullRatePassesGate(s: GameSettings, u1: real)
    requires 0.0 <= u1 < 1.0 && WinRate(s) >= 100
    ensures GatePasses(s, u1)
  {
  }

  /** A fraction below 1 of a positive total is below the total. */
  lemma ScaledBelowTotal(u: real, total: int)
    requires 0.0 <= u < 1.0 && total > 0
    ensures 0.0 <= Scaled(u, total) < total as real
    ensures u > 0.0 ==> Scaled(u, total) > 0.0
  {
  }

  /** When `random` is below the total weight, the loop stops on a prize: the first
      crossing exists and is the pick, so the fallback is not taken. */
  lemma PickIsFirstCrossing(elig: seq<Prize>, random: real)
    requires |elig| > 0 && random < Weight(elig) as real
    ensures Roulette(elig, random).Some?
    ensures IsFirstCrossing(elig, random, Roulette(elig, random).value)
    ensures PickWinner(elig, random) == elig[Roulette(elig, random).value]
  {
    CumThroughLast(elig);
    assert !NoCrossing(elig, random) by {
      assert !(CumThrough(elig, |elig| - 1) as real < random);
    }
  }

  /** Once the gate passes over a non-empty list of non-zero total weight, the prize is the pick. */
  lemma DrawIsPick(st: Store, u1: real, u2: real)
    requires 0.0 <= u1 < 1.0 && 0.0 <= u2 < 1.0
    requires GatePasses(st.settings, u1)
    requires |EligiblePrizes(st.prizes)| > 0 && Weight(EligiblePrizes(st.prizes)) != 0
    ensures DetermineWin(st, u1, u2).prize ==
      Some(PickWinner(EligiblePrizes(st.prizes), Scaled(u2, Weight(EligiblePrizes(st.prizes)))))
  {
    assert DetermineWin(st, u1, u2).prize == DrawnPrize(st, u1, u2);
  }

  /** With a positive total weight the loop always stops on a prize, so the fallback is never
      taken and the winner is the first eligible prize whose cumulative weight reaches `r2`. */
  lemma WinnerIsFirstCrossing(st: Store, u1: real, u2: real)
    requires 0.0 <= u1 < 1.0 && 0.0 <= u2 < 1.0
    requires GatePasses(st.settings, u1)
    requires |EligiblePrizes(st.prizes)| > 0 && Weight(EligiblePrizes(st.prizes)) > 0
    ensures var elig := EligiblePrizes(st.prizes);
      exists k: nat :: IsFirstCrossing(elig, Scaled(u2, Weight(elig)), k)
        && DetermineWin(st, u1, u2).prize == Some(elig[k])
  {
    var elig := EligiblePrizes(st.prizes);
    var random := Scaled(u2, Weight(elig));
    ScaledBelowTotal(u2, Weight(elig));
    PickIsFirstCrossing(elig, random);
    DrawIsPick(st, u1, u2);
    var k := Roulette(elig, random).value;
    assert IsFirstCrossing(elig, random, k) && DetermineWin(st, u1, u2).prize == Some(elig[k]);
  }

  /** With `r2 = 0` the first eligible prize wins whenever its own weight is not negative,
      even when that weight is 0. */
  lemma FirstPrizeWinsAtZero(st: Store, u1: real)
    requires 0.0 <= u1 < 1.0 && GatePasses(st.settings, u1)
    requires |EligiblePrizes(st.prizes)| > 0 && Weight(EligiblePrizes(st.prizes)) != 0
    requires EligiblePrizes(st.prizes)[0].probability >= 0
    ensures DetermineWin(st, u1, 0.0).prize == Some(EligiblePrizes(st.prizes)[0])
  {
  }

  /** At a positive `random`, the first crossing is never a prize of weight 0. */
  lemma {:induction false} CrossingHasWeight(ps: seq<Prize>, random: real, k: nat)
    requires random > 0.0 && IsFirstCrossing(ps, random, k)
    ensures ps[k].probability != 0
  {
    if k == 0 {
      CumThroughFirst(ps);
    } else {
      WeightSnoc(ps, k);
      assert ps[..k] == ps[..(k - 1) + 1];
      assert CumThrough(ps, k - 1) as real < random;
    }
  }

  /** With `r2 > 0` (a positive draw over a positive total), a prize of weight 0 never wins. */
  lemma ZeroWeightNeverWins(st: Store, u1: real, u2: real)
    requires 0.0 <= u1 < 1.0 && 0.0 < u2 < 1.0
    requires Weight(EligiblePrizes(st.prizes)) > 0
    ensures DetermineWin(st, u1, u2).prize.Some? ==> DetermineWin(st, u1, u2).prize.value.probability != 0
  {
    var elig := EligiblePrizes(st.prizes);
    if DetermineWin(st, u1, u2).prize.Some? {
      var random := Scaled(u2, Weight(elig));
      ScaledBelowTotal(u2, Weight(elig));
      PickIsFirstCrossing(elig, random);
      DrawIsPick(st, u1, u2);
      CrossingHasWeight(elig, random, Roulette(elig, random).value);
    }
  }

  /** A win's effects on the prizes: the winner's stock drops by exactly one when it was
      positive and stays as it was when it was 0 ("unlimited"); every other prize is unchanged.
      A winner with stock 1 is left with 0 and is therefore still eligible. */
  lemma WinnerStockEffect(st: Store, u1: real, u2: real)
    requires 0.0 <= u1 < 1.0 && 0.0 <= u2 < 1.0 && Valid(st)
    ensures var r := DetermineWin(st, u1, u2);
      r.prize.Some? ==>
        var w := r.prize.value;
        && |r.store.prizes| == |st.prizes|
        && (forall j :: 0 <= j < |st.prizes| && st.prizes[j].id != w.id ==> r.store.prizes[j] == st.prizes[j])
        && (forall j :: 0 <= j < |st.prizes| && st.prizes[j].id == w.id ==>
              && (w.stock.value > 0 ==> r.store.prizes[j].stock == Some(w.stock.value - 1))
              && (w.stock.value == 0 ==> r.store.prizes[j] == w)
              && (w.stock == Some(1) ==> Eligible(r.store.prizes[j])))
  {
  }

  /** No stored stock is ever driven below zero by a draw, and the store stays valid. */
  lemma DrawKeepsStocksNonNegative(st: Store, u1: real, u2: real)
    requires 0.0 <= u1 < 1.0 && 0.0 <= u2 < 1.0 && Valid(st)
    requires forall p :: p in st.prizes && p.stock.Some? ==> p.stock.value >= 0
    ensures var r := DetermineWin(st, u1, u2);
      && Valid(r.store)
      && forall p :: p in r.store.prizes && p.stock.Some? ==> p.stock.value >= 0
  {
    var r := DetermineWin(st, u1, u2);
    forall p | p in r.store.prizes && p.stock.Some?
      ensures p.stock.value >= 0
    {
      var j :| 0 <= j < |r.store.prizes| && r.store.prizes[j] == p;
      assert st.prizes[j] in st.prizes;
    }
  }

  // ---------------------------------------------------------------- concrete draws

  /** A list of eligible prizes passes the filter whole. */
  lemma {:induction false} AllEligibleKept(ps: seq<Prize>)
    requires forall i :: 0 <= i < |ps| ==> Eligible(ps[i])
    ensures EligiblePrizes(ps) == ps
  {
    if |ps| > 0 {
      AllEligibleKept(ps[1..]);
      assert [ps[0]] + ps[1..] == ps;
    }
  }

  /** All six seeded prizes are eligible. */
  lemma SeedPrizesAllEligible()
    ensures EligiblePrizes(SeedPrizes()) == SeedPrizes()
  {
    var ps := SeedPrizes();
    forall i | 0 <= i < |ps| ensures Eligible(ps[i]) {
      EligibleIffStocked(ps[i]);
    }
    AllEligibleKept(ps);
  }

  /** The seeded weights 5, 15, 80, 3, 7 and 12 total 122. */
  lemma SeedWeight()
    ensures Weight(SeedPrizes()) == 122
  {
    var ps := SeedPrizes();
    assert Weight(ps[5..]) == 12 by { assert ps[5..][1..] == []; }
    assert Weight(ps[4..]) == 7 + Weight(ps[5..]) by { assert ps[4..][1..] == ps[5..]; }
    assert Weight(ps[3..]) == 3 + Weight(ps[4..]) by { assert ps[3..][1..] == ps[4..]; }
    assert Weight(ps[2..]) == 80 + Weight(ps[3..]) by { assert ps[2..][1..] == ps[3..]; }
    assert Weight(ps[1..]) == 15 + Weight(ps[2..]) by { assert ps[1..][1..] == ps[2..]; }
  }

  /** When every stored prize is eligible and the gate passes at `r1 = 0`, the draw at
      `r2 = 0` awards the first stored prize and leaves it with its stock after the win. */
  lemma FirstStoredWinsAtZero(st: Store)
    requires Valid(st) && |st.prizes| > 0 && GatePasses(st.settings, 0.0)
    requires EligiblePrizes(st.prizes) == st.prizes
    requires Weight(st.prizes) > 0 && st.prizes[0].probability >= 0
    ensures var r := DetermineWin(st, 0.0, 0.0);
      && r.prize == Some(st.prizes[0])
      && r.store.prizes[0] == st.prizes[0].(stock := StockAfterWin(st.prizes[0].stock))
  {
    FirstPrizeWinsAtZero(st, 0.0);
    assert st.prizes[0] in st.prizes;
  }

  /** The seeded store, at `r1 = 0` and `r2 = 0`, awards the $100 gift card (id 1)
      and leaves it 9 in stock. */
  lemma SeedDrawAtZero()
    ensures var r := DetermineWin(InitialStore(), 0.0, 0.0);
      r.prize == Some(SeedPrizes()[0]) && r.store.prizes[0].stock == Some(9)
  {
    SeedPrizesAllEligible();
    SeedWeight();
    InitialStoreValid();
    var st := InitialStore();
    assert st.settings.globalWinRate == Some(25);
    assert GatePasses(st.settings, 0.0);
    FirstStoredWinsAtZero(st);
  }

  /** A prize with null stock is never eligible, so a catalogue holding only such a prize
      loses at every draw, even at a rate of 100. */
  lemma NullStockNeverDrawn(st: Store, p: Prize, u1: real, u2: real)
    requires 0.0 <= u1 < 1.0 && 0.0 <= u2 < 1.0
    requires st.settings.globalWinRate == Some(100)
    requires p.isActive && p.stock.None? && st.prizes == [p]
    ensures GatePasses(st.settings, u1)
    ensures DetermineWin(st, u1, u2) == DrawResult(st, None)
  {
    assert EligiblePrizes(st.prizes) == [] by {
      assert st.prizes[1..] == [];
    }
  }

  /** A catalogue whose every prize has a null stock loses every draw, whatever the rate,
      the weights and the random numbers: the filter keeps none of its prizes. */
  lemma NullStockCatalogueNeverDrawn(st: Store, u1: real, u2: real)
    requires 0.0 <= u1 < 1.0 && 0.0 <= u2 < 1.0
    requires forall q :: q in st.prizes ==> q.stock.None?
    ensures EligiblePrizes(st.prizes) == []
    ensures DetermineWin(st, u1, u2) == DrawResult(st, None)
  {
    NullStockFilteredOut(st.prizes);
  }

  /** The filter drops every null-stock prize, so a list of them filters to nothing. */
  lemma {:induction false} NullStockFilteredOut(ps: seq<Prize>)
    requires forall q :: q in ps ==> q.stock.None?
    ensures EligiblePrizes(ps) == []
  {
    if |ps| > 0 {
      assert forall q :: q in ps[1..] ==> q in ps;
      NullStockFilteredOut(ps[1..]);
      assert !Eligible(ps[0]);
    }
  }

  /** The fallback: when no cumulative weight reaches `r2` the loop runs out and the first
      eligible prize is awarded. That can only happen when the total weight is negative. */
  lemma FallbackWhenNoCrossing(st: Store, u1: real, u2: real)
    requires 0.0 <= u1 < 1.0 && 0.0 <= u2 < 1.0 && GatePasses(st.settings, u1)
    requires |EligiblePrizes(st.prizes)| > 0 && Weight(EligiblePrizes(st.prizes)) != 0
    requires NoCrossing(EligiblePrizes(st.prizes), Scaled(u2, Weight(EligiblePrizes(st.prizes))))
    ensures Weight(EligiblePrizes(st.prizes)) < 0
    ensures DetermineWin(st, u1, u2).prize == Some(EligiblePrizes(st.prizes)[0])
  {
    var elig := EligiblePrizes(st.prizes);
    var random := Scaled(u2, Weight(elig));
    if Weight(elig) > 0 {
      ScaledBelowTotal(u2, Weight(elig));
      PickIsFirstCrossing(elig, random);
      assert false;
    }
    DrawIsPick(st, u1, u2);
  }

  /** One prize of weight -5 at a rate of 100, drawn at `u2 = 0.5`: the loop runs out and
      the fallback awards that prize. */
  lemma NegativeWeightReachesFallback(st: Store)
    requires st.settings.globalWinRate == Some(100)
    requires st.prizes == [Prize(1, "p", None, "Physical", "v", "gift", Some(0), true, -5)]
    ensures Roulette(st.prizes, Scaled(0.5, -5)).None?
    ensures DetermineWin(st, 0.0, 0.5).prize == Some(st.prizes[0])
  {
    var ps := st.prizes;
    assert ps[1..] == [];
    AllEligibleKept(ps);
    assert Weight(ps) == -5;
    assert Scaled(0.5, -5) == -2.5;
    assert Roulette(ps, -2.5) == None;
    assert GatePasses(st.settings, 0.0);
  }
}
