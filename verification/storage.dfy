/**
 The in-memory store (`MemStorage`): users keyed by id, prizes in the insertion
 order of their `Map`, the settings and stats rows, and the two id counters.
 Every operation is a pure function from the store before to the store after.
 */
module Storage {
  import opened JsValues
  import opened Schema

  datatype Store = Store(
    users: map<int, User>,
    nextUserId: int,
    prizes: seq<Prize>,
    nextPrizeId: int,
    settings: GameSettings,
    stats: GameStats)

  /** Prize ids strictly increase along the insertion order (so they are unique). */
  predicate IdsAscending(ps: seq<Prize>) {
    forall i, j :: 0 <= i < j < |ps| ==> ps[i].id < ps[j].id
  }

  /** What the counters guarantee: every id was handed out by its counter, which starts at 1,
      and a user is stored under its own id. */
  predicate Valid(st: Store) {
    && 1 <= st.nextPrizeId
    && 1 <= st.nextUserId
    && IdsAscending(st.prizes)
    && (forall i :: 0 <= i < |st.prizes| ==> 1 <= st.prizes[i].id < st.nextPrizeId)
    && (forall k :: k in st.users ==> st.users[k].id == k && 1 <= k < st.nextUserId)
  }

  /** Whether some prize carries `id`. */
  predicate HasPrize(ps: seq<Prize>, id: int) {
    exists i :: 0 <= i < |ps| && ps[i].id == id
  }

  /** Where `Map.get(id)` finds its entry: the first position holding `id`. */
  function IndexOf(ps: seq<Prize>, id: int): (r: Option<nat>)
    ensures r.Some? ==> r.value < |ps| && ps[r.value].id == id
    ensures r.Some? ==> forall j :: 0 <= j < r.value ==> ps[j].id != id
    ensures r.None? <==> !HasPrize(ps, id)
  {
    if |ps| == 0 then None
    else if ps[0].id == id then Some(0)
    else
      match IndexOf(ps[1..], id)
      case None => assert forall j :: 1 <= j < |ps| ==> ps[j] == ps[1..][j - 1]; None
      case Some(k) => Some(k + 1)
  }

  /** With ascending ids, the position found is the only one holding `id`. */
  lemma IndexOfUnique(ps: seq<Prize>, id: int, i: nat, j: nat)
    requires IdsAscending(ps)
    requires i < |ps| && j < |ps| && ps[i].id == id && ps[j].id == id
    ensures i == j
  {
  }

  // ---------------------------------------------------------------- prizes

  /** `getAllPrizes`: the prizes in insertion order, which is ascending id order. */
  function AllPrizes(st: Store): (r: seq<Prize>)
    ensures |r| == |st.prizes|
    ensures Valid(st) ==> IdsAscending(r)
    ensures forall p :: p in r <==> p in st.prizes
  {
    st.prizes
  }

  /** `getPrize`: the prize stored under `id`, or none. */
  function GetPrize(st: Store, id: int): (r: Option<Prize>)
    ensures r.Some? ==> r.value in st.prizes && r.value.id == id
    ensures r.None? <==> !HasPrize(st.prizes, id)
  {
    match IndexOf(st.prizes, id)
    case None => None
    case Some(i) => Some(st.prizes[i])
  }

  datatype Created = Created(store: Store, prize: Prize)

  /** `createPrize`: the current counter becomes the new prize's id, the counter moves on,
      and the prize goes last in iteration order. */
  function CreatePrize(st: Store, p: InsertPrize): (r: Created)
    ensures r.prize.id == st.nextPrizeId && Data(r.prize) == p
    ensures r.store == st.(prizes := st.prizes + [r.prize], nextPrizeId := st.nextPrizeId + 1)
    ensures Valid(st) ==> Valid(r.store)
    ensures Valid(st) ==> forall q :: q in st.prizes ==> q.id < r.prize.id
  {
    var created := WithId(p, st.nextPrizeId);
    Created(st.(prizes := st.prizes + [created], nextPrizeId := st.nextPrizeId + 1), created)
  }

  datatype Updated = Updated(store: Store, prize: Option<Prize>)

  /** `updatePrize`: an unknown id changes nothing; otherwise the stored prize is replaced,
      in place, by its shallow merge with `u`. */
  function UpdatePrize(st: Store, id: int, u: PrizePatch): (r: Updated)
    ensures r.prize.None? <==> !HasPrize(st.prizes, id)
    ensures r.prize.None? ==> r.store == st
    ensures r.store == st.(prizes := r.store.prizes)
    ensures |r.store.prizes| == |st.prizes|
    ensures forall j :: 0 <= j < |st.prizes| ==> r.store.prizes[j].id == st.prizes[j].id
    ensures Valid(st) ==> forall j :: 0 <= j < |st.prizes| ==>
      if st.prizes[j].id == id
      then r.store.prizes[j] == MergePrize(st.prizes[j], u) && r.prize == Some(r.store.prizes[j])
      else r.store.prizes[j] == st.prizes[j]
    ensures Valid(st) ==> Valid(r.store)
  {
    match IndexOf(st.prizes, id)
    case None => Updated(st, None)
    case Some(i) =>
      var merged := MergePrize(st.prizes[i], u);
      Updated(st.(prizes := st.prizes[i := merged]), Some(merged))
  }

  datatype Deleted = Deleted(store: Store, found: bool)

  /** The prizes left after removing position `i`. */
  function RemoveAt(ps: seq<Prize>, i: nat): (r: seq<Prize>)
    requires i < |ps|
    ensures |r| == |ps| - 1
    ensures forall k :: 0 <= k < |r| ==> r[k] == (if k < i then ps[k] else ps[k + 1])
  {
    ps[..i] + ps[i + 1..]
  }

  /** Removing an entry from an ascending list keeps it ascending. */
  lemma RemoveAtAscending(ps: seq<Prize>, i: nat)
    requires IdsAscending(ps) && i < |ps|
    ensures IdsAscending(RemoveAt(ps, i))
  {
    var rest := RemoveAt(ps, i);
    forall a, b | 0 <= a < b < |rest|
      ensures rest[a].id < rest[b].id
    {
      var a', b' := if a < i then a else a + 1, if b < i then b else b + 1;
      assert rest[a] == ps[a'] && rest[b] == ps[b'];
    }
  }

  /** Every prize left after the removal was there before, under another id. */
  lemma RemoveAtDrops(ps: seq<Prize>, i: nat)
    requires IdsAscending(ps) && i < |ps|
    ensures forall q :: q in RemoveAt(ps, i) ==> q in ps && q.id != ps[i].id
  {
    var rest := RemoveAt(ps, i);
    forall q | q in rest
      ensures q in ps && q.id != ps[i].id
    {
      var k :| 0 <= k < |rest| && rest[k] == q;
      var k' := if k < i then k else k + 1;
      assert ps[k'] == q;
    }
  }

  /** Every prize with another id is still there after the removal. */
  lemma RemoveAtKeeps(ps: seq<Prize>, i: nat)
    requires i < |ps|
    ensures forall q :: q in ps && q.id != ps[i].id ==> q in RemoveAt(ps, i)
  {
    var rest := RemoveAt(ps, i);
    forall q | q in ps && q.id != ps[i].id
      ensures q in rest
    {
      var k :| 0 <= k < |ps| && ps[k] == q;
      if k < i { assert rest[k] == q; } else { assert rest[k - 1] == q; }
    }
  }

  /** Removing the entry holding `id` from an ascending list keeps it ascending and keeps
      exactly the prizes with another id. */
  lemma RemoveAtKeepsOthers(ps: seq<Prize>, i: nat, id: int)
    requires IdsAscending(ps) && i < |ps| && ps[i].id == id
    ensures IdsAscending(RemoveAt(ps, i))
    ensures forall q :: q in RemoveAt(ps, i) <==> q in ps && q.id != id
  {
    RemoveAtAscending(ps, i);
    RemoveAtDrops(ps, i);
    RemoveAtKeeps(ps, i);
  }

  /** `deletePrize`: reports whether `id` was present and removes only that entry,
      keeping the others in order. */
  function DeletePrize(st: Store, id: int): (r: Deleted)
    ensures r.found <==> HasPrize(st.prizes, id)
    ensures !r.found ==> r.store == st
    ensures r.found ==> exists i :: (0 <= i < |st.prizes| && st.prizes[i].id == id
      && r.store == st.(prizes := RemoveAt(st.prizes, i)))
    ensures Valid(st) ==> Valid(r.store)
    ensures Valid(st) ==> forall q :: q in r.store.prizes <==> q in st.prizes && q.id != id
  {
    match IndexOf(st.prizes, id)
    case None => Deleted(st, false)
    case Some(i) =>
      assert Valid(st) ==>
        (&& IdsAscending(RemoveAt(st.prizes, i))
         && forall q :: q in RemoveAt(st.prizes, i) <==> q in st.prizes && q.id != id)
      by { if Valid(st) { RemoveAtKeepsOthers(st.prizes, i, id); } }
      Deleted(st.(prizes := RemoveAt(st.prizes, i)), true)
  }

  // ---------------------------------------------------------------- users

  /** `getUser`. */
  function GetUser(st: Store, id: int): (r: Option<User>)
    ensures r.Some? <==> id in st.users
    ensures r.Some? ==> r.value == st.users[id]
  {
    if id in st.users then Some(st.users[id]) else None
  }

  datatype UserCreated = UserCreated(store: Store, user: User)

  /** `createUser`: the user counter becomes the id, both play counters start at 0. */
  function CreateUser(st: Store, u: InsertUser): (r: UserCreated)
    ensures r.user.id == st.nextUserId
    ensures r.user.username == u.username && r.user.password == u.password && r.user.role == u.role
    ensures r.user.gamesPlayed == Some(0) && r.user.prizesWon == Some(0)
    ensures r.store == st.(users := st.users[r.user.id := r.user], nextUserId := st.nextUserId + 1)
    ensures Valid(st) ==> st.nextUserId !in st.users && Valid(r.store)
  {
    var user := User(st.nextUserId, u.username, u.password, u.role, Some(0), Some(0));
    UserCreated(st.(users := st.users[user.id := user], nextUserId := st.nextUserId + 1), user)
  }

  datatype UserUpdated = UserUpdated(store: Store, user: Option<User>)

  /** `updateUserStats`: an unknown id gives none and changes nothing; an argument left
      undefined (`Keep`) keeps that counter. */
  function UpdateUserStats(st: Store, id: int, gamesPlayed: Patch<int>, prizesWon: Patch<int>): (r: UserUpdated)
    ensures r.user.None? <==> id !in st.users
    ensures r.user.None? ==> r.store == st
    ensures r.user.Some? ==> r.store == st.(users := st.users[id := r.user.value])
    ensures r.user.Some? ==> var before, after := st.users[id], r.user.value;
      && after.id == before.id && after.username == before.username
      && after.password == before.password && after.role == before.role
      && (gamesPlayed.Keep? ==> after.gamesPlayed == before.gamesPlayed)
      && (gamesPlayed.Set? ==> after.gamesPlayed == Some(gamesPlayed.value))
      && (prizesWon.Keep? ==> after.prizesWon == before.prizesWon)
      && (prizesWon.Set? ==> after.prizesWon == Some(prizesWon.value))
    ensures Valid(st) ==> Valid(r.store)
  {
    if id !in st.users then UserUpdated(st, None)
    else
      var user := st.users[id];
      var updated := user.(
        gamesPlayed := if gamesPlayed.Set? then Some(gamesPlayed.value) else user.gamesPlayed,
        prizesWon := if prizesWon.Set? then Some(prizesWon.value) else user.prizesWon);
      UserUpdated(st.(users := st.users[id := updated]), Some(updated))
  }

  // ---------------------------------------------------------------- settings and stats

  datatype SettingsUpdated = SettingsUpdated(store: Store, settings: GameSettings)

  /** `updateGameSettings`: shallow merge into the settings row, nothing else changes. */
  function UpdateGameSettings(st: Store, u: SettingsPatch): (r: SettingsUpdated)
    ensures r.settings == r.store.settings
    ensures GameSettingsKeepsAbsent(st.settings, u, r.settings) && GameSettingsTakesPresent(u, r.settings)
    ensures r.store == st.(settings := r.settings)
    ensures Valid(st) ==> Valid(r.store)
  {
    var merged := MergeSettings(st.settings, u);
    SettingsUpdated(st.(settings := merged), merged)
  }

  datatype StatsUpdated = StatsUpdated(store: Store, stats: GameStats)

  /** `updateGameStats`: shallow merge into the stats row, nothing else changes. */
  function UpdateGameStats(st: Store, u: StatsPatch): (r: StatsUpdated)
    ensures r.stats == r.store.stats
    ensures GameStatsKeepsAbsent(st.stats, u, r.stats) && GameStatsTakesPresent(u, r.stats)
    ensures r.store == st.(stats := r.stats)
    ensures Valid(st) ==> Valid(r.store)
  {
    var merged := MergeStats(st.stats, u);
    StatsUpdated(st.(stats := merged), merged)
  }

  // ---------------------------------------------------------------- reading back

  /** In a valid store, `getPrize` finds the stored prize holding `id`. */
  lemma GetStored(st: Store, i: nat)
    requires Valid(st) && i < |st.prizes|
    ensures GetPrize(st, st.prizes[i].id) == Some(st.prizes[i])
  {
    var id := st.prizes[i].id;
    var k := IndexOf(st.prizes, id).value;
    IndexOfUnique(st.prizes, id, i, k);
  }

  /** A created prize is found under its new id. */
  lemma CreateThenGet(st: Store, p: InsertPrize)
    requires Valid(st)
    ensures var c := CreatePrize(st, p);
      GetPrize(c.store, c.prize.id) == Some(c.prize) && Data(c.prize) == p
  {
    var c := CreatePrize(st, p);
    GetStored(c.store, |st.prizes|);
  }

  /** After an update of a stored id, `getPrize` returns the merge of the old prize with the
      patch. */
  lemma UpdateThenGet(st: Store, i: nat, u: PrizePatch)
    requires Valid(st) && i < |st.prizes|
    ensures var r := UpdatePrize(st, st.prizes[i].id, u);
      && r.prize == Some(MergePrize(st.prizes[i], u))
      && GetPrize(r.store, st.prizes[i].id) == r.prize
  {
    var r := UpdatePrize(st, st.prizes[i].id, u);
    GetStored(r.store, i);
  }

  /** After a delete, the id is gone, and deleting it again reports false. */
  lemma DeleteThenGet(st: Store, id: int)
    requires Valid(st)
    ensures var r := DeletePrize(st, id);
      && GetPrize(r.store, id).None?
      && !DeletePrize(r.store, id).found
  {
  }

  /** A created user is found under its new id with zeroed counters. */
  lemma CreateUserThenGet(st: Store, u: InsertUser)
    ensures var c := CreateUser(st, u);
      GetUser(c.store, c.user.id) == Some(c.user) && Num(c.user.gamesPlayed) == 0 && Num(c.user.prizesWon) == 0
  {
  }

  // ---------------------------------------------------------------- initial contents

  /** The six prizes the store is seeded with, ids 1 to 6; stock 0 marks the two unlimited ones. */
  function SeedPrizes(): seq<Prize> {
    [ Prize(1, "$100", Some("Gift Card"), "Physical", "$100.00", "gift", Some(10), true, 5),
      Prize(2, "Free", Some("Subscription"), "Digital", "$49.99", "star", Some(0), true, 15),
      Prize(3, "50% Off", Some("Next Purchase"), "Discount", "Variable", "percent", Some(50), true, 80),
      Prize(4, "Smart", Some("Watch"), "Physical", "$199.99", "clock", Some(5), true, 3),
      Prize(5, "Mystery", Some("Box"), "Physical", "Variable", "box", Some(20), true, 7),
      Prize(6, "Free", Some("Game"), "Digital", "$59.99", "gamepad", Some(0), true, 12) ]
  }

  /** The store as the constructor leaves it. */
  function InitialStore(): Store {
    Store(
      map[1 := User(1, "admin", "admin123", "admin", Some(0), Some(0))], 2,
      SeedPrizes(), 7,
      GameSettings(
        1, "Scratch & Win", Some("Scratch the card below to reveal your prize"),
        Some("default.png"), Some("#1a365d"), Some("#ffc107"),
        Some(true), Some(true), Some(true), Some(false), Some(false),
        Some("3 per day"), Some(24), Some("Until next play"), Some("1 month"), Some(25),
        Some(AdminNotifications(true, true, false)),
        Some(UserNotifications(true, true, false))),
      GameStats(1, Some(1248), Some(246), Some(3157), Some(15)))
  }

  /** The seeded store is valid, and its settings row is exactly the row the column defaults give. */
  lemma InitialStoreValid()
    ensures Valid(InitialStore())
    ensures InitialStore().settings == DefaultSettings(1)
    ensures forall p :: p in AllPrizes(InitialStore()) ==> p.isActive
  {
  }
}
