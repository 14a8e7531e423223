/**
 Record shapes of the `users`, `prizes`, `game_settings` and `game_stats` tables,
 their column defaults, and the partial-update shapes the store accepts.
 A nullable column is an `Option`; a `Patch` field is one key of a `Partial<...>`.
 */
module Schema {
  import opened JsValues

  // ---------------------------------------------------------------- users

  /** A user row. `lastLogin` is a clock reading and is not modelled. */
  datatype User = User(
    id: int,
    username: string,
    password: string,
    role: string,
    gamesPlayed: Option<int>,
    prizesWon: Option<int>)

  /** The insert shape of a user: username, password and role only. */
  datatype InsertUser = InsertUser(username: string, password: string, role: string)

  // ---------------------------------------------------------------- prizes

  /** A prize row. `category` is the `type` column (free text: Physical, Digital, Discount). */
  datatype Prize = Prize(
    id: int,
    name: string,
    description: Option<string>,
    category: string,
    value: string,
    icon: string,
    stock: Option<int>,
    isActive: bool,
    probability: int)

  /** The insert shape of a prize: every column but `id`, which the store assigns. */
  datatype InsertPrize = InsertPrize(
    name: string,
    description: Option<string>,
    category: string,
    value: string,
    icon: string,
    stock: Option<int>,
    isActive: bool,
    probability: int)

  /** A prize row as the database receives it: the columns with a column default may be
      left out. */
  datatype PrizeInput = PrizeInput(
    name: string,
    description: Option<string>,
    category: string,
    value: string,
    icon: string,
    stock: Option<int>,
    isActive: Option<bool>,
    probability: Option<int>)

  /** The row the database's column defaults make of an input: `isActive` defaults to
      true, `probability` to 0, while `stock` and `description` have no default (null).
      The in-memory store applies no defaults: `createPrize` spreads the body as sent. */
  function ApplyPrizeDefaults(i: PrizeInput): (r: InsertPrize)
    ensures !r.isActive <==> i.isActive == Some(false)
    ensures i.probability.None? ==> r.probability == 0
    ensures i.probability.Some? ==> r.probability == i.probability.value
    ensures r.stock == i.stock && r.description == i.description
    ensures r.name == i.name && r.category == i.category && r.value == i.value && r.icon == i.icon
  {
    InsertPrize(i.name, i.description, i.category, i.value, i.icon, i.stock,
                i.isActive.GetOr(true), i.probability.GetOr(0))
  }

  /** The prize an insert record becomes once the store gives it an id. */
  function WithId(p: InsertPrize, id: int): (r: Prize)
    ensures r.id == id
    ensures Data(r) == p
  {
    Prize(id, p.name, p.description, p.category, p.value, p.icon, p.stock, p.isActive, p.probability)
  }

  /** Every column of a prize but its id. */
  function Data(p: Prize): InsertPrize {
    InsertPrize(p.name, p.description, p.category, p.value, p.icon, p.stock, p.isActive, p.probability)
  }

  /** `Partial<Prize>` without `id`. */
  datatype PrizePatch = PrizePatch(
    name: Patch<string>,
    description: Patch<Option<string>>,
    category: Patch<string>,
    value: Patch<string>,
    icon: Patch<string>,
    stock: Patch<Option<int>>,
    isActive: Patch<bool>,
    probability: Patch<int>)

  /** The patch that sets only `stock`. */
  function StockPatch(stock: Option<int>): PrizePatch {
    PrizePatch(Keep, Keep, Keep, Keep, Keep, Set(stock), Keep, Keep)
  }

  /** Every prize field absent from `u` has its value from `p`. */
  predicate PrizeKeepsAbsent(p: Prize, u: PrizePatch, r: Prize) {
    (u.name.Keep? ==> r.name == p.name)
    && (u.description.Keep? ==> r.description == p.description)
    && (u.category.Keep? ==> r.category == p.category)
    && (u.value.Keep? ==> r.value == p.value)
    && (u.icon.Keep? ==> r.icon == p.icon)
    && (u.stock.Keep? ==> r.stock == p.stock)
    && (u.isActive.Keep? ==> r.isActive == p.isActive)
    && (u.probability.Keep? ==> r.probability == p.probability)
  }

  /** Every prize field present in `u` has the value `u` gives it. */
  predicate PrizeTakesPresent(u: PrizePatch, r: Prize) {
    (u.name.Set? ==> r.name == u.name.value)
    && (u.description.Set? ==> r.description == u.description.value)
    && (u.category.Set? ==> r.category == u.category.value)
    && (u.value.Set? ==> r.value == u.value.value)
    && (u.icon.Set? ==> r.icon == u.icon.value)
    && (u.stock.Set? ==> r.stock == u.stock.value)
    && (u.isActive.Set? ==> r.isActive == u.isActive.value)
    && (u.probability.Set? ==> r.probability == u.probability.value)
  }

  /** `{ ...p, ...u }`: the id is kept. */
  function MergePrize(p: Prize, u: PrizePatch): (r: Prize)
    ensures r.id == p.id
    ensures PrizeKeepsAbsent(p, u, r) && PrizeTakesPresent(u, r)
  {
    Prize(p.id, u.name.Apply(p.name), u.description.Apply(p.description),
          u.category.Apply(p.category), u.value.Apply(p.value), u.icon.Apply(p.icon),
          u.stock.Apply(p.stock), u.isActive.Apply(p.isActive), u.probability.Apply(p.probability))
  }

  /** Merging the stock-only patch changes the stock and nothing else. */
  lemma StockPatchOnlyTouchesStock(p: Prize, stock: Option<int>)
    ensures MergePrize(p, StockPatch(stock)) == p.(stock := stock)
  {
  }

  // ---------------------------------------------------------------- settings

  /** The `admin_notifications` JSON column. */
  datatype AdminNotifications = AdminNotifications(
    emailOnHighValuePrize: bool, dailySummaryReport: bool, lowStockAlerts: bool)

  /** The `user_notifications` JSON column. */
  datatype UserNotifications = UserNotifications(
    prizeWinConfirmation: bool, reminderToPlay: bool, marketingCommunications: bool)

  /** The single game-settings row. */
  datatype GameSettings = GameSettings(
    id: int,
    title: string,
    instructionText: Option<string>,
    cardBackground: Option<string>,
    primaryColor: Option<string>,
    secondaryColor: Option<string>,
    enableGame: Option<bool>,
    showPrizeGallery: Option<bool>,
    enableWinAnimations: Option<bool>,
    requireUserRegistration: Option<bool>,
    enableSocialSharing: Option<bool>,
    playsPerUser: Option<string>,
    countdownTimer: Option<int>,
    timerType: Option<string>,
    gameDuration: Option<string>,
    globalWinRate: Option<int>,
    adminNotifications: Option<AdminNotifications>,
    userNotifications: Option<UserNotifications>)

  /** The settings row the column defaults produce. */
  function DefaultSettings(id: int): GameSettings {
    GameSettings(
      id, "Scratch & Win", Some("Scratch the card below to reveal your prize"),
      Some("default.png"), Some("#1a365d"), Some("#ffc107"),
      Some(true), Some(true), Some(true), Some(false), Some(false),
      Some("3 per day"), Some(24), Some("Until next play"), Some("1 month"), Some(25),
      Some(AdminNotifications(true, true, false)),
      Some(UserNotifications(true, true, false)))
  }

  /** `Partial<GameSettings>`: every column, `id` included, may be sent. */
  datatype SettingsPatch = SettingsPatch(
    id: Patch<int>,
    title: Patch<string>,
    instructionText: Patch<Option<string>>,
    cardBackground: Patch<Option<string>>,
    primaryColor: Patch<Option<string>>,
    secondaryColor: Patch<Option<string>>,
    enableGame: Patch<Option<bool>>,
    showPrizeGallery: Patch<Option<bool>>,
    enableWinAnimations: Patch<Option<bool>>,
    requireUserRegistration: Patch<Option<bool>>,
    enableSocialSharing: Patch<Option<bool>>,
    playsPerUser: Patch<Option<string>>,
    countdownTimer: Patch<Option<int>>,
    timerType: Patch<Option<string>>,
    gameDuration: Patch<Option<string>>,
    globalWinRate: Patch<Option<int>>,
    adminNotifications: Patch<Option<AdminNotifications>>,
    userNotifications: Patch<Option<UserNotifications>>)

  /** The settings patch with no key. */
  function NoSettingsChange(): SettingsPatch {
    SettingsPatch(Keep, Keep, Keep, Keep, Keep, Keep, Keep, Keep, Keep,
                  Keep, Keep, Keep, Keep, Keep, Keep, Keep, Keep, Keep)
  }

  /** Every settings field absent from `u` has its value from `s`. */
  predicate GameSettingsKeepsAbsent(s: GameSettings, u: SettingsPatch, r: GameSettings) {
    (u.id.Keep? ==> r.id == s.id)
    && (u.title.Keep? ==> r.title == s.title)
    && (u.instructionText.Keep? ==> r.instructionText == s.instructionText)
    && (u.cardBackground.Keep? ==> r.cardBackground == s.cardBackground)
    && (u.primaryColor.Keep? ==> r.primaryColor == s.primaryColor)
    && (u.secondaryColor.Keep? ==> r.secondaryColor == s.secondaryColor)
    && (u.enableGame.Keep? ==> r.enableGame == s.enableGame)
    && (u.showPrizeGallery.Keep? ==> r.showPrizeGallery == s.showPrizeGallery)
    && (u.enableWinAnimations.Keep? ==> r.enableWinAnimations == s.enableWinAnimations)
    && (u.requireUserRegistration.Keep? ==> r.requireUserRegistration == s.requireUserRegistration)
    && (u.enableSocialSharing.Keep? ==> r.enableSocialSharing == s.enableSocialSharing)
    && (u.playsPerUser.Keep? ==> r.playsPerUser == s.playsPerUser)
    && (u.countdownTimer.Keep? ==> r.countdownTimer == s.countdownTimer)
    && (u.timerType.Keep? ==> r.timerType == s.timerType)
    && (u.gameDuration.Keep? ==> r.gameDuration == s.gameDuration)
    && (u.globalWinRate.Keep? ==> r.globalWinRate == s.globalWinRate)
    && (u.adminNotifications.Keep? ==> r.adminNotifications == s.adminNotifications)
    && (u.userNotifications.Keep? ==> r.userNotifications == s.userNotifications)
  }

  /** Every settings field present in `u` has the value `u` gives it. */
  predicate GameSettingsTakesPresent(u: SettingsPatch, r: GameSettings) {
    (u.id.Set? ==> r.id == u.id.value)
    && (u.title.Set? ==> r.title == u.title.value)
    && (u.instructionText.Set? ==> r.instructionText == u.instructionText.value)
    && (u.cardBackground.Set? ==> r.cardBackground == u.cardBackground.value)
    && (u.primaryColor.Set? ==> r.primaryColor == u.primaryColor.value)
    && (u.secondaryColor.Set? ==> r.secondaryColor == u.secondaryColor.value)
    && (u.enableGame.Set? ==> r.enableGame == u.enableGame.value)
    && (u.showPrizeGallery.Set? ==> r.showPrizeGallery == u.showPrizeGallery.value)
    && (u.enableWinAnimations.Set? ==> r.enableWinAnimations == u.enableWinAnimations.value)
    && (u.requireUserRegistration.Set? ==> r.requireUserRegistration == u.requireUserRegistration.value)
    && (u.enableSocialSharing.Set? ==> r.enableSocialSharing == u.enableSocialSharing.value)
    && (u.playsPerUser.Set? ==> r.playsPerUser == u.playsPerUser.value)
    && (u.countdownTimer.Set? ==> r.countdownTimer == u.countdownTimer.value)
    && (u.timerType.Set? ==> r.timerType == u.timerType.value)
    && (u.gameDuration.Set? ==> r.gameDuration == u.gameDuration.value)
    && (u.globalWinRate.Set? ==> r.globalWinRate == u.globalWinRate.value)
    && (u.adminNotifications.Set? ==> r.adminNotifications == u.adminNotifications.value)
    && (u.userNotifications.Set? ==> r.userNotifications == u.userNotifications.value)
  }

  /** `{ ...s, ...u }`. */
  function MergeSettings(s: GameSettings, u: SettingsPatch): (r: GameSettings)
    ensures GameSettingsKeepsAbsent(s, u, r) && GameSettingsTakesPresent(u, r)
  {
    GameSettings(
      u.id.Apply(s.id), u.title.Apply(s.title), u.instructionText.Apply(s.instructionText),
      u.cardBackground.Apply(s.cardBackground), u.primaryColor.Apply(s.primaryColor),
      u.secondaryColor.Apply(s.secondaryColor), u.enableGame.Apply(s.enableGame),
      u.showPrizeGallery.Apply(s.showPrizeGallery), u.enableWinAnimations.Apply(s.enableWinAnimations),
      u.requireUserRegistration.Apply(s.requireUserRegistration),
      u.enableSocialSharing.Apply(s.enableSocialSharing), u.playsPerUser.Apply(s.playsPerUser),
      u.countdownTimer.Apply(s.countdownTimer), u.timerType.Apply(s.timerType),
      u.gameDuration.Apply(s.gameDuration), u.globalWinRate.Apply(s.globalWinRate),
      u.adminNotifications.Apply(s.adminNotifications), u.userNotifications.Apply(s.userNotifications))
  }

  /** One settings patch with the effect of `u` followed by `v`. */
  function ThenSettings(u: SettingsPatch, v: SettingsPatch): SettingsPatch {
    SettingsPatch(
      u.id.Then(v.id), u.title.Then(v.title), u.instructionText.Then(v.instructionText),
      u.cardBackground.Then(v.cardBackground), u.primaryColor.Then(v.primaryColor),
      u.secondaryColor.Then(v.secondaryColor), u.enableGame.Then(v.enableGame),
      u.showPrizeGallery.Then(v.showPrizeGallery), u.enableWinAnimations.Then(v.enableWinAnimations),
      u.requireUserRegistration.Then(v.requireUserRegistration),
      u.enableSocialSharing.Then(v.enableSocialSharing), u.playsPerUser.Then(v.playsPerUser),
      u.countdownTimer.Then(v.countdownTimer), u.timerType.Then(v.timerType),
      u.gameDuration.Then(v.gameDuration), u.globalWinRate.Then(v.globalWinRate),
      u.adminNotifications.Then(v.adminNotifications), u.userNotifications.Then(v.userNotifications))
  }

  // ---------------------------------------------------------------- stats

  /** The single game-stats row. */
  datatype GameStats = GameStats(
    id: int,
    totalPlayers: Option<int>,
    prizesWon: Option<int>,
    gamesPlayed: Option<int>,
    weeklyGrowth: Option<int>)

  /** The stats row the column defaults produce. */
  function DefaultStats(id: int): GameStats {
    GameStats(id, Some(0), Some(0), Some(0), Some(0))
  }

  /** `Partial<GameStats>`. */
  datatype StatsPatch = StatsPatch(
    id: Patch<int>,
    totalPlayers: Patch<Option<int>>,
    prizesWon: Patch<Option<int>>,
    gamesPlayed: Patch<Option<int>>,
    weeklyGrowth: Patch<Option<int>>)

  /** Every stats field absent from `u` has its value from `s`. */
  predicate GameStatsKeepsAbsent(s: GameStats, u: StatsPatch, r: GameStats) {
    (u.id.Keep? ==> r.id == s.id)
    && (u.totalPlayers.Keep? ==> r.totalPlayers == s.totalPlayers)
    && (u.prizesWon.Keep? ==> r.prizesWon == s.prizesWon)
    && (u.gamesPlayed.Keep? ==> r.gamesPlayed == s.gamesPlayed)
    && (u.weeklyGrowth.Keep? ==> r.weeklyGrowth == s.weeklyGrowth)
  }

  /** Every stats field present in `u` has the value `u` gives it. */
  predicate GameStatsTakesPresent(u: StatsPatch, r: GameStats) {
    (u.id.Set? ==> r.id == u.id.value)
    && (u.totalPlayers.Set? ==> r.totalPlayers == u.totalPlayers.value)
    && (u.prizesWon.Set? ==> r.prizesWon == u.prizesWon.value)
    && (u.gamesPlayed.Set? ==> r.gamesPlayed == u.gamesPlayed.value)
    && (u.weeklyGrowth.Set? ==> r.weeklyGrowth == u.weeklyGrowth.value)
  }

  /** `{ ...s, ...u }`. */
  function MergeStats(s: GameStats, u: StatsPatch): (r: GameStats)
    ensures GameStatsKeepsAbsent(s, u, r) && GameStatsTakesPresent(u, r)
  {
    GameStats(u.id.Apply(s.id), u.totalPlayers.Apply(s.totalPlayers), u.prizesWon.Apply(s.prizesWon),
              u.gamesPlayed.Apply(s.gamesPlayed), u.weeklyGrowth.Apply(s.weeklyGrowth))
  }

  /** One stats patch with the effect of `u` followed by `v`. */
  function ThenStats(u: StatsPatch, v: StatsPatch): StatsPatch {
    StatsPatch(u.id.Then(v.id), u.totalPlayers.Then(v.totalPlayers), u.prizesWon.Then(v.prizesWon),
               u.gamesPlayed.Then(v.gamesPlayed), u.weeklyGrowth.Then(v.weeklyGrowth))
  }

  // ---------------------------------------------------------------- properties

  /** The column defaults: a win rate of 25, zeroed counters, a probability of 0,
      an active flag of true and no stock (null) when none is given. */
  lemma ColumnDefaults(name: string, category: string, value: string, icon: string)
    ensures DefaultSettings(1).globalWinRate == Some(25)
    ensures var s := DefaultStats(1);
      Num(s.totalPlayers) == 0 && Num(s.prizesWon) == 0 && Num(s.gamesPlayed) == 0 && Num(s.weeklyGrowth) == 0
    ensures var p := ApplyPrizeDefaults(PrizeInput(name, None, category, value, icon, None, None, None));
      p.probability == 0 && p.isActive && p.stock.None?
  {
  }

  /** A settings patch with no key leaves settings as they are; applying the same patch twice
      is applying it once; and two patches in a row are one combined patch. */
  lemma MergeSettingsLaws(s: GameSettings, u: SettingsPatch, v: SettingsPatch)
    ensures MergeSettings(s, NoSettingsChange()) == s
    ensures MergeSettings(MergeSettings(s, u), u) == MergeSettings(s, u)
    ensures MergeSettings(MergeSettings(s, u), v) == MergeSettings(s, ThenSettings(u, v))
  {
  }

  /** The same three laws for stats. */
  lemma MergeStatsLaws(s: GameStats, u: StatsPatch, v: StatsPatch)
    ensures MergeStats(s, StatsPatch(Keep, Keep, Keep, Keep, Keep)) == s
    ensures MergeStats(MergeStats(s, u), u) == MergeStats(s, u)
    ensures MergeStats(MergeStats(s, u), v) == MergeStats(s, ThenStats(u, v))
  {
  }
}
