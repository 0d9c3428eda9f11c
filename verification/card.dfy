/** The card component's state machine: configuration validation, the
    reads from the host's state snapshot, the change fingerprint that
    suppresses redundant renders, the per-view `shouldAnimate` flag that is
    set on a view's first render,
    view switching and calendar-year navigation. A render is returned as a
    view model instead of markup. */
module Card {
  import opened Base
  import opened JsNumber
  import opened History
  import Chart
  import Calendar

  /** The card configuration: field name to value. A missing field and an
      empty value are both falsy to the card. */
  type Config = map<string, string>

  const TitleKey := "title"
  const ThemeKey := "theme"
  const YearlyTargetKey := "yearly_target"
  const CurrentReadingKey := "entity_current_reading"
  const BalanceKey := "entity_balance"
  const YearlyVolumeKey := "entity_yearly_volume"
  const YearlyAmountKey := "entity_yearly_amount"
  const MonthlyVolumeKey := "entity_monthly_volume"
  const MonthlyAmountKey := "entity_monthly_amount"
  const UnpaidAmountKey := "entity_unpaid_amount"
  const UnitPriceKey := "entity_unit_price"
  const HistoryDataKey := "entity_history_data"

  /** The history sensor read when the configuration names none. */
  const DefaultHistoryEntity := "sensor.guotou_water_history_data"

  /** The default card title. */
  const DefaultTitle := "\U{56FD}\U{6295}\U{6C34}\U{52A1}"

  /** A configuration field read the way the card tests it. */
  function Value(cfg: Config, key: string): string {
    if key in cfg then cfg[key] else ""
  }

  /** `value || fallback` on strings. */
  function OrElse(value: string, fallback: string): (r: string)
    ensures value != "" ==> r == value
    ensures value == "" ==> r == fallback
  {
    if value != "" then value else fallback
  }

  /** A configuration names at least one of the two volume entities. */
  predicate ValidConfig(cfg: Config) {
    Value(cfg, YearlyVolumeKey) != "" || Value(cfg, MonthlyVolumeKey) != ""
  }

  datatype ConfigError = MissingVolumeEntity

  /** The entity attributes the card reads. */
  datatype Attributes = Attributes(monthlyHistory: Option<seq<HistoryEntry>>)

  datatype Entity = Entity(state: string, attributes: Option<Attributes>)

  /** The host's state map: entity id to entity. */
  type Snapshot = map<string, Entity>

  datatype View = OverviewTab | MonthlyTab | CalendarTab

  /** The calendar's `Date`: year, zero-based month, and the milliseconds
      since the first of that month at midnight. */
  datatype Anchor = Anchor(year: int, month: nat, sinceMonthStart: nat)

  /** The fields of the change fingerprint. */
  datatype Fingerprint = Fingerprint(balance: string, monthlyAmount: string, historyLength: nat, view: View, anchor: Anchor)

  datatype Card = Card(
    config: Option<Config>,
    hass: Option<Snapshot>,
    view: View,
    played: set<View>,
    lastFingerprint: Option<Fingerprint>,
    anchor: Anchor)

  type Month0 = m: nat | m < 12

  /** What a render reads from outside the card: the local clock's year and
      zero-based month, and JavaScript's `parseFloat`. */
  datatype Env = Env(todayYear: nat, todayMonth: Month0, parseFloat: string -> JsNum)

  /** The header and balance section shared by all views. */
  datatype Header = Header(
    title: string,
    theme: string,
    currentReading: string,
    unitPrice: string,
    monthlyVolume: string,
    monthlyAmount: string,
    balance: string,
    unpaidAmount: string,
    balanceLow: bool,
    unpaidNonZero: bool,
    activeTab: View)

  datatype Content =
    | OverviewContent(monthlyVolume: string, monthlyAmount: string, yearlyVolume: string,
                      yearlyAmount: string, progress: Option<JsNum>)
    | MonthlyContent(chart: Chart.ChartView)
    | CalendarContent(calendar: Calendar.CalendarView)

  /** One full render. `animate` is the card's `shouldAnimate`; only the
      monthly chart's bars read it, to grow in instead of appearing at full
      height. The overview and the calendar have no entrance animation. */
  datatype Render = Render(header: Header, content: Content, animate: bool)

  /** The card after an event, and what it rendered, if anything. */
  datatype Step = Step(card: Card, render: Option<Render>)

  /** The constructor: overview, nothing played, no fingerprint, the
      calendar anchored at the construction instant. */
  function NewCard(now: Anchor): (c: Card)
    ensures c.config.None? && c.hass.None? && c.anchor == now
    ensures c.view == OverviewTab && c.played == {}
    ensures c.lastFingerprint.None? && Consistent(c)
  {
    Card(None, None, OverviewTab, {}, None, now)
  }

  /** `setConfig`: throws unless a volume entity is named; otherwise stores
      the configuration as given and changes nothing else. */
  function SetConfig(c: Card, cfg: Config): (r: Result<Card, ConfigError>)
    ensures r.Failure? <==> Value(cfg, YearlyVolumeKey) == "" && Value(cfg, MonthlyVolumeKey) == ""
    ensures r.Success? ==> r.value == c.(config := Some(cfg))
  {
    if !ValidConfig(cfg) then Failure(MissingVolumeEntity) else Success(c.(config := Some(cfg)))
  }

  /** `getStubConfig`: the configuration the card picker proposes, which
      names both volume entities and so passes validation. */
  function StubConfig(): (cfg: Config)
    ensures ValidConfig(cfg)
    ensures Value(cfg, HistoryDataKey) == DefaultHistoryEntity
  {
    map[TitleKey := DefaultTitle, ThemeKey := "", YearlyTargetKey := "200",
        CurrentReadingKey := "sensor.guotou_water_current_reading",
        BalanceKey := "sensor.guotou_water_balance",
        YearlyVolumeKey := "sensor.guotou_water_yearly_volume",
        YearlyAmountKey := "sensor.guotou_water_yearly_amount",
        MonthlyVolumeKey := "sensor.guotou_water_monthly_volume",
        MonthlyAmountKey := "sensor.guotou_water_monthly_amount",
        UnpaidAmountKey := "sensor.guotou_water_unpaid_amount",
        UnitPriceKey := "sensor.guotou_water_unit_price",
        HistoryDataKey := DefaultHistoryEntity]
  }

  /** `_getState`: the state of the entity, or `None` for an empty id or an
      unknown entity. */
  function GetState(hass: Snapshot, entityId: string): (r: Option<string>)
    ensures r.Some? <==> entityId != "" && entityId in hass
    ensures r.Some? ==> r.value == hass[entityId].state
  {
    if entityId == "" || entityId !in hass then None else Some(hass[entityId].state)
  }

  /** `shown` is what the card displays for the entity configured under
      `key`: its state when that is present and non-empty, else `fallback`. */
  predicate Shows(hass: Snapshot, cfg: Config, key: string, fallback: string, shown: string) {
    var state := GetState(hass, Value(cfg, key)).GetOr("");
    shown == if state != "" then state else fallback
  }

  /** `this._getState(config[key]) || fallback`. */
  function StateOr(hass: Snapshot, cfg: Config, key: string, fallback: string): string {
    OrElse(GetState(hass, Value(cfg, key)).GetOr(""), fallback)
  }

  /** `this._getAttribute(entityId, 'monthly_history') || []`. */
  function AttrHistory(hass: Snapshot, entityId: string): (h: seq<HistoryEntry>)
    ensures |h| > 0 ==> entityId != "" && entityId in hass && hass[entityId].attributes.Some?
    ensures entityId != "" && entityId in hass && hass[entityId].attributes.Some? ==>
      h == hass[entityId].attributes.value.monthlyHistory.GetOr([])
  {
    if entityId == "" || entityId !in hass then []
    else
      match hass[entityId].attributes
      case None => []
      case Some(a) => a.monthlyHistory.GetOr([])
  }

  /** The history the card charts: the history entity's, or, when that is
      empty, the yearly-volume entity's. */
  function HistoryOf(hass: Snapshot, cfg: Config): (h: seq<HistoryEntry>)
    ensures var primary := AttrHistory(hass, OrElse(Value(cfg, HistoryDataKey), DefaultHistoryEntity));
      var fallback := AttrHistory(hass, Value(cfg, YearlyVolumeKey));
      && (h == primary || h == fallback)
      && (|primary| > 0 ==> h == primary)
      && (|h| == 0 <==> |primary| == 0 && |fallback| == 0)
  {
    var primary := AttrHistory(hass, OrElse(Value(cfg, HistoryDataKey), DefaultHistoryEntity));
    if |primary| == 0 then AttrHistory(hass, Value(cfg, YearlyVolumeKey)) else primary
  }

  function BalanceOf(hass: Snapshot, cfg: Config): string {
    StateOr(hass, cfg, BalanceKey, "--")
  }

  function MonthlyAmountOf(hass: Snapshot, cfg: Config): string {
    StateOr(hass, cfg, MonthlyAmountKey, "0")
  }

  /** The fingerprint `_updateCard` compares with the last one: the
      balance state (or "--"), the monthly amount state (or "0"), the
      history's length, the view and the calendar anchor. */
  function FingerprintOf(c: Card): (fp: Fingerprint)
    requires c.hass.Some? && c.config.Some?
    ensures var hass, cfg := c.hass.value, c.config.value;
      var balance := GetState(hass, Value(cfg, BalanceKey)).GetOr("");
      var amount := GetState(hass, Value(cfg, MonthlyAmountKey)).GetOr("");
      && fp.balance == (if balance != "" then balance else "--")
      && fp.monthlyAmount == (if amount != "" then amount else "0")
      && fp.historyLength == |HistoryOf(hass, cfg)|
    ensures fp.view == c.view && fp.anchor == c.anchor
  {
    var hass, cfg := c.hass.value, c.config.value;
    Fingerprint(BalanceOf(hass, cfg), MonthlyAmountOf(hass, cfg), |HistoryOf(hass, cfg)|, c.view, c.anchor)
  }

  /** The progress percentage, computed only when a yearly target is set. */
  function Progress(cfg: Config, yearlyVolume: string, parseFloat: string -> JsNum): (p: Option<JsNum>)
    ensures p.Some? <==> Value(cfg, YearlyTargetKey) != ""
    ensures p.Some? ==> !Lt(Finite(100.0), p.value)
    ensures p.Some? ==> p.value == ProgressPercent(parseFloat(yearlyVolume), parseFloat(Value(cfg, YearlyTargetKey)))
  {
    if Value(cfg, YearlyTargetKey) != "" then
      Some(ProgressPercent(parseFloat(yearlyVolume), parseFloat(Value(cfg, YearlyTargetKey))))
    else None
  }

  /** The header: title, theme and the state strings with their fallbacks,
      the low-balance colour (below 100) and the non-zero unpaid style. */
  function HeaderOf(hass: Snapshot, cfg: Config, view: View, parseFloat: string -> JsNum): (h: Header)
    ensures h.title == (if Value(cfg, TitleKey) != "" then Value(cfg, TitleKey) else DefaultTitle)
    ensures h.title != ""
    ensures h.theme == Value(cfg, ThemeKey)
    ensures Shows(hass, cfg, BalanceKey, "--", h.balance)
    ensures Shows(hass, cfg, UnpaidAmountKey, "0", h.unpaidAmount)
    ensures Shows(hass, cfg, CurrentReadingKey, "--", h.currentReading)
    ensures Shows(hass, cfg, UnitPriceKey, "--", h.unitPrice)
    ensures Shows(hass, cfg, MonthlyVolumeKey, "0", h.monthlyVolume)
    ensures Shows(hass, cfg, MonthlyAmountKey, "0", h.monthlyAmount)
    ensures h.balanceLow <==> Lt(parseFloat(h.balance), Finite(100.0))
    ensures h.unpaidNonZero <==> !StrictEq(parseFloat(h.unpaidAmount), Finite(0.0))
    ensures h.activeTab == view
  {
    var balance := BalanceOf(hass, cfg);
    var unpaid := StateOr(hass, cfg, UnpaidAmountKey, "0");
    Header(OrElse(Value(cfg, TitleKey), DefaultTitle), Value(cfg, ThemeKey),
           StateOr(hass, cfg, CurrentReadingKey, "--"), StateOr(hass, cfg, UnitPriceKey, "--"),
           StateOr(hass, cfg, MonthlyVolumeKey, "0"), MonthlyAmountOf(hass, cfg),
           balance, unpaid,
           Lt(parseFloat(balance), Finite(100.0)), !StrictEq(parseFloat(unpaid), Finite(0.0)),
           view)
  }

  /** With JavaScript's `parseFloat` ("--" is NaN, "0" is 0), a missing
      balance is never coloured low and a missing unpaid amount is styled
      as zero. */
  lemma MissingFiguresStyledNeutral(hass: Snapshot, cfg: Config, view: View, parseFloat: string -> JsNum)
    requires parseFloat("--").NaN? && parseFloat("0") == Finite(0.0)
    ensures var h := HeaderOf(hass, cfg, view, parseFloat);
      && (GetState(hass, Value(cfg, BalanceKey)).GetOr("") == "" ==> !h.balanceLow)
      && (GetState(hass, Value(cfg, UnpaidAmountKey)).GetOr("") == "" ==> !h.unpaidNonZero)
  {
  }

  function ContentOf(hass: Snapshot, cfg: Config, view: View, anchor: Anchor, env: Env, animate: bool): (ct: Content)
    ensures view == OverviewTab <==> ct.OverviewContent?
    ensures view == MonthlyTab <==> ct.MonthlyContent?
    ensures view == CalendarTab <==> ct.CalendarContent?
    ensures ct.OverviewContent? ==>
      && Shows(hass, cfg, MonthlyVolumeKey, "0", ct.monthlyVolume)
      && Shows(hass, cfg, MonthlyAmountKey, "0", ct.monthlyAmount)
      && Shows(hass, cfg, YearlyVolumeKey, "0", ct.yearlyVolume)
      && Shows(hass, cfg, YearlyAmountKey, "0", ct.yearlyAmount)
      && ct.progress == Progress(cfg, ct.yearlyVolume, env.parseFloat)
    ensures ct.MonthlyContent? ==>
      ct.chart == Chart.ChartOf(HistoryOf(hass, cfg), env.todayYear, env.todayMonth + 1, animate)
    ensures ct.CalendarContent? ==>
      ct.calendar == Calendar.CalendarOf(HistoryOf(hass, cfg), anchor.year, env.todayYear, env.todayMonth)
  {
    var history := HistoryOf(hass, cfg);
    match view
    case OverviewTab =>
      var yearlyVolume := StateOr(hass, cfg, YearlyVolumeKey, "0");
      OverviewContent(StateOr(hass, cfg, MonthlyVolumeKey, "0"), MonthlyAmountOf(hass, cfg),
                      yearlyVolume, StateOr(hass, cfg, YearlyAmountKey, "0"),
                      Progress(cfg, yearlyVolume, env.parseFloat))
    case MonthlyTab =>
      MonthlyContent(Chart.ChartOf(history, env.todayYear, env.todayMonth + 1, animate))
    case CalendarTab =>
      CalendarContent(Calendar.CalendarOf(history, anchor.year, env.todayYear, env.todayMonth))
  }

  /** `_updateCard`: nothing happens without a snapshot and a configuration,
      or when the fingerprint equals the last one; otherwise the card
      records the fingerprint, renders the current view with `shouldAnimate` iff
      its played flag was not set, and sets that flag. */
  function UpdateCard(c: Card, env: Env): (s: Step)
    ensures s.render.Some? <==> c.hass.Some? && c.config.Some? && c.lastFingerprint != Some(FingerprintOf(c))
    ensures s.render.None? ==> s.card == c
    ensures s.render.Some? ==>
      && s.card.lastFingerprint == Some(FingerprintOf(c))
      && s.card.played == c.played + {c.view}
      && s.card.config == c.config && s.card.hass == c.hass
      && s.card.view == c.view && s.card.anchor == c.anchor
      && (s.render.value.animate <==> c.view !in c.played)
      && s.render.value.header.activeTab == c.view
      && s.render.value.header == HeaderOf(c.hass.value, c.config.value, c.view, env.parseFloat)
      && s.render.value.content == ContentOf(c.hass.value, c.config.value, c.view, c.anchor, env, s.render.value.animate)
  {
    if c.hass.None? || c.config.None? then Step(c, None)
    else
      var fp := FingerprintOf(c);
      if c.lastFingerprint == Some(fp) then Step(c, None)
      else
        var hass, cfg := c.hass.value, c.config.value;
        var animate := c.view !in c.played;
        var render := Render(HeaderOf(hass, cfg, c.view, env.parseFloat),
                             ContentOf(hass, cfg, c.view, c.anchor, env, animate), animate);
        Step(c.(lastFingerprint := Some(fp), played := c.played + {c.view}), Some(render))
  }

  /** `set hass`: store the snapshot, then update. */
  function SetHass(c: Card, hass: Snapshot, env: Env): (s: Step)
    ensures s.card.hass == Some(hass) && s.card.config == c.config
    ensures s.card.view == c.view && s.card.anchor == c.anchor
    ensures var pushed := c.(hass := Some(hass));
      s.render.Some? <==> c.config.Some? && c.lastFingerprint != Some(FingerprintOf(pushed))
    ensures var pushed := c.(hass := Some(hass));
      s.render.Some? ==> s.card.lastFingerprint == Some(FingerprintOf(pushed))
    ensures s.render.None? ==> s.card == c.(hass := Some(hass))
    ensures s.render.Some? ==>
      && s.card.played == c.played + {c.view}
      && (s.render.value.animate <==> c.view !in c.played)
      && s.render.value.header == HeaderOf(hass, c.config.value, c.view, env.parseFloat)
      && s.render.value.content == ContentOf(hass, c.config.value, c.view, c.anchor, env, s.render.value.animate)
  {
    UpdateCard(c.(hass := Some(hass)), env)
  }

  /** `_switchView`: select `v`, clear its played flag, then update. When
      the update renders, `shouldAnimate` is set; when it does not, the flag stays
      cleared. */
  function SwitchView(c: Card, v: View, env: Env): (s: Step)
    ensures s.card.view == v
    ensures s.render.Some? ==> s.render.value.animate && v in s.card.played
    ensures s.render.None? ==> v !in s.card.played
    ensures forall w :: w != v ==> (w in s.card.played <==> w in c.played)
    ensures s.card.config == c.config && s.card.hass == c.hass && s.card.anchor == c.anchor
    ensures s.render.Some? <==>
      c.hass.Some? && c.config.Some? && c.lastFingerprint != Some(FingerprintOf(c.(view := v)))
    ensures s.render.None? ==> s.card.lastFingerprint == c.lastFingerprint
    ensures s.render.Some? ==>
      && s.card.lastFingerprint == Some(FingerprintOf(c.(view := v)))
      && s.render.value.header == HeaderOf(c.hass.value, c.config.value, v, env.parseFloat)
      && s.render.value.content == ContentOf(c.hass.value, c.config.value, v, c.anchor, env, true)
  {
    UpdateCard(c.(view := v, played := c.played - {v}), env)
  }

  /** JavaScript's `new Date(year, month, 1)` reads years 0-99 as 1900-1999. */
  function JsDateYear(y: int): (r: int)
    ensures !(0 <= r <= 99)
    ensures !(0 <= y <= 99) ==> r == y
  {
    if 0 <= y <= 99 then 1900 + y else y
  }

  /** The new anchor of `_changeCalendarMonth(delta)`: the first of the
      same month, `delta` years on. */
  function MoveAnchor(a: Anchor, delta: int): (r: Anchor)
    ensures r.month == a.month && r.sinceMonthStart == 0
    ensures delta == 1 || delta == -1 ==> r.year != a.year
    ensures !(0 <= a.year + delta <= 99) ==> r.year == a.year + delta
  {
    Anchor(JsDateYear(a.year + delta), a.month, 0)
  }

  /** `_changeCalendarMonth(delta)`: move the anchor, then update. */
  function ChangeCalendarMonth(c: Card, delta: int, env: Env): (s: Step)
    ensures s.card.anchor == MoveAnchor(c.anchor, delta)
    ensures s.card.view == c.view && s.card.played == c.played + (if s.render.Some? then {c.view} else {})
    ensures s.card.config == c.config && s.card.hass == c.hass
    ensures var moved := c.(anchor := MoveAnchor(c.anchor, delta));
      s.render.Some? <==> c.hass.Some? && c.config.Some? && c.lastFingerprint != Some(FingerprintOf(moved))
    ensures s.render.None? ==> s.card.lastFingerprint == c.lastFingerprint
    ensures var moved := c.(anchor := MoveAnchor(c.anchor, delta));
      s.render.Some? ==>
      && s.card.lastFingerprint == Some(FingerprintOf(moved))
      && (s.render.value.animate <==> c.view !in c.played)
      && s.render.value.header == HeaderOf(c.hass.value, c.config.value, c.view, env.parseFloat)
      && s.render.value.content == ContentOf(c.hass.value, c.config.value, c.view, moved.anchor, env, s.render.value.animate)
  {
    UpdateCard(c.(anchor := MoveAnchor(c.anchor, delta)), env)
  }

  /** The last fingerprint, when there is one, was taken with the current
      view and anchor, from a configured card holding a snapshot. */
  predicate Consistent(c: Card) {
    c.lastFingerprint.Some? ==>
      c.hass.Some? && c.config.Some? &&
      c.lastFingerprint.value.view == c.view && c.lastFingerprint.value.anchor == c.anchor
  }

  /** Every event keeps the card consistent. */
  lemma EventsKeepConsistent(c: Card, cfg: Config, hass: Snapshot, v: View, delta: int, env: Env)
    requires Consistent(c)
    ensures Consistent(NewCard(c.anchor))
    ensures SetConfig(c, cfg).Success? ==> Consistent(SetConfig(c, cfg).value)
    ensures Consistent(UpdateCard(c, env).card)
    ensures Consistent(SetHass(c, hass, env).card)
    ensures Consistent(SwitchView(c, v, env).card)
    ensures Consistent(ChangeCalendarMonth(c, delta, env).card)
  {
    UpdateRestoresConsistency(c, env);
    UpdateRestoresConsistency(c.(hass := Some(hass)), env);
    UpdateRestoresConsistency(c.(view := v, played := c.played - {v}), env);
    UpdateRestoresConsistency(c.(anchor := MoveAnchor(c.anchor, delta)), env);
  }

  /** An update leaves the card consistent whenever a recorded fingerprint
      implies a snapshot and a configuration, whatever view and anchor the
      card has moved to since. */
  lemma UpdateRestoresConsistency(c: Card, env: Env)
    requires c.lastFingerprint.Some? ==> c.hass.Some? && c.config.Some?
    ensures Consistent(UpdateCard(c, env).card)
  {
    var s := UpdateCard(c, env);
    if s.render.None? && c.lastFingerprint.Some? {
      assert c.lastFingerprint == Some(FingerprintOf(c));
    }
  }

  /** The first state push to a freshly configured card renders the
      overview, with `shouldAnimate` set. */
  lemma FirstPushRenders(now: Anchor, cfg: Config, hass: Snapshot, env: Env)
    requires ValidConfig(cfg)
    ensures var s := SetHass(SetConfig(NewCard(now), cfg).value, hass, env);
      && s.render.Some? && s.render.value.animate
      && s.render.value.content.OverviewContent?
      && s.card.played == {OverviewTab}
  {
    var c := SetConfig(NewCard(now), cfg).value;
    assert c.lastFingerprint.None?;
  }

  /** An update right after an update does nothing. */
  lemma UpdateIdempotent(c: Card, env: Env)
    ensures var s := UpdateCard(c, env);
      UpdateCard(s.card, env) == Step(s.card, None)
  {
    var s := UpdateCard(c, env);
    if s.render.Some? {
      assert FingerprintOf(s.card) == FingerprintOf(c);
    }
  }

  /** Two consecutive snapshots agreeing on balance, monthly amount and
      history length leave the second push without a render, even when the
      history's contents differ. */
  lemma SameFingerprintNoSecondRender(c: Card, first: Snapshot, second: Snapshot, env: Env)
    requires c.config.Some?
    requires var cfg := c.config.value;
      && BalanceOf(first, cfg) == BalanceOf(second, cfg)
      && MonthlyAmountOf(first, cfg) == MonthlyAmountOf(second, cfg)
      && |HistoryOf(first, cfg)| == |HistoryOf(second, cfg)|
    ensures var s1 := SetHass(c, first, env);
      SetHass(s1.card, second, env) == Step(s1.card.(hass := Some(second)), None)
  {
    var s1 := SetHass(c, first, env);
    var c2 := s1.card.(hass := Some(second));
    assert FingerprintOf(c2) == FingerprintOf(c.(hass := Some(first)));
  }

  /** Calendar navigation always renders a configured card holding a
      snapshot, since the anchor's year is part of the fingerprint. */
  lemma NavigationForcesRender(c: Card, delta: int, env: Env)
    requires Consistent(c) && c.hass.Some? && c.config.Some?
    requires delta == 1 || delta == -1
    ensures ChangeCalendarMonth(c, delta, env).render.Some?
  {
  }

  /** Calendar navigation shows the calendar of the new anchor's year. */
  lemma NavigationShowsNewYear(c: Card, delta: int, env: Env)
    requires Consistent(c) && c.hass.Some? && c.config.Some? && c.view == CalendarTab
    requires delta == 1 || delta == -1
    ensures var s := ChangeCalendarMonth(c, delta, env);
      && s.render.Some? && s.render.value.content.CalendarContent?
      && s.render.value.content.calendar.year == MoveAnchor(c.anchor, delta).year
      && s.render.value.content.calendar.year != c.anchor.year
  {
    NavigationForcesRender(c, delta, env);
  }

  /** The monthly chart's bars carry the render's `shouldAnimate`: they grow
      in, staggered by 80 ms, exactly on an animated render. */
  lemma ChartBarsFollowAnimate(c: Card, env: Env, k: nat)
    requires c.view == MonthlyTab
    requires var s := UpdateCard(c, env);
      s.render.Some? && s.render.value.content.chart.BarChart? && k < |s.render.value.content.chart.bars|
    ensures var s := UpdateCard(c, env);
      var bar := s.render.value.content.chart.bars[k];
      && (bar.animated <==> s.render.value.animate)
      && (bar.animated <==> c.view !in c.played)
      && bar.delayMs == (if s.render.value.animate then Chart.StaggerMs * k else 0)
  {
  }

  /** Switching to another view always renders a configured card holding a
      snapshot, with `shouldAnimate` set. */
  lemma SwitchToOtherViewAnimates(c: Card, v: View, env: Env)
    requires Consistent(c) && c.hass.Some? && c.config.Some? && v != c.view
    ensures SwitchView(c, v, env).render.Some? && SwitchView(c, v, env).render.value.animate
  {
  }

  /** Switching to the view already shown, with unchanged data, renders
      nothing but leaves that view's flag cleared, so the next render of it
      animates. */
  lemma SwitchToSameViewArmsAnimation(c: Card, env: Env)
    requires Consistent(c) && c.config.Some? && c.hass.Some?
    requires c.lastFingerprint == Some(FingerprintOf(c))
    ensures var s := SwitchView(c, c.view, env);
      s.render.None? && c.view !in s.card.played &&
      (forall delta :: delta == 1 || delta == -1 ==>
         var n := ChangeCalendarMonth(s.card, delta, env);
         n.render.Some? && n.render.value.animate)
  {
  }

  /** A render after the first one of a view, without an intervening
      switch, does not animate. */
  lemma SecondRenderStill(c: Card, delta: int, env: Env)
    requires Consistent(c) && c.hass.Some? && c.config.Some?
    requires delta == 1 || delta == -1
    ensures var s := ChangeCalendarMonth(c, delta, env);
      var n := ChangeCalendarMonth(s.card, -delta, env);
      n.render.Some? && !n.render.value.animate
  {
    var s := ChangeCalendarMonth(c, delta, env);
    EventsKeepConsistent(c, map[], map[], c.view, delta, env);
  }

  /** Previous then next, and next then previous, restore the displayed
      year, except around the years JavaScript's two-digit-year rule moves:
      from 100 previous then next gives 2000, and from -1 next then previous
      gives 1899. */
  lemma PrevThenNextRestoresYear(a: Anchor)
    requires !(-1 <= a.year <= 100)
    ensures MoveAnchor(MoveAnchor(a, -1), 1).year == a.year
    ensures MoveAnchor(MoveAnchor(a, 1), -1).year == a.year
  {
  }

  lemma PrevThenNextFromYear100(a: Anchor)
    requires a.year == 100
    ensures MoveAnchor(MoveAnchor(a, -1), 1).year == 2000
  {
  }

  lemma NextThenPrevFromYearMinus1(a: Anchor)
    requires a.year == -1
    ensures MoveAnchor(MoveAnchor(a, 1), -1).year == 1899
  {
  }
}
