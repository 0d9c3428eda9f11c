# Guotou water card and bill aggregation — a Dafny model

This project models the two pieces of pure logic in the `guotou_water`
Home Assistant integration:

* **The bill-row aggregation** of the backend's data coordinator
  (`custom_components/guotou_water/__init__.py`). It takes the month rows of
  the utility's billing API and the local clock reading. From them it
  derives the yearly volume and amount, the unpaid total, the current
  month's volume and amount, the meter facts of the latest row, and the
  date-sorted monthly history.
* **The water-info card** (`custom_components/guotou_water/www/water-info-card.js`).
  This covers configuration validation, reads from the host's state
  snapshot, and the change fingerprint that suppresses redundant renders.
  It also covers the per-view `shouldAnimate` flag (set on a view's first
  render and read only by the chart's bars), view switching and
  calendar-year navigation. It includes the data parts of the
  twelve-month bar chart (window, bar heights, the single unpaid bar), the
  billing calendar (month buckets, latest month, the single unpaid badge),
  the yearly progress percentage, and the editor's field-change handler.

Everything is a pure function over immutable values, except the backend
fold. That fold is written as methods with loops that mirror the
coordinator's `for` loops. A render is returned as a view model (`Card.Render`)
instead of markup.

Modules, one per concept:

| module | file | what |
|---|---|---|
| `Base` | base.dfy | `Option`, `Result` |
| `Strings` | strings.dfy | decimal digits, `parseInt`, `split`, code-point string order, the `YYYY-MM` and `YYYY-MM-01` month strings |
| `JsNumber` | jsnumber.dfy | JavaScript numbers with ±Infinity and NaN, the progress percentage |
| `History` | history.dfy | the monthly history entry shared by backend and card; the two readings of its paid flag |
| `DateSort` | datesort.dfy | the stable ascending sort of the history by date |
| `Bills` | bills.dfy | the bill-row aggregation |
| `Chart` | chart.dfy | the bar chart's window and bars |
| `Calendar` | calendar.dfy | the calendar's buckets, latest month and cells |
| `Card` | card.dfy | the card's configuration, snapshot reads and state machine |
| `Editor` | editor.dfy | the configuration editor's change handler |

Two behaviours of the code that a reader might not expect are stated as lemmas:

* The calendar's "latest" month is the greatest month that has a bucket at
  all, even a zero-volume one. So a zero-volume February hides January's
  unpaid badge (`Calendar.ZeroVolumeLatestHidesBadge`).
* Every switch of view clears the target view's played flag. So every
  switch that renders has `shouldAnimate` set, including a switch back to a
  view already shown (`Card.SwitchToOtherViewAnimates`). Only the monthly
  chart reads the flag: its bars grow in with an 80 ms stagger
  (`Card.ChartBarsFollowAnimate`). The overview and the calendar have no
  entrance animation.

Two cross-file facts are made explicit:

* The backend copies each row's `month` string into the history unchanged,
  and looks for the current month under the key `YYYY-MM-01`. The chart
  looks for the current month under the key `YYYY-MM`. No string equals
  both keys (`Strings.MonthKeyNeverMonthStartDate`). So the backend's
  current-month figures and the chart's current-month match never succeed
  on the same row. When the billing API's months have the form
  `YYYY-MM-01`, which is the form the backend's own key assumes, the chart's
  match never succeeds and the window is the last twelve entries
  (`Chart.BackendHistoryEndsAtLast`).
* The backend treats any Python-truthy `isPaid` as paid. The card treats
  only `true` and `'true'` as paid. Whatever the card shows as paid, the
  backend also left out of the unpaid total. The reverse does not hold
  (`History.PaidReadingsDisagree`).

## Model

| member | source | states |
|---|---|---|
| `Card.NewCard` | custom_components/guotou_water/www/water-info-card.js:9-16 | a new card shows the overview with an empty set of animation flags and no fingerprint, so its first render has `shouldAnimate` set; it starts consistent |
| `Card.SetConfig` | custom_components/guotou_water/www/water-info-card.js:23-28 | fails exactly when both volume entity fields are absent or empty; otherwise stores the configuration unchanged and changes nothing else |
| `Card.StubConfig` | custom_components/guotou_water/www/water-info-card.js:596-611 | the picker's stub configuration passes validation and names the default history sensor |
| `Card.GetState` | custom_components/guotou_water/www/water-info-card.js:30-34 | a state is read exactly when the entity id is non-empty and known to the host, and it is that entity's state |
| `Card.AttrHistory` | custom_components/guotou_water/www/water-info-card.js:36-40 | a non-empty history comes only from a named, known entity with attributes, and for such an entity it is its `monthly_history`, or empty when that is missing |
| `Card.HistoryOf` | custom_components/guotou_water/www/water-info-card.js:70-77 | the history is one of the two entities' lists; the history entity's wins when non-empty; it is empty only when both are |
| `Card.SetHass` | custom_components/guotou_water/www/water-info-card.js:18-21 | a state push stores the snapshot and keeps configuration, view and anchor; it renders exactly when the card is configured and the fingerprint with the new snapshot differs from the last, and a render records that fingerprint, sets the shown view's flag, has `shouldAnimate` set exactly when that flag was clear, and draws the header and content of the new snapshot for the current view and anchor |
| `Card.FirstPushRenders` | custom_components/guotou_water/www/water-info-card.js:9-28 | the first push to a freshly configured card renders the overview with `shouldAnimate` set and marks only the overview played |
| `Card.FingerprintOf` | custom_components/guotou_water/www/water-info-card.js:88-92 | the fingerprint holds the balance state (or "--"), the monthly amount state (or "0"), the history's length, the view and the anchor |
| `Card.HeaderOf` | custom_components/guotou_water/www/water-info-card.js:57-68 | the title is the configured one or the default and never empty; the theme is the configured one; balance, unpaid amount, reading, price and the monthly figures each show their entity's non-empty state or their fallback ("--" or "0"); the balance is styled low iff it parses below 100, the unpaid amount styled non-zero iff it does not parse to exactly 0; the active tab is the view |
| `Card.MissingFiguresStyledNeutral` | custom_components/guotou_water/www/water-info-card.js:475-476 | with `parseFloat` reading "--" as NaN and "0" as 0, a missing balance is never coloured low and a missing unpaid amount is styled as zero |
| `Card.UpdateCard` | custom_components/guotou_water/www/water-info-card.js:53-101 | renders exactly when snapshot and configuration exist and the fingerprint differs from the last; a render stores the fingerprint, has `shouldAnimate` iff the view's flag was unset, then sets the flag, and shows the header and content of the card's snapshot, configuration, view and anchor; otherwise nothing changes |
| `Card.ContentOf` | custom_components/guotou_water/www/water-info-card.js:247-292 | the content is the overview, the chart or the calendar exactly when that view is current; the overview shows the four figures' states or "0" and the progress of the yearly volume; the chart is built from the card's history, today's `YYYY-MM` key and the render's animate flag; the calendar is the anchor year's calendar of the card's history |
| `Card.SwitchView` | custom_components/guotou_water/www/water-info-card.js:42-46 | selects the view and keeps configuration, snapshot and anchor; it renders exactly when the card is configured, has a snapshot and the fingerprint with the new view differs from the last; a render records that fingerprint, has `shouldAnimate` set and draws the new view; without a render the view's flag stays cleared; other flags are kept |
| `Card.JsDateYear` | custom_components/guotou_water/www/water-info-card.js:49 | the Date constructor never yields a year 0-99 and keeps every other year |
| `Card.MoveAnchor` | custom_components/guotou_water/www/water-info-card.js:49 | the new anchor is the first of the same month; a step of one year always changes the year, and moves it by exactly delta outside years 0-99 |
| `Card.ChangeCalendarMonth` | custom_components/guotou_water/www/water-info-card.js:48-51 | navigation moves the anchor and keeps view, configuration and snapshot; it renders exactly when the card is configured, has a snapshot and the fingerprint with the moved anchor differs from the last; a render records that fingerprint and draws the current view at the moved anchor, animating only if the view's flag was clear; the view's flag is set only if a render happened |
| `Card.Progress` | custom_components/guotou_water/www/water-info-card.js:103-108 | a percentage exists exactly when a yearly target is configured; it is the progress of the parsed yearly volume against the parsed target, never above 100 |
| `Card.EventsKeepConsistent` | custom_components/guotou_water/www/water-info-card.js:42-101 | every event keeps the last fingerprint in step with the current view and anchor |
| `Card.UpdateIdempotent` | custom_components/guotou_water/www/water-info-card.js:94-96 | an update right after an update renders nothing and changes nothing |
| `Card.SameFingerprintNoSecondRender` | custom_components/guotou_water/www/water-info-card.js:89-95 | two pushes agreeing on balance, monthly amount and history length give no second render, even if history contents differ |
| `Card.NavigationForcesRender` | custom_components/guotou_water/www/water-info-card.js:48-51 | previous or next always renders a configured card that holds a snapshot |
| `Card.NavigationShowsNewYear` | custom_components/guotou_water/www/water-info-card.js:48-51 | on the calendar view, previous or next renders the calendar of the new anchor's year, which differs from the old one |
| `Card.ChartBarsFollowAnimate` | custom_components/guotou_water/www/water-info-card.js:231-233 | on the monthly view, every bar is animated exactly when the render has `shouldAnimate` set, which is when the view had not been played, and its delay is 80 ms times its index or 0 |
| `Card.SwitchToOtherViewAnimates` | custom_components/guotou_water/www/water-info-card.js:42-45 | switching to a different view always renders, with `shouldAnimate` set |
| `Card.SwitchToSameViewArmsAnimation` | custom_components/guotou_water/www/water-info-card.js:42-45 | re-selecting the shown view with unchanged data renders nothing but leaves its flag cleared, so the next render has `shouldAnimate` set |
| `Card.SecondRenderStill` | custom_components/guotou_water/www/water-info-card.js:98-101 | a later render of a view already played, without a switch, has `shouldAnimate` unset |
| `Card.PrevThenNextRestoresYear` | custom_components/guotou_water/www/water-info-card.js:49 | previous then next, and next then previous, restore the year outside -1..100 |
| `Card.PrevThenNextFromYear100` | custom_components/guotou_water/www/water-info-card.js:49 | from year 100, previous then next lands on 2000 |
| `Card.NextThenPrevFromYearMinus1` | custom_components/guotou_water/www/water-info-card.js:49 | from year -1, next then previous lands on 1899 |
| `JsNumber.ProgressPercent` | custom_components/guotou_water/www/water-info-card.js:106-108 | the percentage is never above 100, is NaN when an input is NaN, and for a finite current volume and a finite positive target is 100 at or past the target and current/target·100 below it |
| `JsNumber.ProgressClampsAtTarget` | custom_components/guotou_water/www/water-info-card.js:108 | 250 against a target of 200 gives exactly 100 |
| `Chart.FindDate` | custom_components/guotou_water/www/water-info-card.js:194 | the result is the first entry dated with the key, or -1 when none is |
| `Chart.WindowEnd` | custom_components/guotou_water/www/water-info-card.js:194-195 | the window ends at the first current-month entry, else at the last entry; -1 only for an empty history |
| `Chart.Window` | custom_components/guotou_water/www/water-info-card.js:196-200 | at most 12 entries, empty exactly for an empty history, the consecutive entries ending at the window end |
| `Chart.MaxVolume` | custom_components/guotou_water/www/water-info-card.js:202 | at least 0.1 and every volume, and equal to 0.1 or to some volume |
| `Chart.HeightPercent` | custom_components/guotou_water/www/water-info-card.js:218 | the height is proportional to the volume (height times the largest volume is 100 times the volume); at most 100 per cent, exactly 100 for the largest volume, not negative for a non-negative volume |
| `Chart.Bars` | custom_components/guotou_water/www/water-info-card.js:217-233 | one bar per window entry, carrying that entry; each height is volume / largest volume · 100, so at most 100 and exactly 100 for the largest volume; only the last bar is latest; a bar is unpaid-styled iff it is the last and its flag is neither true nor 'true'; delays step by 80 ms when animating |
| `Chart.BarsMonotone` | custom_components/guotou_water/www/water-info-card.js:218 | a bar with more volume is never shorter |
| `Chart.ChartOf` | custom_components/guotou_water/www/water-info-card.js:190-204 | the no-data view exactly for an empty history, otherwise the bars of the window |
| `Chart.AtMostOneUnpaidBar` | custom_components/guotou_water/www/water-info-card.js:227-229 | at most one bar is unpaid-styled, and it is the last |
| `Chart.BackendHistoryEndsAtLast` | custom_components/guotou_water/www/water-info-card.js:192-197 | when every history date has the form `YYYY-MM-01`, the current-month match never succeeds and the window is the last min(12, n) entries |
| `Calendar.Filing` | custom_components/guotou_water/www/water-info-card.js:133-137 | an entry is filed exactly when its date is non-empty, has at least two `-`-separated fields, the first parses to the displayed year and the second parses; the month is the second field's value minus one |
| `Calendar.Buckets` | custom_components/guotou_water/www/water-info-card.js:131-143 | the last entry, when it is filed, occupies its month's bucket |
| `Calendar.BucketKeys` | custom_components/guotou_water/www/water-info-card.js:131-143 | a month has a bucket exactly when some entry of the displayed year is filed under it |
| `Calendar.BucketIsLastEntry` | custom_components/guotou_water/www/water-info-card.js:132-141 | a month's bucket holds the last entry filed under it |
| `Calendar.OtherYearsIgnored` | custom_components/guotou_water/www/water-info-card.js:133-137 | an entry without a date, with an unparsable date or from another year changes no bucket |
| `Calendar.LatestFrom` | custom_components/guotou_water/www/water-info-card.js:147-149 | the greatest month at or below the start that has a bucket, or -1 |
| `Calendar.LatestMonth` | custom_components/guotou_water/www/water-info-card.js:146-149 | the greatest month 0-11 that has a bucket, whatever its volume, or -1 when none has one |
| `Calendar.CalendarOf` | custom_components/guotou_water/www/water-info-card.js:161-183 | twelve cells; data shown iff the bucket has positive volume; latest iff the latest month; unpaid iff latest, positive volume and not paid |
| `Calendar.UnpaidBadgeAtMostOnce` | custom_components/guotou_water/www/water-info-card.js:162-167 | at most one cell carries the badge, and one does exactly when the latest month has positive volume and is unpaid |
| `Calendar.MonthKeyFiling` | custom_components/guotou_water/www/water-info-card.js:134-136 | a `YYYY-MM` entry is filed under month MM-1 of YYYY |
| `Calendar.BackendDateFiling` | custom_components/guotou_water/www/water-info-card.js:134-136 | a backend `YYYY-MM-01` entry is filed under month MM-1 of YYYY |
| `Calendar.TwoMonthBuckets` | custom_components/guotou_water/www/water-info-card.js:131-149 | entries filed under January and February give those two buckets, and February is latest |
| `Calendar.FebruaryUnpaidExample` | custom_components/guotou_water/www/water-info-card.js:162-167 | paid January and unpaid February of 2024: February shows the badge, January does not |
| `Calendar.ZeroVolumeLatestHidesBadge` | custom_components/guotou_water/www/water-info-card.js:146-167 | a zero-volume latest month suppresses every badge, including an earlier unpaid month's |
| `History.CardPaid` | custom_components/guotou_water/www/water-info-card.js:139 | a flag the card reads as paid is truthy to the backend too |
| `History.PaidReadingsDisagree` | custom_components/guotou_water/__init__.py:214-223 | `'false'` and `1` are paid to the backend but unpaid to the card |
| `History.DerivedUnitPrice` | custom_components/guotou_water/www/water-info-card.js:138 | a price exists exactly for positive volume, and price times volume is the amount |
| `Editor.OnFieldChange` | custom_components/guotou_water/www/water-info-card.js:664-670 | the edited field takes the new value, every other field is kept, and exactly one event carries the new configuration |
| `Editor.StubConfigFieldsEditable` | custom_components/guotou_water/www/water-info-card.js:637-661 | the form has a field for every key of the stub configuration and no other |
| `Editor.SameValueKeepsConfig` | custom_components/guotou_water/www/water-info-card.js:666-667 | re-entering a field's current value leaves the configuration equal |
| `Editor.LaterEditWins` | custom_components/guotou_water/www/water-info-card.js:666-668 | of two edits to one field the later one wins |
| `Editor.EditsCommute` | custom_components/guotou_water/www/water-info-card.js:666-667 | edits to different fields commute |
| `Editor.EditKeepsValidity` | custom_components/guotou_water/www/water-info-card.js:664-670 | an edit keeps a valid configuration valid unless it empties a volume field |
| `Editor.ClearingBothVolumesInvalidates` | custom_components/guotou_water/www/water-info-card.js:664-670 | emptying both volume fields yields a configuration the card rejects |
| `Bills.Aggregate` | custom_components/guotou_water/__init__.py:191-251 | no rows give the defaults; otherwise the latest row's reading, price, meter and category; the yearly, unpaid and current-month figures; a sorted, stable permutation of the charted rows |
| `Bills.FoldRows` | custom_components/guotou_water/__init__.py:203-239 | the loop's accumulators equal the yearly sums, the unpaid sum and the charted-row history |
| `Bills.CurrentMonthFigures` | custom_components/guotou_water/__init__.py:241-247 | volume and amount of the first row of the current month, else 0.0 |
| `Bills.FirstMonthMatch` | custom_components/guotou_water/__init__.py:243-247 | the first row whose month equals the key, or none when no row does |
| `Bills.LatestIndex` | custom_components/guotou_water/__init__.py:193-196 | the row holding the greatest month string, the first such in row order |
| `Bills.HistoryRows` | custom_components/guotou_water/__init__.py:225-235 | at most one entry per row, each with a date and positive volume |
| `Bills.HistoryRowsExact` | custom_components/guotou_water/__init__.py:225-235 | an entry is in the history exactly when it is the entry of a charted row |
| `Bills.RowsInYear` | custom_components/guotou_water/__init__.py:216-217 | every selected row's month starts with the year |
| `Bills.YearlyTotalsOverYearRows` | custom_components/guotou_water/__init__.py:216-219 | the yearly totals equal the totals over the current year's rows alone |
| `Bills.OtherYearsAddNothing` | custom_components/guotou_water/__init__.py:216-219 | adding rows of other years leaves the yearly totals unchanged |
| `Bills.MissingPaidFlagAddsNothing` | custom_components/guotou_water/__init__.py:214-223 | a row without `isPaid` never adds to the unpaid total |
| `DateSort.SortByDate` | custom_components/guotou_water/__init__.py:250 | the history comes out ascending by date and a permutation of its input |
| `DateSort.SortByDateStable` | custom_components/guotou_water/__init__.py:250 | entries sharing a date keep their relative order |
| `DateSort.Insert` | custom_components/guotou_water/__init__.py:250 | inserting into a sorted history keeps it sorted and adds exactly the new entry |
| `Strings.MonthKeyNeverMonthStartDate` | custom_components/guotou_water/__init__.py:242 | no `YYYY-MM` string equals any `YYYY-MM-01` string, so no month matches both the backend's current-month key and the card's |
| `Strings.ParseMonthStartDate` | custom_components/guotou_water/www/water-info-card.js:134-136 | split and parseInt on a `YYYY-MM-01` string recover its year and month |
| `Strings.ParseMonthKey` | custom_components/guotou_water/www/water-info-card.js:134-136 | split and parseInt on a `YYYY-MM` string recover its year and month |
| `Strings.ParseInt` | custom_components/guotou_water/www/water-info-card.js:135-136 | NaN exactly when the string does not start with a digit |
| `Strings.Split` | custom_components/guotou_water/www/water-info-card.js:134 | at least one field, none containing the separator |
| `Strings.LessTotal` | custom_components/guotou_water/__init__.py:193 | any two month strings are equal or ordered one way |
| `Strings.LessTransitive` | custom_components/guotou_water/__init__.py:193 | the string order is transitive |

## Left out

- Card.MoveAnchor: JavaScript's `Date` range is not modelled. From 13 September 275760 on, or before 20 April -271821, `new Date` gives an Invalid Date whose fingerprint no longer changes, so the card stops re-rendering there. The model's years are unbounded and every step renders. This point is about 273,000 clicks away from the present.

- HTTP requests, sessions, timeouts, JSON decoding, the second request that fills `balance`, `customer_name` and `address`, and the coordinator and config-entry lifecycle: I/O and framework plumbing.
- `querytime` and `house_id` in the backend result, and the card's last-update timestamp: clock readings and `Date` formatting in the local time zone.
- `round(…, 2)`, `parseFloat`, `toFixed`, `Math.round` y-axis ticks and `float(…)` conversions: floating-point formatting and parsing. Row fields arrive already parsed as reals. A missing, null, zero or empty field reads as 0. The card's `parseFloat` is a parameter (`Card.Env`).
- Bills.HistoryRows: entry volumes are not rounded to two decimals, so a quantity that rounds to 0.00 still has a positive volume here.
- A JSON `null` month, or a non-numeric field that makes Python's `float` raise: these make the backend fail the update. The model reads a missing month as "".
- Strings.ParseInt: leading blanks and a leading `+`, which `parseInt` skips, are not modelled. Within the calendar's `-`-separated date fields this only matters for malformed dates.
- JsNumber.ProgressPercent: signed zero is not distinguished, so a target of -0 behaves like +0.
- HTML/CSS templating, bar labels, tooltip content and positioning, shadow-DOM event wiring, `getCardSize`, `customElements` and `window.customCards` registration: UI and host glue.
- Configuration values are strings. A numeric YAML value such as `yearly_target: 0` is falsy in JavaScript, which the model does not represent.
- `config_flow.py`, `sensor.py` and `const.py`: credential test, option schema, entity wrappers and constant tables. The history sensor carries the coordinator's `monthly_history` unchanged into the card's snapshot.
