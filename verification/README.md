# Trading journal calculations in Dafny

This project models the calculations of a React trading journal. Users log
trades, each with a direction (`LONG` or `SHORT`), entry and exit prices, a
size, a realised P&L, a date and a setup tag. The application derives
statistics and reports from that list. All of these calculations are written
inline in the components, and none depends on rendering, so each one becomes
a pure Dafny function over `seq<Trade>`:

- **Dashboard** (`Dashboard` module): net P&L, win rate, average win and loss,
  profit factor (a tagged `Finite`/`Infinite` ratio), expectancy, the
  reward/risk figure, long/short counts, and the 30-day activity grid of
  per-day P&L and trade counts.
- **Reports** (`Analytics` module): a stable date sort of a copy of the
  journal, the equity curve as a running total over it, the win/loss split of
  the pie chart, and P&L grouped by setup tag. An empty journal produces no
  report.
- **Trade form** (`TradeForm` module): building the record on submit. This
  covers the direction-dependent P&L, the upper-cased symbol and the
  defaulting of risk and target to 0.
- **Journal view** (`TradeList` module): the case-insensitive search over
  symbol and setup, and the sign and colour of a P&L figure.
- **Application shell** (`Journal` module): adding a trade (prepend) and
  deleting by id.
- **AI insights panel** (`Insights` module): the minimum-trade guard, the
  fallback text, and the rule that sorts each line of the reply into a
  heading, a bullet, a blank or a plain line.

Shared pieces: `Seqs` holds the order-preserving `Filter` that every count and
selection is built on. `Trades` holds the record, `Option` and `SumPnl`.
`Groups` holds the per-key P&L record behind the setup chart, with the key
function left as a parameter.
`Text` holds ASCII case mapping, substring search, trimming, character removal
and split/join.

Modelling choices:

- Money is `real`, so there is no floating-point rounding.
- Dates are integer day numbers. "Today", the fresh trade id and the reply of
  the remote insight service are parameters.
- `SumPnl` adds from the front. Real addition is associative, so this equals
  the application's left `reduce`.
- The sort is a functional insertion sort. It puts each trade in front of the
  sorted trades of its own day, which gives the same order as the stable
  built-in sort.
- The setup totals are a sequence of `(name, value)` pairs in the order each
  key first occurs. This is the insertion order of the JavaScript object
  that builds them.

Two behaviours of the code are worth knowing:

- The reports page counts breakeven trades (`pnl == 0`) as losses. The
  dashboard counts them as neither.
- The dashboard's reward/risk figure is 0, not infinite, when there are no
  losses.

## Model

| member | source | states |
|---|---|---|
| Trades.SumPnlLast | components/Dashboard.tsx:20 | the total is the left `reduce`: the total of all trades but the last, plus the last trade's P&L |
| Dashboard.CountKind | components/Dashboard.tsx:130-134 | a direction's count never exceeds the number of trades, and it is 0 exactly when no trade has that direction |
| Dashboard.CountKindIsMultiplicity | components/Dashboard.tsx:130-134 | the "Longs/Shorts Executed" count is exactly the number of trades with that direction: its multiplicity among the trades' directions |
| Dashboard.NetPnlSplits | components/Dashboard.tsx:20-33 | net P&L equals the winners' total plus the losers' total; breakeven trades contribute nothing |
| Dashboard.WinnersLosersDisjoint | components/Dashboard.tsx:24-25 | no trade is both a winner and a loser, breakeven trades are in neither list, and winners + losers ≤ trades |
| Dashboard.WinRate | components/Dashboard.tsx:21-22 | the win rate lies in [0, 100]; it is 0 exactly when there are no winners, 100 exactly when every trade of a non-empty journal wins, and otherwise equals 100·wins/trades |
| Dashboard.AvgWin | components/Dashboard.tsx:27-29 | the average win is ≥ 0, is 0 exactly when there are no winners, and times the number of winners gives their total |
| Dashboard.AvgLoss | components/Dashboard.tsx:31-33 | the average loss is a non-negative amount, is 0 exactly when there are no losers, and times the number of losers gives minus their total |
| Dashboard.ProfitFactor | components/Dashboard.tsx:35 | the ratio is Infinite exactly when there are winners and no losers; it is 0 without winners; with losers it is gross win over gross loss, and it is never negative |
| Dashboard.Expectancy | components/Dashboard.tsx:84 | expectancy is 0 for an empty journal, and times the number of trades gives the net P&L |
| Dashboard.ExpectancyDecomposes | components/Dashboard.tsx:84 | expectancy times the number of trades equals average win times wins minus average loss times losses |
| Dashboard.RewardRisk | components/Dashboard.tsx:126 | the displayed reward/risk is ≥ 0, is 0 when there are no losers, and otherwise times the average loss gives the average win |
| Dashboard.ProfitFactorFromRewardRisk | components/Dashboard.tsx:35 | with losers present, the profit factor is finite and equals reward/risk scaled by winners per loser (pf × losers = rr × winners) |
| Dashboard.LongShortCover | components/Dashboard.tsx:130-134 | the long count plus the short count equals the number of trades |
| Dashboard.ActivityGrid | components/Dashboard.tsx:38-46 | the grid has 30 buckets for consecutive ascending days ending today; each bucket holds the P&L sum and the number of the trades dated that day |
| Dashboard.BucketsReconcile | components/Dashboard.tsx:43-45 | any run of day buckets starting at a given day together counts exactly the trades dated in those days and sums exactly their P&L |
| Dashboard.ActivityGridReconciles | components/Dashboard.tsx:38-46 | the grid's counts total the trades of the last 30 days, never more than the journal holds, and its P&L totals their net P&L |
| Analytics.InsertByDate | components/Analytics.tsx:39 | inserting a trade adds exactly that trade: the result is one longer and has the same multiset of trades plus the new one |
| Analytics.InsertByDateSorted | components/Analytics.tsx:39 | inserting a trade into a date-sorted list keeps it sorted |
| Analytics.SortByDate | components/Analytics.tsx:39 | the sorted copy is a permutation of the journal and is ascending by date |
| Analytics.InsertByDateStable | components/Analytics.tsx:39 | an inserted trade goes to the front of its own day's trades, and every other day's trades are left as they were |
| Analytics.SortByDateStable | components/Analytics.tsx:39 | for every day, that day's trades appear in the sorted copy in their input order |
| Analytics.SortByDateTotal | components/Analytics.tsx:39-42 | sorting does not change the net P&L |
| Analytics.EquityCurve | components/Analytics.tsx:40-47 | one point per trade; point k is the P&L sum of the first k+1 trades; consecutive points differ by the later trade's P&L; the last point is the total |
| Analytics.ReportWins | components/Analytics.tsx:50 | the "Wins" count never exceeds the number of trades, and it is 0 exactly when no trade has a positive P&L |
| Analytics.ReportLosses | components/Analytics.tsx:51 | the "Losses" count never exceeds the number of trades, and it is 0 exactly when every trade has a positive P&L |
| Analytics.WinLossCover | components/Analytics.tsx:50-51 | wins plus losses equals the number of trades; wins match the dashboard's winners, and losses are the dashboard's losers plus the breakeven trades |
| Analytics.SetupKey | components/Analytics.tsx:61 | the bucket key is never empty, and it is the trade's setup whenever that is not empty |
| Analytics.SetupKeyOther | components/Analytics.tsx:61-62 | a trade goes to the "Other" bar exactly when its setup is blank or is literally "Other", so the two share one entry |
| Analytics.SetupNamesNonEmpty | components/Analytics.tsx:61 | no setup bar has an empty name |
| Groups.Upsert | components/Analytics.tsx:62 | an update keeps every existing entry's name in place and appends the key, with the amount, exactly when no entry has that name |
| Groups.UpsertSum | components/Analytics.tsx:62 | an update adds its amount to the sum of all values |
| Groups.UpsertValue | components/Analytics.tsx:62 | an update adds its amount under its own key and nowhere else |
| Groups.GroupTotalsSize | components/Analytics.tsx:59-64 | the record never has more entries than there are trades, and it is empty exactly when the journal is |
| Groups.GroupTotalsDistinct | components/Analytics.tsx:59-64 | no two entries share a key |
| Groups.GroupTotalsSound | components/Analytics.tsx:59-64 | every entry is named after the key of some trade |
| Groups.GroupTotalsComplete | components/Analytics.tsx:59-64 | every trade's key has an entry |
| Groups.GroupTotalsValues | components/Analytics.tsx:59-63 | the value recorded under any key is the P&L sum of exactly the trades with that key |
| Groups.GroupEntryIsSum | components/Analytics.tsx:62 | each entry's value is the P&L sum of the trades with its key |
| Groups.GroupTotalsSum | components/Analytics.tsx:59-64 | the entry values add up to the net P&L |
| Analytics.SetupTotals | components/Analytics.tsx:59-64 | the setup bars number at most the trades and none only for an empty journal; their names are distinct, and their values add up to the net P&L |
| Analytics.BuildReport | components/Analytics.tsx:23-64 | an empty journal yields no report; otherwise point k of the curve carries the date of the k-th trade of the date-sorted copy and the P&L sum of the first k+1 of them, so it ascends by date and ends at the net P&L; the win/loss split covers every trade; and the setup bars are the journal's setup totals, with distinct names, each holding the P&L sum of its setup's trades, together adding up to the net P&L |
| TradeForm.ComputePnl | components/TradeForm.tsx:35-37 | a trade breaks even exactly when it has no size or exits at its entry price, in either direction |
| TradeForm.ShortMirrorsLong | components/TradeForm.tsx:35-37 | at the same prices and size, a short's P&L is the negation of a long's |
| TradeForm.PnlSign | components/TradeForm.tsx:35-37 | with a positive size, a long profits exactly when exit > entry, a short exactly when exit < entry, and both break even exactly at equal prices |
| TradeForm.Submit | components/TradeForm.tsx:26-56 | the record has the given id, a P&L consistent with direction, prices and size, an upper-case symbol equal to the input up to case, the form's other values unchanged, 0 for a missing risk or target, and no reward:risk ratio |
| Text.Upper | components/TradeForm.tsx:41 | upper-casing keeps the length, leaves no lower-case letter, and changes every character only by case |
| Text.UpperIdempotent | components/TradeForm.tsx:41 | upper-casing the stored symbol again changes nothing |
| TradeList.Search | components/TradeList.tsx:14-17 | a trade is in the result exactly when it is in the journal and its symbol or setup contains the query, ignoring case; each matching trade appears as many times as in the journal and every other trade not at all; the result is an order-preserving subsequence of the journal |
| TradeList.EmptyQueryKeepsAll | components/TradeList.tsx:14-17 | an empty query keeps every trade |
| TradeList.SearchIgnoresQueryCase | components/TradeList.tsx:15-16 | upper- or lower-casing the query does not change the result |
| TradeList.SearchIdempotent | components/TradeList.tsx:14-17 | searching the result again with the same query changes nothing |
| Text.Lower | components/TradeList.tsx:15-16 | lower-casing keeps the length, leaves no upper-case letter, and changes every character only by case |
| Text.Contains | components/TradeList.tsx:15-16 | a string contains only needles no longer than itself, always contains the empty needle, and contains one of its own length exactly when the two are equal |
| Text.LowerForgetsCase | components/TradeList.tsx:15-16 | lower-casing erases any earlier change of case and is idempotent |
| Text.ContainsEmpty | components/TradeList.tsx:15 | every string contains the empty query |
| TradeList.Style | components/TradeList.tsx:82-83 | the gain colour and the '+' prefix appear exactly when pnl ≥ 0 |
| TradeList.StyleAgreesWithMetrics | components/TradeList.tsx:53 | gain styling covers the dashboard's winners and excludes exactly its losers; a breakeven trade is styled as a gain although the reports count it as a loss |
| Journal.AddTrade | App.tsx:45-46 | the new list is the added trade followed by the old list unchanged |
| Journal.DeleteTrade | App.tsx:50-51 | no trade with the id remains, every other trade stays with all its copies, and the result is an order-preserving subsequence |
| Journal.DeleteAbsentId | App.tsx:51 | deleting leaves the list unchanged exactly when the id is absent |
| Journal.DeleteIdempotent | App.tsx:51 | deleting twice equals deleting once |
| Journal.AddThenDelete | App.tsx:46-51 | adding a trade with a fresh id and then deleting that id restores the list |
| Journal.TransitionsUpdateNetPnl | App.tsx:46-51 | adding moves the net P&L by the new trade's P&L; deleting moves it by minus the P&L of the removed trades |
| Insights.Pending | components/AIInsights.tsx:22-23 | while the request runs the panel is loading, shows no error and keeps the insight it showed before |
| Insights.Settle | components/AIInsights.tsx:24-31 | once the request settles the panel is not loading and shows the reply, the fallback text for a missing or empty reply, or the pending insight with the failure message when the call throws |
| Insights.GetInsights | components/AIInsights.tsx:16-32 | with fewer than 3 trades only the error is set and nothing is requested; otherwise loading ends, and the shown insight is the reply, the fallback text for a missing or empty reply, or the old insight with the failure message when the call throws |
| Insights.SettledForgetsEarlierState | components/AIInsights.tsx:22-31 | once a request settles, the error and loading flag from before it are forgotten: two panels showing the same insight end in the same state |
| Insights.ClassifyLine | components/AIInsights.tsx:95-107 | a '#' line is a heading whose text is the line with every '#' removed and then trimmed; otherwise a '-' or '*' line is a bullet whose text is the rest of the line, trimmed; otherwise an all-whitespace line is blank; anything else is plain and unchanged |
| Insights.RenderInsight | components/AIInsights.tsx:93 | one rendered element per line: the number of line breaks plus one |
| Insights.RenderedLinesCoverInsight | components/AIInsights.tsx:93 | the rendered lines, joined with line breaks, give back the insight, and none contains a line break |
| Text.Trim | components/AIInsights.tsx:97 | the trimmed text is a contiguous slice of the input that neither starts nor ends with whitespace, and everything cut off before and after it is whitespace |
| Text.TrimEmptyIffBlank | components/AIInsights.tsx:104 | a line trims to empty exactly when it is all whitespace |
| Text.TrimIdempotent | components/AIInsights.tsx:97 | trimming twice equals trimming once |
| Text.RemoveAll | components/AIInsights.tsx:97 | no '#' remains after removal; the result is an order-preserving subsequence of the input, shorter by exactly the number of '#' characters, and every other character is kept |
| Text.JoinSplit | components/AIInsights.tsx:93 | joining the pieces of a split with the separator restores the string |
| Text.SplitJoin | components/AIInsights.tsx:93 | splitting the join of separator-free pieces gives back the pieces |
| Text.Split | components/AIInsights.tsx:93 | a split yields one piece more than there are separators, and no piece contains the separator |

## Left out

- Loading and saving the journal in local storage, and JSON parsing (App.tsx:28-43). This is persistence I/O.
- All rendering: JSX, charts, tab navigation, the sidebar and mobile menu, and the heatmap cell colours (components/Dashboard.tsx:104-108). These are presentation.
- components/TradeChart.tsx is not part of this model. It fetches exchange candles over the network and draws them with floating-point geometry.
- services/bybit.ts is not part of this model. It signs requests with HMAC-SHA256 (RFC 2104) through WebCrypto and makes an HTTP request. services/gemini.ts is not part of this model either. It calls a remote language model, and its reply is the `Reply` parameter of `Insights.GetInsights`.
- IEEE-754 behaviour: rounding, `NaN` from unparseable numbers or invalid dates, `Infinity` arithmetic, and `toFixed`/`toLocaleString` formatting. Money is exact `real`.
- `parseFloat` on the form's text. `TradeForm.Submit` receives prices and size already parsed, and risk and target as `Option<real>`.
- The clock and time zones. "Today" is a day-number parameter. The off-by-one a non-UTC time zone can cause, from mixing a local `setDate` with a UTC `toISOString`, is not modelled.
- Text.Upper: changes the case of ASCII letters only. JavaScript `toUpperCase` maps all of Unicode.
- Text.Lower: changes the case of ASCII letters only. JavaScript `toLowerCase` maps all of Unicode.
- TradeList.Search: matches case-insensitively for ASCII letters only. In the application the query "é" matches a setup "É"; in the model it does not.
- Text.Trim: removes ASCII whitespace only. JavaScript `trim` also removes Unicode spaces such as U+00A0 and U+FEFF.
- Analytics.SetupTotals: keeps first-occurrence order for every key and adds plain numbers. `Object.entries` lists integer-like keys first, in numeric order, and a setup named `__proto__` would not become an ordinary entry. A setup named `constructor`, `toString`, `valueOf` or `hasOwnProperty` reads an inherited function on its first trade, so `acc[key] || 0` is that function and the "sum" becomes a string concatenation; the model sums numbers for every name.
- Text.LowerForgetsCase: holds for the ASCII case mapping modelled here. Under JavaScript's full Unicode mapping it can fail: `"ß".toUpperCase()` is `"SS"`, whose lower case `"ss"` differs from `"ß"`.
- TradeList.SearchIgnoresQueryCase: holds for the ASCII case mapping modelled here. Under JavaScript's full Unicode mapping it can fail for the same reason: the upper-cased query "SS" no longer matches a setup containing "ß".
- Analytics.BuildReport: gives the equity point's label as a day number, not the locale date string. `new Date('YYYY-MM-DD')` is midnight UTC, so `toLocaleDateString()` (components/Analytics.tsx:44) shows the previous day in time zones west of UTC; that shift is not modelled.
- The empty reports page asks for 5 trades, but its guard only rejects an empty journal (components/Analytics.tsx:24-34). The model follows the guard: any non-empty journal gets a report.
- The search box placeholder mentions notes, but only symbol and setup are searched (components/TradeList.tsx:14-17, 30). The model follows the filter.
