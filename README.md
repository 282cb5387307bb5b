# taamul-connect EIBOR and knowledge-centre logic in Dafny

This project models the parts of the taamul-connect site that compute something rather than only lay out a page. There are five parts.

- **The EIBOR ingestion job.** This is the `fetch-eibor-rates` edge function.
  - It takes the payload that the extraction service scraped from the central bank's EIBOR page.
  - It checks that payload and resolves the rate date, falling back to today.
  - It turns the six fixed tenor slots into one row per tenor whose latest rate is present. Each row carries `previous_rate` and a `daily_change` rounded to six decimals.
  - It upserts the batch into the `eibor_rates` table, keyed by `(rate_date, tenor)`.
  - The table is a class with a map field. The upsert is a loop over the batch. The handler is a method with every early exit of the source.
- **The two loan estimators.**
  - The home-page calculator covers the eligible amount, the "first non-zero rate per tenor" scan of the rates query merged over the built-in defaults, input defaulting, and the guarded annuity formula.
  - The dashboard's interest estimator, its static rate table with the highlighted 3-month row, and the three-way daily-change indicator with `toFixed(4)` formatting.
  - A shared `Annuity` module proves that the annuity instalment repays the principal exactly in the chosen number of months.
- **The six-month history chart.** This covers:
  - the rows the query asks for and the points made from them;
  - the component's `data`/`loading` state;
  - the padded, rounded y-axis bounds;
  - the point-count thresholds that decide what is drawn.
- **The contact form's schema.** These are per-field checks over trimmed strings, the optional company, the untrimmed subject, and the cleaned data a successful validation hands on.
- **The blog.** This covers:
  - the article list read from the translations;
  - the category and search filter;
  - the article-id check;
  - the small markdown dialect of article bodies: headings, bold-labelled lines, bullet lists and plain paragraphs;
  - the card's category colour lookup and its link.

The files:

- `wrappers.dfy`: `Option` and `Result`.
- `text.dfy`: the JavaScript string operations the core relies on. These are `startsWith`, `includes`, `indexOf`, `split`/`join`, `replace` of the first match, `replace(/\*\*/g, "")`, ASCII `toLowerCase`, and `trim` over ECMAScript white space.
- `eibor_ingest.dfy`, `annuity.dfy`, `calculator_section.dfy`, `eibor_dashboard.dfy`, `historical_chart.dfy`, `contact_form.dfy`, `blog.dfy`, `blog_article.dfy` and `blog_article_card.dfy`: one module per source file, plus the shared annuity.

Inputs stand in for what the code receives from outside:

- the extraction service's reply;
- today's date and the date parser;
- the database's own failure;
- the query results;
- the six-months-ago bound;
- the translation function `t`;
- the chart's date-label formatter;
- the email check.

## Model

| member | source | states |
|---|---|---|
| EiborIngest.TenorKeysDistinct | supabase/functions/fetch-eibor-rates/index.ts:102-109 | the six tenor keys (`overnight` … `1_year`) are distinct, and each tenor sits at its own position in the fixed order |
| EiborIngest.Slots | supabase/functions/fetch-eibor-rates/index.ts:102-109 | there are exactly six slots, in the order overnight, 1_week, 1_month, 3_month, 6_month, 1_year |
| EiborIngest.Round6Spec | supabase/functions/fetch-eibor-rates/index.ts:119 | `parseFloat(x.toFixed(6))` has at most six decimals, lies within half a millionth of `x`, keeps its sign, and is exact when `x` already has six decimals |
| EiborIngest.Round6Symmetric | supabase/functions/fetch-eibor-rates/index.ts:119 | rounding a negative change gives the negation of rounding its magnitude (halves go away from zero) |
| EiborIngest.DailyChange | supabase/functions/fetch-eibor-rates/index.ts:119 | `daily_change` is 0 without a previous rate; with one it is `rate - prev` rounded to six decimals, exact when the difference has six decimals |
| EiborIngest.BuildBatchRows | supabase/functions/fetch-eibor-rates/index.ts:112-120 | every batch row is the row of a slot with a non-null rate, and every such slot has its row in the batch |
| EiborIngest.BuildBatchOrdered | supabase/functions/fetch-eibor-rates/index.ts:112-113 | the filter keeps the slots' order: batch rows appear in strictly increasing tenor position |
| EiborIngest.BatchShape | supabase/functions/fetch-eibor-rates/index.ts:102-120 | the batch has at most six rows, all dated with the resolved date, in the fixed tenor order, so no tenor appears twice |
| EiborIngest.BatchCoversPresentTenors | supabase/functions/fetch-eibor-rates/index.ts:112-113 | a tenor has a row in the batch if and only if the payload's latest rate for it is present |
| EiborIngest.BatchRowValues | supabase/functions/fetch-eibor-rates/index.ts:115-119 | each row holds its tenor's latest rate and previous rate from the payload, and the daily change derived from them |
| EiborIngest.Prepare | supabase/functions/fetch-eibor-rates/index.ts:74-120 | the run gets to the write exactly when the reply is ok, has a JSON body, and its payload (`data.json`, else `json`) has a non-empty `latest_date`. A rejected fetch, a body that is not JSON (read before the status check) and a non-ok status each give their own failure, and an ok JSON reply with no payload or no `latest_date` fails as nothing extracted. On success the date is the parsed `latest_date` or, when it does not parse, today, and the batch is built from the payload for that date |
| EiborIngest.TwelveMarchReply | supabase/functions/fetch-eibor-rates/index.ts:99-120 | an ok reply whose payload is dated "12 March 2025" and has no 1-week rate gives five rows dated 2025-03-12, none for 1_week; the 3-month row has previous rate 4.942 and daily change -0.012 |
| EiborIngest.AppliedAt | supabase/functions/fetch-eibor-rates/index.ts:124-126 | after writing a batch, a key it writes holds the batch's last row for that key, and every other key is as before |
| EiborIngest.UpsertEffect | supabase/functions/fetch-eibor-rates/index.ts:124-126 | an upsert of a batch with distinct keys stores each row under its `(rate_date, tenor)`, adds no other key and leaves every other key unchanged |
| EiborIngest.UpsertIdempotent | supabase/functions/fetch-eibor-rates/index.ts:124-126 | repeating the same upsert leaves the table exactly as the first one left it |
| EiborIngest.AppliedKeysMatch | supabase/functions/fetch-eibor-rates/index.ts:126 | writing a batch keeps every row under its own `(rate_date, tenor)` key (one row per key) |
| EiborIngest.RateStore.constructor | supabase/functions/fetch-eibor-rates/index.ts:124-125 | the table starts empty and keeps every row under its own key |
| EiborIngest.RateStore.Upsert | supabase/functions/fetch-eibor-rates/index.ts:124-131 | the upsert is all-or-nothing: it succeeds exactly when the database reports no fault and no two rows share a key, and then the table is the old one with each row written under its key; on an error the table is unchanged and the error is reported |
| EiborIngest.HasDistinctKeys | supabase/functions/fetch-eibor-rates/index.ts:126 | the conflict check answers true exactly when no two rows of the batch share a `(rate_date, tenor)` key |
| EiborIngest.BatchKeysDistinct | supabase/functions/fetch-eibor-rates/index.ts:112-126 | the job's batch never repeats a key, so the database never refuses it for a double conflict |
| EiborIngest.Handle | supabase/functions/fetch-eibor-rates/index.ts:20-149 | OPTIONS is answered at once with no fetch and no write; a missing or empty API key gives a status-500 failure before any fetch; each preparation failure or upsert error gives a status-500 failure and leaves the table unchanged; on success the reply holds the date, the row count and the rows, and the table is the batch written over the old one |
| Annuity.PowAboveOne | src/components/home/CalculatorSection.tsx:68 | `(1 + r)^n` is at least 1, and above 1 for `n >= 1`, so the formula's denominator is positive |
| Annuity.Payment | src/components/home/CalculatorSection.tsx:68 | the instalment solves `pay * ((1+r)^n - 1) == P * r * (1+r)^n` and is positive for a positive principal |
| Annuity.BalanceClosedForm | src/components/home/CalculatorSection.tsx:68 | after `k` months the balance (scaled by the rate) is the grown principal less the grown instalments |
| Annuity.Amortises | src/components/home/CalculatorSection.tsx:68 | paying the annuity instalment for `n` months leaves exactly nothing owed |
| Annuity.BalanceAntitone | src/components/home/CalculatorSection.tsx:68 | paying less each month never leaves less owed, and after a month leaves strictly more |
| Annuity.SmallerPaymentLeavesDebt | src/components/home/CalculatorSection.tsx:68 | any instalment below the annuity payment leaves a debt after the last month, so the formula gives the least instalment that repays the loan |
| Annuity.ShowMonthly | src/components/home/CalculatorSection.tsx:200-202 | a dash is shown exactly when the instalment is not positive; otherwise the amount is rounded to the nearest whole dirham |
| CalculatorSection.EligibleAmount | src/components/home/CalculatorSection.tsx:54-57 | the eligible amount never exceeds 3,000,000 or turnover/8, equals turnover/8 up to a 24,000,000 turnover, and equals the cap from there on |
| CalculatorSection.EligibleMonotone | src/components/home/CalculatorSection.tsx:54-57 | a larger turnover never lowers the eligible amount |
| CalculatorSection.FirstNonZeroAt | src/components/home/CalculatorSection.tsx:42-44 | a tenor's rate is the one at its first row, in newest-first order, whose rate is not 0: earlier rows of that tenor with rate 0 are passed over |
| CalculatorSection.FirstRowWins | src/components/home/CalculatorSection.tsx:41-44 | the scan's result for a tenor is the rate of that tenor's first non-zero row |
| CalculatorSection.AllZeroGivesZero | src/components/home/CalculatorSection.tsx:42-44 | a tenor all of whose rows have rate 0 gets no non-zero rate, so it keeps 0 |
| CalculatorSection.LatestKeys | src/components/home/CalculatorSection.tsx:41-44 | the scan's result has an entry for a tenor exactly when some fetched row is for that tenor |
| CalculatorSection.LatestPerTenor | src/components/home/CalculatorSection.tsx:41-44 | the loop yields, for each tenor in the rows, the first non-zero rate in newest-first order, or 0 when all its rates are 0 (`!latest[tenor]` lets later rows overwrite a 0) |
| CalculatorSection.Calculator.constructor | src/components/home/CalculatorSection.tsx:25-28 | the calculator starts with the default rates 3.5556 (3-month) and 3.6764 (6-month) |
| CalculatorSection.Calculator.FetchRates | src/components/home/CalculatorSection.tsx:30-52 | a non-empty answer merges the scanned rates over the current ones; an empty list, `null` or an exception leaves them unchanged; both tenors always keep a rate |
| CalculatorSection.MergeTakesFetched | src/components/home/CalculatorSection.tsx:45 | after the merge a tenor mentioned by the rows takes its scanned rate, and any other tenor keeps its previous rate |
| CalculatorSection.MonthsOrTwelve | src/components/home/CalculatorSection.tsx:64 | an unreadable or zero tenure counts as 12 months, so the tenure is never 0 |
| CalculatorSection.LoanEstimate | src/components/home/CalculatorSection.tsx:59-70 | an estimate is positive exactly when the principal, the rate (base plus spread, an unreadable spread counting as 0) and the tenure are all positive; otherwise it is `{monthly: 0, totalRate: 0}`; a positive one reports base plus spread as its rate |
| CalculatorSection.EstimateRepays | src/components/home/CalculatorSection.tsx:65-68 | a shown estimate repays the eligible amount in the chosen number of months at `totalRate / 1200` a month |
| CalculatorSection.DefaultEstimateShown | src/components/home/CalculatorSection.tsx:21-28 | the starting inputs (5,000,000 turnover, 3-month default rate, 2% spread, 12 months) give a positive instalment |
| EiborDashboard.NatToString | src/components/home/EIBORDashboardSection.tsx:38 | a numeral is non-empty and made of decimal digits |
| EiborDashboard.ParseNatToString | src/components/home/EIBORDashboardSection.tsx:38 | reading a written numeral back gives the number it was written from |
| EiborDashboard.Padded | src/components/home/EIBORDashboardSection.tsx:38 | the digits padded to at least five still denote the same number |
| EiborDashboard.ToFixed4 | src/components/home/EIBORDashboardSection.tsx:38-39 | `toFixed(4)` starts with a minus sign exactly for negative values; every other character is a digit except the point, which comes before exactly four digits; the whole part has at least one digit and no leading zero |
| EiborDashboard.ToFixed4Negative | src/components/home/EIBORDashboardSection.tsx:39 | a negative value is written as a minus sign followed by the text of its magnitude |
| EiborDashboard.ToFixed4Value | src/components/home/EIBORDashboardSection.tsx:38-39 | the digits around the point of a formatted non-negative value denote that value scaled by 10^4 and rounded half up |
| EiborDashboard.ParseNatSplit | src/components/home/EIBORDashboardSection.tsx:38 | a numeral read in two parts is the head shifted by the tail's length plus the tail |
| EiborDashboard.ChangeIndicator | src/components/home/EIBORDashboardSection.tsx:36-40 | exactly one branch applies. A zero change is flat "0.0000". A rise is "+" followed by its four-decimal text. A fall is a minus sign followed by the four-decimal text of its magnitude |
| EiborDashboard.HighlightedRate | src/components/home/EIBORDashboardSection.tsx:120 | `find(r => r.highlighted)` gives the rate of the first highlighted row, and nothing exactly when no row is highlighted |
| EiborDashboard.ThreeMonthRateIsHighlighted | src/components/home/EIBORDashboardSection.tsx:16-22 | in the table exactly one row, "3 Month", is highlighted, so the estimator's base rate is 4.931 |
| EiborDashboard.InterestEstimate | src/components/home/EIBORDashboardSection.tsx:46-55 | an estimate is positive exactly when the loan amount and the base rate plus spread are positive (unreadable inputs counting as 0); otherwise it is `{monthly: 0, totalRate: 0}` |
| EiborDashboard.InterestEstimateRepays | src/components/home/EIBORDashboardSection.tsx:50-53 | a shown estimate repays the loan amount in twelve instalments |
| HistoricalChart.ToPoints | src/components/home/EIBORHistoricalChart.tsx:39-46 | the mapping gives one point per row |
| HistoricalChart.PointsKeepRows | src/components/home/EIBORHistoricalChart.tsx:39-46 | the mapping loses nothing: the points give back exactly the rows' dates and rates, in order |
| HistoricalChart.PointsFollowQuery | src/components/home/EIBORHistoricalChart.tsx:27-46 | for an answer to the history query, the points are the stored 3-month rates dated on or after `fromDate`, every such stored date has a point, and they are in ascending date order |
| HistoricalChart.Chart.constructor | src/components/home/EIBORHistoricalChart.tsx:17-18 | the chart starts with no points and loading |
| HistoricalChart.Chart.FetchHistory | src/components/home/EIBORHistoricalChart.tsx:21-54 | an error-free answer with rows replaces the points with the mapped rows; an error, missing rows or an exception leave them as they were; loading ends on every path |
| HistoricalChart.MinRate | src/components/home/EIBORHistoricalChart.tsx:62 | `Math.min` over the rates is a lower bound attained by some point |
| HistoricalChart.MaxRate | src/components/home/EIBORHistoricalChart.tsx:63 | `Math.max` over the rates is an upper bound attained by some point |
| HistoricalChart.AxisBounds | src/components/home/EIBORHistoricalChart.tsx:62-66 | `yMin` lies at most the padding plus a hundredth below the least rate, `yMax` likewise above the greatest, `yMin < yMax`, and every rate lies strictly between them |
| HistoricalChart.Render | src/components/home/EIBORHistoricalChart.tsx:59-131 | nothing is drawn while loading or without points. Fewer than five points show the limited-data message. Otherwise the plot is drawn from `yMin` to `yMax`, which enclose every rate, with dots exactly when there are fewer than thirty points |
| ContactForm.FieldErrors | src/pages/Contact.tsx:41-68 | a field is reported exactly when its check fails |
| ContactForm.Validate | src/pages/Contact.tsx:41-68 | validation succeeds exactly when name (1-100), email (an address of at most 255), phone (1-20), company (absent or at most 200) and message (1-1000) pass once trimmed and the subject is non-empty; success hands on the trimmed values with the subject as typed; failure names exactly the failing fields |
| ContactForm.ValidateCleaned | src/pages/Contact.tsx:41-68 | validated data passes validation again unchanged |
| ContactForm.BlankFieldsRefused | src/pages/Contact.tsx:42-67 | a name, phone or message of white space only is refused, however long |
| ContactForm.BlankSubjectAccepted | src/pages/Contact.tsx:62 | any non-empty subject of white space only passes, although it trims to nothing, because the subject is not trimmed |
| ContactForm.EmptyCompanyAccepted | src/pages/Contact.tsx:57-61 | an empty company passes like an absent one |
| ContactForm.DefaultValuesFail | src/pages/Contact.tsx:117-124 | the form's empty starting values fail on name, phone, subject and message, but not on company |
| Text.TrimIdempotent | src/pages/Contact.tsx:44 | trimming a trimmed string changes nothing |
| Text.TrimEmptyIff | src/pages/Contact.tsx:44-45 | a string trims to empty exactly when it is all white space |
| Blog.SearchIgnoresCase | src/pages/knowledge/Blog.tsx:42-45 | the search ignores letter case: a search text and its lower-cased form keep the same articles |
| Text.SplitJoin | src/pages/knowledge/BlogArticle.tsx:46 | joining the pieces of a split with the separator gives back the text |
| Text.SplitPiecesFree | src/pages/knowledge/BlogArticle.tsx:46 | no piece of a split contains the separator |
| Text.SplitAtFirst | src/pages/knowledge/BlogArticle.tsx:71 | the first piece is the text before the first separator, and the remaining pieces re-joined are the text after it |
| Text.RemoveAllStarsLeavesNone | src/pages/knowledge/BlogArticle.tsx:74 | after `replace(/\*\*/g, "")` no `**` is left |
| Blog.ArticleKeysDistinct | src/pages/knowledge/Blog.tsx:14 | the eight article keys are distinct |
| Blog.OneArticlePerKey | src/pages/knowledge/Blog.tsx:27-37 | the list has eight articles, the i-th for the i-th key of a1..a8; every key has an article and no two articles share a key |
| Blog.Filtered | src/pages/knowledge/Blog.tsx:39-48 | the filtered list keeps the articles' order (a subsequence), holds only kept articles, and holds every kept article |
| Blog.KeptIff | src/pages/knowledge/Blog.tsx:40-47 | an article is listed exactly when it is one of the articles, its category is "all" or the chosen one, and the search is empty or occurs in its lower-cased title or summary |
| Blog.AllAndEmptyKeepsEverything | src/pages/knowledge/Blog.tsx:41-43 | with category "all" and an empty search the list is all the articles |
| Blog.OtherCategoryDropped | src/pages/knowledge/Blog.tsx:41 | an article outside the chosen category is never listed |
| Blog.NoResultsIffNothingKept | src/pages/knowledge/Blog.tsx:102-124 | the no-results message is shown exactly when no article passes both conditions; otherwise the cards shown are exactly the kept articles |
| BlogArticle.ValidIffArticleKey | src/pages/knowledge/BlogArticle.tsx:17 | an article id is valid exactly when it is present and one of a1..a8 |
| BlogArticle.RenderLine | src/pages/knowledge/BlogArticle.tsx:69-83 | a line starting with `**` and containing `:**` is a label and text, any other line starting with `**` is bold, and the rest stay as written; no `**` survives in label, text or bold line, and a bold line is the line with every `**` removed and nothing else changed |
| BlogArticle.LabelledCutsAtFirst | src/pages/knowledge/BlogArticle.tsx:70-76 | the label is the text before the first `:**` and the text is everything after it, later `:**` included, each without `**` |
| BlogArticle.BulletItemsAppend | src/pages/knowledge/BlogArticle.tsx:90-94 | the items of two runs of lines are the first run's items followed by the second's, so items keep their lines' order |
| BlogArticle.BulletItemsOfLine | src/pages/knowledge/BlogArticle.tsx:90-94 | a single line gives exactly one item, its text after `- `, when it starts with `- `, and no item otherwise |
| BlogArticle.BulletItemsFromBullets | src/pages/knowledge/BlogArticle.tsx:90-94 | every item is a line starting with `- `, without that marker |
| BlogArticle.BulletLinesListed | src/pages/knowledge/BlogArticle.tsx:90-94 | every line starting with `- ` gives an item |
| BlogArticle.BulletParagraphHasItems | src/pages/knowledge/BlogArticle.tsx:89-90 | a paragraph starting with `- ` gives at least one item, its first line |
| BlogArticle.RenderParagraph | src/pages/knowledge/BlogArticle.tsx:48-104 | the first applicable rule wins: a `## ` heading, then a `### ` heading, then a bold block (the paragraph holds `**` and a line break), then a bullet list (it starts with `- `), else the paragraph as written. A heading is its text without the marker. A bold block has one classified line per line, at least two. A bullet list holds the bullet items of its lines |
| BlogArticle.BulletBlockItems | src/pages/knowledge/BlogArticle.tsx:89-95 | a rendered bullet list has at least one item; every item is some line starting with `- ` without that marker, and every such line gives an item (order and count are stated by `BulletItemsAppend` and `BulletItemsOfLine`) |
| BlogArticle.ThirdLevelHeadingsReachable | src/pages/knowledge/BlogArticle.tsx:49-62 | a `### ` paragraph is a third-level heading with its marker removed |
| BlogArticle.BoldBulletsShownAsLines | src/pages/knowledge/BlogArticle.tsx:65-89 | a bullet list holding `**` on several lines is taken as a bold block, and its first line keeps its `- ` and is shown as written |
| BlogArticle.RenderBody | src/pages/knowledge/BlogArticle.tsx:45-47 | the body gives one block per blank-line-separated paragraph, at least one |
| BlogArticle.BodyFollowsParagraphs | src/pages/knowledge/BlogArticle.tsx:46-47 | the paragraphs joined by blank lines are the body, none of them holds a blank line, and each block is its paragraph's, in order |
| BlogArticle.ArticlePage | src/pages/knowledge/BlogArticle.tsx:17-45 | the not-found page is shown exactly for an invalid id; otherwise the article for that key, with its body text rendered by `RenderBody` |
| BlogArticle.ListedArticlesOpen | src/pages/knowledge/BlogArticle.tsx:36-42 | every listed article's key opens its page with the same texts the listing shows |
| BlogArticleCard.FirstContained | src/components/blog/BlogArticleCard.tsx:39-41 | the search finds the first table entry whose name occurs in the text, and nothing exactly when none occurs |
| BlogArticleCard.CategoryKey | src/components/blog/BlogArticleCard.tsx:39-41 | the category key is the first of financing, market, sme, tips, regulation occurring in the lower-cased label, and none exactly when no name occurs |
| BlogArticleCard.ClassesOf | src/components/blog/BlogArticleCard.tsx:19-25 | a name has classes exactly when the table has an entry for it, and they are that entry's |
| BlogArticleCard.ColorClass | src/components/blog/BlogArticleCard.tsx:42 | the badge classes are always one of the five table entries, and financing's when no category is found |
| BlogArticleCard.CategoryNamesDistinct | src/components/blog/BlogArticleCard.tsx:19-25 | the table's category names are distinct |
| BlogArticleCard.ColorOfFoundCategory | src/components/blog/BlogArticleCard.tsx:39-42 | a label naming a category gets that category's classes, the first in table order when it names several |
| BlogArticleCard.Href | src/components/blog/BlogArticleCard.tsx:46 | the link is "/knowledge/blog/" followed by the article key |
| BlogArticleCard.ArticleIdOf | src/pages/knowledge/BlogArticle.tsx:14 | the `articleId` route parameter of an article link is present exactly for paths under "/knowledge/blog/", and is the text after that prefix |
| BlogArticleCard.CardLinkOpensArticle | src/components/blog/BlogArticleCard.tsx:46 | every listed card links to its own article's page |

## Left out

- Network, database and runtime I/O are inputs, not behaviour. This covers the extraction-service `fetch` and its request body, `createClient`, the Supabase queries' transport, `Deno.serve`, the CORS headers and `console` logging.
  - The reply, the query results and the database's own fault are parameters.
  - `createClient` with an unset `SUPABASE_URL` or service key is library behaviour and is not modelled.
- The database's filtering, ordering and limits are taken as given.
  - For the calculator query (`in`, `order`, `limit(4)`), the rows are an input in newest-first order.
  - For the history query (`eq`, `gte`, `order`), the `Requested` predicate states what the query returns, and the points are proved to follow it.
- JavaScript dates are not modelled.
  - This covers `new Date(text)`, `toISOString`, `setMonth` and time zones. The date parser and today's date are parameters of the handler, and the six-months-ago bound is an input to the history query.
  - `toLocaleDateString` is the chart's `labelOf` parameter.
- Numbers are `real`, not IEEE-754 doubles: there is no NaN, infinity or binary rounding error.
  - `parseFloat`/`parseInt` on the inputs are abstracted as `Option` values, `None` for an unreadable text. `Number(r.rate)` and `parseFloat(String(r.rate))` are the identity.
  - `Intl.NumberFormat` and `toLocaleString` amounts are shown through `ShowMonthly`'s whole-dirham rounding, without grouping or currency symbol.
  - `toFixed(2)` of the effective rate is not modelled.
- `Annuity.ShowMonthly`: states the `Math.round` of the home-page calculator. The dashboard's `toLocaleString` with no fraction digits uses the same half-away-from-zero rounding for positive amounts, which is the only case shown.
- The email format check of the form library is the parameter `isEmail`.
- `toLowerCase` is ASCII-only, and string lengths count characters, not UTF-16 code units.
- Translation lookups `t(...)` form an uninterpreted parameter. The texts shown on pages, headings and buttons are not modelled.
- React rendering and UI state are not modelled. This covers `useState`/`useEffect`/`useMemo` scheduling, JSX and RTL class selection, animations, the form's `isSubmitting`, `toast` and `form.reset`, and the dashboard's drawer toggle.
- The blog's category chips (`CATEGORY_KEYS` mapped to labels) are display only. The filter takes the chosen category as a string.
- In a labelled bold line, the page prints a ":" after the label. `RenderLine` keeps the label and the text, and the ":" is display.
- BlogArticleCard.ArticleIdOf: the route table is not part of this model, so the router's one-segment match and its URL decoding are not modelled. Any text after "/knowledge/blog/", including further "/", is taken as the id.
- EiborDashboard.ToFixed4: JavaScript's `toFixed` writes magnitudes of 10^21 and above in exponent form. The model always writes plain digits; the rates and changes shown are far below that bound.
- `TENOR_MAP` in the edge function is never used, so it is not modelled.
- The payload's `previous_date` is requested from the extraction service but never read, so it is not modelled.
- The dashboard's static panel-bank list and the calculator's benefit list are static content.
