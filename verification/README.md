# yt-analysis: a Dafny model of the analysis handler and the page's aggregation

The application takes a YouTube video URL, fetches the video's comments, asks a
language model to classify each comment as `agree`, `disagree` or `neutral`,
ranks the comment texts' terms with TF-IDF, stores the result, and charts it in
the browser. This project models the deterministic logic in that flow and
proves properties of it:

- **Sentiment normalisation** (`Sentiment`, over the string primitives in `Text`):
  the model's reply is lower-cased and trimmed. It is then labelled `agree` if
  it contains "agree", else `disagree` if it contains "disagree", else
  `neutral`. It is modelled exactly as written. Because "agree" is a substring
  of "disagree", the `disagree` branch can never be taken: a reply of
  "Disagree" is stored as `agree`, and the page's Disagree bar and card are
  always empty for a freshly analysed video (`Report.DisagreeBarAlwaysEmpty`).
- **Keyword post-processing** (`KeywordFilter`, with `Collections.Dedupe`):
  the TF-IDF ranking is an input. The handler drops terms whose UTF-16 length
  is 2 or less, keeps the first ten, and removes repeats in first-seen order.
- **The `POST /api/analyze` handler** (`AnalyzeRoute`): a pure function of
  what its collaborators answer. It records every outside call it makes, so the
  model can state that a missing `v` parameter gives a 400 before any fetch.
  `Promise.all` over the comments is modelled as an in-order map.
- **Page aggregation** (`Dashboard`): `groupByMonth` (month buckets in
  first-seen order), `getSentimentDistribution` (three fixed bars with real
  percentages) and the stat cards that count with the same filters.

Modules: `Wrappers` (Option, Result, Outcome), `AnalysisTypes` (the records of
`app/types/analysis.d.ts`), `Text`, `Sentiment` and `SentimentExamples`,
`Collections`, `KeywordFilter`, `AnalyzeRoute`, `Dashboard`, and `Report`
(which links the handler to the page).

Where the handler's behaviour is easy to misread, the model follows the code:
- A URL that `new URL` cannot parse makes the handler throw. The catch block
  answers 500, not the 400 used for a missing `v`.
- An empty model reply is not an error. It is labelled `neutral`
  (`SentimentExamples.EmptyReplyExample`).
- The keyword list keeps first-seen order. That order is part of what is proved.
- A reply containing "disagree" is labelled `agree`. The check order is not
  corrected.

## Model

| member | source | states |
|---|---|---|
| Text.Trim | app/api/analyze/route.ts:54 | the trimmed reply sits inside the reply with only whitespace on either side, and neither starts nor ends with whitespace |
| Text.Lower | app/api/analyze/route.ts:54 | `toLowerCase()` keeps the length, leaves no ASCII capital, moves each capital down to its small letter, and leaves every other character unchanged |
| Text.LowerIdempotent | app/api/analyze/route.ts:54 | lower-casing a lower-cased reply changes nothing |
| Text.Includes | app/api/analyze/route.ts:58-59 | `includes` answers true exactly when the word occurs at some position of the text |
| Text.IncludesPadded | app/api/analyze/route.ts:54 | whitespace around a text does not change whether a non-empty, whitespace-free word occurs in it |
| Text.IncludesTrim | app/api/analyze/route.ts:54 | trimming does not change whether a non-empty, whitespace-free word occurs |
| Text.LowerConcat | app/api/analyze/route.ts:54 | lower-casing splits over concatenation and leaves whitespace unchanged |
| Text.Utf16Length | app/api/analyze/route.ts:71 | a term's `length` is between one and two code units per character |
| Text.Utf16LengthChar | app/api/analyze/route.ts:71 | a character takes one UTF-16 code unit, or two when it lies outside the Basic Multilingual Plane |
| Text.Utf16LengthConcat | app/api/analyze/route.ts:71 | the `length` of a concatenation is the sum of the parts' lengths; with the one-character case this fixes the `length` of every string |
| Sentiment.Label | app/api/analyze/route.ts:58-59 | the stored sentiment is always one of the three known labels "agree", "disagree", "neutral" |
| Sentiment.DisagreeContainsAgree | app/api/analyze/route.ts:58-59 | every text containing "disagree" also contains "agree" |
| Sentiment.Normalise | app/api/analyze/route.ts:54-59 | the label is `agree` exactly when the lower-cased reply contains "agree", `neutral` exactly when it does not, and never `disagree` |
| Sentiment.AgreeBeforeDisagree | app/api/analyze/route.ts:54-59 | after trimming, "agree" is found exactly when the lower-cased reply holds it, and a "disagree" found there always comes with an "agree" |
| Sentiment.DisagreeReplyIsAgree | app/api/analyze/route.ts:58-59 | a reply whose lower-cased form contains "disagree" is labelled `agree` |
| Sentiment.NormaliseIgnoresCase | app/api/analyze/route.ts:54 | two replies that differ only in letter case get the same label |
| Sentiment.NormaliseIgnoresPadding | app/api/analyze/route.ts:54 | whitespace before or after a reply does not change its label |
| SentimentExamples.AgreeExample | app/api/analyze/route.ts:54-59 | "Agree" is labelled `agree` |
| SentimentExamples.ShoutedAgreeExample | app/api/analyze/route.ts:54-59 | "AGREE." is labelled `agree` |
| SentimentExamples.AgreeInSentenceExample | app/api/analyze/route.ts:54-59 | "I agree with this." is labelled `agree` |
| SentimentExamples.DisagreeExample | app/api/analyze/route.ts:58-59 | "Disagree" is labelled `agree` |
| SentimentExamples.NeutralExample | app/api/analyze/route.ts:58-59 | "Unclear" is labelled `neutral` |
| SentimentExamples.EmptyReplyExample | app/api/analyze/route.ts:54-59 | an empty reply is labelled `neutral`, not rejected |
| Collections.Dedupe | app/api/analyze/route.ts:68-75 | `Array.from(new Set(xs))` holds no repeats, holds exactly the elements of `xs`, and is no longer than `xs` |
| Collections.DedupeOrder | app/api/analyze/route.ts:68-75 | of two de-duplicated elements, the one listed first occurs first in the input |
| Collections.DedupeOfDistinct | app/api/analyze/route.ts:68-75 | a list without repeats comes back unchanged |
| Collections.DedupeIdempotent | app/api/analyze/route.ts:68-75 | de-duplicating twice gives the same list as once |
| KeywordFilter.LongTerms | app/api/analyze/route.ts:71 | the filter keeps exactly the ranked terms longer than two code units |
| KeywordFilter.LongTermsAppend | app/api/analyze/route.ts:71 | the filter keeps ranking order: filtering a concatenation concatenates the filtered parts |
| KeywordFilter.Candidates | app/api/analyze/route.ts:72 | `slice(0, 10)` is a prefix of the long terms, of length ten unless fewer exist |
| KeywordFilter.Keywords | app/api/analyze/route.ts:68-75 | at most ten keywords, each longer than two code units, each a ranked term, no repeats, and exactly the first ten long terms as a set |
| KeywordFilter.KeywordsOrder | app/api/analyze/route.ts:68-75 | keywords appear in the order of their first occurrence among the first ten long terms |
| KeywordFilter.KeywordsOfDistinctRanking | app/api/analyze/route.ts:68-75 | when the first ten long terms have no repeats, they are the keywords, in order |
| AnalyzeRoute.PromptInjective | app/api/analyze/route.ts:50-51 | the prompt is the fixed instruction followed by the comment's text, so different comment texts are sent as different prompts |
| AnalyzeRoute.Classify | app/api/analyze/route.ts:56-60 | a classified comment keeps its text and date. Its sentiment is "agree" exactly when the lower-cased reply contains "agree", and "neutral" exactly when it does not |
| AnalyzeRoute.ServerError | app/api/analyze/route.ts:88-93 | any thrown error becomes a 500 with the error's message, or "Analysis failed" when that message is empty |
| AnalyzeRoute.ClassifyAll | app/api/analyze/route.ts:48-62 | classification succeeds exactly when every reply does. Its comments match the retrieved ones in number and order, each being the classification of the retrieved comment at the same position with that comment's reply |
| AnalyzeRoute.ClassifyAllFailure | app/api/analyze/route.ts:48-62 | a failed classification carries the error of a failing reply, and every reply before that one succeeded |
| AnalyzeRoute.Analyze | app/api/analyze/route.ts:25-95 | the status is 200, 400 or 500. It is 400 exactly when `v` is absent or empty (the `!videoId` guard), and then no outside call is made. Otherwise the first call fetches that id's comments. Every error body has a non-empty message. A body or URL that cannot be parsed gives a 500 with the parse error's message and no outside call. A failed fetch gives a 500 with the fetch error's message and no further call |
| AnalyzeRoute.FailedReplyAnswer | app/api/analyze/route.ts:48-93 | when a model call fails, the answer is a 500 with the error of a failing reply, every earlier reply having succeeded. Every model call was issued and nothing was saved |
| AnalyzeRoute.FailedSaveAnswer | app/api/analyze/route.ts:78-93 | when the store rejects the record, the answer is a 500 with the store's error, after the fetch, every model call and the save attempt |
| AnalyzeRoute.SucceedsIff | app/api/analyze/route.ts:28-86 | with `v` present, the answer is 200 exactly when the fetch, every model call and the save of the one record built from them all succeed |
| AnalyzeRoute.SuccessShape | app/api/analyze/route.ts:28-86 | a 200 answer stores the requested id and the retrieved comments, in order, with text and date kept and each reply's label added. It also holds the ranking's keywords. It follows exactly one fetch, one model call per comment and one save |
| AnalyzeRoute.NeverStoresDisagree | app/api/analyze/route.ts:54-60 | every stored comment is labelled "agree" or "neutral" |
| AnalyzeRoute.SucceedsWhenServicesDo | app/api/analyze/route.ts:28-86 | with a non-empty id, a fetch and model calls that answer, and a store that accepts the record built from them, the handler answers 200 |
| AnalyzeRoute.EmptyVideo | app/api/analyze/route.ts:39-86 | a video with no comments is stored with no comments, not rejected. When the ranking of an empty corpus is empty, it is also stored with no keywords |
| Dashboard.Bump | app/page.tsx:13 | one more comment for a month adds one to that month's bucket, or appends a bucket of one; no other bucket changes |
| Dashboard.GroupByMonth | app/page.tsx:7-16 | the buckets' months are the distinct months of the comments in first-seen order. Each count is the number of comments in that month, and the counts add up to the number of comments |
| Dashboard.Group | app/page.tsx:9-15 | the buckets' months are the distinct month keys in first-seen order. Each count is that month's number of occurrences, and the counts add up to the number of comments |
| Dashboard.BucketCount | app/page.tsx:10-13 | a bucket's count is the number of comments dated in its month, and is at least one |
| Dashboard.GroupByMonthOrder | app/page.tsx:9-15 | buckets are ordered by the first comment in each month, not by the calendar; every comment's month has a bucket |
| Dashboard.OneMonthExample | app/page.tsx:7-16 | three comments of one month give one bucket counting three |
| Dashboard.TwoMonthsExample | app/page.tsx:7-16 | months in the order A, B, A give buckets A (two) then B (one) |
| Dashboard.Percentage | app/page.tsx:30 | a share lies between 0 and 100, is 0 when there are no comments, and times the total equals the count times 100 |
| Dashboard.CountLabel | app/page.tsx:21-23 | the `filter(...).length` count is the number of comments carrying that label, so at most the number of comments |
| Dashboard.KnownLabelCounts | app/page.tsx:20-24 | the three label counts add up to at most the number of comments, and to exactly that number when every label is known |
| Dashboard.Distribution | app/page.tsx:18-46 | always three bars named Agree, Disagree, Neutral in that order. Their values add up to at most the total. Each bar's share lies in 0..100 and, times the total, equals the bar's value times 100. All shares are 0 when there are no comments |
| Dashboard.DistributionValues | app/page.tsx:20-41 | each bar's value is the number of comments with that bar's label |
| Dashboard.DistributionSums | app/page.tsx:19-42 | with comments whose labels are all known, the values add up to the total and the shares to 100 |
| Dashboard.SharesSum | app/page.tsx:30-42 | three counts' shares of their sum add up to 100 |
| Dashboard.AgreeOrNeutralOnly | app/page.tsx:18-46 | with only "agree" and "neutral" labels, the Disagree bar is 0 and the other two bars cover all comments and 100 percent |
| Dashboard.StatCards | app/page.tsx:120-150 | the four cards show the comment total and the same counts as the three bars |
| Report.DisagreeBarAlwaysEmpty | app/page.tsx:33-38 | for any successful analysis the Disagree bar is 0. With comments, Agree and Neutral add up to all of them and to 100 percent |

## Left out

- MongoDB connection, schema and `save` (app/api/analyze/route.ts:9-23, 78-84): the store is the `save` collaborator, which passes or fails with a message. The store-assigned `_id` and `createdAt` are not modelled. Neither is the all-or-nothing nature of a write, which belongs to the store.
- The YouTube Data API request (app/api/analyze/route.ts:35-37): the `fetch` collaborator maps a video id to the retrieved comments or an error. The `maxResults=10` page size and the JSON field paths are its business.
- The Gemini call (app/api/analyze/route.ts:45-53): the `generate` collaborator maps the prompt to the reply text or an error. The prompt's wording is kept as a constant.
- AnalyzeRoute.Services: `generate` is a function of the prompt, so comments with equal text get equal replies, equal labels and equal failures. The real service answers each call independently: a sampled model can label two identical comments differently, and one of two identical calls can fail while the other succeeds.
- TF-IDF scoring with `listTerms(0)` (app/api/analyze/route.ts:65-66): the `rank` collaborator maps the comment texts to a ranked term list. Its anchoring on the first comment is inside it.
- `request.json()` and WHATWG `URL` parsing (app/api/analyze/route.ts:27-28): the handler's `query` input is the `v` parameter's value, or the thrown error's message.
- `toLocaleString` month rendering (app/page.tsx:10-12): the `monthOf` parameter, a function of the date.
- Dashboard.Group: `months` is a plain object. JavaScript lists integer-like keys first, in numeric order. A key naming an `Object.prototype` member behaves differently too: `"constructor"` makes the count a string, and `"__proto__"` makes no entry at all. The model assumes month keys are none of these, as locale month-year strings never are.
- AnalyzeRoute.ClassifyAll: `Promise.all` issues every model call at once and rejects with the first failure to settle in time. The model records every call, but reports the failure of the lowest-index comment.
- Text.Lower: `toLowerCase` is modelled on ASCII letters only. No other character lower-cases to a letter of "agree", so labels are unaffected.
- Dates are integer timestamps. Invalid dates and time zones are not modelled.
- Floating-point percentages and `toFixed` (app/page.tsx:177,193): shares are `real`.
- `console.error` logging (app/api/analyze/route.ts:89): a side effect that does not change the answer.
- React state, rendering, charts and CSV export (app/page.tsx:48-263): presentation only.
