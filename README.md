# School-district sentiment dashboard: a verified model of its data logic

The repository is a Streamlit dashboard that compares how school districts are
discussed on Reddit. For each district it builds a search query, fetches posts
through PRAW, labels each title's VADER compound score as Positive, Negative or
Neutral, and summarises and compares the districts. A companion module of
notebook code cleans comment text and computes corpus statistics: word and
bigram frequencies, comment lengths, and per-post statistics.

This project models that logic in Dafny and proves what it promises:

- `wrappers.dfy`, `strings.dfy`: Option/Result values, and Python's
  whitespace `split()` and `join()`. A subsequence relation is used to state
  that cleaning "only deletes".
- `cleaning.dfy`, `cleaning_examples.dfy`: the `clean_text` chain, in order:
  lower-casing, `http\S+|www\S+` deletion, `@\w+|#\w+` deletion, removal of the
  32 `string.punctuation` characters, whitespace collapsing, stopword
  filtering. Also `clean_corpus`, and `clean_dataframe_column` as a loop over a
  column.
- `counting.dfy`: `collections.Counter` and `most_common(n)`. Entries keep their
  first-occurrence order. The sort by count is stable, descending, and keeps
  the first `n`; `n <= 0` keeps nothing.
- `corpus_stats.dfy`, `corpus_examples.dfy`: `get_word_counts`,
  `get_bigram_counts` (its loop that extends the bigram list),
  `get_comment_lengths` and `get_post_statistics`.
- `sentiment.dfy`: the threshold rule of `analyze_sentiment`.
- `credentials.dfy`: the precedence logic of `connect_reddit`, over a snapshot
  of the Streamlit secrets, the three candidate `praw.ini` locations and the
  environment. A loop method is proved equal to a specification function.
- `fetch.dfy`: the query string and row assembly of `fetch_reddit_posts`.
- `dashboard.dfy`: the Query Builder's term selection and query preview, and
  the District Comparison's guard, tagging, label counts, summary table,
  colour mapping and insight.
- `pickle_path.dfy`: `save_pickle_file`, as written and as evidently intended
  (see Findings).

The external parts are parameters:

- the VADER analyser is a function from text to a compound score in [-1, 1];
- the NLTK stopword list is a `set<string>`;
- the Reddit search is a function of credentials, subreddit, query and limit;
- the file system, the Streamlit secrets and the environment form a snapshot
  value;
- the timestamp of a saved file is a string.

Character classes follow Python:

- whitespace is the set `str.isspace()` accepts;
- `\w`, upper case and `lower()` are ASCII.

Where the design description and the code disagree, the model follows the code:

- Cleaning is **not** idempotent: URL deletion runs before punctuation
  deletion. `CleaningExamples.CleanTextNotIdempotent` shows that `"xhtt.py"`
  cleans to `"xhttpy"`, and that cleaning again gives `"x"`.
- The cleaned text is not restricted to alphanumeric tokens. A character that
  is neither whitespace nor one of the 32 punctuation characters survives
  unless it is part of a URL, a mention or hashtag, or a stopword token; a
  non-ASCII symbol, for example, is kept.
- With no term selected, the Query Builder previews the bare district name.
  The fetch itself would search `"district ()"`; see
  `Dashboard.BuilderQueryVsFetch`.
- The two district fetches run one after the other. The model takes both
  outcomes as inputs, and the first failure is the one reported.

## Model

| member | source | states |
|---|---|---|
| Cleaning.Lower | notebooks/text_processing.py:43-44 | lower-casing keeps the length; every character is unchanged or is an ASCII capital moved 32 code points down; no ASCII capital remains |
| Cleaning.StripUrls | notebooks/text_processing.py:47 | deletes every `http\S+` or `www\S+` match, scanning left to right; its properties are `Cleaning.StripUrlsSubseq` and `Cleaning.StripUrlsAroundSpace` |
| Cleaning.StripTags | notebooks/text_processing.py:50 | deletes every `@\w+` or `#\w+` match, scanning left to right; its property is `Cleaning.StripTagsSubseq` |
| Cleaning.CollapseWhitespace | notebooks/text_processing.py:56 | `" ".join(text.split())`; its properties are in `Cleaning.TokenStage` |
| Cleaning.RemoveStopwords | notebooks/text_processing.py:59-62 | joins the words that are not stopwords with one space; its properties are in `Cleaning.TokenStage` and `Cleaning.DropStopwords` |
| Cleaning.CleanText | notebooks/text_processing.py:26-64 | the `clean_text` chain in source order, the empty string for a non-string; its properties are `Cleaning.CleanTextSpec` and `Cleaning.CleanTextNotStr` |
| Cleaning.CleanCorpus | notebooks/text_processing.py:79 | `clean_text` of each comment; its properties are `Cleaning.CleanCorpusSpec` |
| Cleaning.PunctuationRanges | notebooks/text_processing.py:53 | the punctuation test holds exactly for the 32 characters of `string.punctuation` |
| Cleaning.RemovePunctuation | notebooks/text_processing.py:53 | the result holds no punctuation and is a subsequence of the input |
| Cleaning.StripUrlsSubseq | notebooks/text_processing.py:47 | URL deletion only deletes: its result is a subsequence of its input |
| Cleaning.StripUrlsAroundSpace | notebooks/text_processing.py:47 | a URL match never crosses a space, so URL deletion works word by word |
| Cleaning.StripTagsSubseq | notebooks/text_processing.py:50 | mention and hashtag deletion only deletes |
| Cleaning.DropStopwords | notebooks/text_processing.py:59-62 | the kept words are a subsequence of the words; a word is kept iff it occurs and is not a stopword; each non-stopword keeps its number of occurrences and each stopword has none |
| Cleaning.TokenStage | notebooks/text_processing.py:56-62 | after collapsing and filtering, the text is single-spaced, its tokens are exactly the kept words, and its non-space characters come from the input in order |
| Cleaning.CleanTextSpec | notebooks/text_processing.py:39-62 | on a string the result has no punctuation, no leading, trailing or repeated whitespace, no capital when lower-casing, and no stopword token when filtering; its tokens are exactly the tokens of the text after URL, tag and punctuation deletion, with stopwords dropped when filtering; its non-space characters are a subsequence of the (lower-cased) input |
| Cleaning.CleanTextNotStr | notebooks/text_processing.py:39-40 | a non-string input cleans to the empty string |
| Cleaning.CleanCorpusSpec | notebooks/text_processing.py:79 | one cleaned comment per input, in order, element i being the cleaning of comment i, each in cleaned form |
| Cleaning.CleanDataFrameColumn | notebooks/text_processing.py:103-107 | the new column has one entry per row, entry i being `clean_corpus` of row i's comments |
| CleaningExamples.CleanTextExample | notebooks/text_processing.py:43-56 | `"Check http://x.co now!"` without stopword removal cleans to `"check now"` |
| CleaningExamples.CleanTextNotIdempotent | notebooks/text_processing.py:47-56 | `"xhtt.py"` cleans to `"xhttpy"`, and cleaning that again gives `"x"` |
| Strings.SplitJoinTokens | notebooks/text_processing.py:133-134 | splitting the comments joined by one space gives every comment's own tokens, comment by comment |
| Strings.JoinSingleSpaced | notebooks/text_processing.py:56 | joining non-empty whitespace-free words with one space gives text with no leading, trailing or repeated whitespace |
| Strings.SplitJoin | notebooks/text_processing.py:56 | splitting words joined by one space gives back the words |
| Counting.Tally | notebooks/text_processing.py:137 | `Counter(words)`: distinct items in first-occurrence order with their counts; its properties are `Counting.TallySpec` |
| Counting.MostCommon | notebooks/text_processing.py:140 | the stable sort of the tally by descending count, cut to the first `n`; its properties are `Counting.MostCommonSpec` |
| Counting.TallySpec | notebooks/text_processing.py:137 | a Counter holds each distinct item once, in first-occurrence order, with its exact number of occurrences; the counts add up to the length of the input |
| Counting.SortByCount | notebooks/text_processing.py:140 | sorting by count is a permutation of the entries |
| Counting.RankingSpec | notebooks/text_processing.py:140 | the full ranking has one entry per distinct item, with exact counts, in non-increasing count order, ties in first-occurrence order |
| Counting.MostCommonSpec | notebooks/text_processing.py:140 | `most_common(n)` returns `min(n, #distinct)` entries (none when `n <= 0`) with distinct items and exact counts, ranked by count with ties in first-occurrence order; every item left out ranks after every item kept |
| CorpusStats.WordCounts | notebooks/text_processing.py:133-141 | `most_common(top_n)` of the tokens of the comments joined by one space; its properties are `CorpusStats.WordCountsSpec` |
| CorpusStats.AllBigrams | notebooks/text_processing.py:155-161 | the bigrams of every comment, comment by comment; its properties are `CorpusStats.BigramsWithinComments` and `CorpusStats.BigramTotal` |
| CorpusStats.WordCountsSpec | notebooks/text_processing.py:133-141 | word counts are `most_common` of the comments' own tokens: at most `top_n` distinct words, exact counts, count order with first-occurrence ties |
| CorpusStats.Bigrams | notebooks/text_processing.py:160 | a comment with w words gives `max(w - 1, 0)` bigrams, bigram i being word i, a space and word i+1 |
| CorpusStats.BigramCounts | notebooks/text_processing.py:155-168 | the loop grows the bigram list comment by comment and returns `most_common(top_n)` of it |
| CorpusStats.BigramsWithinComments | notebooks/text_processing.py:157-161 | every bigram is two adjacent words of one comment; none pairs words of different comments |
| CorpusStats.BigramTotal | notebooks/text_processing.py:155-164 | before truncation the bigram counts add up to the sum over comments of `max(#words - 1, 0)` |
| CorpusStats.CommentLengths | notebooks/text_processing.py:181 | one length per comment, in order, each the comment's number of words |
| CorpusStats.LengthsSum | notebooks/text_processing.py:202-204 | the comment lengths add up to the number of tokens of all comments |
| CorpusStats.AverageLength | notebooks/text_processing.py:198-200 | the mean comment length, 0 without comments; its properties are in `CorpusStats.StatsSpec` |
| CorpusStats.UniqueWords | notebooks/text_processing.py:206-208 | the number of distinct tokens of the joined comments; its properties are in `CorpusStats.StatsSpec` |
| CorpusStats.Stats | notebooks/text_processing.py:195-208 | one post's average length, token total and distinct-word count; its properties are `CorpusStats.StatsSpec` |
| CorpusStats.StatsSpec | notebooks/text_processing.py:195-208 | total tokens is the number of tokens; unique words is the number of distinct tokens and never exceeds the total; the average is 0 without comments and total/#comments otherwise |
| CorpusStats.PostStatistics | notebooks/text_processing.py:195-210 | one statistics record per post of the column, in order |
| CorpusExamples.WordCountsExample | notebooks/text_processing.py:133-141 | `["a a b", "b c"]` with `top_n = 2` gives `[("a", 2), ("b", 2)]` |
| CorpusExamples.BigramCountsExample | notebooks/text_processing.py:155-168 | `["the cat sat"]` gives `[("the cat", 1), ("cat sat", 1)]` |
| CorpusExamples.EmptyPostExample | notebooks/text_processing.py:198-208 | a post without comments has average 0, 0 tokens and 0 unique words |
| Sentiment.LabelOf | reddit_utils.py:141-146 | Positive iff score >= 0.05, Negative iff score <= -0.05, Neutral iff strictly between |
| Sentiment.LabelMonotone | reddit_utils.py:141-146 | a higher score never gets a lower label |
| Sentiment.LabelExamples | reddit_utils.py:141-146 | 0.05 is Positive, -0.05 is Negative, 0.0 is Neutral |
| Sentiment.LabelNameInjective | reddit_utils.py:142-146 | the three label texts are distinct |
| Sentiment.AnalyzeSentiment | reddit_utils.py:136-148 | the returned score is the analyser's compound score unchanged, labelled by the threshold rule |
| Sentiment.AnalysisByScore | reddit_utils.py:139-148 | the analysis depends only on the score |
| Credentials.FirstMissing | reddit_utils.py:75-77 | no key is reported iff every required key is present and non-empty; a reported key is missing or empty, and every key before it is present and non-empty |
| Credentials.SecretsCreds | reddit_utils.py:73-81 | a complete `praw` secrets entry gives its credentials, anything else gives none; its properties are `Credentials.SecretsFirst` and `Credentials.IncompleteSecretsFallThrough` |
| Credentials.Lookup | reddit_utils.py:103 | the table of the first section with the given name, empty when there is none |
| Credentials.SectionTable | reddit_utils.py:103 | a section's keys are its own and DEFAULT's; its own value wins, DEFAULT's is used for a key it lacks |
| Credentials.SectionChoice | reddit_utils.py:96-100 | `default` when present, else the first section, else none; its properties are `Credentials.SectionChoiceSpec` |
| Credentials.IniOutcome | reddit_utils.py:93-111 | what one existing `praw.ini` decides: parse error, no sections, missing key, or a client; its properties are `Credentials.IniOutcomeDefined`, `Credentials.IniMissingKeyFirst` and `Credentials.IniCompleteSection` |
| Credentials.SearchIni | reddit_utils.py:91-111 | the outcome of the first directory holding a `praw.ini`; its properties are `Credentials.SearchCandidates` and `Credentials.FirstIniDecides` |
| Credentials.EnvCreds | reddit_utils.py:114-118 | the three environment variables when all are non-empty; its properties are `Credentials.EnvironmentLast` |
| Credentials.Resolve | reddit_utils.py:53-130 | secrets, then the ini search, then the environment, then "no credentials"; its properties are the precedence lemmas below and `Credentials.ConnectReddit` |
| Credentials.CheckKeys | reddit_utils.py:104-108 | the key-by-key loop finds the first missing or empty key |
| Credentials.ConnectReddit | reddit_utils.py:53-130 | trying secrets, then each directory in turn, then the environment, with early returns, gives the precedence function's outcome |
| Credentials.SecretsFirst | reddit_utils.py:70-78 | a complete secrets entry wins whatever the ini files and environment hold |
| Credentials.IncompleteSecretsFallThrough | reddit_utils.py:73-81 | a secrets entry with a missing or empty key is not an error: the outcome equals that without secrets |
| Credentials.SearchCandidates | reddit_utils.py:86-93 | the ini search looks at the working directory, the module's directory and its parent, in that order |
| Credentials.FirstIniDecides | reddit_utils.py:91-111 | without secrets credentials, the first directory holding a `praw.ini` decides the outcome |
| Credentials.IniOutcomeDefined | reddit_utils.py:93-102 | an existing ini always decides: an unparsable one is a parse error, one without sections a no-sections error |
| Credentials.IniErrorIsFatal | reddit_utils.py:101-108 | when the deciding ini is broken, connecting fails whatever the environment holds |
| Credentials.SectionChoiceSpec | reddit_utils.py:96-100 | the `default` section is used iff there is one; otherwise the first section is used; no section is chosen iff the file has none; a chosen section exists |
| Credentials.IniMissingKeyFirst | reddit_utils.py:103-108 | in the chosen section, DEFAULT keys included, the first required key that is missing or empty is the one the error names |
| Credentials.IniCompleteSection | reddit_utils.py:103-111 | a chosen section holding all three keys, directly or through DEFAULT, gives a client built from those values |
| Credentials.EnvironmentLast | reddit_utils.py:113-130 | with no secrets and no ini, success iff the three variables are non-empty, using their values; failure is "no credentials" |
| Credentials.SuccessNonEmpty | reddit_utils.py:75-118 | every successful outcome has three non-empty values |
| Fetch.FetchRedditPosts | reddit_utils.py:154-176 | a connection error propagates; otherwise one row per search result, in result order, each built from its result; a search that honours the limit gives at most `limit` rows |
| Fetch.RowOf | reddit_utils.py:163-175 | builds one post row from a search result; its properties are `Fetch.RowOfSpec` |
| Fetch.Query | reddit_utils.py:159 | the district, a space and the terms joined by " OR " in parentheses; its properties are `Fetch.QueryLayout`, `Fetch.EmptyTermsQuery` and `Fetch.QueryExample` |
| Fetch.RowOfSpec | reddit_utils.py:163-175 | a row has source "reddit", the given district and query, the result's title, score, url and comment count, and the score and label of its own title |
| Fetch.JoinPlacesParts | reddit_utils.py:159 | in a joined text each part sits at its offset, followed by the separator when another part follows; the last part ends the text |
| Fetch.QueryLayout | reddit_utils.py:159 | the query is the district, " (", the terms in the given order separated by " OR ", and ")"; its length is that of the district plus 3 plus that of the joined terms, and the last term is followed only by ")" |
| Fetch.EmptyTermsQuery | reddit_utils.py:159 | with no terms the query is the district followed by " ()" |
| Fetch.QueryExample | reddit_utils.py:159 | "Palo Alto" with `["schools", "homework"]` gives `"Palo Alto (schools OR homework)"` |
| Dashboard.CheckedSpec | streamlit_app.py:121 | the selected names are a subsequence of the names; a name is selected iff its flag is set |
| Dashboard.SelectTerms | streamlit_app.py:112-121 | the terms whose boxes are ticked; its properties are `Dashboard.SelectTermsSpec` |
| Dashboard.BuilderQuery | streamlit_app.py:123-127 | the fetch query when a term is selected, else the district name; its properties are `Dashboard.BuilderQueryVsFetch` |
| Dashboard.ColorSentiment | streamlit_app.py:223-230 | the cell style of a label; its properties are `Dashboard.ColorSentimentSpec` |
| Dashboard.SelectTermsSpec | streamlit_app.py:112-121 | the selected terms are exactly the ticked ones, in the fixed order schools, district, education, homework, teachers, students |
| Dashboard.BuilderQueryVsFetch | streamlit_app.py:123-127 | the preview equals the fetch query iff a term is selected; with none it is the bare district while the fetch would use "district ()" |
| Dashboard.ColorSentimentSpec | streamlit_app.py:223-230 | Positive maps to lightgreen, Negative to salmon, any other value to lightgray |
| Dashboard.TagDistrict | streamlit_app.py:211-212 | tagging keeps every row and only sets its district |
| Dashboard.SummaryTable | streamlit_app.py:267-275 | the loop appends one summary row per (posts, district) pair, in order |
| Dashboard.SummaryOf | streamlit_app.py:269-275 | one summary row: name, row count, mean score, % Positive and % Negative; its properties are `Dashboard.SummarySpec` and `Dashboard.SummaryUntagged` |
| Dashboard.CountLabel | streamlit_app.py:273-274 | the number of rows with a given label; its properties are `Dashboard.LabelsPartition` |
| Dashboard.GroupCount | streamlit_app.py:240 | one cell of the grouped counts: the rows of a district with a given label; its properties are `Dashboard.GroupedCounts` |
| Dashboard.SummarySpec | streamlit_app.py:268-275 | `# Posts` is the row count; for a non-empty district the mean lies in [-1, 1], each percentage in [0, 100], and the two add up to at most 100; for an empty one all three are undefined |
| Dashboard.SummaryUntagged | streamlit_app.py:211-213 | tagging changes neither the summary row nor the score sum |
| Dashboard.InsightOf | streamlit_app.py:284-289 | district 1 is more positive iff avg1 > avg2, district 2 iff avg2 > avg1, similar iff equal |
| Dashboard.InsightSymmetric | streamlit_app.py:284-289 | swapping the districts swaps the remark |
| Dashboard.RunComparison | streamlit_app.py:204-289 | a fetch error is reported; an empty district gives the warning and no averages; otherwise the combined table is district 1's tagged rows then district 2's, and the means, the summary of both, and the insight come from the fetched rows |
| Dashboard.LabelsPartition | streamlit_app.py:273-274 | for rows labelled by the rule, the Positive, Negative and Neutral counts add up to the row count |
| Dashboard.GroupedCounts | streamlit_app.py:240 | a district's label counts in the combined table add up to its post count; when both districts have the same name the counts merge |
| Dashboard.FetchedRowsLabelled | reddit_utils.py:163-175 | fetched rows carry one of the three label texts |
| PicklePath.SaveAlwaysFails | notebooks/text_processing.py:218-223 | as written, saving fails with NameError on `Path` for every argument |
| PicklePath.SavePickleFileAsWritten | notebooks/text_processing.py:218-223 | the function as written, failing with NameError on `Path`; its property is `PicklePath.SaveAlwaysFails` |
| PicklePath.TargetFolder | notebooks/text_processing.py:220-223 | the given folder, or the working directory when none is given |
| PicklePath.PicklePath | notebooks/text_processing.py:226-234 | the folder, `/`, the renamed file name, `_`, the timestamp and `_reddit.pkl` |
| PicklePath.SavePickleFile | notebooks/text_processing.py:218-239 | corrected: returns the path of the saved file; its properties are `PicklePath.SavePickleFileSpec` |
| PicklePath.SavePickleFileSpec | notebooks/text_processing.py:219-234 | corrected: the file lies in the given folder (the working directory when none is given), named by the file name with spaces turned into underscores, then `_`, the timestamp and `_reddit.pkl` |
| PicklePath.Underscored | notebooks/text_processing.py:226 | the rename keeps the length, turns each space into an underscore and leaves every other character alone |

## Left out

- Unicode: Python's `lower()`, `\w` and the URL pattern's case handling are
  Unicode-aware. The model lower-cases and matches word characters in ASCII
  only. Whitespace does follow `str.isspace()`.
- The NLTK stopword list and its download are a `set<string>` parameter.
- VADER itself is an opaque function; only its range [-1, 1] is assumed.
- PRAW and the network are left out: building the client, the `education`
  subreddit search, and errors raised by either. The search is a parameter. An
  exception from building the client inside the secrets branch, which the
  source also swallows, is not modelled.
- configparser details are taken as already resolved: value interpolation,
  lower-casing of option names, duplicate-section errors, and files that exist
  but cannot be read. An unreadable file reads as a file without sections.
- Secrets values that are not strings are left out.
- Floating point is replaced by exact reals:
  - `np.mean`, `round(…, 1)`, `round(…, 2)` and `astype(float)`;
  - a NaN mean is represented as `None`.
- pandas structure is modelled as sequences of records or of values: column
  selection, `copy()` and `DataFrame` construction. Value semantics stand for
  the source's copies.
- All Streamlit rendering and widgets are left out: metrics, tables, styling,
  bar charts, word clouds, spinners, the demo data and the placeholder
  classifier.
- Module loading through `importlib`, and the page's "reddit_utils.py not
  found" branch, are left out.
- The Query Builder's "Run Query" action, which fetches with the selected
  terms, is covered only through `Fetch.FetchRedditPosts`.
- `save_pickle_file`'s side effects are left out: creating the folder, writing
  the pickle, the `print`, reading the clock, and `Path` normalisation of
  folder names.
- `streamlit_app.py` does not parse as a whole: an unterminated string follows
  the About page. Only the fragments listed in the table are modelled.
- Dashboard.RunComparison: the two fetch outcomes are inputs, so the model
  does not capture that the second fetch is never made when the first raises.

## Findings

| source | as written | input that shows it | evidently intended | confidence | as-written member | corrected member |
|---|---|---|---|---|---|---|
| notebooks/text_processing.py:220-223 | `save_pickle_file` uses `Path`, and at line 232 `datetime`; the module imports neither (lines 9-18) | any call, e.g. `save_pickle_file(df, "my data", "")` raises NameError at line 221 | import both and save to `<folder>/<name with underscores>_<timestamp>_reddit.pkl`, returning that path | high, not executed | PicklePath.SaveAlwaysFails | PicklePath.SavePickleFileSpec |
