# Macroeconomic topic sentiment pipeline — a Dafny model

This project models the batch job in `main.py`. The job reads short social-media posts and gives each one a macroeconomic topic by keyword matching. It then scores each post with a sentiment model and outputs the mean sentiment for each (topic, day) pair.

The model has six modules, one per part of the job:

- `Wrappers` (`wrappers.dfy`): `Option`, `Result` and `Outcome`.
- `Text` (`text.dfy`): table cells and Python's `str()` of a cell, where an empty CSV cell is NaN and prints as `"nan"`. It also has ASCII lower-casing, Python's substring test `kw in text`, and Python's code-point ordering of strings.
- `Topics` (`topics.dfy`): the ordered taxonomy `macro_topics` and `classify_topic`. The taxonomy is a sequence of (topic, keywords) pairs, because definition order decides ties. Classification is a recursive first-match search that returns `"other"` when nothing matches.
- `Sentiment` (`sentiment.dfy`): `get_sentiment_score`. The sentiment model is a function parameter from text to label. The label maps to 1.0, -1.0 or 0.0.
- `Aggregate` (`aggregate.dfy`): the date filter and the group-by mean. The group-by is specified by `IsGroupMean`: keys strictly ascending in (topic, date) order, a key present exactly when its group has a row, and each mean equal to the group's sum divided by its size. The method `GroupMean` computes it in one pass. It keeps, per key seen so far, a sum and a count in ascending key order.
- `Pipeline` (`pipeline.dfy`): `main`. `CheckColumns` is the loop over the required columns. The class `Frame` is the data frame that `main` changes in place: it adds the `topic`, `sentiment_score` and `date` columns and drops the rows without a date. `RunPipeline` runs the steps in the source's order.

Scores and means are Dafny `real`s, which are exact. The inputs to a mean are only -1, 0 and 1.

Where the specification of this system and `main.py` disagree, the model follows the code:

- The specification asks for per-record error isolation in the scorer, with null scores. `get_sentiment_score` catches nothing, so a failing model call aborts the whole run. The model therefore has no null-score path, and the group-by never sees a group whose scores are all null.
- The specification's worked example classifies "fed raises rates" as `interest_rates`. With the code's keyword lists that text contains no keyword: "fed rates" needs the two words to be adjacent. By `Topics.ClassifyOther` such a post is classified `"other"`; no member states this one text's topic. `GroupMeanExample` takes the three rows' topics as given (`"other"`, `"other"`, `"unemployment"`) and states the resulting summary: the two dated rows are both `"other"` on 2024-01-05, so the only row is ("other", 2024-01-05, 0.5).

## Model

| member | source | states |
|---|---|---|
| `Text.ContainsIff` | main.py:41 | The substring search `keyword in text_lower` succeeds exactly when the keyword occurs at some position of the text. |
| `Text.Lower` | main.py:38 | Lower-casing keeps the length of the text. |
| `Text.LowerAt` | main.py:38 | Lower-casing maps each character on its own: character i of the result is character i of the text, lower-cased. |
| `Text.LowerIdempotent` | main.py:38 | Lower-casing twice is the same as lower-casing once. |
| `Text.StrLessIrreflexive` | main.py:92-96 | No topic sorts before itself in Python's code-point order of strings. |
| `Text.StrLessTransitive` | main.py:92-96 | Python's code-point order of strings is transitive. |
| `Text.StrLessTotal` | main.py:92-96 | Of two different strings, one sorts before the other in Python's code-point order. |
| `Topics.AnyKeyword` | main.py:41 | `any(keyword in text ...)` is true exactly when some keyword of the list occurs in the text. |
| `Topics.FirstMatch` | main.py:39-43 | The loop over the taxonomy returns either a topic name of the taxonomy or `"other"`. |
| `Topics.ClassifyTopic` | main.py:33-43 | `classify_topic` is total and always returns one of the five taxonomy keys or `"other"`. |
| `Topics.ClassifyText` | main.py:33-43 | Classifying a post's text, lower-cased, always returns one of the five taxonomy keys or `"other"`. |
| `Topics.FirstMatchIsFirst` | main.py:39-42 | If topic i has a matching keyword and no earlier topic has one, topic i is returned. |
| `Topics.FirstMatchNone` | main.py:43 | If no topic has a matching keyword, `"other"` is returned. |
| `Topics.FirstMatchFound` | main.py:39-42 | A result other than `"other"` names a topic with a matching keyword, and no earlier topic has one. |
| `Topics.FirstMatchIff` | main.py:39-42 | With distinct topic names, topic i is returned if and only if it matches and no earlier topic matches. |
| `Topics.FirstMatchOtherIff` | main.py:39-43 | With no topic named "other", `"other"` is returned if and only if no topic matches. |
| `Topics.MacroTopicsWellFormed` | main.py:6-31 | The five topic names of `macro_topics` are distinct and none is "other". |
| `Topics.ClassifyFirstMatch` | main.py:6-42 | `classify_topic` returns topic i of `macro_topics` if and only if the lower-cased text has a keyword of topic i and none of an earlier topic. |
| `Topics.ClassifyOther` | main.py:39-43 | `classify_topic` returns `"other"` if and only if the lower-cased text contains no keyword of any topic. |
| `Topics.ClassifyIgnoresCase` | main.py:38 | Classifying the lower-cased text gives the same topic as classifying the text. |
| `Sentiment.LabelScore` | main.py:51-58 | Every score is 1.0, 0.0 or -1.0. A score is positive exactly for "positive" and negative exactly for "negative". |
| `Sentiment.SentimentScore` | main.py:45-58 | The score of a text is 1.0, -1.0 or 0.0 exactly when the model's label for `str(text)` is "positive", "negative" or anything else. |
| `Aggregate.KeyLessIrreflexive` | main.py:92-96 | No (topic, date) key sorts before itself in the group-by's order: topic first, then date. |
| `Aggregate.KeyLessTransitive` | main.py:92-96 | The group-by's key order is transitive. |
| `Aggregate.KeyLessTotal` | main.py:92-96 | Of two different keys, one sorts before the other, so the group-by's order is total. |
| `Aggregate.KeepDated` | main.py:89 | Filtering a column leaves one entry per row whose date parsed. |
| `Aggregate.KeptIndices` | main.py:89 | The positions of the dated rows are strictly increasing and in range. They include every dated row and only dated rows. |
| `Aggregate.KeepDatedPicks` | main.py:89 | After the filter, entry j of every column is the original entry at the j-th dated position. So exactly the dated rows survive, in order and unchanged. |
| `Aggregate.KeepDatedAllDated` | main.py:89 | Every row left by the filter has a date. |
| `Aggregate.CountPositiveIff` | main.py:92-96 | A (topic, date) group is non-empty exactly when some row carries that topic and a parsed date equal to that date. |
| `Aggregate.SumWithinCount` | main.py:92-96 | When every score is in [-1, 1], a group's sum lies between minus its size and its size. |
| `Aggregate.MeansInRange` | main.py:92-96 | Every mean in the summary lies in [-1, 1] when every score does. |
| `Aggregate.SummaryKeysFromRows` | main.py:92-96 | Every summary key comes from some dated row, and every dated row's key appears in the summary. |
| `Aggregate.GroupsIgnoreUndated` | main.py:88-96 | Dropping the undated rows leaves every group's size and sum unchanged. |
| `Aggregate.GroupMeanIgnoresUndated` | main.py:88-96 | The group-by mean of the filtered columns is the group-by mean of the unfiltered ones. |
| `Aggregate.SortedUnique` | main.py:92-96 | Two strictly ascending key lists with the same members are equal. |
| `Aggregate.GroupMeanUnique` | main.py:92-96 | Two summaries that are both the group-by mean of the same columns are equal. |
| `Aggregate.GroupsIgnoreOrder` | main.py:92-96 | Putting the rows in any other order leaves every group's size and sum unchanged. |
| `Aggregate.GroupMeanIgnoresOrder` | main.py:92-96 | A summary is the group-by mean of the rows exactly when it is the group-by mean of the same rows in any other order. |
| `Aggregate.SummaryIgnoresOrder` | main.py:92-96 | The group-by mean of the rows in one order equals the group-by mean of the same rows in any other order. |
| `Aggregate.GroupMeanExample` | main.py:88-96 | Two "other" rows on 2024-01-05 scored 1.0 and 0.0, plus an undated row, give the single summary row ("other", 2024-01-05, 0.5). |
| `Aggregate.GroupMean` | main.py:92-96 | The summary has one row per non-empty (topic, date) group, in ascending key order, and each row's mean is the group's sum over its size. |
| `Pipeline.CheckColumns` | main.py:66-69 | The check passes exactly when `fullText` and `createdAt` are both present. Otherwise it fails with the message naming the first missing one, in that order. |
| `Pipeline.Frame.constructor` | main.py:63 | The frame holds the loaded column names and the two columns the run reads, and none of the added ones. |
| `Pipeline.Frame.WithColumn` | main.py:72 | Assigning `df[name]` adds the name to the column list and keeps every existing column. |
| `Pipeline.Frame.AddTopicColumn` | main.py:72 | The `topic` column holds `classify_topic` of each row's text, and nothing else changes. |
| `Pipeline.Frame.AddSentimentColumn` | main.py:83-85 | The `sentiment_score` column holds each row's score, and nothing else changes. |
| `Pipeline.Frame.AddDateColumn` | main.py:88 | The `date` column holds each row's parsed `createdAt`, and nothing else changes. |
| `Pipeline.Frame.DropUndated` | main.py:89 | Every column keeps exactly the rows whose date parsed, in their order, and afterwards every date is present. |
| `Pipeline.RunPipeline` | main.py:60-96 | The loaded frame's columns are checked first, and a missing required column aborts the run with its error. Otherwise the result is the group-by mean of the classified, scored and dated rows. Each mean is in [-1, 1], each topic is a taxonomy key or `"other"`, and each (topic, date) comes from an input row whose timestamp parsed. |

## Left out

- Reading the CSV file (main.py:62-63) and writing the summary (main.py:99-100) are file I/O. The loaded table is an input of `RunPipeline`, and the summary is its result. The console messages (main.py:102-103) are not modelled.
- The FinBERT pipeline, its construction and the device choice (main.py:76-80) are a foreign model. The call on main.py:50 is a function parameter from text to label. A failure of that call, which aborts the run in the source, is not modelled.
- The timestamp parser `pd.to_datetime(..., errors='coerce').dt.date` (main.py:88) is a library call. It is a function parameter from a cell to an optional date, and the model does not check calendar validity of dates.
- `Text.Lower`: lower-cases ASCII letters only. Python's `str.lower()` also folds non-ASCII letters. All keywords are ASCII lower-case, but a non-ASCII upper-case letter in a post is left unchanged here.
- `Text.AsString`: a cell is either a string or NaN. Cells of other types (numbers read by the CSV reader) are not modelled.
- `Pipeline.Frame.constructor`: the frame keeps only the two columns the run reads and the three it adds. The loaded file's other columns are dropped along with the undated rows, do not reach the summary, and are not modelled.
- The means are exact reals. The source's floating-point means can differ from them in the last bits.
