# nlp_report_maker: the analysis chain, in Dafny

nlp_report_maker collects complaint posts about a brand from sikayetvar and
analyses them. It then writes a report about them. This project models the
deterministic chain of data transformations between the scraper's JSON output
and the PDF paragraphs. It also proves what each step promises. The external
calls become function parameters: the sentiment classifier, the Gemini
language model and the prompt templates. So does the clock.

- **Loading** (`DataLoader`, services/data_loader.py):
  - scraped items become comment records with sequential ids, the platform tag
    `sikayetvar` and a date;
  - dates written like `16 Ocak 10:23` are normalised to `YYYY-MM-DD` through
    the Turkish month table;
  - the `brand` is taken from the first item's `company`;
  - the loop is a `method` with loop invariants.
- **Sentiment** (`SentimentModel`, models/sentiment_model.py):
  - the classifier sees the first 512 characters of the text, and an
    exception it raises escapes `analyze`, `process_comment` and `run`;
  - its label is lower-cased and mapped to a polarity of -1, 0 or 1;
  - the score is the polarity times the confidence;
  - both numbers are rounded to three places.
- **Enrichment** (`SentimentPipeline`, pipelines/sentiment_pipeline.py):
  - each comment gets its sentiment and a topic word;
  - the topic is the model's answer, stripped, lower-cased, without quotes and
    cut at the first line break;
  - the loop over the comments is a `method` that stops at the first comment
    that raises.
- **Aggregation** (`AggregationPipeline` and `Counter`,
  pipelines/aggregation_pipeline.py):
  - the average score;
  - the share of comments scored below -0.2;
  - `Counter.most_common(5)` over the topics, with its tie order (first
    appearance first);
  - the comment count.
- **Report** (`ReportPipeline`, pipelines/report_pipeline.py):
  - the clamped brand health score;
  - the `topic (count), ...` string handed to the report prompt;
  - the output dictionary.
- **PDF text** (`PdfReport`, app.py):
  - the line loop of `create_pdf` turns the markdown report into heading and
    body paragraphs (`Cell`s).

Two modules hold the Python behaviour the others use:
- `PyValues`: JSON values, exceptions as a `Result`, `dict.get`, a run that
  stops at the first exception, the list a loop with a filter builds, and
  `round(x, 3)`;
- `PyText`: `strip`, `split`, `lower`, `replace`, `lstrip`, `zfill`, `str(n)`
  and `join`.

Where the code and its own comments or tests disagree, the model follows the
code:
- tests/test_full_flow.py:58 expects an `executive_summary` key that
  `ReportPipeline.run` never produces (`ReportPipeline.RunKeys`);
- the `LABEL_0`/`LABEL_1`/`LABEL_2` entries of the label map can never match,
  because the lookup happens after lower-casing
  (`SentimentModel.UpperCaseKeysUnreachable`).

## Model

| member | source | states |
|---|---|---|
| PyValues.MapRaisingOk | pipelines/sentiment_pipeline.py:30-36 | a loop of raising steps finishes only when every element's step succeeds |
| PyValues.MapRaisingValues | pipelines/sentiment_pipeline.py:30-36 | when the loop finishes, it returns one result per input, in order, with element i the step's value on input i |
| PyValues.MapRaisingFirstError | pipelines/sentiment_pipeline.py:30-36 | when the loop fails, it fails with the exception of the first element whose step raises, and every earlier element succeeds |
| PyValues.MapRaisingStopsAtError | pipelines/sentiment_pipeline.py:33-35 | once a prefix has raised, the elements after it change nothing |
| PyValues.FilterMapAppend | app.py:52-65 | the kept outputs of two line lists, in turn, are the kept outputs of both lists joined (order is kept) |
| PyValues.FilterMapCount | app.py:52-65 | at most one output per line, and exactly one per line when every line produces one |
| PyValues.FilterMapKeeps | app.py:52-65 | a property every produced output has holds of every output kept |
| PyValues.Round3Close | pipelines/report_pipeline.py:50-51 | `round(x, 3)` is within 0.0005 of x, and rounding a rounded value changes nothing |
| PyValues.Round3Negate | models/sentiment_model.py:43-44 | rounding commutes with negation (halves go to the even neighbour) |
| PyValues.Round3WithinUnit | models/sentiment_model.py:43 | a value in [-1, 1] stays in [-1, 1] when rounded |
| PyValues.Round3UnitInterval | models/sentiment_model.py:44 | a value in [0, 1] stays in [0, 1] when rounded |
| PyText.Strip | app.py:53 | `strip()` returns a contiguous piece of its input with no whitespace at either end |
| PyText.StripIdempotent | app.py:56 | stripping a stripped string changes nothing |
| PyText.Words | services/data_loader.py:34 | `split()` with no separator gives non-empty words without whitespace |
| PyText.WordsOfWord | services/data_loader.py:34 | a single word splits into exactly itself |
| PyText.WordsAtSpace | services/data_loader.py:34 | a whitespace character is a word boundary: the words of `a + blank + b` are the words of `a` followed by the words of `b` |
| PyText.WordsSkipSpaces | services/data_loader.py:34 | leading whitespace does not change the words |
| PyText.WordsStrip | services/data_loader.py:34 | `s.strip().split()` gives the same words as `s.split()` |
| PyText.WordsKeepText | services/data_loader.py:34 | the words, put together, are exactly the input's non-whitespace characters in order |
| PyText.Lower | models/sentiment_model.py:32 | `lower()` keeps the length, maps each ASCII capital to its small letter, leaves every other character alone, and leaves no ASCII capital |
| PyText.RemoveChar | pipelines/sentiment_pipeline.py:19 | `replace(c, '')` keeps every character other than c exactly as often as it occurs, and no c |
| PyText.RemoveCharAppend | pipelines/sentiment_pipeline.py:19 | removal works piece by piece: removing from `a + b` is removing from `a`, then from `b`, so the kept characters stay in order |
| PyText.RemoveAllAbsent | app.py:63 | `replace(pat, '')` leaves a string without pat unchanged |
| PyText.RemovePairLeavesNone | app.py:63 | after `replace('__', '')` no `__` is left |
| PyText.LStripChar | app.py:56 | `lstrip('#')` removes exactly the leading run of `#`, so what is left does not start with `#` |
| PyText.ZFill | services/data_loader.py:41 | `zfill(2)` pads to length 2 at least, leaving longer strings unchanged |
| PyText.ZFillOneChar | services/data_loader.py:41 | `zfill(2)` of one character puts '0' in front, or after a leading sign |
| PyText.NatToString | pipelines/report_pipeline.py:12 | `str(n)` is a non-empty digit string without a leading zero (unless n is 0) |
| PyText.NatToStringRoundTrip | pipelines/report_pipeline.py:12 | reading back the decimal digits of `str(n)` gives n |
| PyText.IntToStringRoundTrip | services/data_loader.py:49 | `str(year)` reads back to the year: its digits for a non-negative year, '-' and the digits of its absolute value otherwise |
| PyText.SplitOn | app.py:51 | `split(sep)` gives one more piece than there are separators, none holding the separator |
| PyText.SplitHeadIsPrefix | pipelines/sentiment_pipeline.py:19 | `split(sep)[0]` is a prefix holding no separator, followed by a separator unless it is the whole string |
| PyText.JoinSplit | app.py:51 | joining the pieces of a split with its separator gives back the string |
| PyText.SplitJoin | pipelines/report_pipeline.py:12 | splitting a join of separator-free pieces gives back the pieces |
| PyText.SplitJoinThree | services/data_loader.py:49 | splitting the join of three separator-free fields gives back the fields |
| DataLoader.MonthTableValues | services/data_loader.py:7-20 | the month table's values are exactly "01" to "12" |
| DataLoader.MonthTableInjective | services/data_loader.py:7-20 | no two month names share a number |
| DataLoader.MonthCode | services/data_loader.py:44 | the month number is the table's entry for a known name and "01" for any other word, so it is always one of "01" to "12" |
| DataLoader.LowerCaseMonthIsJanuary | services/data_loader.py:44 | a month name in the wrong case such as "şubat" gives "01" |
| DataLoader.MissingDateIsToday | services/data_loader.py:27-28 | no date, an empty date or a date that is not a string gives today's date unchanged |
| DataLoader.FewWordsIsToday | services/data_loader.py:34-39 | fewer than two words gives today's date |
| DataLoader.ParseFromWords | services/data_loader.py:31-49 | with two words or more, the date is built from the first two words and the given or current year |
| DataLoader.DateShape | services/data_loader.py:41-49 | the result is year, month number and the zero-padded day joined by '-'; a day of two characters or more is unchanged |
| DataLoader.DayMonthDate | services/data_loader.py:34-49 | a day word, a blank, a month word, a blank and anything else (the site's `16 Ocak 10:23`) give year, month number of the month word and padded day word |
| DataLoader.LaterWordsIgnored | services/data_loader.py:34-49 | words after the second, such as a time or an explicit year, never change the result |
| DataLoader.DateFieldsReadBack | services/data_loader.py:49 | for a non-negative year and a day word without '-', splitting the result at '-' gives back year, month number and day |
| DataLoader.ListAndWrappedAgree | services/data_loader.py:72 | a bare list and a dictionary holding it under `items` are read alike |
| DataLoader.LoadScrapedData | services/data_loader.py:54-95 | no data gives None; a non-iterable or wrongly shaped input raises; otherwise there is one record per item, in order, record i having id i + 1, platform `sikayetvar`, the item's text ("" when missing) and its parsed date, and a `brand` exactly when the first item has a `company`, equal to it |
| SentimentModel.Truncate | models/sentiment_model.py:31 | `text[:512]` is a prefix of the text of length min(len, 512) |
| SentimentModel.TruncateKeepsPrefix | models/sentiment_model.py:31 | short texts pass unchanged, and long ones are cut to their first 512 characters |
| SentimentModel.Polarity | models/sentiment_model.py:38 | the label map gives -1, 0 or 1 |
| SentimentModel.AnalyzeUsesPrefix | models/sentiment_model.py:29-45 | texts with the same first 512 characters get the same analysis; it raises exactly when the classifier does, with the classifier's exception; otherwise the label is the classifier's, lower-cased, and the confidence is its score rounded |
| SentimentModel.UpperCaseKeysUnreachable | models/sentiment_model.py:20-27 | no lower-cased label equals `LABEL_0`, `LABEL_1` or `LABEL_2`, so those labels give polarity 0 |
| SentimentModel.PolarityCases | models/sentiment_model.py:32-38 | polarity is -1 exactly for "negative", 1 exactly for "positive", and 0 for everything else |
| SentimentModel.ScoreFollowsLabel | models/sentiment_model.py:40-44 | when the classifier answers, the score is 0 for a label of polarity 0 and plus or minus the confidence otherwise; for a positive confidence its sign is the label's |
| SentimentModel.ScoreInRange | models/sentiment_model.py:40-44 | when the classifier answers, a score in [0, 1] gives a sentiment score in [-1, 1] and a confidence in [0, 1] |
| SentimentPipeline.CleanTopicIsFirstLine | pipelines/sentiment_pipeline.py:16-19 | the topic is a prefix of the stripped, lower-cased, unquoted answer that holds no line break and is followed by one unless it is the whole answer: the text up to the first line break |
| SentimentPipeline.CleanTopicChars | pipelines/sentiment_pipeline.py:16-19 | every topic character comes from the lower-cased answer and is not a quote |
| SentimentPipeline.CleanTopicHasNoQuotes | pipelines/sentiment_pipeline.py:19 | the topic holds no '"', no "'" and no line break |
| SentimentPipeline.EmptyAnswerEmptyTopic | pipelines/sentiment_pipeline.py:16-19 | the "" a failed model call returns gives the empty topic, not an exception |
| SentimentPipeline.CleanTopicIsLowerCase | pipelines/sentiment_pipeline.py:16 | the topic holds no ASCII capital letter |
| SentimentPipeline.ProcessCommentCases | pipelines/sentiment_pipeline.py:10-28 | a missing text raises `KeyError`, then a non-string text `TypeError`, then the classifier's own exception, then a missing id `KeyError`; a record is made exactly when none of these happens, copies id and text, has `platform` and `date` or `None`, and holds the text's analysis and the cleaned topic |
| SentimentPipeline.Run | pipelines/sentiment_pipeline.py:30-36 | the loop processes the comments in order and stops at the first exception, a classifier failure included (one record per input when none raises) |
| Counter.FirstIndex | pipelines/aggregation_pipeline.py:21 | the position where a value first appears |
| Counter.Distinct | pipelines/aggregation_pipeline.py:21 | the Counter's keys: each value of the list once |
| Counter.EntryOf | pipelines/aggregation_pipeline.py:21 | each Counter item names a position where its value first appears, and counts that value's occurrences |
| Counter.EntriesNoDup | pipelines/aggregation_pipeline.py:21 | the Counter items are all different |
| Counter.BestIndex | pipelines/aggregation_pipeline.py:21 | the chosen entry is outranked by no other entry |
| Counter.TopK | pipelines/aggregation_pipeline.py:21 | `most_common(k)` keeps min(k, number of keys) entries |
| Counter.TopKSorted | pipelines/aggregation_pipeline.py:21 | no chosen entry is outranked by one chosen after it |
| Counter.TopKNoDup | pipelines/aggregation_pipeline.py:21 | no entry is chosen twice |
| Counter.TopKComplete | pipelines/aggregation_pipeline.py:21 | an entry left out outranks none of the chosen ones |
| Counter.TopKAll | pipelines/aggregation_pipeline.py:21 | when k covers all entries, every entry is chosen |
| Counter.MostCommon | pipelines/aggregation_pipeline.py:21 | every listed value occurs in the list |
| Counter.MostCommonItems | pipelines/aggregation_pipeline.py:21 | each pair is a value with its exact count, and no value is listed twice |
| Counter.MostCommonOrder | pipelines/aggregation_pipeline.py:21 | counts never increase, and equal counts come in first-appearance order |
| Counter.MostCommonLeftOut | pipelines/aggregation_pipeline.py:21 | a value left out occurs less often than every listed one, or as often and first appears later |
| Counter.MostCommonCovers | pipelines/aggregation_pipeline.py:21 | with at most k distinct values, every value is listed |
| AggregationPipeline.CountNegativeIsIndexCount | pipelines/aggregation_pipeline.py:17 | the negative count is the number of positions holding a score strictly below -0.2 |
| AggregationPipeline.CountNegativeExtremes | pipelines/aggregation_pipeline.py:17 | the count is 0 exactly when no score is below -0.2, and the length exactly when all are |
| AggregationPipeline.AggregateEmpty | pipelines/aggregation_pipeline.py:4-30 | no comments give 0, 0, no topics and no `total_comments`; otherwise `total_comments` is the number of comments |
| AggregationPipeline.NegativeRatioCounts | pipelines/aggregation_pipeline.py:17-18 | ratio times count is the number of comments scored below -0.2 |
| AggregationPipeline.NegativeRatioRange | pipelines/aggregation_pipeline.py:17-18 | the ratio is in [0, 1]; it is 0 exactly when no score is below -0.2, and 1 exactly when all are |
| AggregationPipeline.AverageWithinBounds | pipelines/aggregation_pipeline.py:16 | the average lies between any bounds every score lies between |
| AggregationPipeline.CountIsOccurrences | pipelines/aggregation_pipeline.py:21 | a Counter count is the number of positions holding the value |
| AggregationPipeline.TopTopicsCounts | pipelines/aggregation_pipeline.py:21 | at most five topics, each a comment's topic with the number of comments carrying it |
| AggregationPipeline.TopTopicsOrder | pipelines/aggregation_pipeline.py:21 | distinct topics, counts non-increasing, ties in first-appearance order |
| AggregationPipeline.TopTopicsCovers | pipelines/aggregation_pipeline.py:21 | with at most five distinct topics, every comment's topic is listed |
| AggregationPipeline.TopTopicsLeftOut | pipelines/aggregation_pipeline.py:21 | a topic left out ranks below every listed topic |
| ReportPipeline.Trunc | pipelines/report_pipeline.py:39-40 | `int(x)` rounds toward zero |
| ReportPipeline.Clamp | pipelines/report_pipeline.py:40 | `max(0, min(100, n))` is in [0, 100] and is n when n is already there |
| ReportPipeline.BrandHealthRange | pipelines/report_pipeline.py:39-40 | the brand health is always an integer in [0, 100] |
| ReportPipeline.BrandHealthExamples | pipelines/report_pipeline.py:32-40 | the best statistics give 100 (raw 140 capped), the worst give 0 |
| ReportPipeline.BrandHealthMonotone | pipelines/report_pipeline.py:39-40 | a higher average or a lower negative ratio never lowers the score |
| ReportPipeline.TruncOrFloorAgree | pipelines/report_pipeline.py:39-40 | truncating or flooring the raw score gives the same result after the clamp |
| ReportPipeline.BoundedStatsNeedOnlyTheCap | pipelines/report_pipeline.py:39-40 | with the average in [-1, 1] and the ratio in [0, 1], the raw value is in [0, 140], so only the upper cap acts |
| ReportPipeline.HealthOfComments | pipelines/report_pipeline.py:39 | statistics of comments scored in [-1, 1] give a raw value in [0, 140] |
| ReportPipeline.TopTopicsStrShape | pipelines/report_pipeline.py:12 | no topics give "", one gives its entry, and each further topic adds ", " and its entry |
| ReportPipeline.TopTopicsStrSplits | pipelines/report_pipeline.py:12 | for comma-free topics, splitting the string at commas gives back the entries in order |
| ReportPipeline.RunKeys | pipelines/report_pipeline.py:46-53 | the output has exactly the keys `brand_health_score`, `report_markdown` and `sentiment_overview`, and no `executive_summary` |
| ReportPipeline.RunFields | pipelines/report_pipeline.py:42-54 | the score is the brand health; the report is the model's answer to the prompt built from the statistics; the overview holds both statistics, each within 0.0005 |
| ReportPipeline.ReportDependsOnSummary | pipelines/report_pipeline.py:10-25 | the output depends on the statistics only through the average, the ratio and the topic string |
| PdfReport.ReportCells | app.py:51-65 | the paragraphs are the kept cleanups of the report's lines, in line order |
| PdfReport.LinesToCells | app.py:52-65 | the loop appends each line's paragraph, when it has one, in order |
| PdfReport.CleanLineCases | app.py:53-65 | a line is a heading exactly when, stripped, it starts with `#`, and its text is then the rest after the `#` run, stripped; another line gives a paragraph exactly when something is left after removing `**` and then `__`, which holds no `__` |
| PdfReport.HeadingKeepsInnerHash | app.py:55-56 | `"# # x"` becomes the heading `"# x"`: only the leading run of `#` goes |
| PdfReport.BareHashEmptyHeading | app.py:55-59 | a bare `#` is still printed, as an empty heading |
| PdfReport.MarkerRemovalLeavesMarker | app.py:63 | `"*__*"` becomes `"**"`: body text can still hold `**` |
| PdfReport.NothingLeft | app.py:63-64 | a line of markers only, or of blanks only, prints nothing |
| PdfReport.CleanLineKeepsOut | app.py:53-63 | the cleanup never adds a character |
| PdfReport.ReportCellsOneLine | app.py:51-65 | no paragraph holds a line break |
| PdfReport.HeadingsAlwaysPrinted | app.py:55-59 | every heading line gives its own paragraph, even an empty one |

## Left out

- The scraper (`web scraping /main.py`) is not part of this model. Neither is
  full_pipeline.py: it runs the scraper as a subprocess (full_pipeline.py:41)
  and then calls main.py's `main` in the same process with an argument list
  (full_pipeline.py:80-88). That `main` takes no parameters (main.py:17), so
  the call raises `TypeError`, which full_pipeline.py:93-94 logs.
- main.py, the Streamlit UI, services/llm_service.py and
  services/gemini_client.py are not modelled: they are console, UI and network
  code.
  - `generate_content` is the parameter `generate`.
  - Its "" answer on failure is covered by `EmptyAnswerEmptyTopic`.
- The prompt templates of config/prompts.py are opaque parameters
  (`topicPrompt`, `reportPrompt`).
- The sentiment classifier and its loading are left out. `SentimentModel.__init__`
  and the transformers and YAML set-up are replaced by the parameter `classify`.
  It may answer or raise, for any text; every exception it raises (an input
  over the model's token limit, a model error) is the one `ClassifierError`,
  and which texts make it raise is not modelled.
- `datetime.now()` is the `Clock` parameter. The separate `now()` calls of
  `parse_turkish_date` are one clock here.
- Reading and decoding the scraped JSON file is left out. Its parsed contents
  are the input, and `None` stands for a missing file or invalid JSON.
- Logging, `print` and the stats lines of `create_pdf` (app.py:38-44) are
  left out. So are fonts, `multi_cell`, the temporary file and `pdf.output`:
  a paragraph is a `Cell`.
- Floats are exact reals. `PyValues.Round3` rounds the exact decimal value
  half to even, while Python rounds the nearest binary float. The average is
  an exact quotient.
- The empty aggregation's integer 0 is the real 0.
- `PyText.Lower`, `SentimentPipeline.CleanTopicIsLowerCase`: lower-cases, and
  excludes, ASCII capitals only. Python's `lower()` also maps the other Unicode
  capitals, so a topic such as "Şikayet" keeps its `Ş` in the model.
- A comment whose text is not a string is modelled as a `TypeError`. Python
  differs by type: the real classifier would treat a list as a batch, an empty
  list gives an empty answer whose `[0]` raises `IndexError`
  (models/sentiment_model.py:31), and a dictionary raises `KeyError` on
  `text[:512]` from Python 3.12 on, where slices can be dictionary keys.
- Comments that are not dictionaries are not modelled in `process_comment`.
- `Counter` is modelled on string topics only.
- The test suite's expectations are not modelled. The `executive_summary` key
  that tests/test_full_flow.py:58 expects does not exist in the code, and
  `ReportPipeline.RunKeys` proves it is absent.
