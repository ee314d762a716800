# News-Summarizer: a verified model of its local logic

News-Summarizer is a command-line tool that scrapes a news front page through
the Firecrawl service, lets a CrewAI agent fetch and summarise the articles
with Gemini, and prints or saves the resulting Markdown digest. Almost all of
its work happens in those remote services. This project models, in Dafny, the
deterministic decisions the program makes on its own:

- **Headline cleaning** (`FireCrawlClient`): the loop in `fetch_top_headlines`
  that keeps links starting with `http`, drops repeats keeping the first, and
  stops at the limit. It is an imperative method with loop invariants. It is
  proved equal to `Headlines`, a loop-free definition ("filter, de-duplicate,
  take"). The properties are then proved about `Headlines`. The loop tests the
  limit only after looking at an element. So with a limit of zero or less it
  still returns the first link when that link qualifies, one more than the
  docstring's "up to *limit*" allows, and the model keeps this. `fetch_article_body`'s fallback to `""` is modelled as well.
- **Quota-error translation** (`NewsAgent`): the `except` branch of
  `run_news_report`. It lower-cases the message and looks for `quota` or
  `rate limit`; on a match it raises one fixed error, and otherwise it
  re-raises the original exception. The module also builds the task
  description with the site URL and the limit filled in.
- **Settings** (`Config`): `Settings.__init__` as a function from the
  environment to settings or an error. The two API keys are checked in order.
  The model name and the default limit fall back to their defaults.
- **Command line** (`Cli`): the `--limit` fallback, which uses Python
  truthiness, and the choice between writing the report to a file and printing
  it. The output is returned as a list of effects. `Run` chains these steps
  as `main()` does.
- **Text** and **Wrappers**: the string operations the code relies on
  (`in`, `lower()`, `str(int)`, `int(str)`) and Option/Result. The
  `startswith("http")` test is `FireCrawlClient.IsQualified`, written with
  Dafny's sequence-prefix operator.

The scrape responses are an input to the model: a mapping from format name to
a list of links, or to page text. The crew run is an input too, an oracle from
the settings and the task text to "returned this output" or "raised this
exception".

## Model

| member | source | states |
|---|---|---|
| `FireCrawlClient.IsQualified` | src/tools/firecrawl_client.py:23 | `link.startswith("http")`: the link is at least four characters long and begins with `h`, `t`, `t`, `p` |
| `FireCrawlClient.Headlines` | src/tools/firecrawl_client.py:20-28 | the loop-free answer is always a prefix of the page's qualified links with repeats dropped, of at most `limit` links for a positive limit and at most one otherwise |
| `FireCrawlClient.LinksOf` | src/tools/firecrawl_client.py:19 | the `links` entry of the response, or the empty list when it has none |
| `FireCrawlClient.FetchTopHeadlines` | src/tools/firecrawl_client.py:11-28 | the loop with its `seen` set and early `break` returns exactly `Headlines` of the response's links: the qualified, de-duplicated links cut to `limit`, or, when `limit <= 0`, the first link if it starts with `http` and nothing otherwise |
| `FireCrawlClient.CleanUpToIsReference` | src/tools/firecrawl_client.py:21-25 | the list gathered one link at a time over a prefix equals that prefix filtered by `http`, then de-duplicated |
| `FireCrawlClient.StopsAtLimit` | src/tools/firecrawl_client.py:26-27 | when the `break` fires, the gathered list is the loop-free answer |
| `FireCrawlClient.RanToEnd` | src/tools/firecrawl_client.py:22-28 | when the loop runs out of links without breaking, the gathered list is the loop-free answer |
| `FireCrawlClient.CutAtLimit` | src/tools/firecrawl_client.py:26-27 | where the loop breaks, what it has gathered equals the loop-free answer, for a positive limit and for one of zero or less |
| `FireCrawlClient.CleanStep` | src/tools/firecrawl_client.py:23-25 | one element more grows the cleaned list by that element exactly when the element starts with `http` and has not been kept before |
| `FireCrawlClient.QualifiedMembers` | src/tools/firecrawl_client.py:23 | the filtered list holds exactly the input's links that start with `http` |
| `FireCrawlClient.DistinctMembers` | src/tools/firecrawl_client.py:21-25 | de-duplication keeps every value of its input and adds none |
| `FireCrawlClient.DistinctNoDuplicates` | src/tools/firecrawl_client.py:21-25 | the de-duplicated list holds no value twice |
| `FireCrawlClient.DistinctFirstSeenOrder` | src/tools/firecrawl_client.py:21-25 | each kept value comes from the input, and kept values follow the order of their first occurrences |
| `FireCrawlClient.FirstIndexOrderOfFilter` | src/tools/firecrawl_client.py:22-23 | filtering by prefix keeps the relative order of first occurrences |
| `FireCrawlClient.HeadlinesQualified` | src/tools/firecrawl_client.py:23 | every returned link starts with `http` and is one of the scraped links |
| `FireCrawlClient.HeadlinesNoDuplicates` | src/tools/firecrawl_client.py:21-25 | no link is returned twice |
| `FireCrawlClient.HeadlinesFirstSeenOrder` | src/tools/firecrawl_client.py:22-25 | the returned links appear in the order of their first occurrence on the page |
| `FireCrawlClient.HeadlinesComplete` | src/tools/firecrawl_client.py:22-27 | with a positive limit, a result shorter than the limit contains every qualified link on the page |
| `FireCrawlClient.NonPositiveLimitKeepsFirst` | src/tools/firecrawl_client.py:22-27 | for `limit <= 0` the result is the first link when it starts with `http`, else empty |
| `FireCrawlClient.NoLinksNoHeadlines` | src/tools/firecrawl_client.py:19 | a response without `links`, or with an empty list, yields no headlines |
| `FireCrawlClient.FetchArticleBody` | src/tools/firecrawl_client.py:30-33 | the `markdown` text when the response has one, otherwise `""`, with no error |
| `NewsAgent.Classify` | src/agents/news_agent.py:124-131 | the fixed quota error, chained to the original, exactly when `quota` or `rate limit` occurs at some position of the lower-cased message; otherwise the original exception unchanged |
| `NewsAgent.MentionsQuota` | src/agents/news_agent.py:125-126 | the test holds exactly when `quota` or `rate limit` starts at some position of the lower-cased message |
| `NewsAgent.RunNewsReport` | src/agents/news_agent.py:122-131 | a successful kickoff's result is returned unchanged; a quota-like failure becomes the fixed quota error chained to the caught exception; any other failure is re-raised as it was |
| `NewsAgent.QuotaInAnyCase` | src/agents/news_agent.py:125-126 | any upper/lower-case spelling of `quota` or `rate limit`, anywhere in the message, selects the quota error |
| `NewsAgent.UpperCaseQuotaMatches` | src/agents/news_agent.py:125-126 | `"QUOTA exceeded"` selects the quota error |
| `NewsAgent.MixedCaseRateLimitMatches` | src/agents/news_agent.py:125-126 | `"Rate Limit hit"` selects the quota error |
| `NewsAgent.RateLimitWithoutSpaceDoesNotMatch` | src/agents/news_agent.py:125-131 | `"ratelimit"` does not match and is re-raised unchanged |
| `NewsAgent.TaskDescription` | src/agents/news_agent.py:101-111 | the description begins with the fixed opening text, carries the URL right after it, ends with the fixed closing text, and has the length of the template plus the URL and `str(limit)` |
| `NewsAgent.TaskDescriptionSlots` | src/agents/news_agent.py:101-111 | the description is the fixed text with the URL in the first slot and `str(limit)` in the second, which parses back to `limit` |
| `Config.Get` | src/config.py:21-24 | `os.environ.get`: the value when the key is set, the default otherwise |
| `Config.LoadSettings` | src/config.py:11-24 | a missing `FIRECRAWL_API_KEY` is reported first, then a missing `GEMINI_API_KEY`; on success the keys are the environment's values, and the model and limit are the environment's or `gemini-2.5-flash-preview-04-17` and 5; an unparsable `DEFAULT_LIMIT` is an error carrying its text |
| `Config.RequiredBeforeOptional` | src/config.py:14-24 | while a required key is missing, whatever `GEMINI_MODEL` or `DEFAULT_LIMIT` hold leaves the missing-key error unchanged |
| `Config.DefaultLimitFromDecimal` | src/config.py:24 | a `DEFAULT_LIMIT` written as the decimal of `n` configures the limit `n` |
| `Text.Contains` | src/agents/news_agent.py:126 | a phrase at the start of the text occurs in it, and a phrase that occurs is no longer than the text |
| `Text.ContainsAt` | src/agents/news_agent.py:126 | the substring test holds exactly when the phrase starts at some position of the text |
| `Text.Lower` | src/agents/news_agent.py:125 | lower-casing keeps the length, turns each ASCII capital into its small letter, leaves every other character alone, and leaves no ASCII capital |
| `Text.ParseInt` | src/config.py:24 | `int()` succeeds exactly on an optional sign followed by one or more digits |
| `Text.Decimal` | src/agents/news_agent.py:111 | `str(limit)` is non-empty, starts with `-` exactly for a negative number, and is otherwise made of decimal digits |
| `Text.LeadingZero` | src/config.py:24 | a leading `0` keeps the text a run of digits and does not change its value |
| `Text.SignedDigits` | src/config.py:24 | for any run of digits, `int()` gives its value, a leading `+` gives the same number and a leading `-` its negation |
| `Text.LeadingZeroParses` | src/config.py:24 | a leading `0` does not change what `int()` returns for a run of digits |
| `Text.DecimalRoundTrip` | src/config.py:24 | parsing `str(n)` gives back `n`, for every integer `n` |
| `Cli.EffectiveLimit` | main.py:25 | no `--limit` and `--limit 0` both give the configured default; any other value, negative included, is used as given |
| `Cli.WritesToFile` | main.py:34 | `if args.output:` is false for a missing option and for an empty path, and true for any other path |
| `Cli.Confirmation` | main.py:36 | the confirmation is `Written digest to ` followed by the path |
| `Cli.DeliverReport` | main.py:34-38 | with a non-empty `--output`, the report is written to that path and only the confirmation `Written digest to PATH` is printed; otherwise the report is printed and nothing is written |
| `Cli.Run` | main.py:23-38 | a configuration error ends the run; a finished run delivers the crew's output for the task built from the URL and the effective limit |
| `Cli.ConfigurationCheckedFirst` | main.py:23-31 | with a configuration error, the outcome does not depend on the crew run and nothing is written or printed |
| `Cli.TaskCarriesLimit` | main.py:25-31 | the task text carries a non-zero `--limit` as given, and otherwise the configured default |

## Left out

- `src/tools/summarizer.py`: a thin wrapper around the Gemini SDK. Its only local logic is a prompt concatenation and `.strip()` of the remote answer. It is not part of this model.
- The CrewAI layer (`FetchHeadlinesTool`, `FetchArticleTool`, `SummarizeTool`, `create_news_agent`, building the `Task` and the `Crew`, `crew.kickoff()`): these are one-line delegations and configuration for an external planner whose behaviour is not in the repository. The crew run is an oracle parameter of `Cli.Run`.
- Network calls (`FirecrawlApp.scrape_url`, SDK clients) are left out. Their responses are inputs.
- `load_dotenv`, `argparse` parsing, `Path.write_text` and `print` are left out. Only the decisions are modelled, and output is a list of effects.
- FireCrawlClient.FetchTopHeadlines: takes the limit as a required argument. The Python default `limit: int = 5` is not modelled, because every caller in the repository passes a limit.
- FireCrawlClient.LinksOf: the response maps each format name to a list of strings. A `links` entry of another type, which Python would iterate or reject, is not modelled.
- Text.ParseInt: models `int()` as an optional `+`/`-` sign followed by ASCII digits. Python also accepts surrounding whitespace, underscores between digits and non-ASCII digits.
- Text.Lower: lower-cases ASCII letters only. Python's `str.lower()` also folds other Unicode letters.
- Config.LoadSettings: a missing variable's error carries the variable's name, not the exact `str(KeyError)` quoting of the message.
- NewsAgent.Classify: an exception is represented by its message only. The exception's type and traceback are not modelled.
- `str(report_obj)`: the crew's output is taken to be the report text already.
