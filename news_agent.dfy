/**
 The two pieces of `run_news_report` that are computed locally: the task
 description handed to the agent, with the site URL and the headline limit
 filled in, and the handler that turns a quota or rate-limit failure of the
 crew run into one fixed, more helpful error. The crew run itself is an
 external planner; how it ended is an input here.
 */
module NewsAgent {
  import opened Wrappers
  import opened Text

  /** An exception raised by the crew run; the handler looks only at its text. */
  datatype Exception = Exception(message: string)

  /** How `crew.kickoff()` ended: with its output, or by raising. */
  datatype Kickoff = Returned(output: string) | Raised(error: Exception)

  /**
   What leaves the handler: the fixed quota `RuntimeError` (chained to the
   exception that caused it), or the original exception, re-raised as it was.
   */
  datatype Failure = QuotaExceeded(cause: Exception) | Reraised(original: Exception)

  /** The outcome of `run_news_report`. */
  datatype Report = Completed(output: string) | Failed(failure: Failure)

  const QuotaMessage: string :=
    "It looks like CrewAI\U{2019}s OpenAI-based planner hit a quota limit. "
    + "You may need to check your OPENAI_API_KEY or billing, or reduce the headline limit."

  /** The text of the error the caller finally sees. */
  function FailureMessage(f: Failure): string {
    match f
    case QuotaExceeded(_) => QuotaMessage
    case Reraised(e) => e.message
  }

  /** The two phrases the handler looks for, after lower-casing the message. */
  predicate MentionsQuota(message: string)
    ensures MentionsQuota(message) <==>
      exists i :: 0 <= i <= |message| &&
        ("quota" <= Lower(message)[i..] || "rate limit" <= Lower(message)[i..])
  {
    ContainsAt(Lower(message), "quota");
    ContainsAt(Lower(message), "rate limit");
    var m := Lower(message);
    Contains(m, "quota") || Contains(m, "rate limit")
  }

  /**
   The `except` branch of `run_news_report`: a message that mentions a quota or
   a rate limit, in any letter case, becomes the fixed quota error; any other
   exception propagates untouched.
   */
  function Classify(e: Exception): (f: Failure)
    ensures f.QuotaExceeded? <==>
      exists i :: 0 <= i <= |e.message| &&
        ("quota" <= Lower(e.message)[i..] || "rate limit" <= Lower(e.message)[i..])
    ensures f.QuotaExceeded? ==> f.cause == e && FailureMessage(f) == QuotaMessage
    ensures f.Reraised? ==> f.original == e && FailureMessage(f) == e.message
  {
    if MentionsQuota(e.message) then QuotaExceeded(e) else Reraised(e)
  }

  /** `run_news_report` from the moment the crew has run. */
  function RunNewsReport(k: Kickoff): (r: Report)
    ensures k.Returned? ==> r == Completed(k.output)
    ensures k.Raised? && MentionsQuota(k.error.message) ==>
      r == Failed(QuotaExceeded(k.error)) && FailureMessage(r.failure) == QuotaMessage
    ensures k.Raised? && !MentionsQuota(k.error.message) ==> r == Failed(Reraised(k.error))
  {
    match k
    case Returned(output) => Completed(output)
    case Raised(e) => Failed(Classify(e))
  }

  /**
   Case does not matter: any spelling of "quota" or "rate limit" in any mix of
   upper and lower case, anywhere in the message, selects the quota error.
   */
  lemma QuotaInAnyCase(pre: string, word: string, post: string)
    requires Lower(word) == "quota" || Lower(word) == "rate limit"
    ensures Classify(Exception(pre + word + post)).QuotaExceeded?
  {
    LowerConcat(pre + word, post);
    LowerConcat(pre, word);
    ContainsInContext(Lower(pre), Lower(word), Lower(post), Lower(word));
    assert Lower(pre + word + post) == Lower(pre) + Lower(word) + Lower(post);
    assert Contains(Lower(word), Lower(word));
  }

  lemma UpperCaseQuotaMatches()
    ensures Classify(Exception("QUOTA exceeded")) == QuotaExceeded(Exception("QUOTA exceeded"))
  {
    QuotaInAnyCase("", "QUOTA", " exceeded");
  }

  lemma MixedCaseRateLimitMatches()
    ensures Classify(Exception("Rate Limit hit")) == QuotaExceeded(Exception("Rate Limit hit"))
  {
    QuotaInAnyCase("", "Rate Limit", " hit");
  }

  /** Without the space, "ratelimit" is not the phrase looked for. */
  lemma RateLimitWithoutSpaceDoesNotMatch()
    ensures Classify(Exception("ratelimit")) == Reraised(Exception("ratelimit"))
  {
    var m := "ratelimit";
    assert Lower(m) == m;
    FirstCharAbsent(m, "quota");
    assert !Contains(m, "rate limit");
  }

  const DescriptionHead: string :=
    "You\U{2019}re a News Analyst. To generate a reliable report, "
    + "it\U{2019}s highly recommended that you:\n"
    + "1) Use `fetch_headlines(source_url=\""

  const DescriptionMiddle: string := "\", limit="

  const DescriptionTail: string :=
    ")` to get article URLs.\n"
    + "2) Then for each URL, call `fetch_article_body(url=\U{2026})`.\n"
    + "3) Next, summarize each with `summarize_article(markdown=\U{2026})`.\n"
    + "Finally, assemble a single Markdown document with each URL as a header "
    + "followed by its 3-bullet summary.\n\n"
    + "Feel free to ask clarifying questions if any step is unclear."

  /** The task text with `{src}` and `{lim}` replaced by the URL and `str(limit)`. */
  function TaskDescription(sourceUrl: string, limit: int): (d: string)
    ensures DescriptionHead <= d
    ensures |d| == |DescriptionHead| + |sourceUrl| + |DescriptionMiddle| + |Decimal(limit)| + |DescriptionTail|
    ensures d[|DescriptionHead|..|DescriptionHead| + |sourceUrl|] == sourceUrl
    ensures d[|d| - |DescriptionTail|..] == DescriptionTail
  {
    FiveParts(DescriptionHead, sourceUrl, DescriptionMiddle, Decimal(limit), DescriptionTail);
    DescriptionHead + sourceUrl + DescriptionMiddle + Decimal(limit) + DescriptionTail
  }

  /**
   The description is the fixed text with the URL in the first slot and the
   decimal rendering of the limit in the second; reading the second slot back
   as an integer gives the limit itself.
   */
  lemma TaskDescriptionSlots(sourceUrl: string, limit: int)
    ensures var d := TaskDescription(sourceUrl, limit);
      var urlEnd := |DescriptionHead| + |sourceUrl|;
      var limitStart := urlEnd + |DescriptionMiddle|;
      && |d| == limitStart + |Decimal(limit)| + |DescriptionTail|
      && d[..|DescriptionHead|] == DescriptionHead
      && d[|DescriptionHead|..urlEnd] == sourceUrl
      && d[urlEnd..limitStart] == DescriptionMiddle
      && ParseInt(d[limitStart..|d| - |DescriptionTail|]) == Some(limit)
      && d[|d| - |DescriptionTail|..] == DescriptionTail
  {
    DecimalRoundTrip(limit);
    FiveParts(DescriptionHead, sourceUrl, DescriptionMiddle, Decimal(limit), DescriptionTail);
  }

  /** Where each of five concatenated parts sits in the whole. */
  lemma FiveParts(a: string, b: string, c: string, e: string, f: string)
    ensures var d := a + b + c + e + f;
      && |d| == |a| + |b| + |c| + |e| + |f|
      && d[..|a|] == a
      && d[|a|..|a| + |b|] == b
      && d[|a| + |b|..|a| + |b| + |c|] == c
      && d[|a| + |b| + |c|..|d| - |f|] == e
      && d[|d| - |f|..] == f
  {
  }
}
