/**
 The two local pieces of logic of the scraping client: cleaning the `links`
 of a front-page scrape into headline URLs, and reading the `markdown` of an
 article scrape. The scrape itself happens remotely; its response is an input
 here, a mapping from format name to the value the service returned.
 */
module FireCrawlClient {

  /** A scrape requested in the `links` format: format name to list of URLs. */
  type LinksResponse = map<string, seq<string>>

  /** A scrape requested in the `markdown` format: format name to page text. */
  type MarkdownResponse = map<string, string>

  /** A link is kept only when it starts with the four letters `http`. */
  predicate IsQualified(link: string)
    ensures IsQualified(link) <==>
      |link| >= 4 && link[0] == 'h' && link[1] == 't' && link[2] == 't' && link[3] == 'p'
  {
    "http" <= link
  }

  /** `resp.get("links", [])`. */
  function LinksOf(resp: LinksResponse): (links: seq<string>)
    ensures "links" in resp ==> links == resp["links"]
    ensures "links" !in resp ==> links == []
  {
    if "links" in resp then resp["links"] else []
  }

  /** The qualified links of `s`, in their order in `s`. */
  function Qualified(s: seq<string>): (r: seq<string>)
    ensures |r| <= |s|
  {
    if s == [] then []
    else Qualified(s[..|s| - 1]) + (if IsQualified(s[|s| - 1]) then [s[|s| - 1]] else [])
  }

  /** `s` with every repetition of an earlier element removed. */
  function Distinct(s: seq<string>): (r: seq<string>)
    ensures |r| <= |s|
  {
    if s == [] then []
    else
      var d := Distinct(s[..|s| - 1]);
      if s[|s| - 1] in d then d else d + [s[|s| - 1]]
  }

  /** The first `n` elements of `s`, or all of them when there are fewer. */
  function Take(s: seq<string>, n: nat): (r: seq<string>)
    ensures r <= s
    ensures |r| == if n < |s| then n else |s|
  {
    if n < |s| then s[..n] else s
  }

  /** The position of the first occurrence of `x` in `s`. */
  function FirstIndex(s: seq<string>, x: string): (k: nat)
    requires x in s
    ensures k < |s| && s[k] == x && x !in s[..k]
  {
    if x in s[..|s| - 1] then FirstIndex(s[..|s| - 1], x) else |s| - 1
  }

  /**
   What `fetch_top_headlines` returns for the list `links`, stated without the
   loop: the qualified links, duplicates dropped, cut to `limit`. The loop tests
   the limit only after looking at an element, so a `limit` of zero or less
   still lets the first element through when it is qualified.
   */
  function Headlines(links: seq<string>, limit: int): (r: seq<string>)
    ensures r <= Distinct(Qualified(links))
    ensures limit > 0 ==> |r| <= limit
    ensures limit <= 0 ==> |r| <= 1
  {
    if limit <= 0 then
      if |links| > 0 && IsQualified(links[0]) then
        FirstCleaned(links);
        QualifiedMonotone(links[..1], links);
        DistinctMonotone(Qualified(links[..1]), Qualified(links));
        [links[0]]
      else []
    else Take(Distinct(Qualified(links)), limit)
  }

  /**
   The list the loop has gathered after looking at the first `n` links, one
   link at a time; CleanUpToIsReference ties it to the reference definition.
   */
  function CleanUpTo(links: seq<string>, n: nat): (c: seq<string>)
    requires n <= |links|
  {
    if n == 0 then []
    else
      var c := CleanUpTo(links, n - 1);
      if IsQualified(links[n - 1]) && links[n - 1] !in c then c + [links[n - 1]] else c
  }

  /** The loop of `fetch_top_headlines`, over the `links` of the scrape response. */
  method FetchTopHeadlines(resp: LinksResponse, limit: int) returns (cleaned: seq<string>)
    ensures cleaned == Headlines(LinksOf(resp), limit)
  {
    var links := LinksOf(resp);
    var seen: set<string> := {};
    cleaned := [];
    var i := 0;
    while i < |links|
      invariant 0 <= i <= |links|
      invariant cleaned == CleanUpTo(links, i)
      invariant forall x {:trigger x in seen} :: x in seen <==> x in cleaned
      invariant i > 0 ==> |cleaned| < limit
    {
      var link := links[i];
      if IsQualified(link) && link !in seen {
        seen := seen + {link};
        cleaned := cleaned + [link];
      }
      if |cleaned| >= limit {
        StopsAtLimit(links, i + 1, limit);
        break;
      }
      i := i + 1;
    }
    if i == |links| {
      RanToEnd(links, limit);
    }
  }

  /** Gathering one link at a time is filtering, then de-duplicating, the prefix. */
  lemma {:induction false} CleanUpToIsReference(links: seq<string>, n: nat)
    requires n <= |links|
    ensures CleanUpTo(links, n) == Distinct(Qualified(links[..n]))
  {
    if n > 0 {
      CleanUpToIsReference(links, n - 1);
      CleanPrefixStep(links, n - 1);
    }
  }

  /** At the `break`, the gathered list is the answer. */
  lemma StopsAtLimit(links: seq<string>, n: nat, limit: int)
    requires 0 < n <= |links|
    requires |CleanUpTo(links, n)| >= limit
    requires n > 1 ==> |CleanUpTo(links, n - 1)| < limit
    ensures CleanUpTo(links, n) == Headlines(links, limit)
  {
    CleanUpToIsReference(links, n);
    CleanUpToIsReference(links, n - 1);
    CutAtLimit(links, n, limit);
  }

  /** When the loop never breaks, everything it gathered is the answer. */
  lemma RanToEnd(links: seq<string>, limit: int)
    requires |links| > 0 ==> |CleanUpTo(links, |links|)| < limit
    ensures CleanUpTo(links, |links|) == Headlines(links, limit)
  {
    CleanUpToIsReference(links, |links|);
    assert links[..|links|] == links;
  }

  /** The same, for the cleaned prefix written as filter-then-de-duplicate. */
  lemma CutAtLimit(links: seq<string>, n: nat, limit: int)
    requires 0 < n <= |links|
    requires |Distinct(Qualified(links[..n]))| >= limit
    requires n > 1 ==> |Distinct(Qualified(links[..n - 1]))| < limit
    ensures Distinct(Qualified(links[..n])) == Headlines(links, limit)
  {
    if limit <= 0 {
      assert n == 1;
      FirstCleaned(links);
    } else {
      CutAtPositiveLimit(links, n, limit);
    }
  }

  lemma FirstCleaned(links: seq<string>)
    requires |links| > 0
    ensures Distinct(Qualified(links[..1])) == if IsQualified(links[0]) then [links[0]] else []
  {
    assert links[..1] == [] + [links[0]];
    CleanStep([], links[0]);
  }

  lemma CutAtPositiveLimit(links: seq<string>, n: nat, limit: int)
    requires 0 < n <= |links| && limit > 0
    requires |Distinct(Qualified(links[..n]))| >= limit
    requires n > 1 ==> |Distinct(Qualified(links[..n - 1]))| < limit
    ensures Distinct(Qualified(links[..n])) == Take(Distinct(Qualified(links)), limit)
  {
    QualifiedMonotone(links[..n], links);
    DistinctMonotone(Qualified(links[..n]), Qualified(links));
    LengthAtCut(links, n, limit);
    PrefixIsTake(Distinct(Qualified(links[..n])), Distinct(Qualified(links)), limit);
  }

  /** The cleaned list grows one link at a time, so it meets a positive limit exactly. */
  lemma LengthAtCut(links: seq<string>, n: nat, limit: int)
    requires 0 < n <= |links| && limit > 0
    requires |Distinct(Qualified(links[..n]))| >= limit
    requires n > 1 ==> |Distinct(Qualified(links[..n - 1]))| < limit
    ensures |Distinct(Qualified(links[..n]))| == limit
  {
    if n > 1 {
      CleanPrefixStep(links, n - 1);
    } else {
      FirstCleaned(links);
    }
  }

  lemma PrefixIsTake(a: seq<string>, b: seq<string>, n: nat)
    requires a <= b && |a| == n
    ensures a == Take(b, n)
  {
  }

  lemma CleanPrefixStep(links: seq<string>, i: nat)
    requires i < |links|
    ensures Distinct(Qualified(links[..i + 1])) ==
      if IsQualified(links[i]) && links[i] !in Distinct(Qualified(links[..i]))
      then Distinct(Qualified(links[..i])) + [links[i]]
      else Distinct(Qualified(links[..i]))
  {
    assert links[..i + 1] == links[..i] + [links[i]];
    CleanStep(links[..i], links[i]);
  }

  /** The cleaned list of `s + [x]` is that of `s`, with `x` appended when it is new and qualified. */
  lemma CleanStep(s: seq<string>, x: string)
    ensures Distinct(Qualified(s + [x])) ==
      if IsQualified(x) && x !in Distinct(Qualified(s)) then Distinct(Qualified(s)) + [x]
      else Distinct(Qualified(s))
  {
    assert (s + [x])[..|s|] == s;
    var q := Qualified(s);
    if IsQualified(x) {
      assert Qualified(s + [x]) == q + [x];
      assert (q + [x])[..|q|] == q;
      assert Distinct(q + [x]) == if x in Distinct(q) then Distinct(q) else Distinct(q) + [x];
    } else {
      assert Qualified(s + [x]) == q;
    }
  }

  lemma {:induction false} QualifiedMonotone(a: seq<string>, b: seq<string>)
    requires a <= b
    ensures Qualified(a) <= Qualified(b)
    decreases |b|
  {
    if |a| < |b| {
      assert a <= b[..|b| - 1];
      QualifiedMonotone(a, b[..|b| - 1]);
    } else {
      assert a == b;
    }
  }

  lemma {:induction false} DistinctMonotone(a: seq<string>, b: seq<string>)
    requires a <= b
    ensures Distinct(a) <= Distinct(b)
    decreases |b|
  {
    if |a| < |b| {
      assert a <= b[..|b| - 1];
      DistinctMonotone(a, b[..|b| - 1]);
    } else {
      assert a == b;
    }
  }

  // Properties of the cleaned headline list.

  lemma {:induction false} QualifiedMembers(s: seq<string>)
    ensures forall x :: x in Qualified(s) <==> x in s && IsQualified(x)
  {
    if s != [] {
      QualifiedMembers(s[..|s| - 1]);
      assert s == s[..|s| - 1] + [s[|s| - 1]];
    }
  }

  lemma {:induction false} DistinctMembers(s: seq<string>)
    ensures forall x :: x in Distinct(s) <==> x in s
  {
    if s != [] {
      DistinctMembers(s[..|s| - 1]);
      assert s == s[..|s| - 1] + [s[|s| - 1]];
    }
  }

  lemma {:induction false} DistinctNoDuplicates(s: seq<string>)
    ensures forall p, q :: 0 <= p < q < |Distinct(s)| ==> Distinct(s)[p] != Distinct(s)[q]
  {
    if s != [] {
      DistinctNoDuplicates(s[..|s| - 1]);
    }
  }

  /** Appending leaves earlier first occurrences where they were. */
  lemma FirstIndexAppend(s: seq<string>, y: string, x: string)
    requires x in s + [y]
    ensures x in s ==> FirstIndex(s + [y], x) == FirstIndex(s, x)
    ensures x !in s ==> FirstIndex(s + [y], x) == |s|
  {
    assert (s + [y])[..|s|] == s;
  }

  /** `r` lists values of `s` in the order of their first occurrence in `s`. */
  ghost predicate InFirstSeenOrder(s: seq<string>, r: seq<string>) {
    && (forall k :: 0 <= k < |r| ==> r[k] in s)
    && (forall p, q :: 0 <= p < q < |r| ==> FirstIndex(s, r[p]) < FirstIndex(s, r[q]))
  }

  /** The elements of `Distinct(s)` come in the order of their first occurrence in `s`. */
  lemma {:induction false} DistinctFirstSeenOrder(s: seq<string>)
    ensures InFirstSeenOrder(s, Distinct(s))
  {
    if s != [] {
      var init, y := s[..|s| - 1], s[|s| - 1];
      DistinctFirstSeenOrder(init);
      DistinctMembers(init);
      assert s == init + [y];
      FirstSeenOrderAppend(init, y, Distinct(init));
    }
  }

  /** Appending a value not yet listed keeps a first-seen listing in order. */
  lemma FirstSeenOrderAppend(init: seq<string>, y: string, d: seq<string>)
    requires InFirstSeenOrder(init, d)
    requires forall x :: x in d <==> x in init
    ensures InFirstSeenOrder(init + [y], if y in d then d else d + [y])
  {
    var s := init + [y];
    var r := if y in d then d else d + [y];
    forall k | 0 <= k < |r| ensures r[k] in s {
      if k < |d| {
        assert r[k] == d[k];
      }
    }
    forall p, q | 0 <= p < q < |r|
      ensures FirstIndex(s, r[p]) < FirstIndex(s, r[q])
    {
      assert r[p] == d[p];
      FirstIndexAppend(init, y, r[p]);
      FirstIndexAppend(init, y, r[q]);
      if q < |d| {
        assert r[q] == d[q];
      }
    }
  }

  /** Every returned link is qualified and comes from the scraped list. */
  lemma HeadlinesQualified(links: seq<string>, limit: int)
    ensures forall k :: 0 <= k < |Headlines(links, limit)| ==>
      IsQualified(Headlines(links, limit)[k]) && Headlines(links, limit)[k] in links
  {
    QualifiedMembers(links);
    DistinctMembers(Qualified(links));
  }

  /** No link is returned twice. */
  lemma HeadlinesNoDuplicates(links: seq<string>, limit: int)
    ensures forall p, q :: 0 <= p < q < |Headlines(links, limit)| ==>
      Headlines(links, limit)[p] != Headlines(links, limit)[q]
  {
    DistinctNoDuplicates(Qualified(links));
  }

  /**
   The returned links keep the order of their first appearance in the scraped
   list; together with HeadlinesQualified and HeadlinesNoDuplicates this makes
   the result a subsequence of first occurrences.
   */
  lemma HeadlinesFirstSeenOrder(links: seq<string>, limit: int)
    ensures forall k :: 0 <= k < |Headlines(links, limit)| ==> Headlines(links, limit)[k] in links
    ensures forall p, q :: 0 <= p < q < |Headlines(links, limit)| ==>
      FirstIndex(links, Headlines(links, limit)[p]) < FirstIndex(links, Headlines(links, limit)[q])
  {
    var q := Qualified(links);
    var d := Distinct(q);
    QualifiedMembers(links);
    DistinctMembers(q);
    DistinctFirstSeenOrder(q);
    assert InFirstSeenOrder(q, d);
    if limit > 0 {
      FirstIndexOrderOfFilter(links);
    }
  }

  /** Filtering keeps the relative order of first occurrences. */
  lemma {:induction false} FirstIndexOrderOfFilter(s: seq<string>)
    ensures forall x, y ::
      (x in Qualified(s) && y in Qualified(s) && FirstIndex(Qualified(s), x) < FirstIndex(Qualified(s), y)) ==>
      (x in s && y in s && FirstIndex(s, x) < FirstIndex(s, y))
  {
    QualifiedMembers(s);
    if s != [] {
      var init, z := s[..|s| - 1], s[|s| - 1];
      FirstIndexOrderOfFilter(init);
      QualifiedMembers(init);
      assert s == init + [z];
      var q, qi := Qualified(s), Qualified(init);
      assert q == qi + (if IsQualified(z) then [z] else []);
      forall x | x in qi ensures FirstIndex(q, x) == FirstIndex(qi, x) && FirstIndex(s, x) == FirstIndex(init, x) {
        assert q[..|qi|] == qi;
      }
    }
  }

  /**
   For a positive limit, the list is cut only by the limit: when fewer than
   `limit` links come back, every qualified link of the page is among them.
   */
  lemma HeadlinesComplete(links: seq<string>, limit: int, x: string)
    requires limit > 0 && |Headlines(links, limit)| < limit
    requires x in links && IsQualified(x)
    ensures x in Headlines(links, limit)
  {
    QualifiedMembers(links);
    DistinctMembers(Qualified(links));
  }

  /**
   A limit of zero or less still lets a qualified first link through. This
   unfolds `Headlines`; it is a statement about the program through the
   ensures of FetchTopHeadlines.
   */
  lemma NonPositiveLimitKeepsFirst(links: seq<string>, limit: int)
    requires limit <= 0 && |links| > 0
    ensures IsQualified(links[0]) ==> Headlines(links, limit) == [links[0]]
    ensures !IsQualified(links[0]) ==> Headlines(links, limit) == []
  {
  }

  /**
   A page with no `links` entry, or an empty one, yields nothing. This unfolds
   `Headlines`; it is a statement about the program through the ensures of
   FetchTopHeadlines.
   */
  lemma NoLinksNoHeadlines(resp: LinksResponse, limit: int)
    requires "links" !in resp || resp["links"] == []
    ensures Headlines(LinksOf(resp), limit) == []
  {
  }

  /** `data.get("markdown", "")`: the page text, or the empty string when there is none. */
  function FetchArticleBody(data: MarkdownResponse): (body: string)
    ensures "markdown" in data ==> body == data["markdown"]
    ensures "markdown" !in data ==> body == ""
  {
    if "markdown" in data then data["markdown"] else ""
  }
}
