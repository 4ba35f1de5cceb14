/** The candidate loop of `MovieHandler.get_links_by_query` in
    cinemabot/movie_handler.py: the search result links are filtered, each
    candidate page is fetched in turn, the most complete record is kept and
    the links that gave something are collected. The search request and the
    page fetches are inputs: the hrefs of the result page, and what awaiting
    `_parse_info` on the k-th candidate gave. */
module Resolver {
  import opened Wrappers
  import opened Text
  import opened Metadata
  import opened Parser

  /** What the search request gives: a failure (bad status, no `#search`
      element, or an exception), or the `href` of every link in `#search`,
      in document order. */
  datatype Search = SearchFailed | Results(hrefs: seq<string>)

  /** Awaiting `_parse_info(link)` under the one-second `asyncio.wait_for`:
      a timeout, or the value it returned (`None` for any failure). */
  datatype Outcome = TimedOut | Returned(info: Option<MovieMetadata>)

  /** What `_parse_info` returns for a fetched page, as a loop outcome. */
  function PageOutcome(p: Page): Outcome {
    Returned(ParseInfo(p))
  }

  /** Every record `_parse_info` returns carries a title and scores 4 to 6. */
  predicate FromParser(o: Outcome) {
    o.Returned? && o.info.Some? ==> o.info.value.title.Some? && 4 <= o.info.value.priority <= 6
  }

  ghost predicate AllFromParser(fetch: nat -> Outcome) {
    forall k: nat :: FromParser(fetch(k))
  }

  /** The loop's variables `link_set`, `max_prioity` and `main_meta`. */
  datatype Agg = Agg(links: set<string>, maxPriority: int, best: MovieMetadata)

  const AnimeWord := "anime"
  /** `max_prioity` before the first candidate: below every possible score. */
  const NoPriority := -5
  /** The running maximum recorded when the canned record is adopted. */
  const BlockedPriority := 2

  /** The canned answer for a timed-out anime link: a notice that such
      content is blocked, with a spoiler tag around the consolation line. */
  const BlockedNotice :=
    "А ловко ты это придумал, РКН заблокировал аниме в рф, об этом было предупреждение при команде /start.\n"
    + "<tg-spoiler>Ладно, так уж и быть я кое-что для тебя нашёл</tg-spoiler>"

  /** The notice as the constructor stores it. */
  const BlockedDescription := Reflow(BlockedNotice)

  // ---------------------------------------------------------------------------
  // Candidate links
  // ---------------------------------------------------------------------------

  predicate IsCandidate(href: string) {
    StartsWith(href, "http") && Contains(href, "lordfilm")
  }

  /** A list comprehension with a condition: the elements of `xs` that
      `keep` accepts, in their order, duplicates kept. */
  function Filter(xs: seq<string>, keep: string -> bool): (ys: seq<string>)
    ensures |ys| <= |xs|
    ensures forall k :: 0 <= k < |ys| ==> keep(ys[k])
  {
    if xs == [] then []
    else if keep(xs[0]) then [xs[0]] + Filter(xs[1..], keep)
    else Filter(xs[1..], keep)
  }

  /** An element is kept exactly when it is accepted. */
  lemma {:induction false} FilterMembers(xs: seq<string>, keep: string -> bool)
    ensures forall h :: h in Filter(xs, keep) <==> h in xs && keep(h)
  {
    if xs != [] {
      FilterMembers(xs[1..], keep);
      assert xs == [xs[0]] + xs[1..];
    }
  }

  /** Filtering keeps the order: it distributes over concatenation. */
  lemma {:induction false} FilterAppend(a: seq<string>, b: seq<string>, keep: string -> bool)
    ensures Filter(a + b, keep) == Filter(a, keep) + Filter(b, keep)
  {
    if a == [] {
      assert a + b == b;
    } else {
      assert (a + b)[0] == a[0];
      assert (a + b)[1..] == a[1..] + b;
      FilterAppend(a[1..], b, keep);
    }
  }

  /** The comprehension building `links`. */
  function Candidates(hrefs: seq<string>): (cs: seq<string>)
    ensures |cs| <= |hrefs|
    ensures forall k :: 0 <= k < |cs| ==> IsCandidate(cs[k])
  {
    Filter(hrefs, IsCandidate)
  }

  // ---------------------------------------------------------------------------
  // The records the loop can hold
  // ---------------------------------------------------------------------------

  /** `main_meta` before the loop: the raw query as title, nothing else. */
  function InitialRecord(query: string): (m: MovieMetadata)
    ensures m.title == Some(query) && m.description.None? && m.rating.None?
    ensures m.priority == 1
  {
    MovieMetadata(Some(query), None, None, None, None, 1)
  }

  /** The initial record is what the constructor builds from the query alone. */
  lemma InitialRecordIsNew(query: string)
    ensures InitialRecord(query) == NewMetadata(Some(query), None, None, None, None)
  {
  }

  /** The canned record for a timed-out anime link. */
  function BlockedRecord(query: string): (m: MovieMetadata)
    ensures m.title == Some(Capitalize(query)) && m.description == Some(BlockedDescription)
    ensures m.country.None? && m.year.None? && m.rating.None?
    ensures m.priority == 3
  {
    MovieMetadata(Some(Capitalize(query)), Some(BlockedDescription), None, None, None, 3)
  }

  /** The canned record is what the constructor builds from the capitalised
      query and the notice. */
  lemma BlockedRecordIsNew(query: string)
    ensures BlockedRecord(query) == NewMetadata(Some(Capitalize(query)), Some(BlockedNotice), None, None, None)
  {
  }

  /** An adopted record with no title gets the capitalised query; its score
      is not recomputed. */
  function Patched(m: MovieMetadata, query: string): (r: MovieMetadata)
    ensures r.title.Some? && r.priority == m.priority && r.(title := m.title) == m
    ensures m.title.Some? ==> r == m
    ensures m.title.None? ==> r.title == Some(Capitalize(query))
  {
    if m.title.None? then m.(title := Some(Capitalize(query))) else m
  }

  /** `_parse_info` returned a record. */
  predicate Succeeded(f: Outcome) {
    f.Returned? && f.info.Some?
  }

  function Offered(f: Outcome): MovieMetadata
    requires Succeeded(f)
  {
    f.info.value
  }

  /** The fetch timed out on a link that mentions anime. */
  predicate BlockedTimeout(link: string, f: Outcome) {
    f.TimedOut? && Contains(link, AnimeWord)
  }

  /** The link goes into `link_set`. */
  predicate Collected(link: string, f: Outcome) {
    Succeeded(f) || BlockedTimeout(link, f)
  }

  /** Records that `_parse_info` returns always carry a title, so the title
      patch of the loop never changes an adopted record. */
  lemma PatchNeverFires(p: Page, query: string)
    requires Succeeded(PageOutcome(p))
    ensures Patched(Offered(PageOutcome(p)), query) == Offered(PageOutcome(p))
  {}

  lemma PageOutcomeFromParser(p: Page)
    ensures FromParser(PageOutcome(p))
  {}

  // ---------------------------------------------------------------------------
  // The loop as a fold
  // ---------------------------------------------------------------------------

  /** One iteration of the loop body (without its `break`): a collected
      link joins the set, and its record is adopted when its offer beats
      the running maximum. */
  function Step(query: string, a: Agg, link: string, f: Outcome): (r: Agg)
    ensures r.links == if Collected(link, f) then a.links + {link} else a.links
    ensures a.maxPriority >= NoPriority ==> r.maxPriority == Max(a.maxPriority, Offer(link, f))
  {
    if !Collected(link, f) then a
    else if a.maxPriority < Offer(link, f) then Agg(a.links + {link}, Offer(link, f), Chosen(query, link, f))
    else a.(links := a.links + {link})
  }

  /** The loop state after the first `n` candidates, ignoring the `break`. */
  function Run(query: string, cs: seq<string>, fetch: nat -> Outcome, n: nat): (r: Agg)
    requires n <= |cs|
    ensures r.maxPriority >= NoPriority
  {
    if n == 0 then Agg({}, NoPriority, InitialRecord(query))
    else Step(query, Run(query, cs, fetch, n - 1), cs[n - 1], fetch(n - 1))
  }

  /** The loop breaks right after candidate `k`: it succeeded and the set
      has just reached three links. */
  predicate Breaks(query: string, cs: seq<string>, fetch: nat -> Outcome, k: nat)
    requires k < |cs|
    ensures Breaks(query, cs, fetch, k) ==>
              cs[k] in Run(query, cs, fetch, k + 1).links && 2 <= |Run(query, cs, fetch, k).links| <= 3
  {
    StepLinks(query, Run(query, cs, fetch, k), cs[k], fetch(k));
    assert Run(query, cs, fetch, k + 1) == Step(query, Run(query, cs, fetch, k), cs[k], fetch(k));
    Succeeded(fetch(k)) && |Run(query, cs, fetch, k + 1).links| == 3
  }

  /** How many candidates the loop visits, starting from candidate `i`. */
  function VisitedFrom(query: string, cs: seq<string>, fetch: nat -> Outcome, i: nat): (n: nat)
    requires i <= |cs|
    ensures i <= n <= |cs|
    ensures forall k :: i <= k < n - 1 ==> !Breaks(query, cs, fetch, k)
    ensures i < n ==> Breaks(query, cs, fetch, n - 1) || n == |cs|
    ensures n < |cs| ==> i < n
    decreases |cs| - i
  {
    if i == |cs| then i
    else if Breaks(query, cs, fetch, i) then i + 1
    else VisitedFrom(query, cs, fetch, i + 1)
  }

  function Visited(query: string, cs: seq<string>, fetch: nat -> Outcome): (n: nat)
    ensures n <= |cs|
  {
    VisitedFrom(query, cs, fetch, 0)
  }

  /** What `get_links_by_query` returns: the collected links (a set, since
      `list(link_set)` has no defined order) and the chosen record. */
  function Resolve(query: string, search: Search, fetch: nat -> Outcome): (r: (set<string>, Option<MovieMetadata>))
    ensures search.SearchFailed? ==> r == ({}, None)
    ensures search.Results? ==> forall x :: x in r.0 ==> x in Candidates(search.hrefs)
    ensures r.1.None? <==> search.SearchFailed? || Candidates(search.hrefs) == []
    ensures r.1.None? ==> r.0 == {}
    ensures r.1.Some? ==> r.0 != {}
  {
    match search
    case SearchFailed => ({}, None)
    case Results(hrefs) =>
      var cs := Candidates(hrefs);
      var n := Visited(query, cs, fetch);
      var a := Run(query, cs, fetch, n);
      RunLinks(query, cs, fetch, n);
      if a.links != {} then (a.links, Some(a.best))
      else if cs == [] then ({}, None)
      else ({cs[0]}, Some(a.best))
  }

  /** `MovieHandler.get_links_by_query` after the search request. */
  method GetLinksByQuery(query: string, search: Search, fetch: nat -> Outcome)
    returns (links: set<string>, meta: Option<MovieMetadata>)
    ensures (links, meta) == Resolve(query, search, fetch)
  {
    if search.SearchFailed? {
      return {}, None;
    }
    var cs := Candidates(search.hrefs);
    var linkSet, mainMeta := CollectLinks(query, cs, fetch);
    if |linkSet| != 0 {
      return linkSet, Some(mainMeta);
    } else if |cs| == 0 {
      return {}, None;
    } else {
      return {cs[0]}, Some(mainMeta);
    }
  }

  /** One pass of the loop body on `link`, whose fetch ended with `outcome`;
      `stop` is the `break` after a third link. */
  method Visit(query: string, link: string, outcome: Outcome,
               links: set<string>, maxPriority: int, best: MovieMetadata)
    returns (links': set<string>, maxPriority': int, best': MovieMetadata, stop: bool)
    ensures Agg(links', maxPriority', best') == Step(query, Agg(links, maxPriority, best), link, outcome)
    ensures stop <==> Succeeded(outcome) && |links'| == 3
  {
    links', maxPriority', best', stop := links, maxPriority, best, false;
    match outcome {
      case Returned(tmp) =>
        if tmp.Some? {
          var m := tmp.value;
          if maxPriority' < m.priority {
            if m.title.None? {
              m := m.(title := Some(Capitalize(query)));
            }
            maxPriority' := m.priority;
            best' := m;
          }
          links' := links' + {link};
          if |links'| == 3 {
            stop := true;
          }
        }
      case TimedOut =>
        if Contains(link, AnimeWord) {
          links' := links' + {link};
          if maxPriority' < BlockedPriority {
            maxPriority' := BlockedPriority;
            best' := BlockedRecord(query);
          }
        }
    }
  }

  /** The `for link in links` loop with its `break`: the final `link_set`
      and `main_meta`. */
  method CollectLinks(query: string, cs: seq<string>, fetch: nat -> Outcome)
    returns (linkSet: set<string>, mainMeta: MovieMetadata)
    ensures var a := Run(query, cs, fetch, Visited(query, cs, fetch));
            linkSet == a.links && mainMeta == a.best
  {
    linkSet := {};
    var maxPriority := NoPriority;
    mainMeta := InitialRecord(query);
    var i := 0;
    while i < |cs|
      invariant i <= |cs|
      invariant Agg(linkSet, maxPriority, mainMeta) == Run(query, cs, fetch, i)
      invariant VisitedFrom(query, cs, fetch, i) == Visited(query, cs, fetch)
    {
      var stop;
      linkSet, maxPriority, mainMeta, stop := Visit(query, cs[i], fetch(i), linkSet, maxPriority, mainMeta);
      i := i + 1;
      if stop {
        assert Breaks(query, cs, fetch, i - 1);
        break;
      }
    }
  }

  // ---------------------------------------------------------------------------
  // What the fold computes, against reference definitions
  // ---------------------------------------------------------------------------

  /** What a candidate puts up for comparison with the running maximum. */
  function Offer(link: string, f: Outcome): int {
    if Succeeded(f) then Offered(f).priority
    else if BlockedTimeout(link, f) then BlockedPriority
    else NoPriority
  }

  function Max(x: int, y: int): int { if x < y then y else x }

  /** The largest offer among the first `n` candidates. */
  function MaxOffer(cs: seq<string>, fetch: nat -> Outcome, n: nat): (r: int)
    requires n <= |cs|
    ensures r >= NoPriority
    ensures forall k :: 0 <= k < n ==> Offer(cs[k], fetch(k)) <= r
  {
    if n == 0 then NoPriority else Max(MaxOffer(cs, fetch, n - 1), Offer(cs[n - 1], fetch(n - 1)))
  }

  /** The record a candidate brings when it is adopted. */
  function Chosen(query: string, link: string, f: Outcome): MovieMetadata
    requires Collected(link, f)
  {
    if Succeeded(f) then Patched(Offered(f), query) else BlockedRecord(query)
  }

  /** `j` is the first of the first `n` candidates whose offer is the maximum. */
  predicate EarliestBest(cs: seq<string>, fetch: nat -> Outcome, n: nat, j: nat)
    requires n <= |cs|
  {
    j < n && Offer(cs[j], fetch(j)) == MaxOffer(cs, fetch, n)
    && forall k :: 0 <= k < j ==> Offer(cs[k], fetch(k)) < MaxOffer(cs, fetch, n)
  }

  lemma OfferCollected(link: string, f: Outcome)
    requires FromParser(f)
    ensures Collected(link, f) <==> Offer(link, f) > NoPriority
    ensures Succeeded(f) ==> 4 <= Offer(link, f) <= 6
  {}

  /** A maximum above `NoPriority` is some candidate's offer. */
  lemma {:induction false} MaxOfferAttained(cs: seq<string>, fetch: nat -> Outcome, n: nat)
    requires n <= |cs| && MaxOffer(cs, fetch, n) > NoPriority
    ensures exists k :: 0 <= k < n && Offer(cs[k], fetch(k)) == MaxOffer(cs, fetch, n)
  {
    if MaxOffer(cs, fetch, n - 1) < Offer(cs[n - 1], fetch(n - 1)) {
    } else {
      MaxOfferAttained(cs, fetch, n - 1);
    }
  }

  /** `link_set` holds exactly the collected candidates seen so far. */
  lemma {:induction false} RunLinks(query: string, cs: seq<string>, fetch: nat -> Outcome, n: nat)
    requires n <= |cs|
    ensures forall x :: x in Run(query, cs, fetch, n).links
                        <==> exists k :: 0 <= k < n && cs[k] == x && Collected(cs[k], fetch(k))
  {
    if n > 0 {
      RunLinks(query, cs, fetch, n - 1);
    }
  }

  /** `max_prioity` is the largest offer seen so far. */
  lemma {:induction false} RunMaxPriority(query: string, cs: seq<string>, fetch: nat -> Outcome, n: nat)
    requires n <= |cs|
    ensures Run(query, cs, fetch, n).maxPriority == MaxOffer(cs, fetch, n)
  {
    if n > 0 {
      var a := Run(query, cs, fetch, n - 1);
      RunMaxPriority(query, cs, fetch, n - 1);
      assert Run(query, cs, fetch, n) == Step(query, a, cs[n - 1], fetch(n - 1));
    }
  }

  /** One step adopts the candidate's record exactly when its offer beats
      the running maximum. */
  lemma StepBest(query: string, a: Agg, link: string, f: Outcome)
    requires FromParser(f) && a.maxPriority >= NoPriority
    ensures Offer(link, f) > a.maxPriority ==> Collected(link, f) && Step(query, a, link, f).best == Chosen(query, link, f)
    ensures Offer(link, f) <= a.maxPriority ==> Step(query, a, link, f).best == a.best
  {}

  /** `main_meta` stays the initial record while nothing is collected. */
  lemma {:induction false} RunBestInitial(query: string, cs: seq<string>, fetch: nat -> Outcome, n: nat)
    requires n <= |cs| && AllFromParser(fetch)
    requires MaxOffer(cs, fetch, n) == NoPriority
    ensures Run(query, cs, fetch, n).best == InitialRecord(query)
  {
    if n > 0 {
      RunMaxPriority(query, cs, fetch, n - 1);
      StepBest(query, Run(query, cs, fetch, n - 1), cs[n - 1], fetch(n - 1));
      RunBestInitial(query, cs, fetch, n - 1);
    }
  }

  /** One more candidate either brings its record, when its offer beats
      every earlier one, or leaves `main_meta` as it was. */
  lemma RunStepBest(query: string, cs: seq<string>, fetch: nat -> Outcome, n: nat)
    requires 0 < n <= |cs| && AllFromParser(fetch)
    ensures Offer(cs[n - 1], fetch(n - 1)) > MaxOffer(cs, fetch, n - 1) ==>
              Collected(cs[n - 1], fetch(n - 1)) && Run(query, cs, fetch, n).best == Chosen(query, cs[n - 1], fetch(n - 1))
    ensures Offer(cs[n - 1], fetch(n - 1)) <= MaxOffer(cs, fetch, n - 1) ==>
              Run(query, cs, fetch, n).best == Run(query, cs, fetch, n - 1).best
  {
    var a, link, f := Run(query, cs, fetch, n - 1), cs[n - 1], fetch(n - 1);
    assert Run(query, cs, fetch, n) == Step(query, a, link, f);
    RunMaxPriority(query, cs, fetch, n - 1);
    assert FromParser(f);
    StepBest(query, a, link, f);
  }

  /** Afterwards `main_meta` is the record of the earliest candidate with the
      largest offer: the strict comparison keeps the first of equal offers. */
  lemma {:induction false} RunBest(query: string, cs: seq<string>, fetch: nat -> Outcome, n: nat, j: nat)
    requires n <= |cs| && AllFromParser(fetch)
    requires EarliestBest(cs, fetch, n, j) && MaxOffer(cs, fetch, n) > NoPriority
    ensures Collected(cs[j], fetch(j)) && Run(query, cs, fetch, n).best == Chosen(query, cs[j], fetch(j))
  {
    if Offer(cs[n - 1], fetch(n - 1)) <= MaxOffer(cs, fetch, n - 1) {
      EarliestBestShrinks(cs, fetch, n, j);
      RunBest(query, cs, fetch, n - 1, j);
      RunBestKept(query, cs, fetch, n, j);
    } else {
      RunBestRaised(query, cs, fetch, n, j);
    }
  }

  /** A candidate that does not beat the maximum leaves the earlier choice. */
  lemma RunBestKept(query: string, cs: seq<string>, fetch: nat -> Outcome, n: nat, j: nat)
    requires 0 < n <= |cs| && AllFromParser(fetch) && j < n - 1
    requires Offer(cs[n - 1], fetch(n - 1)) <= MaxOffer(cs, fetch, n - 1)
    requires Collected(cs[j], fetch(j)) && Run(query, cs, fetch, n - 1).best == Chosen(query, cs[j], fetch(j))
    ensures Run(query, cs, fetch, n).best == Chosen(query, cs[j], fetch(j))
  {
    RunStepBest(query, cs, fetch, n);
  }

  /** A candidate that beats the maximum is the earliest best one, and its
      record is adopted. */
  lemma RunBestRaised(query: string, cs: seq<string>, fetch: nat -> Outcome, n: nat, j: nat)
    requires 0 < n <= |cs| && AllFromParser(fetch)
    requires EarliestBest(cs, fetch, n, j)
    requires Offer(cs[n - 1], fetch(n - 1)) > MaxOffer(cs, fetch, n - 1)
    ensures j == n - 1
    ensures Collected(cs[j], fetch(j)) && Run(query, cs, fetch, n).best == Chosen(query, cs[j], fetch(j))
  {
    RunStepBest(query, cs, fetch, n);
    assert MaxOffer(cs, fetch, n) == Offer(cs[n - 1], fetch(n - 1));
  }

  /** When the last candidate does not raise the maximum, the earliest best
      candidate lies before it. */
  lemma EarliestBestShrinks(cs: seq<string>, fetch: nat -> Outcome, n: nat, j: nat)
    requires 0 < n <= |cs| && EarliestBest(cs, fetch, n, j) && MaxOffer(cs, fetch, n) > NoPriority
    requires Offer(cs[n - 1], fetch(n - 1)) <= MaxOffer(cs, fetch, n - 1)
    ensures EarliestBest(cs, fetch, n - 1, j)
  {
    MaxOfferAttained(cs, fetch, n - 1);
  }

  /** The index of the adopted candidate, found from the end. */
  function BestIndex(cs: seq<string>, fetch: nat -> Outcome, n: nat): (j: nat)
    requires n <= |cs| && MaxOffer(cs, fetch, n) > NoPriority
    ensures EarliestBest(cs, fetch, n, j)
  {
    if MaxOffer(cs, fetch, n - 1) < Offer(cs[n - 1], fetch(n - 1)) then n - 1
    else BestIndex(cs, fetch, n - 1)
  }

  /** Nothing is offered exactly when nothing is collected. */
  lemma {:induction false} NothingOffered(cs: seq<string>, fetch: nat -> Outcome, n: nat)
    requires n <= |cs| && AllFromParser(fetch)
    ensures MaxOffer(cs, fetch, n) == NoPriority <==> forall k :: 0 <= k < n ==> !Collected(cs[k], fetch(k))
  {
    if n > 0 {
      NothingOffered(cs, fetch, n - 1);
      OfferCollected(cs[n - 1], fetch(n - 1));
      forall k | 0 <= k < n - 1 {
        OfferCollected(cs[k], fetch(k));
      }
    }
  }

  /** Once a page has been parsed, the canned anime record (score 3) can no
      longer be the answer: the adopted record is a parsed one scoring 4 to 6. */
  lemma SuccessOutranksBlocked(query: string, cs: seq<string>, fetch: nat -> Outcome, n: nat, s: nat)
    requires n <= |cs| && AllFromParser(fetch)
    requires s < n && Succeeded(fetch(s))
    ensures 4 <= Run(query, cs, fetch, n).best.priority <= 6
    ensures Run(query, cs, fetch, n).best.title.Some?
  {
    assert FromParser(fetch(s));
    assert Offer(cs[s], fetch(s)) >= 4;
    var j := BestIndex(cs, fetch, n);
    RunBest(query, cs, fetch, n, j);
    assert FromParser(fetch(j));
  }

  // ---------------------------------------------------------------------------
  // The early exit and the size of the link set
  // ---------------------------------------------------------------------------

  /** What one step does to the set of links. */
  lemma StepLinks(query: string, a: Agg, link: string, f: Outcome)
    ensures Step(query, a, link, f).links == if Collected(link, f) then a.links + {link} else a.links
    ensures |a.links| <= |Step(query, a, link, f).links| <= |a.links| + 1
  {
    if Collected(link, f) {
      if link in a.links {
        assert a.links + {link} == a.links;
      } else {
        assert |a.links + {link}| == |a.links| + 1;
      }
    }
  }

  /** Three distinct pages that parse, in a row at the front, end the loop
      after the third: the set then holds exactly those three links. */
  lemma ThreeSuccessesStop(query: string, cs: seq<string>, fetch: nat -> Outcome)
    requires |cs| >= 3 && cs[0] != cs[1] && cs[0] != cs[2] && cs[1] != cs[2]
    requires Succeeded(fetch(0)) && Succeeded(fetch(1)) && Succeeded(fetch(2))
    ensures Visited(query, cs, fetch) == 3
    ensures Run(query, cs, fetch, 3).links == {cs[0], cs[1], cs[2]}
  {
    var a0 := Run(query, cs, fetch, 0);
    StepLinks(query, a0, cs[0], fetch(0));
    var a1 := Run(query, cs, fetch, 1);
    StepLinks(query, a1, cs[1], fetch(1));
    var a2 := Run(query, cs, fetch, 2);
    StepLinks(query, a2, cs[2], fetch(2));
    assert a1.links == {cs[0]};
    assert a2.links == {cs[0], cs[1]};
    assert |a2.links| == 2;
    assert !Breaks(query, cs, fetch, 0);
    assert !Breaks(query, cs, fetch, 1);
    assert Breaks(query, cs, fetch, 2);
  }

  /** Before the loop breaks, and with no anime timeout among the visited
      candidates, the set holds fewer than three links. */
  lemma {:induction false} BelowThreeBeforeBreak(query: string, cs: seq<string>, fetch: nat -> Outcome, n: nat)
    requires n <= |cs|
    requires forall k :: 0 <= k < n ==> !BlockedTimeout(cs[k], fetch(k)) && !Breaks(query, cs, fetch, k)
    ensures |Run(query, cs, fetch, n).links| < 3
  {
    if n > 0 {
      BelowThreeBeforeBreak(query, cs, fetch, n - 1);
      StepLinks(query, Run(query, cs, fetch, n - 1), cs[n - 1], fetch(n - 1));
      assert !Breaks(query, cs, fetch, n - 1);
    }
  }

  /** Without anime timeouts the answer never holds more than three links. */
  lemma AtMostThreeLinks(query: string, cs: seq<string>, fetch: nat -> Outcome)
    requires forall k :: 0 <= k < |cs| ==> !BlockedTimeout(cs[k], fetch(k))
    ensures |Run(query, cs, fetch, Visited(query, cs, fetch)).links| <= 3
  {
    var n := Visited(query, cs, fetch);
    if n > 0 {
      BelowThreeBeforeBreak(query, cs, fetch, n - 1);
      StepLinks(query, Run(query, cs, fetch, n - 1), cs[n - 1], fetch(n - 1));
    }
  }

  /** The timeout branch never checks the size: four distinct anime links
      that all time out leave four links in the set. */
  lemma AnimeTimeoutsOverflow(query: string, cs: seq<string>, fetch: nat -> Outcome)
    requires |cs| == 4 && forall k :: 0 <= k < 4 ==> BlockedTimeout(cs[k], fetch(k))
    requires forall i, j :: 0 <= i < j < 4 ==> cs[i] != cs[j]
    ensures Visited(query, cs, fetch) == 4
    ensures |Run(query, cs, fetch, Visited(query, cs, fetch)).links| == 4
  {
    assert VisitedFrom(query, cs, fetch, 3) == 4;
    assert VisitedFrom(query, cs, fetch, 2) == 4;
    assert VisitedFrom(query, cs, fetch, 1) == 4;
    assert VisitedFrom(query, cs, fetch, 0) == 4;
    var a0 := Run(query, cs, fetch, 0);
    StepLinks(query, a0, cs[0], fetch(0));
    var a1 := Run(query, cs, fetch, 1);
    StepLinks(query, a1, cs[1], fetch(1));
    var a2 := Run(query, cs, fetch, 2);
    StepLinks(query, a2, cs[2], fetch(2));
    var a3 := Run(query, cs, fetch, 3);
    StepLinks(query, a3, cs[3], fetch(3));
    assert a1.links == {cs[0]};
    assert a2.links == {cs[0], cs[1]};
    assert |a2.links| == 2;
    assert a3.links == a2.links + {cs[2]} && cs[2] !in a2.links;
    assert |a3.links| == 3;
    assert Run(query, cs, fetch, 4).links == a3.links + {cs[3]} && cs[3] !in a3.links;
  }

  // ---------------------------------------------------------------------------
  // The answer
  // ---------------------------------------------------------------------------

  /** With candidates but nothing collected, the answer is the first
      candidate with the initial record. */
  lemma ResolveFallback(query: string, hrefs: seq<string>, fetch: nat -> Outcome)
    requires AllFromParser(fetch)
    requires var cs := Candidates(hrefs);
             cs != [] && forall k :: 0 <= k < |cs| ==> !Collected(cs[k], fetch(k))
    ensures Resolve(query, Results(hrefs), fetch) == ({Candidates(hrefs)[0]}, Some(InitialRecord(query)))
  {
    var cs := Candidates(hrefs);
    var n := Visited(query, cs, fetch);
    RunLinks(query, cs, fetch, n);
    NothingOffered(cs, fetch, n);
    RunBestInitial(query, cs, fetch, n);
  }

  /** Otherwise the answer is the collected set with the record of the
      earliest candidate that made the best offer. */
  lemma ResolveChoosesEarliestBest(query: string, hrefs: seq<string>, fetch: nat -> Outcome)
    requires AllFromParser(fetch)
    requires var cs := Candidates(hrefs);
             Run(query, cs, fetch, Visited(query, cs, fetch)).links != {}
    ensures var cs := Candidates(hrefs);
            var n := Visited(query, cs, fetch);
            MaxOffer(cs, fetch, n) > NoPriority
            && Resolve(query, Results(hrefs), fetch)
               == (Run(query, cs, fetch, n).links, Some(Chosen(query, cs[BestIndex(cs, fetch, n)], fetch(BestIndex(cs, fetch, n)))))
  {
    var cs := Candidates(hrefs);
    var n := Visited(query, cs, fetch);
    RunLinks(query, cs, fetch, n);
    NothingOffered(cs, fetch, n);
    var j := BestIndex(cs, fetch, n);
    RunBest(query, cs, fetch, n, j);
  }
}
