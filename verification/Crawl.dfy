/** `hx.crawl.run.crawl`: drive the frontier until it is empty or a budget stops it. */
module Crawl {
  import opened Options
  import opened Pages
  import opened Graph
  import opened Search
  import F = Frontier

  datatype Counts = Counts(rendered: nat, degraded: nat, failed: nat, capped: nat, loadFailed: nat,
                           requests: nat, dropped: set<string>)

  datatype Summary = Summary(pages: nat, counts: Counts, truncatedBy: Option<F.Limit>)

  // ---- what the crawl is measured against ---------------------------------

  function DroppedBy(site: Site, order: seq<Page>): set<string> {
    set i, h | 0 <= i < |order| && h in site.visit(order[i]).dropped :: h
  }

  /** How many of the pages visited reported `what`. */
  function Tally(site: Site, order: seq<Page>, what: Visit -> bool): nat {
    if order == [] then 0
    else Tally(site, order[..|order| - 1], what)
         + if what(site.visit(order[|order| - 1])) then 1 else 0
  }

  const IS_RENDERED := (v: Visit) => v.state.Rendered?
  const IS_DEGRADED := (v: Visit) => v.state.Degraded?
  const IS_FAILED := (v: Visit) => v.state.FailedPage?
  const IS_CAPPED := (v: Visit) => v.capped
  const HAS_LOAD_ERRORS := (v: Visit) => v.loadErrors

  ghost predicate Tallied(site: Site, order: seq<Page>, c: Counts) {
    && c.rendered == Tally(site, order, IS_RENDERED) && c.degraded == Tally(site, order, IS_DEGRADED)
    && c.failed == Tally(site, order, IS_FAILED) && c.capped == Tally(site, order, IS_CAPPED)
    && c.loadFailed == Tally(site, order, HAS_LOAD_ERRORS)
    && c.requests == Total(site, order) && c.dropped == DroppedBy(site, order)
    && c.rendered + c.degraded + c.failed == |order|
  }

  // ---- the loop --------------------------------------------------------------

  lemma TallyStep(site: Site, order: seq<Page>, page: Page, what: Visit -> bool)
    ensures Tally(site, order + [page], what)
            == Tally(site, order, what) + if what(site.visit(page)) then 1 else 0
    ensures Total(site, order + [page]) == Total(site, order) + site.visit(page).requests
  {
    assert (order + [page])[..|order|] == order;
  }

  lemma DroppedStep(site: Site, order: seq<Page>, page: Page)
    ensures DroppedBy(site, order + [page]) == DroppedBy(site, order) + site.visit(page).dropped
  {
    var next := order + [page];
    forall i, h | 0 <= i < |order| && h in site.visit(order[i]).dropped ensures h in DroppedBy(site, next) {
      assert next[i] == order[i];
    }
    assert next[|order|] == page;
  }

  /** Adds one page's report to the running counts. */
  method Count(site: Site, ghost order: seq<Page>, page: Page, c: Counts) returns (r: Counts)
    requires Tallied(site, order, c)
    ensures Tallied(site, order + [page], r)
  {
    var v := site.visit(page);
    r := c;
    match v.state {
      case Rendered => r := r.(rendered := r.rendered + 1);
      case Degraded => r := r.(degraded := r.degraded + 1);
      case FailedPage => r := r.(failed := r.failed + 1);
    }
    if v.capped { r := r.(capped := r.capped + 1); }
    if v.loadErrors { r := r.(loadFailed := r.loadFailed + 1); }
    r := r.(requests := r.requests + v.requests, dropped := r.dropped + v.dropped);
    TallyStep(site, order, page, IS_RENDERED);
    TallyStep(site, order, page, IS_DEGRADED);
    TallyStep(site, order, page, IS_FAILED);
    TallyStep(site, order, page, IS_CAPPED);
    TallyStep(site, order, page, HAS_LOAD_ERRORS);
    DroppedStep(site, order, page);
  }

  /** Visit `i` started with no budget spent. */
  predicate StartsWithin(site: Site, b: F.Budget, start: real, clock: nat -> real, order: seq<Page>, i: nat)
    requires i <= |order|
  {
    F.Spent(b, i, Total(site, order[..i]), clock(i) - start).None?
  }

  ghost predicate WithinBudget(site: Site, b: F.Budget, start: real, clock: nat -> real, order: seq<Page>) {
    forall i :: 0 <= i < |order| ==> StartsWithin(site, b, start, clock, order, i)
  }

  lemma StartStands(site: Site, b: F.Budget, start: real, clock: nat -> real, order: seq<Page>, page: Page, i: nat)
    requires i <= |order| && StartsWithin(site, b, start, clock, order, i)
    ensures StartsWithin(site, b, start, clock, order + [page], i)
  {
    hide Total, F.Spent;
    assert (order + [page])[..i] == order[..i];
  }

  lemma BudgetStep(site: Site, b: F.Budget, start: real, clock: nat -> real, order: seq<Page>, page: Page)
    requires WithinBudget(site, b, start, clock, order)
    requires F.Spent(b, |order|, Total(site, order), clock(|order|) - start).None?
    ensures WithinBudget(site, b, start, clock, order + [page])
  {
    assert order[..|order|] == order;
    assert StartsWithin(site, b, start, clock, order, |order|);
    hide StartsWithin, Total, F.Spent;
    forall i | 0 <= i < |order + [page]| ensures StartsWithin(site, b, start, clock, order + [page], i) {
      StartStands(site, b, start, clock, order, page, i);
    }
  }

  /** What a crawl leaves behind: the search up to some visit, none of them begun
      with a budget spent, and either a budget spent then or nothing left. */
  ghost predicate Ended(site: Site, b: F.Budget, start: real, clock: nat -> real, order: seq<Page>,
                        why: Option<F.Limit>) {
    && After(site, |order|).order == order && WithinBudget(site, b, start, clock, order)
    && why == F.Spent(b, |order|, Total(site, order), clock(|order|) - start)
    && (why.None? ==> After(site, |order|).queue == [])
  }

  /** `clock(n)` is what the monotonic clock reads when `next` is called with `n`
      pages visited; the frontier was made at `start`. `order` is the pages in the
      order they were visited. */
  method Crawl(site: Site, budget: F.Budget, start: real, clock: nat -> real)
      returns (summary: Summary, order: seq<Page>)
    // each page once, nearest first, none but the reachable
    ensures Distinct(order) && NearFirst(SeedPages(site), LinksOf(site), order)
    ensures forall p :: p in order ==> ReachablePage(site, p)
    // each at the end of a path from a seed page, and no page visited later has a shorter one
    ensures ByShortestPath(site, order)
    // the unbudgeted search, up to where a budget cuts it
    ensures Ended(site, budget, start, clock, order, summary.truncatedBy)
    ensures |order| <= if budget.maxPages < 0 then 0 else budget.maxPages
    ensures summary.truncatedBy.None? ==> forall p :: p in order <==> ReachablePage(site, p)
    // on the seeds' origins and nowhere else, and there, unless a budget stops it, everything it is offered
    ensures OnSite(site, order)
    ensures summary.truncatedBy.None? ==> MissesNothing(site, order)
    // what it reports
    ensures summary.pages == |order| && Tallied(site, order, summary.counts)
  {
    hide Progress, Tallied, NearFirst, ShortestFirst, ByShortestPath, Distinct, F.EligibleSet, F.NewPages;
    hide F.SeedOrigins, F.Queues, Total, WithinBudget, OnSite, MissesNothing, After;
    var frontier := new F.Frontier(site.seeds, budget, start);
    order := [];
    var counts := Counts(0, 0, 0, 0, 0, 0, {});
    NothingTallied(site, budget, start, clock);
    NothingVisited(site);
    while true
      invariant fresh(frontier)
      invariant frontier.budget == budget && frontier.started == start && frontier.exhausted.None?
      invariant frontier.origins == Origins(site)
      invariant frontier.visited == |order| && frontier.requests == counts.requests == Total(site, order)
      invariant After(site, |order|) == Stage(order, frontier.queue, frontier.seen)
      invariant WithinBudget(site, budget, start, clock, order)
      invariant |order| <= if budget.maxPages < 0 then 0 else budget.maxPages
      invariant Tallied(site, order, counts)
      decreases budget.maxPages - |order|
    {
      var url := frontier.Next(clock(|order|));
      if url.None? {
        break;
      }
      var result := site.visit(url.value);
      BudgetStep(site, budget, start, clock, order, url.value);
      AfterVisit(site, order, url.value, frontier.queue, frontier.seen);
      counts := Count(site, order, url.value, counts);
      frontier.NoteRequests(result.requests);
      var _ := frontier.Offer(result.links);
      TallyStep(site, order, url.value, IS_CAPPED);
      order := order + [url.value];
      TotalTallied(site, order, counts);
    }
    summary := Summary(frontier.visited, counts, frontier.exhausted);
    OrderMeans(site, order);
  }

  ghost predicate ByShortestPath(site: Site, order: seq<Page>) {
    && ShortestFirst(SeedPages(site), LinksOf(site), order)
    && forall p <- order :: exists path :: PathTo(SeedPages(site), LinksOf(site), path, p)
  }

  /** Each page visited lies on the origin of some seed, and is what a seed, or a link
      on a page visited before it, spells. */
  ghost predicate OnSite(site: Site, order: seq<Page>) {
    forall i :: 0 <= i < |order| ==>
      SeedOrigin(site, PageOrigin(order[i])) && Offered(site, order[..i], order[i])
  }

  /** Whatever the seeds and the pages visited spell on the origin of a seed is
      visited. */
  ghost predicate MissesNothing(site: Site, order: seq<Page>) {
    forall p :: Offered(site, order, p) && SeedOrigin(site, PageOrigin(p)) ==> p in order
  }

  lemma OnSiteMeans(site: Site, order: seq<Page>)
    requires After(site, |order|).order == order
    ensures OnSite(site, order) && (After(site, |order|).queue == [] ==> MissesNothing(site, order))
  {
    hide After, Progress, Offered, SeedOrigin;
    AfterProgress(site, |order|);
    AfterOnOffer(site, |order|);
    var s := After(site, |order|);
    ProgressSeen(SeedPages(site), LinksOf(site), order, s.queue, s.seen);
    forall i | 0 <= i < |order| ensures SeedOrigin(site, PageOrigin(order[i])) && Offered(site, order[..i], order[i]) {
      assert order[i] in s.order;
    }
    if s.queue == [] {
      assert order + s.queue == order;
    }
  }

  lemma OrderMeans(site: Site, order: seq<Page>)
    requires After(site, |order|).order == order
    ensures Distinct(order) && NearFirst(SeedPages(site), LinksOf(site), order) && ByShortestPath(site, order)
    ensures forall p :: p in order ==> ReachablePage(site, p)
    ensures After(site, |order|).queue == [] ==> forall p :: p in order <==> ReachablePage(site, p)
    ensures OnSite(site, order) && (After(site, |order|).queue == [] ==> MissesNothing(site, order))
  {
    OnSiteMeans(site, order);
    hide OnSite, MissesNothing, ShortestFirst, PathTo, After, Progress, Distinct, NearFirst;
    AfterProgress(site, |order|);
    var s := After(site, |order|);
    ProgressMeans(SeedPages(site), LinksOf(site), order, s.queue, s.seen);
    NearIsShortest(SeedPages(site), LinksOf(site), order);
    forall p | p in order ensures exists path :: PathTo(SeedPages(site), LinksOf(site), path, p) {
      ReachableByPath(SeedPages(site), LinksOf(site), p);
    }
  }

  lemma NothingTallied(site: Site, b: F.Budget, start: real, clock: nat -> real)
    ensures Tallied(site, [], Counts(0, 0, 0, 0, 0, 0, {}))
    ensures WithinBudget(site, b, start, clock, []) && Total(site, []) == 0
  {
  }

  lemma NothingVisited(site: Site)
    ensures After(site, 0)
      == Stage([], F.NewPages(Origins(site), {}, site.seeds), F.EligibleSet(Origins(site), site.seeds))
  {
  }

  lemma TotalTallied(site: Site, order: seq<Page>, c: Counts)
    requires Tallied(site, order, c)
    ensures c.requests == Total(site, order)
  {
  }

  // ---- when a budget is named, and when that is no loss ----

  /** No budget is spent when `i` pages of the whole search have been visited. */
  predicate Affords(site: Site, b: F.Budget, start: real, clock: nat -> real, i: nat) {
    F.Spent(b, i, Total(site, After(site, i).order), clock(i) - start).None?
  }

  lemma StartsAfford(site: Site, b: F.Budget, start: real, clock: nat -> real, order: seq<Page>, i: nat)
    requires After(site, |order|).order == order && i <= |order| && |After(site, i).order| == i
    ensures StartsWithin(site, b, start, clock, order, i) <==> Affords(site, b, start, clock, i)
  {
    AfterPrefix(site, i, |order|);
    assert order[..i] == After(site, i).order;
  }

  /** Every budget lasts through `n` visits of the whole search: the pages and the
      requests of those visits leave room, and the clock does all along. */
  predicate Outlasts(site: Site, b: F.Budget, start: real, clock: nat -> real, n: nat) {
    && n < b.maxPages && Total(site, After(site, n).order) < b.maxRequests
    && forall i :: 0 <= i <= n ==> clock(i) - start < b.maxSeconds
  }

  lemma OutlastsExactlyWhen(site: Site, b: F.Budget, start: real, clock: nat -> real, n: nat)
    requires |After(site, n).order| == n
    ensures Outlasts(site, b, start, clock, n) <==> forall i :: 0 <= i <= n ==> Affords(site, b, start, clock, i)
  {
    hide After, Total;
    forall i | 0 <= i <= n ensures Total(site, After(site, i).order) <= Total(site, After(site, n).order) {
      AfterPrefix(site, i, n);
      var order := After(site, n).order;
      TotalGrows(site, order, |After(site, i).order|);
      assert After(site, i).order == order[..|After(site, i).order|];
    }
    if forall i :: 0 <= i <= n ==> Affords(site, b, start, clock, i) {
      assert Affords(site, b, start, clock, n);
      forall i | 0 <= i <= n ensures clock(i) - start < b.maxSeconds {
        assert Affords(site, b, start, clock, i);
      }
    }
  }

  /** A crawl names no budget exactly when the pages to reach are finitely many and
      every budget lasts through the visits to them all, with room for one more. */
  lemma UntruncatedExactlyWhen(site: Site, b: F.Budget, start: real, clock: nat -> real, order: seq<Page>,
                               why: Option<F.Limit>)
    requires Ended(site, b, start, clock, order, why)
    ensures why.None? <==> exists r: set<Page> :: AllOf(site, r) && Outlasts(site, b, start, clock, |r|)
  {
    hide F.Spent, After, Total, Outlasts;
    if why.None? {
      var r := Elements(order);
      ExhaustedIsAll(site, order);
      assert order[..|order|] == order;
      forall i | 0 <= i <= |r| ensures Affords(site, b, start, clock, i) {
        Exhausts(site, r, i);
        StartsAfford(site, b, start, clock, order, i);
      }
      OutlastsExactlyWhen(site, b, start, clock, |r|);
    }
    if r: set<Page> :| AllOf(site, r) && Outlasts(site, b, start, clock, |r|) {
      Exhausts(site, r, |r|);
      OutlastsExactlyWhen(site, b, start, clock, |r|);
      Exhausts(site, r, |order|);
      assert Affords(site, b, start, clock, |order|);
    }
  }

  /** It visits every page there is exactly when those are finitely many and every
      budget lasts until the last of them is begun. Between this condition and the
      one before lie the crawls that finished and still name a budget. */
  lemma CompleteExactlyWhen(site: Site, b: F.Budget, start: real, clock: nat -> real, order: seq<Page>,
                            why: Option<F.Limit>)
    requires Ended(site, b, start, clock, order, why)
    ensures (forall p :: p in order <==> ReachablePage(site, p)) <==>
      exists r: set<Page> :: AllOf(site, r) && (r == {} || Outlasts(site, b, start, clock, |r| - 1))
  {
    hide Ended, After, Outlasts;
    if forall p :: p in order <==> ReachablePage(site, p) {
      assert forall p :: p in order <==> p in Elements(order);
      CompleteLasts(site, b, start, clock, order, why, Elements(order));
    }
    if r: set<Page> :| AllOf(site, r) && (r == {} || Outlasts(site, b, start, clock, |r| - 1)) {
      LastingCompletes(site, b, start, clock, order, why, r);
      assert forall p :: p in order <==> p in Elements(order);
    }
  }

  lemma CompleteLasts(site: Site, b: F.Budget, start: real, clock: nat -> real, order: seq<Page>,
                      why: Option<F.Limit>, r: set<Page>)
    requires Ended(site, b, start, clock, order, why) && AllOf(site, r) && Elements(order) == r
    ensures r == {} || Outlasts(site, b, start, clock, |r| - 1)
  {
    hide F.Spent, After, Total, Outlasts;
    OrderCount(site, order);
    forall i | 0 <= i < |r| ensures Affords(site, b, start, clock, i) {
      Exhausts(site, r, i);
      assert StartsWithin(site, b, start, clock, order, i);
      StartsAfford(site, b, start, clock, order, i);
    }
    if r != {} {
      Exhausts(site, r, |r| - 1);
      OutlastsExactlyWhen(site, b, start, clock, |r| - 1);
    }
  }

  lemma LastingCompletes(site: Site, b: F.Budget, start: real, clock: nat -> real, order: seq<Page>,
                         why: Option<F.Limit>, r: set<Page>)
    requires Ended(site, b, start, clock, order, why) && AllOf(site, r)
    requires r == {} || Outlasts(site, b, start, clock, |r| - 1)
    ensures Elements(order) == r
  {
    hide F.Spent, After, Total, Outlasts;
    Exhausts(site, r, |order|);
    var affords := Affords(site, b, start, clock, |order|);
    if r != {} {
      Exhausts(site, r, |r| - 1);
      OutlastsExactlyWhen(site, b, start, clock, |r| - 1);
    }
  }

  lemma OrderCount(site: Site, order: seq<Page>)
    requires After(site, |order|).order == order
    ensures |Elements(order)| == |order|
  {
    AfterProgress(site, |order|);
    var s := After(site, |order|);
    ProgressMeans(SeedPages(site), LinksOf(site), order, s.queue, s.seen);
    DistinctCount(order);
  }

  lemma ExhaustedIsAll(site: Site, order: seq<Page>)
    requires After(site, |order|) == Stage(order, [], After(site, |order|).seen)
    ensures AllOf(site, Elements(order)) && |Elements(order)| == |order|
  {
    AfterProgress(site, |order|);
    ProgressMeans(SeedPages(site), LinksOf(site), order, [], After(site, |order|).seen);
    DistinctCount(order);
  }

  /** A crawl that visited everything and happened to do so on exactly `max_pages`
      still names the budget: `next` asks about budgets before the empty queue. */
  method CompleteYetTruncated(site: Site, home: Page, start: real, clock: nat -> real)
      returns (summary: Summary, order: seq<Page>)
    requires SeedPages(site) == {home} && Links(site, home) <= {home} && clock(0) == start
    ensures order == [home] && forall p :: ReachablePage(site, p) <==> p == home
    ensures summary.truncatedBy == Some(F.MaxPages)
  {
    hide ByShortestPath;
    OnlyHome(site, home);
    summary, order := Crawl(site, F.Budget(1, 1.0, 1), start, clock);
    assert order != [] by {
      assert ReachablePage(site, home);
    }
    assert order[0] in order;
  }

  lemma OnlyHome(site: Site, home: Page)
    requires SeedPages(site) == {home} && Links(site, home) <= {home}
    ensures forall p :: ReachablePage(site, p) <==> p == home
  {
    assert home in Within(SeedPages(site), LinksOf(site), 0);
    forall p, n: nat | p in Within(SeedPages(site), LinksOf(site), n) ensures p == home {
      StaysHome(LinksOf(site), home, n);
    }
  }

  lemma {:induction false} StaysHome(links: Page -> set<Page>, home: Page, n: nat)
    requires links(home) <= {home}
    ensures Within({home}, links, n) == {home}
  {
    if n > 0 {
      StaysHome(links, home, n - 1);
    }
  }
}
