/** The search a crawl makes of a site when no budget stops it. */
module Search {
  import opened Options
  import opened Pages
  import opened Graph
  import F = Frontier

  datatype PageState = Rendered | Degraded | FailedPage

  /** What one visit reports. */
  datatype Visit = Visit(state: PageState, capped: bool, loadErrors: bool,
                         requests: nat, dropped: set<string>, links: seq<Raw>)

  /** The application under test: where the crawl starts and what each page answers. */
  datatype Site = Site(seeds: seq<Raw>, visit: Page -> Visit)

  function Origins(site: Site): set<Origin> {
    F.SeedOrigins(site.seeds)
  }

  function SeedPages(site: Site): set<Page> {
    F.EligibleSet(Origins(site), site.seeds)
  }

  /** The pages one link away that lie on a seed origin. */
  function Links(site: Site, p: Page): set<Page> {
    F.EligibleSet(Origins(site), site.visit(p).links)
  }

  ghost function LinksOf(site: Site): Page -> set<Page> {
    (p: Page) => Links(site, p)
  }

  ghost predicate ReachablePage(site: Site, p: Page) {
    Reachable(SeedPages(site), LinksOf(site), p)
  }

  function Total(site: Site, order: seq<Page>): nat {
    if order == [] then 0
    else Total(site, order[..|order| - 1]) + site.visit(order[|order| - 1]).requests
  }

  // ---- the search, visit by visit ----

  /** What has been visited, what waits, and what has been seen. */
  datatype Stage = Stage(order: seq<Page>, queue: seq<Page>, seen: set<Page>)

  function Visited(site: Site, s: Stage): Stage
    requires s.queue != []
  {
    var head, rest := s.queue[0], s.queue[1..];
    var found := F.NewPages(Origins(site), s.seen, site.visit(head).links);
    Stage(s.order + [head], rest + found, s.seen + Links(site, head))
  }

  /** The search after `n` visits, or as many as there were to make. */
  function After(site: Site, n: nat): Stage {
    if n == 0 then Stage([], F.NewPages(Origins(site), {}, site.seeds), SeedPages(site))
    else
      var s := After(site, n - 1);
      if s.queue == [] then s else Visited(site, s)
  }

  lemma {:induction false} AfterProgress(site: Site, n: nat)
    ensures var s := After(site, n); Progress(SeedPages(site), LinksOf(site), s.order, s.queue, s.seen)
  {
    hide Progress, Grows, F.NewPages, F.EligibleSet, F.SeedOrigins;
    if n == 0 {
      var first := F.NewPages(Origins(site), {}, site.seeds);
      F.NewPagesGrow(Origins(site), [], {}, site.seeds);
      assert [] + first == first;
      ProgressStarts(SeedPages(site), LinksOf(site), first);
    } else {
      AfterProgress(site, n - 1);
      var s := After(site, n - 1);
      if s.queue != [] {
        var head, rest := s.queue[0], s.queue[1..];
        assert s.queue == [head] + rest;
        F.NewPagesGrow(Origins(site), rest, s.seen, site.visit(head).links);
        ProgressVisits(SeedPages(site), LinksOf(site), s.order, head, rest, After(site, n).queue, s.seen);
      }
    }
  }

  // ---- what a search visits, by the addresses it was offered ----

  /** Some seed is a page of this origin. */
  ghost predicate SeedOrigin(site: Site, o: Origin) {
    exists i :: 0 <= i < |site.seeds| && IsPage(site.seeds[i]) && PageOrigin(Normalise(site.seeds[i]).value) == o
  }

  predicate IsPage(url: Raw) {
    Normalise(url).Some?
  }

  /** A seed, or a link on one of the pages, is a spelling of the page. */
  ghost predicate Offered(site: Site, order: seq<Page>, p: Page) {
    F.Spells(site.seeds, p) || exists q <- order :: F.Spells(site.visit(q).links, p)
  }

  lemma OriginsAreSeeds(site: Site)
    ensures forall o :: o in Origins(site) <==> SeedOrigin(site, o)
  {
    forall o ensures o in Origins(site) <==> SeedOrigin(site, o) {
      if o in Origins(site) {
        var i :| 0 <= i < |site.seeds| && OriginOf(site.seeds[i]) == Some(o);
        assert IsPage(site.seeds[i]);
      }
      if SeedOrigin(site, o) {
        var i :| 0 <= i < |site.seeds| && IsPage(site.seeds[i]) && PageOrigin(Normalise(site.seeds[i]).value) == o;
        assert OriginOf(site.seeds[i]) == Some(o);
      }
    }
  }

  /** Every page of the search lies on a seed's origin and was offered before it was
      visited, and every page offered on one is seen. */
  ghost predicate OnOffer(site: Site, s: Stage) {
    && (forall p <- s.order :: SeedOrigin(site, PageOrigin(p)))
    && (forall p <- s.queue :: SeedOrigin(site, PageOrigin(p)) && Offered(site, s.order, p))
    && (forall i :: 0 <= i < |s.order| ==> Offered(site, s.order[..i], s.order[i]))
    && (forall p :: Offered(site, s.order, p) && SeedOrigin(site, PageOrigin(p)) ==> p in s.seen)
  }

  lemma OfferedMore(site: Site, order: seq<Page>, head: Page, p: Page)
    ensures Offered(site, order + [head], p) <==> Offered(site, order, p) || F.Spells(site.visit(head).links, p)
  {
    hide F.Spells;
    if F.Spells(site.visit(head).links, p) {
      assert head in order + [head];
    }
    if q :| q in order && F.Spells(site.visit(q).links, p) {
      assert q in order + [head];
    }
  }

  lemma OfferedBySite(site: Site, urls: seq<Raw>, p: Page)
    ensures F.OfferedOn(Origins(site), urls, p) <==> SeedOrigin(site, PageOrigin(p)) && F.Spells(urls, p)
  {
    OriginsAreSeeds(site);
    hide SeedOrigin, Origins;
  }

  /** What one visit adds to the offers, and what of it is queued and seen. */
  lemma VisitOffers(site: Site, s: Stage, p: Page)
    requires s.queue != []
    ensures var z, links := Visited(site, s), site.visit(s.queue[0]).links;
      && (Offered(site, z.order, p) <==> Offered(site, s.order, p) || F.Spells(links, p))
      && (p in z.queue ==> p in s.queue || (SeedOrigin(site, PageOrigin(p)) && F.Spells(links, p)))
      && (p in z.seen <==> p in s.seen || (SeedOrigin(site, PageOrigin(p)) && F.Spells(links, p)))
  {
    var head, links := s.queue[0], site.visit(s.queue[0]).links;
    F.NewPagesOffered(Origins(site), s.seen, links);
    F.EligibleOffered(Origins(site), links);
    hide SeedOrigin, Offered, F.Spells, F.OfferedOn, F.NewPages, F.EligibleSet, Origins;
    OfferedBySite(site, links, p);
    OfferedMore(site, s.order, head, p);
  }

  lemma VisitedOnOffer(site: Site, s: Stage)
    requires s.queue != [] && OnOffer(site, s)
    ensures OnOffer(site, Visited(site, s))
  {
    hide SeedOrigin, Offered, F.Spells, F.NewPages, F.EligibleSet, Origins;
    var z := Visited(site, s);
    var head, links := s.queue[0], site.visit(s.queue[0]).links;
    assert head in s.queue;
    forall p ensures
      && (Offered(site, z.order, p) <==> Offered(site, s.order, p) || F.Spells(links, p))
      && (p in z.queue ==> p in s.queue || (SeedOrigin(site, PageOrigin(p)) && F.Spells(links, p)))
      && (p in z.seen <==> p in s.seen || (SeedOrigin(site, PageOrigin(p)) && F.Spells(links, p)))
    {
      VisitOffers(site, s, p);
    }
    forall i | 0 <= i < |z.order| ensures Offered(site, z.order[..i], z.order[i]) {
      assert z.order[..i] == s.order[..i];
    }
  }

  lemma {:induction false} AfterOnOffer(site: Site, n: nat)
    ensures OnOffer(site, After(site, n))
  {
    hide F.NewPages, F.EligibleSet, F.SeedOrigins, OnOffer;
    if n == 0 {
      StartOnOffer(site);
    } else {
      AfterOnOffer(site, n - 1);
      var s := After(site, n - 1);
      if s.queue != [] {
        VisitedOnOffer(site, s);
      }
    }
  }

  lemma StartOnOffer(site: Site)
    ensures OnOffer(site, After(site, 0))
  {
    F.NewPagesOffered(Origins(site), {}, site.seeds);
    F.EligibleOffered(Origins(site), site.seeds);
    hide SeedOrigin, F.Spells, F.OfferedOn, F.NewPages, F.EligibleSet, Origins;
    forall p ensures
      F.OfferedOn(Origins(site), site.seeds, p) <==> SeedOrigin(site, PageOrigin(p)) && F.Spells(site.seeds, p)
    {
      OfferedBySite(site, site.seeds, p);
    }
  }

  lemma AfterVisit(site: Site, order: seq<Page>, head: Page, rest: seq<Page>, seen: set<Page>)
    requires After(site, |order|) == Stage(order, [head] + rest, seen)
    ensures var links := site.visit(head).links;
      After(site, |order| + 1)
      == Stage(order + [head], rest + F.NewPages(Origins(site), seen, links),
               seen + F.EligibleSet(Origins(site), links))
  {
    hide F.NewPages, F.EligibleSet, F.SeedOrigins;
    assert ([head] + rest)[1..] == rest;
  }

  /** While anything waits, every visit made one more page. */
  lemma {:induction false} AfterLength(site: Site, n: nat)
    ensures |After(site, n).order| <= n
    ensures After(site, n).queue != [] ==> |After(site, n).order| == n
  {
    hide F.NewPages, F.EligibleSet, F.SeedOrigins;
    if n > 0 {
      AfterLength(site, n - 1);
    }
  }

  lemma AfterStep(site: Site, n: nat)
    ensures After(site, n).order <= After(site, n + 1).order
    ensures After(site, n).queue == [] ==> After(site, n + 1) == After(site, n)
  {
    hide F.NewPages, F.EligibleSet, F.SeedOrigins;
  }

  lemma {:induction false} AfterPrefix(site: Site, n: nat, m: nat)
    requires n <= m
    ensures After(site, n).order <= After(site, m).order
    ensures After(site, n).queue == [] ==> After(site, m) == After(site, n)
    decreases m
  {
    hide After;
    if n < m {
      AfterPrefix(site, n, m - 1);
      AfterStep(site, m - 1);
    }
  }

  /** `r` is all there is to reach. */
  ghost predicate AllOf(site: Site, r: set<Page>) {
    forall p :: p in r <==> ReachablePage(site, p)
  }

  /** A finite site is exhausted by as many visits as it has pages, and by none
      fewer. */
  lemma Exhausts(site: Site, r: set<Page>, n: nat)
    requires AllOf(site, r)
    ensures After(site, n).queue == [] <==> |r| <= n
    ensures |r| <= n ==> |After(site, n).order| == |r| && Elements(After(site, n).order) == r
    ensures n <= |r| ==> |After(site, n).order| == n
  {
    hide Progress, Distinct, After;
    AfterWithin(site, r, n);
    if n > 0 {
      AfterWithin(site, r, n - 1);
      AfterPrefix(site, n - 1, n);
    }
  }

  lemma AfterWithin(site: Site, r: set<Page>, n: nat)
    requires AllOf(site, r)
    ensures var s := After(site, n);
      && |s.order| <= n && (s.queue != [] ==> |s.order| == n < |r|)
      && (s.queue == [] ==> |s.order| == |r| && Elements(s.order) == r)
  {
    var s := After(site, n);
    AfterProgress(site, n);
    AfterLength(site, n);
    ProgressMeans(SeedPages(site), LinksOf(site), s.order, s.queue, s.seen);
    hide After;
    var found := s.order + s.queue;
    DistinctCount(found);
    DistinctCount(s.order);
    assert Elements(found) <= r;
    SubsetCount(Elements(found), r);
    if s.queue == [] {
      assert Elements(s.order) == r;
    }
  }

  lemma SubsetCount<T>(a: set<T>, b: set<T>)
    requires a <= b
    ensures |a| <= |b|
  {
    assert b == a + (b - a);
  }

  lemma {:induction false} DistinctCount<T>(s: seq<T>)
    requires Distinct(s)
    ensures |Elements(s)| == |s|
  {
    if s != [] {
      DistinctCount(s[1..]);
      assert Elements(s) == {s[0]} + Elements(s[1..]);
    }
  }

  lemma {:induction false} TotalGrows(site: Site, order: seq<Page>, n: nat)
    requires n <= |order|
    ensures Total(site, order[..n]) <= Total(site, order)
    decreases |order|
  {
    if n < |order| {
      TotalGrows(site, order[..|order| - 1], n);
      assert order[..|order| - 1][..n] == order[..n];
    } else {
      assert order[..n] == order;
    }
  }
}
