/** `hx.crawl.frontier.Frontier`: the queue, the seen-set and the budgets. */
module Frontier {
  import opened Options
  import opened Pages
  import opened Graph

  datatype Limit = MaxPages | MaxRequests | MaxSeconds

  datatype Budget = Budget(maxPages: int, maxSeconds: real, maxRequests: int)

  /** The first budget spent, in the order `next` asks. */
  function Spent(b: Budget, visited: int, requests: int, elapsed: real): Option<Limit> {
    if visited >= b.maxPages then Some(MaxPages)
    else if requests >= b.maxRequests then Some(MaxRequests)
    else if elapsed >= b.maxSeconds then Some(MaxSeconds)
    else None
  }

  /** The page an offered address would be queued as. */
  function Eligible(origins: set<Origin>, url: Raw): Option<Page> {
    var n := Normalise(url);
    if n.Some? && OriginOf(Reparse(n.value)).Some? && OriginOf(Reparse(n.value)).value in origins
    then n else None
  }

  /** An address is queued as its own canonical form, and only when that is a page on
      one of the origins. */
  lemma EligibleMeans(origins: set<Origin>, url: Raw)
    ensures var n := Normalise(url);
      Eligible(origins, url) == if n.Some? && PageOrigin(n.value) in origins then n else None
  {
    if Normalise(url).Some? {
      NormaliseIdempotent(url);
    }
  }

  function EligibleSet(origins: set<Origin>, urls: seq<Raw>): set<Page> {
    set i | 0 <= i < |urls| && Eligible(origins, urls[i]).Some? :: Eligible(origins, urls[i]).value
  }

  function SeedOrigins(seeds: seq<Raw>): set<Origin> {
    set i | 0 <= i < |seeds| && OriginOf(seeds[i]).Some? :: OriginOf(seeds[i]).value
  }

  /** The pages of a list of addresses that were not seen, each where it first
      stands. */
  function NewPages(origins: set<Origin>, seen: set<Page>, urls: seq<Raw>): seq<Page> {
    if urls == [] then []
    else
      var before, e := NewPages(origins, seen, urls[..|urls| - 1]), Eligible(origins, urls[|urls| - 1]);
      if e.Some? && e.value !in seen && e.value !in before then before + [e.value] else before
  }

  lemma {:induction false} NewPagesGrow(origins: set<Origin>, queue: seq<Page>, seen: set<Page>, urls: seq<Raw>)
    ensures Grows(queue, seen, queue + NewPages(origins, seen, urls), EligibleSet(origins, urls))
    ensures Elements(NewPages(origins, seen, urls)) == EligibleSet(origins, urls) - seen
  {
    if urls == [] {
      assert queue + [] == queue && queue[|queue|..] == [];
      assert EligibleSet(origins, urls) == {};
    } else {
      var n := |urls| - 1;
      var before, e := NewPages(origins, seen, urls[..n]), Eligible(origins, urls[n]);
      NewPagesGrow(origins, queue, seen, urls[..n]);
      EligiblePrefix(origins, urls, n);
      assert urls[..n + 1] == urls;
      hide Grows, EligibleSet, Eligible;
      GrowsStep(queue, seen, queue + before, EligibleSet(origins, urls[..n]), e);
      if e.Some? {
        assert e.value in before <==> e.value in Elements(before);
        assert queue + before + [e.value] == queue + (before + [e.value]);
        assert Elements(before + [e.value]) == Elements(before) + {e.value};
      }
    }
  }

  lemma NewPagesStep(origins: set<Origin>, seen: set<Page>, urls: seq<Raw>, i: nat)
    requires i < |urls|
    ensures var before, e := NewPages(origins, seen, urls[..i]), Eligible(origins, urls[i]);
      && NewPages(origins, seen, urls[..i + 1])
         == (if e.Some? && e.value !in seen + EligibleSet(origins, urls[..i]) then before + [e.value] else before)
      && EligibleSet(origins, urls[..i + 1])
         == (if e.Some? then EligibleSet(origins, urls[..i]) + {e.value} else EligibleSet(origins, urls[..i]))
  {
    EligiblePrefix(origins, urls, i);
    NewPagesGrow(origins, [], seen, urls[..i]);
    assert urls[..i + 1][..i] == urls[..i];
    hide Eligible, EligibleSet;
    var e, before := Eligible(origins, urls[i]), NewPages(origins, seen, urls[..i]);
    assert e.Some? ==> (e.value in before <==> e.value in Elements(before));
  }

  /** Some of the addresses is a spelling of the page. */
  predicate Spells(urls: seq<Raw>, p: Page) {
    exists i :: 0 <= i < |urls| && Normalise(urls[i]) == Some(p)
  }

  /** And the page is on one of the origins. */
  predicate OfferedOn(origins: set<Origin>, urls: seq<Raw>, p: Page) {
    PageOrigin(p) in origins && Spells(urls, p)
  }

  lemma EligibleOffered(origins: set<Origin>, urls: seq<Raw>)
    ensures forall p :: p in EligibleSet(origins, urls) <==> OfferedOn(origins, urls, p)
  {
    hide Eligible, Normalise;
    forall i | 0 <= i < |urls| ensures Eligible(origins, urls[i])
      == (var n := Normalise(urls[i]); if n.Some? && PageOrigin(n.value) in origins then n else None)
    {
      EligibleMeans(origins, urls[i]);
    }
    forall p ensures p in EligibleSet(origins, urls) <==> OfferedOn(origins, urls, p) {
      if p in EligibleSet(origins, urls) {
        var i :| 0 <= i < |urls| && Eligible(origins, urls[i]) == Some(p);
        assert Normalise(urls[i]) == Some(p);
      }
      if OfferedOn(origins, urls, p) {
        var i :| 0 <= i < |urls| && Normalise(urls[i]) == Some(p);
        assert Eligible(origins, urls[i]) == Some(p);
      }
    }
  }

  /** What is queued was offered and lies on one of the origins, and of what was
      offered there nothing new is missed. */
  ghost predicate Queues(origins: set<Origin>, urls: seq<Raw>, was: seq<Page>, seen: set<Page>, queue: seq<Page>) {
    was <= queue && forall p :: p in queue[|was|..] <==> OfferedOn(origins, urls, p) && p !in seen
  }

  lemma NewPagesOffered(origins: set<Origin>, seen: set<Page>, urls: seq<Raw>)
    ensures forall p :: p in NewPages(origins, seen, urls) <==> OfferedOn(origins, urls, p) && p !in seen
  {
    NewPagesGrow(origins, [], seen, urls);
    EligibleOffered(origins, urls);
    hide NewPages, EligibleSet, OfferedOn;
    assert forall p :: p in NewPages(origins, seen, urls) <==> p in Elements(NewPages(origins, seen, urls));
  }

  /** One page more at the end, or seen already. */
  lemma OneMore(queue: seq<Page>, before: seq<Page>, seen: set<Page>, offered: set<Page>, e: Option<Page>)
    ensures e.Some? ==> queue + (before + [e.value]) == queue + before + [e.value]
    ensures e.Some? ==> seen + (offered + {e.value}) == seen + offered + {e.value}
    ensures e.Some? && e.value in seen + offered ==> seen + offered + {e.value} == seen + offered
  {
  }

  class Frontier {
    const budget: Budget
    const started: real
    var queue: seq<Page>
    var seen: set<Page>
    var origins: set<Origin>
    var requests: int
    var visited: nat
    var exhausted: Option<Limit>

    constructor (seeds: seq<Raw>, budget: Budget, now: real)
      ensures this.budget == budget && started == now
      ensures origins == SeedOrigins(seeds) && requests == 0 && visited == 0 && exhausted.None?
      ensures seen == EligibleSet(origins, seeds) && queue == NewPages(origins, {}, seeds)
    {
      hide NewPages, EligibleSet, Eligible;
      this.budget := budget;
      started := now;
      queue, seen, origins := [], {}, {};
      requests, visited, exhausted := 0, 0, None;
      new;
      for i := 0 to |seeds|
        invariant queue == [] && seen == {} && requests == 0 && visited == 0 && exhausted.None?
        invariant origins == SeedOrigins(seeds[..i])
      {
        var origin := OriginOf(seeds[i]);
        assert seeds[..i + 1] == seeds[..i] + [seeds[i]];
        assert SeedOrigins(seeds[..i + 1]) ==
               SeedOrigins(seeds[..i]) + (if origin.Some? then {origin.value} else {}) by {
          forall o | o in SeedOrigins(seeds[..i]) ensures o in SeedOrigins(seeds[..i + 1]) {
            var j :| 0 <= j < i && OriginOf(seeds[..i][j]) == Some(o);
            assert seeds[..i + 1][j] == seeds[j];
          }
          assert seeds[..i + 1][i] == seeds[i];
        }
        if origin.Some? {
          origins := origins + {origin.value};
        }
      }
      assert seeds[..|seeds|] == seeds;
      var n := Offer(seeds);
    }

    method Enqueue(url: Raw) returns (added: bool)
      modifies this`queue, this`seen
      ensures added <==> Eligible(origins, url).Some? && Eligible(origins, url).value !in old(seen)
      ensures added ==> queue == old(queue) + [Eligible(origins, url).value]
                        && seen == old(seen) + {Eligible(origins, url).value}
      ensures !added ==> queue == old(queue) && seen == old(seen)
      // a page, on one of the origins and new, and then nothing but its canonical form
      ensures added <==>
        && Normalise(url).Some? && PageOrigin(Normalise(url).value) in origins && Normalise(url).value !in old(seen)
      ensures added ==> queue == old(queue) + [Normalise(url).value]
    {
      EligibleMeans(origins, url);
      var n := Normalise(url);
      if n.None? {
        return false;
      }
      var o := OriginOf(Reparse(n.value));
      if o.None? || o.value !in origins {
        return false;
      }
      if n.value in seen {
        return false;
      }
      seen := seen + {n.value};
      queue := queue + [n.value];
      added := true;
    }

    method Offer(urls: seq<Raw>) returns (count: nat)
      modifies this`queue, this`seen
      ensures seen == old(seen) + EligibleSet(origins, urls)
      ensures queue == old(queue) + NewPages(origins, old(seen), urls)
      ensures count == |queue| - |old(queue)|
      ensures Queues(origins, urls, old(queue), old(seen), queue)
    {
      NewPagesOffered(origins, old(seen), urls);
      count := 0;
      assert EligibleSet(origins, urls[..0]) == {} && NewPages(origins, old(seen), urls[..0]) == [];
      hide Eligible, EligibleSet, NewPages, OfferedOn;
      for i := 0 to |urls|
        invariant seen == old(seen) + EligibleSet(origins, urls[..i])
        invariant queue == old(queue) + NewPages(origins, old(seen), urls[..i])
        invariant count == |queue| - |old(queue)|
      {
        NewPagesStep(origins, old(seen), urls, i);
        OneMore(old(queue), NewPages(origins, old(seen), urls[..i]), old(seen), EligibleSet(origins, urls[..i]),
                Eligible(origins, urls[i]));
        var added := Enqueue(urls[i]);
        if added {
          count := count + 1;
        }
      }
      assert urls[..|urls|] == urls;
      assert queue[|old(queue)|..] == NewPages(origins, old(seen), urls);
    }

    method NoteRequests(n: int)
      modifies this`requests
      ensures requests == old(requests) + n
    {
      requests := requests + n;
    }

    /** The next page, or None; a None that no budget explains leaves `exhausted`
        as it was. */
    method Next(now: real) returns (page: Option<Page>)
      modifies this`queue, this`visited, this`exhausted
      ensures var why := Spent(budget, old(visited), requests, now - started);
        && (page.Some? <==> why.None? && old(queue) != [])
        && exhausted == (if why.Some? then why else old(exhausted))
      ensures page.Some? ==> [page.value] + queue == old(queue) && visited == old(visited) + 1
      ensures page.None? ==> queue == old(queue) && visited == old(visited)
    {
      if visited >= budget.maxPages {
        exhausted := Some(MaxPages);
        return None;
      }
      if requests >= budget.maxRequests {
        exhausted := Some(MaxRequests);
        return None;
      }
      if now - started >= budget.maxSeconds {
        exhausted := Some(MaxSeconds);
        return None;
      }
      if queue == [] {
        return None;
      }
      visited := visited + 1;
      page := Some(queue[0]);
      queue := queue[1..];
    }
  }

  /** Offering one more address: a page not yet seen is appended, any other is not. */
  lemma GrowsStep(queue: seq<Page>, seen: set<Page>, mid: seq<Page>, offered: set<Page>, e: Option<Page>)
    requires Grows(queue, seen, mid, offered)
    ensures e.None? ==> Grows(queue, seen, mid, offered)
    ensures e.Some? && e.value in seen + offered ==> Grows(queue, seen, mid, offered + {e.value})
    ensures e.Some? && e.value !in seen + offered ==> Grows(queue, seen, mid + [e.value], offered + {e.value})
  {
    if e.Some? {
      var tail := mid[|queue|..];
      if e.value in seen + offered {
        assert offered + {e.value} - seen == offered - seen;
      } else {
        assert (mid + [e.value])[|queue|..] == tail + [e.value];
        assert Elements(tail + [e.value]) == Elements(tail) + {e.value};
        assert e.value !in Elements(tail);
        assert (offered + {e.value}) - seen == (offered - seen) + {e.value};
      }
    }
  }

  lemma EligiblePrefix(origins: set<Origin>, urls: seq<Raw>, i: nat)
    requires i < |urls|
    ensures var e := Eligible(origins, urls[i]);
      && (e.Some? ==> EligibleSet(origins, urls[..i + 1]) == EligibleSet(origins, urls[..i]) + {e.value})
      && (e.None? ==> EligibleSet(origins, urls[..i + 1]) == EligibleSet(origins, urls[..i]))
  {
    var e := Eligible(origins, urls[i]);
    forall p | p in EligibleSet(origins, urls[..i]) ensures p in EligibleSet(origins, urls[..i + 1]) {
      var j :| 0 <= j < i && Eligible(origins, urls[..i][j]) == Some(p);
      assert urls[..i + 1][j] == urls[j];
    }
    forall p | p in EligibleSet(origins, urls[..i + 1])
      ensures p in EligibleSet(origins, urls[..i]) || e == Some(p)
    {
      var j :| 0 <= j < i + 1 && Eligible(origins, urls[..i + 1][j]) == Some(p);
      if j < i { assert urls[..i][j] == urls[j]; }
    }
    assert urls[..i + 1][i] == urls[i];
  }
}
