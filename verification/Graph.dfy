/** Reachability over an arbitrary link function, and breadth-first order. */
module Graph {

  ghost predicate Distinct<T>(s: seq<T>) {
    forall i, j :: 0 <= i < j < |s| ==> s[i] != s[j]
  }

  function Elements<T>(s: seq<T>): set<T> {
    set x | x in s
  }

  /** The nodes at most `n` links from a seed. */
  ghost function Within<T(!new)>(seeds: set<T>, links: T -> set<T>, n: nat): set<T> {
    if n == 0 then seeds
    else
      var near := Within(seeds, links, n - 1);
      near + set p, q | p in near && q in links(p) :: q
  }

  ghost predicate Reachable<T(!new)>(seeds: set<T>, links: T -> set<T>, p: T) {
    exists n: nat :: p in Within(seeds, links, n)
  }

  // ---- the same thing said with paths --------------------------------------

  predicate LinkAt<T>(links: T -> set<T>, path: seq<T>, i: nat)
    requires i + 1 < |path|
  {
    path[i + 1] in links(path[i])
  }

  ghost predicate IsPath<T>(seeds: set<T>, links: T -> set<T>, path: seq<T>) {
    && path != [] && path[0] in seeds
    && forall i :: 0 <= i < |path| - 1 ==> LinkAt(links, path, i)
  }

  lemma {:induction false} PathReaches<T(!new)>(seeds: set<T>, links: T -> set<T>, path: seq<T>)
    requires IsPath(seeds, links, path)
    ensures path[|path| - 1] in Within(seeds, links, |path| - 1)
  {
    if |path| > 1 {
      var prefix := path[..|path| - 1];
      forall i | 0 <= i < |prefix| - 1 ensures LinkAt(links, prefix, i) {
        assert LinkAt(links, path, i);
      }
      PathReaches(seeds, links, prefix);
      assert LinkAt(links, path, |path| - 2);
    }
  }

  lemma {:induction false} ReachedByPath<T(!new)>(seeds: set<T>, links: T -> set<T>, n: nat, p: T)
    returns (path: seq<T>)
    requires p in Within(seeds, links, n)
    ensures IsPath(seeds, links, path) && path[|path| - 1] == p && |path| <= n + 1
  {
    if n == 0 {
      path := [p];
    } else {
      var from, linked := Nearer(seeds, links, n, p);
      path := ReachedByPath(seeds, links, n - 1, from);
      if linked {
        ExtendPath(seeds, links, path, p);
        path := path + [p];
      }
    }
  }

  lemma ExtendPath<T(!new)>(seeds: set<T>, links: T -> set<T>, path: seq<T>, p: T)
    requires IsPath(seeds, links, path) && p in links(path[|path| - 1])
    ensures IsPath(seeds, links, path + [p])
  {
    var longer := path + [p];
    forall i | 0 <= i < |longer| - 1 ensures LinkAt(links, longer, i) {
      if i + 1 < |path| { assert LinkAt(links, path, i); }
    }
  }

  lemma Nearer<T(!new)>(seeds: set<T>, links: T -> set<T>, n: nat, p: T) returns (from: T, linked: bool)
    requires n > 0 && p in Within(seeds, links, n)
    ensures from in Within(seeds, links, n - 1)
    ensures if linked then p in links(from) else from == p
  {
    linked := p !in Within(seeds, links, n - 1);
    if linked {
      from :| from in Within(seeds, links, n - 1) && p in links(from);
    } else {
      from := p;
    }
  }

  // ---- breadth first -------------------------------------------------------

  /** Every node found comes after all nodes that are fewer links from a seed. */
  ghost predicate NearFirst<T(!new)>(seeds: set<T>, links: T -> set<T>, found: seq<T>) {
    forall i: nat, n: nat :: i < |found| && found[i] !in Within(seeds, links, n)
      ==> Within(seeds, links, n) <= Elements(found[..i])
  }

  /** Every seed, and everything linked from the first `k` nodes found, is found. */
  ghost predicate Explored<T>(seeds: set<T>, links: T -> set<T>, found: seq<T>, k: nat)
    requires k <= |found|
  {
    && seeds <= Elements(found)
    && forall i :: 0 <= i < k ==> links(found[i]) <= Elements(found)
  }

  lemma {:induction false} ExploredIsEverything<T(!new)>(seeds: set<T>, links: T -> set<T>, found: seq<T>, n: nat)
    requires Explored(seeds, links, found, |found|)
    ensures Within(seeds, links, n) <= Elements(found)
  {
    if n > 0 {
      ExploredIsEverything(seeds, links, found, n - 1);
      forall p, q | p in Within(seeds, links, n - 1) && q in links(p) ensures q in Elements(found) {
        assert p in Elements(found);
      }
    }
  }

  /** Once the first `k` nodes hold every node within `n - 1` links, all nodes
      within `n` links are found. */
  lemma NextLevelFound<T(!new)>(seeds: set<T>, links: T -> set<T>, found: seq<T>, k: nat, n: nat)
    requires k <= |found| && Explored(seeds, links, found, k)
    requires n > 0 && Within(seeds, links, n - 1) <= Elements(found[..k])
    ensures Within(seeds, links, n) <= Elements(found)
  {
    forall p | p in Within(seeds, links, n - 1)
      ensures p in Elements(found) && links(p) <= Elements(found)
    {
      assert p in found[..k];
    }
  }

  /** A node linked from the `k`-th found node keeps the order when appended. */
  lemma AppendNear<T(!new)>(seeds: set<T>, links: T -> set<T>, found: seq<T>, k: nat, q: T)
    requires NearFirst(seeds, links, found) && k < |found| && Explored(seeds, links, found, k)
    requires q in links(found[k])
    ensures NearFirst(seeds, links, found + [q])
  {
    var grown := found + [q];
    forall i: nat, n: nat | i < |grown| && grown[i] !in Within(seeds, links, n)
      ensures Within(seeds, links, n) <= Elements(grown[..i])
    {
      if i < |found| {
        assert grown[..i] == found[..i];
      } else {
        assert grown[..i] == found;
        if n > 0 {
          assert found[k] !in Within(seeds, links, n - 1);
          NextLevelFound(seeds, links, found, k, n);
        }
      }
    }
  }

  lemma {:induction false} AppendAllNear<T(!new)>(
      seeds: set<T>, links: T -> set<T>, found: seq<T>, k: nat, more: seq<T>)
    requires NearFirst(seeds, links, found) && k < |found| && Explored(seeds, links, found, k)
    requires Elements(more) <= links(found[k])
    ensures NearFirst(seeds, links, found + more)
    decreases |more|
  {
    if more == [] {
      assert found + more == found;
    } else {
      assert more[0] in Elements(more);
      AppendNear(seeds, links, found, k, more[0]);
      var next := found + [more[0]];
      assert Elements(found) <= Elements(next);
      assert Elements(more[1..]) <= Elements(more);
      AppendAllNear(seeds, links, next, k, more[1..]);
      assert next + more[1..] == found + more;
    }
  }

  lemma {:induction false} SeedsWithin<T(!new)>(seeds: set<T>, links: T -> set<T>, n: nat)
    ensures seeds <= Within(seeds, links, n)
  {
    if n > 0 {
      SeedsWithin(seeds, links, n - 1);
    }
  }

  // ---- shortest paths first ----

  ghost predicate PathTo<T>(seeds: set<T>, links: T -> set<T>, path: seq<T>, p: T) {
    IsPath(seeds, links, path) && path[|path| - 1] == p
  }

  /** What is reached is what a path from a seed ends at. */
  lemma ReachableByPath<T(!new)>(seeds: set<T>, links: T -> set<T>, p: T)
    ensures Reachable(seeds, links, p) <==> exists path :: PathTo(seeds, links, path, p)
  {
    if Reachable(seeds, links, p) {
      var n: nat :| p in Within(seeds, links, n);
      var path := ReachedByPath(seeds, links, n, p);
      assert PathTo(seeds, links, path, p);
    }
    if path :| PathTo(seeds, links, path, p) {
      PathReaches(seeds, links, path);
    }
  }

  /** However a node is reached, every node found no later is reached by a path no
      longer. */
  ghost predicate ShortestFirst<T(!new)>(seeds: set<T>, links: T -> set<T>, found: seq<T>) {
    forall i, j, path {:trigger found[i], PathTo(seeds, links, path, found[j])} ::
      0 <= i <= j < |found| && PathTo(seeds, links, path, found[j])
      ==> exists other :: PathTo(seeds, links, other, found[i]) && |other| <= |path|
  }

  lemma NotEarlier<T>(found: seq<T>, i: nat, j: nat)
    requires Distinct(found) && i <= j < |found|
    ensures found[j] !in Elements(found[..i])
  {
  }

  lemma NearIsShortest<T(!new)>(seeds: set<T>, links: T -> set<T>, found: seq<T>)
    requires Distinct(found) && NearFirst(seeds, links, found)
    ensures ShortestFirst(seeds, links, found)
  {
    forall i, j, path | 0 <= i <= j < |found| && PathTo(seeds, links, path, found[j])
      ensures exists other :: PathTo(seeds, links, other, found[i]) && |other| <= |path|
    {
      var n := |path| - 1;
      PathReaches(seeds, links, path);
      NotEarlier(found, i, j);
      var other := ReachedByPath(seeds, links, n, found[i]);
      assert PathTo(seeds, links, other, found[i]);
    }
  }

  // ---- a search in progress --------------------------------------------------

  /** What is known once `order` has left the queue and `queue` is still on it. */
  ghost predicate Progress<T(!new)>(seeds: set<T>, links: T -> set<T>, order: seq<T>, queue: seq<T>, seen: set<T>) {
    var found := order + queue;
    && Distinct(found) && seen == Elements(found)
    && Explored(seeds, links, found, |order|) && NearFirst(seeds, links, found)
    && forall p :: p in found ==> Reachable(seeds, links, p)
  }

  /** `grown` extends `queue` by exactly the new members of `offered`, each once. */
  ghost predicate Grows<T>(queue: seq<T>, seen: set<T>, grown: seq<T>, offered: set<T>) {
    && queue <= grown && Distinct(grown[|queue|..])
    && Elements(grown[|queue|..]) == offered - seen
  }

  lemma ProgressSeen<T(!new)>(seeds: set<T>, links: T -> set<T>, order: seq<T>, queue: seq<T>, seen: set<T>)
    requires Progress(seeds, links, order, queue, seen)
    ensures forall p :: p in seen <==> p in order + queue
  {
  }

  lemma ProgressStarts<T(!new)>(seeds: set<T>, links: T -> set<T>, queue: seq<T>)
    requires Grows([], {}, queue, seeds)
    ensures Progress(seeds, links, [], queue, seeds)
  {
    assert [] + queue == queue && queue[0..] == queue;
    assert Elements(queue) == seeds;
    forall i: nat, n: nat | i < |queue| ensures queue[i] in Within(seeds, links, n) {
      assert queue[i] in Elements(queue);
      SeedsWithin(seeds, links, n);
    }
    forall p | p in queue ensures Reachable(seeds, links, p) {
      assert p in Elements(queue);
      assert p in Within(seeds, links, 0);
    }
  }

  /** Taking the head of the queue and offering its links keeps `Progress`. */
  lemma ProgressVisits<T(!new)>(seeds: set<T>, links: T -> set<T>,
      order: seq<T>, head: T, rest: seq<T>, grown: seq<T>, seen: set<T>)
    requires Progress(seeds, links, order, [head] + rest, seen)
    requires Grows(rest, seen, grown, links(head))
    ensures Progress(seeds, links, order + [head], grown, seen + links(head))
  {
    var found, more := order + ([head] + rest), grown[|rest|..];
    var next := order + [head] + grown;
    assert next == found + more;
    assert found[|order|] == head;
    AppendAllNear(seeds, links, found, |order|, more);
    assert Elements(next) == Elements(found) + Elements(more);
    forall p | p in next ensures Reachable(seeds, links, p) {
      if p !in found {
        assert p in Elements(more);
        assert head in found;
        var n: nat :| head in Within(seeds, links, n);
        assert p in Within(seeds, links, n + 1);
      }
    }
    forall i, j | 0 <= i < j < |next| ensures next[i] != next[j] {
      if j >= |found| {
        assert more[j - |found|] in Elements(more);
        if i < |found| { assert found[i] in Elements(found); }
      }
    }
    forall i | 0 <= i < |order| + 1 ensures links(next[i]) <= Elements(next) {
      assert next[i] == found[i];
    }
  }

  /** What the order of a search is worth: alone, and once nothing is queued. */
  lemma ProgressMeans<T(!new)>(seeds: set<T>, links: T -> set<T>, order: seq<T>, queue: seq<T>, seen: set<T>)
    requires Progress(seeds, links, order, queue, seen)
    ensures Distinct(order) && NearFirst(seeds, links, order)
    ensures forall p :: p in order ==> Reachable(seeds, links, p)
    ensures queue == [] ==> forall p :: p in order <==> Reachable(seeds, links, p)
  {
    var found := order + queue;
    forall i, j | 0 <= i < j < |order| ensures order[i] != order[j] {
      assert found[i] != found[j];
    }
    forall i: nat, n: nat | i < |order| && order[i] !in Within(seeds, links, n)
      ensures Within(seeds, links, n) <= Elements(order[..i])
    {
      assert found[i] == order[i] && found[..i] == order[..i];
    }
    forall p | p in order ensures Reachable(seeds, links, p) {
      assert p in found;
    }
    if queue == [] {
      assert found == order;
      forall p | Reachable(seeds, links, p) ensures p in order {
        var n: nat :| p in Within(seeds, links, n);
        ExploredIsEverything(seeds, links, order, n);
        assert p in Elements(order);
      }
    }
  }
}
