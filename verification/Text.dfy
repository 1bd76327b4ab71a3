/** Splitting and joining sequences on one separator, as `str.split`, `bytes.split`
    and `join` do. */
module Text {
  /** The index of the first `c`, or `|s|`. */
  function Find<T(==)>(s: seq<T>, c: T): (i: nat)
    ensures i <= |s| && (i < |s| ==> s[i] == c) && forall j :: 0 <= j < i ==> s[j] != c
  {
    if s == [] || s[0] == c then 0 else 1 + Find(s[1..], c)
  }

  function Split<T(==)>(s: seq<T>, c: T): (parts: seq<seq<T>>)
    ensures |parts| >= 1
    ensures forall i :: 0 <= i < |parts| ==> c !in parts[i]
    decreases |s|
  {
    var i := Find(s, c);
    if i == |s| then [s] else [s[..i]] + Split(s[i + 1..], c)
  }

  function Join<T>(parts: seq<seq<T>>, c: T): seq<T>
    requires parts != []
  {
    if |parts| == 1 then parts[0] else parts[0] + [c] + Join(parts[1..], c)
  }

  function Concat<T>(parts: seq<seq<T>>): seq<T> {
    if parts == [] then [] else parts[0] + Concat(parts[1..])
  }

  lemma {:induction false} ConcatAppend<T>(parts: seq<seq<T>>, last: seq<T>)
    ensures Concat(parts + [last]) == Concat(parts) + last
  {
    if parts == [] {
      assert parts + [last] == [last] && [last][1..] == [] && last + [] == last;
    } else {
      assert (parts + [last])[1..] == parts[1..] + [last];
      ConcatAppend(parts[1..], last);
      Associates(parts[0], Concat(parts[1..]), last);
    }
  }

  lemma Associates<T>(a: seq<T>, b: seq<T>, c: seq<T>)
    ensures a + (b + c) == a + b + c
  {
  }

  lemma FindIn<T>(a: seq<T>, c: T, b: seq<T>)
    requires c !in a
    ensures Find(a + [c] + b, c) == |a|
    ensures Find(a, c) == |a|
  {
    var s := a + [c] + b;
    assert s[|a|] == c;
    forall j | 0 <= j < |a| ensures s[j] != c { assert s[j] == a[j]; }
  }

  lemma {:induction false} SplitJoin<T>(parts: seq<seq<T>>, c: T)
    requires parts != [] && forall i :: 0 <= i < |parts| ==> c !in parts[i]
    ensures Split(Join(parts, c), c) == parts
  {
    if |parts| == 1 {
      FindIn(parts[0], c, []);
    } else {
      var rest := Join(parts[1..], c);
      FindIn(parts[0], c, rest);
      SplitJoin(parts[1..], c);
      var s := parts[0] + [c] + rest;
      assert s[..|parts[0]|] == parts[0] && s[|parts[0]| + 1..] == rest;
    }
  }

  /** Of two joins of as many parts, each part but the last free of the separator. */
  lemma {:induction false} JoinApart<T>(a: seq<seq<T>>, b: seq<seq<T>>, c: T)
    requires a != [] && |a| == |b| && Join(a, c) == Join(b, c)
    requires forall i :: 0 <= i < |a| - 1 ==> c !in a[i] && c !in b[i]
    ensures a == b
    decreases |a|
  {
    if |a| > 1 {
      FindIn(a[0], c, Join(a[1..], c));
      FindIn(b[0], c, Join(b[1..], c));
      var s, n := Join(a, c), |a[0]|;
      assert s[..n] == a[0] && s[..n] == b[0];
      assert s[n + 1..] == Join(a[1..], c) && s[n + 1..] == Join(b[1..], c);
      JoinApart(a[1..], b[1..], c);
      assert a == [a[0]] + a[1..] && b == [b[0]] + b[1..];
    }
  }

  lemma {:induction false} JoinSplit<T>(a: seq<seq<T>>, b: seq<seq<T>>, c: T)
    requires a != [] && b != []
    ensures Join(a + b, c) == Join(a, c) + [c] + Join(b, c)
    decreases |a|
  {
    if |a| == 1 {
      assert (a + b)[1..] == b;
    } else {
      assert (a + b)[1..] == a[1..] + b;
      JoinSplit(a[1..], b, c);
      assert a[0] + [c] + (Join(a[1..], c) + [c] + Join(b, c)) == a[0] + [c] + Join(a[1..], c) + [c] + Join(b, c);
    }
  }

  lemma {:induction false} SplitWithin<T>(s: seq<T>, c: T, p: seq<T>)
    requires p in Split(s, c)
    ensures forall x <- p :: x in s
    decreases |s|
  {
    var i := Find(s, c);
    if i < |s| && p != s[..i] {
      assert p in Split(s[i + 1..], c);
      SplitWithin(s[i + 1..], c, p);
    }
  }

  /** `p` is the stretch of `s` from `i` to `j`, between two separators or an end. */
  predicate PieceIs<T(==)>(s: seq<T>, c: T, i: int, j: int, p: seq<T>) {
    && 0 <= i <= j <= |s| && s[i..j] == p && c !in p
    && (i == 0 || s[i - 1] == c) && (j == |s| || s[j] == c)
  }

  lemma PieceOnward<T>(s: seq<T>, c: T, n: nat, i: int, j: int, p: seq<T>)
    requires n < |s| && s[n] == c && PieceIs(s[n + 1..], c, i, j, p)
    ensures PieceIs(s, c, n + 1 + i, n + 1 + j, p)
  {
    var rest := s[n + 1..];
    assert s[n + 1 + i..n + 1 + j] == rest[i..j];
    assert i > 0 ==> rest[i - 1] == s[n + i];
    assert j < |rest| ==> rest[j] == s[n + 1 + j];
  }

  lemma PieceBack<T>(s: seq<T>, c: T, n: nat, i: int, j: int, p: seq<T>)
    requires n < |s| && n < i && PieceIs(s, c, i, j, p)
    ensures PieceIs(s[n + 1..], c, i - n - 1, j - n - 1, p)
  {
    var rest := s[n + 1..];
    assert rest[i - n - 1..j - n - 1] == s[i..j];
    assert i > n + 1 ==> rest[i - n - 2] == s[i - 1];
    assert j < |s| ==> rest[j - n - 1] == s[j];
  }

  lemma NotBetween<T>(s: seq<T>, c: T, i: nat, j: nat, k: nat)
    requires i <= j <= |s| && c !in s[i..j] && k < |s| && s[k] == c
    ensures k < i || j <= k
  {
    assert forall x :: i <= x < j ==> s[x] in s[i..j];
  }

  /** A piece that starts no later than the first separator starts at 0 and ends there. */
  lemma PieceFirst<T>(s: seq<T>, c: T, i: int, j: int, p: seq<T>)
    requires PieceIs(s, c, i, j, p) && i <= Find(s, c)
    ensures i == 0 && j == Find(s, c) && p == s[..Find(s, c)]
  {
    var n := Find(s, c);
    if n < |s| {
      NotBetween(s, c, i, j, n);
    }
  }

  lemma FirstPiece<T>(s: seq<T>, c: T)
    ensures PieceIs(s, c, 0, Find(s, c), s[..Find(s, c)])
  {
  }

  lemma PieceWithin<T>(s: seq<T>, c: T, i: int, j: int, p: seq<T>)
    requires PieceIs(s, c, i, j, p) && i > Find(s, c)
    ensures Find(s, c) < |s|
  {
  }

  /** What a text splits into are its stretches between two separators, or an end. */
  lemma {:induction false} SplitPieces<T>(s: seq<T>, c: T, p: seq<T>)
    ensures p in Split(s, c) <==> exists i, j :: PieceIs(s, c, i, j, p)
    decreases |s|
  {
    hide PieceIs;
    var n := Find(s, c);
    FirstPiece(s, c);
    assert s[..n] == Split(s, c)[0];
    if n < |s| {
      var rest := s[n + 1..];
      SplitPieces(rest, c, p);
      assert Split(s, c) == [s[..n]] + Split(rest, c);
      if i, j :| PieceIs(rest, c, i, j, p) {
        PieceOnward(s, c, n, i, j, p);
      }
    }
    if i, j :| PieceIs(s, c, i, j, p) {
      if i <= n {
        PieceFirst(s, c, i, j, p);
      } else {
        PieceWithin(s, c, i, j, p);
        PieceBack(s, c, n, i, j, p);
      }
    }
  }

  lemma SplitPrefix<T>(a: seq<T>, c: T, b: seq<T>)
    requires c !in a
    ensures Split(a + [c] + b, c) == [a] + Split(b, c)
  {
    FindIn(a, c, b);
    var s := a + [c] + b;
    assert s[..|a|] == a && s[|a| + 1..] == b;
  }

  function Last<T(==)>(s: seq<T>, c: T): seq<T> {
    var parts := Split(s, c);
    parts[|parts| - 1]
  }

  lemma SplitNone<T>(s: seq<T>, c: T)
    requires Find(s, c) == |s|
    ensures Split(s, c) == [s]
  {
  }

  lemma PartsJoin<T>(first: seq<T>, parts: seq<seq<T>>, more: seq<seq<T>>)
    requires parts != []
    ensures [first] + (parts[..|parts| - 1] + more) == ([first] + parts)[..|parts|] + more
  {
  }

  /** What is split off `a` stands whatever follows it; only its last part goes on. */
  lemma {:induction false} SplitConcat<T>(a: seq<T>, b: seq<T>, c: T)
    ensures var parts := Split(a, c);
      Split(a + b, c) == parts[..|parts| - 1] + Split(Last(a, c) + b, c)
    decreases |a|
  {
    hide Split;
    var i := Find(a, c);
    if i == |a| {
      SplitNone(a, c);
      assert [a][..0] == [];
    } else {
      var a1, a2 := a[..i], a[i + 1..];
      SplitConcat(a2, b, c);
      assert a + b == a1 + [c] + (a2 + b) && a == a1 + [c] + a2;
      SplitPrefix(a1, c, a2 + b);
      SplitPrefix(a1, c, a2);
      PartsJoin(a1, Split(a2, c), Split(Last(a2, c) + b, c));
    }
  }
}
