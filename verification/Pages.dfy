/** Page addresses: `normalise` and `origin_of` over the fields `urlsplit` yields. */
module Pages {
  import opened Options
  import opened Chars

  /** What `urlsplit` makes of a string, or that one of its accessors raises. */
  datatype Raw =
    | Malformed
    | Parts(scheme: string, username: Option<string>, password: Option<string>,
            host: string, port: Option<nat>, path: string, query: string, fragment: string)

  /** A canonical address. */
  datatype Page = Page(scheme: string, host: string, port: Option<nat>, path: string, query: string)

  datatype Origin = Origin(scheme: string, host: string, port: Option<nat>)

  function DefaultPort(scheme: string): nat {
    if scheme == "https" then 443 else 80
  }

  function Normalise(r: Raw): Option<Page> {
    if r.Malformed? || (r.scheme != "http" && r.scheme != "https") || r.host == ""
       || r.username.Some? || r.password.Some?
    then None
    else
      Some(Page(r.scheme,
        if ':' in r.host then r.host else LowerText(r.host),
        if r.port.Some? && r.port.value != 0 && r.port.value != DefaultPort(r.scheme) then r.port else None,
        if r.path == "" then "/" else r.path,
        r.query))
  }

  /** What `urlsplit` makes of a canonical spelling. */
  function Reparse(p: Page): Raw {
    Parts(p.scheme, None, None, p.host, p.port, p.path, p.query, "")
  }

  function PageOrigin(p: Page): Origin {
    Origin(p.scheme, p.host, p.port)
  }

  function OriginOf(r: Raw): Option<Origin> {
    var n := Normalise(r);
    if n.None? then None else Some(PageOrigin(n.value))
  }

  /** A canonical address is its own normal form. */
  lemma NormaliseIdempotent(r: Raw)
    requires Normalise(r).Some?
    ensures Normalise(Reparse(Normalise(r).value)) == Normalise(r)
    ensures OriginOf(Reparse(Normalise(r).value)) == OriginOf(r)
  {
    var h := r.host;
    if ':' !in h {
      assert LowerText(LowerText(h)) == LowerText(h);
      forall i | 0 <= i < |h| ensures LowerText(h)[i] != ':' {
        assert h[i] in h;
      }
    }
  }

  /** An address a crawl may visit: of the web, with a host and no credentials. */
  predicate Visitable(r: Raw) {
    r.Parts? && (r.scheme == "http" || r.scheme == "https") && r.host != "" && r.username.None? && r.password.None?
  }

  /** The port a request to this address goes to. */
  function EffectivePort(r: Raw): nat
    requires r.Parts?
  {
    if r.port.Some? && r.port.value > 0 then r.port.value else if r.scheme == "http" then 80 else 443
  }

  /** The same host: letter case aside, unless it is an address with colons in it. */
  predicate SameHost(a: string, b: string) {
    a == b || (':' !in a && ':' !in b && LowerText(a) == LowerText(b))
  }

  predicate SameOrigin(a: Raw, b: Raw)
    requires a.Parts? && b.Parts?
  {
    a.scheme == b.scheme && SameHost(a.host, b.host) && EffectivePort(a) == EffectivePort(b)
  }

  /** The same document: fragments aside, and an empty path is the root. */
  predicate SamePage(a: Raw, b: Raw)
    requires a.Parts? && b.Parts?
  {
    && SameOrigin(a, b) && a.query == b.query
    && (a.path == b.path || (a.path in {"", "/"} && b.path in {"", "/"}))
  }

  lemma LowerKeepsColons(h: string)
    ensures ':' in LowerText(h) <==> ':' in h
  {
    forall i | 0 <= i < |h| ensures LowerText(h)[i] == ':' <==> h[i] == ':' {
    }
    if ':' in h {
      var i :| 0 <= i < |h| && h[i] == ':';
      assert LowerText(h)[i] == ':';
    }
  }

  /** An address has a canonical form exactly when it may be visited, and two have one
      form exactly when they are one page, and one origin exactly when they are of
      one. */
  lemma NormaliseTellsPages(a: Raw, b: Raw)
    ensures Normalise(a).Some? <==> Visitable(a)
    ensures Visitable(a) && Visitable(b) ==>
      && (Normalise(a) == Normalise(b) <==> SamePage(a, b))
      && (OriginOf(a) == OriginOf(b) <==> SameOrigin(a, b))
  {
    if Visitable(a) && Visitable(b) {
      LowerKeepsColons(a.host);
      LowerKeepsColons(b.host);
    }
  }

  /** What a canonical form keeps: the scheme, the query, and a path that is there; and
      the request goes where it went. */
  lemma NormaliseKeeps(r: Raw)
    requires Visitable(r)
    ensures var p := Normalise(r).value;
      && p.scheme == r.scheme && p.query == r.query && p.path == (if r.path == "" then "/" else r.path)
      && SamePage(r, Reparse(p)) && (p.port.Some? ==> p.port == r.port)
  {
    NormaliseIdempotent(r);
    NormaliseTellsPages(r, Reparse(Normalise(r).value));
  }
}
