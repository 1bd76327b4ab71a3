/** The parts of `hx.insertion` and `hx.checks.probe` that decide, from the shape of
    a path or of a point, whether a probe may be sent. */
module Insertion {
  import opened Chars
  import opened Text

  datatype Insertion = Insertion(kind: string, name: string)

  /** `startswith("{") and endswith("}") and len > 2`. */
  predicate IsPlaceholder(segment: string) {
    |segment| > 2 && segment[0] == '{' && segment[|segment| - 1] == '}'
  }

  const CREDENTIAL_HEADERS := ["authorization", "cookie", "proxy-authorization"]

  /** A point the send path refuses whatever it carries. */
  predicate Unprobeable(i: Insertion) {
    i.kind == "cookie" || (i.kind == "header" && LowerText(i.name) in CREDENTIAL_HEADERS)
  }

  /** Some segment of the path, query excluded, is a template placeholder. */
  predicate HoldsPlaceholder(path: string) {
    var segments := Split(path[..Find(path, '?')], '/');
    exists i :: 0 <= i < |segments| && IsPlaceholder(segments[i])
  }

  predicate InBraces(s: string, i: int, j: int) {
    && 0 <= i && i + 2 < j <= |s| && s[i] == '{' && s[j - 1] == '}' && '/' !in s[i..j]
    && (i == 0 || s[i - 1] == '/') && (j == |s| || s[j] == '/')
  }

  lemma PieceInBraces(s: string, i: int, j: int, p: string)
    requires PieceIs(s, '/', i, j, p)
    ensures IsPlaceholder(p) <==> InBraces(s, i, j)
  {
    assert |p| > 0 ==> p[0] == s[i] && p[|p| - 1] == s[j - 1];
  }

  lemma BracedPiece(s: string, i: int, j: int)
    requires InBraces(s, i, j)
    ensures PieceIs(s, '/', i, j, s[i..j])
  {
  }

  lemma HeldAt(path: string, p: string)
    requires p in Split(path[..Find(path, '?')], '/') && IsPlaceholder(p)
    ensures HoldsPlaceholder(path)
  {
  }

  /** A path holds a placeholder exactly where, before its query, some stretch from one
      slash or end to the next is in braces with something between them. */
  lemma HoldsPlaceholderMeans(path: string)
    ensures HoldsPlaceholder(path) <==> exists i, j :: InBraces(path[..Find(path, '?')], i, j)
  {
    hide Split, Find, PieceIs, InBraces, IsPlaceholder;
    var before := path[..Find(path, '?')];
    var segments := Split(before, '/');
    if HoldsPlaceholder(path) {
      var k :| 0 <= k < |segments| && IsPlaceholder(segments[k]);
      SplitPieces(before, '/', segments[k]);
      var i, j :| PieceIs(before, '/', i, j, segments[k]);
      PieceInBraces(before, i, j, segments[k]);
    }
    if i, j :| InBraces(before, i, j) {
      BracedPiece(before, i, j);
      SplitPieces(before, '/', before[i..j]);
      PieceInBraces(before, i, j, before[i..j]);
      HeldAt(path, before[i..j]);
    }
  }

  /** The send path refuses a cookie, and a header a credential travels in whatever the
      case of its name; nothing else. */
  lemma UnprobeableMeans(i: Insertion)
    ensures Unprobeable(i) <==>
      || i.kind == "cookie"
      || (i.kind == "header" && LowerText(i.name) in
            {LowerText("Authorization"), LowerText("Cookie"), LowerText("Proxy-Authorization")})
  {
    assert LowerText("Authorization") == "authorization";
    assert LowerText("Cookie") == "cookie";
    assert LowerText("Proxy-Authorization") == "proxy-authorization";
  }
}
