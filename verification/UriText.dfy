/** The text of a URI, taken apart and put together again (core/uri.cc). Strings are bytes without NUL. */
module UriText {
  datatype Option<T> = None | Some(value: T)

  // ---------------------------------------------------------------- std::string::find

  predicate OccursAt(s: string, pat: string, k: nat)
    requires k <= |s|
  {
    pat <= s[k..]
  }

  /** Where `pat` first occurs in `s`, from position `from` on. */
  function Find(s: string, pat: string, from: nat): (r: Option<nat>)
    requires from <= |s|
    ensures r.Some? ==> from <= r.value && r.value + |pat| <= |s| && OccursAt(s, pat, r.value)
    ensures r.Some? ==> forall k: nat {:trigger OccursAt(s, pat, k)} :: from <= k < r.value ==> !OccursAt(s, pat, k)
    ensures r.None? ==> forall k: nat {:trigger OccursAt(s, pat, k)} :: from <= k <= |s| ==> !OccursAt(s, pat, k)
    decreases |s| - from
  {
    if OccursAt(s, pat, from) then Some(from)
    else if from == |s| then None
    else Find(s, pat, from + 1)
  }

  lemma FindChar(s: string, c: char, from: nat)
    requires from <= |s|
    ensures var r := Find(s, [c], from);
      if r.Some? then s == s[..r.value] + [c] + s[r.value + 1..] && c !in s[from..r.value] else c !in s[from..]
  {
    var r := Find(s, [c], from);
    var end := if r.Some? then r.value else |s|;
    forall k: nat | from <= k < end ensures s[k] != c {
      assert !OccursAt(s, [c], k);
    }
    assert r.Some? ==> s[r.value..][0] == c;
  }

  // ---------------------------------------------------------------- the parts

  /** A query or fragment may be present and empty, which is not the same as being absent. */
  datatype Parts = Parts(scheme: string, host: string, path: string, query: Option<string>, fragment: Option<string>)

  function Optional(mark: string, o: Option<string>): string {
    if o.Some? then mark + o.value else ""
  }

  function Unparse(p: Parts): string {
    (if p.scheme == "" then "" else p.scheme + "://")
    + p.host + p.path + Optional("?", p.query) + Optional("#", p.fragment)
  }

  predicate Occurs(pat: string, s: string) {
    Find(s, pat, 0).Some?
  }

  /** The parts, each up to the first mark that ends it. */
  ghost predicate WellMarked(p: Parts) {
    && (if p.scheme == "" then p.host == "" else
        Find(p.scheme + "://", "://", 0) == Some(|p.scheme|)
        && '/' !in p.host && '?' !in p.host && '#' !in p.host && (p.path == "" || p.path[0] == '/'))
    && '?' !in p.path && '#' !in p.path
    && (p.query.Some? ==> '#' !in p.query.value)
    && (p.scheme == "" ==> "://" <= Unparse(p) || !Occurs("://", Unparse(p)))
  }

  /** The parts of a text. */
  ghost predicate PartsOf(v: string, p: Parts) {
    Unparse(p) == v && WellMarked(p)
  }

  /** `toString` leaves out a query or a fragment that is empty. */
  function ToText(scheme: string, host: string, path: string, query: string, fragment: string): string {
    (if scheme == "" then "" else scheme + "://")
    + host + path
    + (if query == "" then "" else "?" + query)
    + (if fragment == "" then "" else "#" + fragment)
  }

  function OrEmpty(o: Option<string>): string {
    if o.Some? then o.value else ""
  }

  /** So the text comes back exactly if neither is present and empty. */
  lemma TextComesBack(p: Parts)
    ensures ToText(p.scheme, p.host, p.path, OrEmpty(p.query), OrEmpty(p.fragment)) == Unparse(p)
      <==> p.query != Some("") && p.fragment != Some("")
  {
    var full, short := Unparse(p), ToText(p.scheme, p.host, p.path, OrEmpty(p.query), OrEmpty(p.fragment));
    assert |full| == |short| + (if p.query == Some("") then 1 else 0) + (if p.fragment == Some("") then 1 else 0);
  }

  // ---------------------------------------------------------------- taking apart

  /** Cuts the end off a working string, from the first mark at or after `i`. */
  method CutAt(s: string, c: char, i: nat) returns (front: string, rest: Option<string>)
    requires i <= |s|
    ensures s == front + Optional([c], rest) && i <= |front| && c !in front[i..]
  {
    FindChar(s, c, i);
    var n := Find(s, [c], i);
    if n.Some? {
      rest := Some(s[n.value + 1..]);
      front := s[..n.value];
      assert front[i..] == s[i..n.value];
      assert s == front + ([c] + s[n.value + 1..]);
    } else {
      rest, front := None, s;
      assert s == front + "";
    }
  }

  /** Where a pattern first occurs does not depend on what follows it there. */
  lemma FindPrefix(s: string, pat: string, k: nat)
    requires Find(s, pat, 0) == Some(k)
    ensures Find(s[..k] + pat, pat, 0) == Some(k)
  {
    hide Find;
    var u := s[..k] + pat;
    PrefixThere(s, pat, k);
    assert u == s[..k + |pat|];
    assert OccursAt(u, pat, k);
    forall j: nat | j < k ensures !OccursAt(u, pat, j) {
      assert !OccursAt(s, pat, j);
      assert u[j..] <= s[j..];
    }
  }

  lemma PrefixThere(s: string, pat: string, k: nat)
    requires k <= |s| && pat <= s[k..]
    ensures k + |pat| <= |s| && s[k..k + |pat|] == pat
  {
  }

  lemma Assemble(v: string, scheme: string, host: string, path: string, query: Option<string>, fragment: Option<string>,
                 s1: string, s2: string)
    requires v == s1 + Optional("#", fragment) && s1 == s2 + Optional("?", query)
    requires s2 == (if scheme == "" then "" else scheme + "://") + host + path
    ensures v == Unparse(Parts(scheme, host, path, query, fragment))
  {
  }

  /** The scheme, and where the search for the other marks begins. */
  method CutScheme(v: string) returns (scheme: string, i: nat)
    ensures i <= |v|
    ensures if scheme != "" then v[..i] == scheme + "://" && Find(v[..i], "://", 0) == Some(|scheme|)
            else (if "://" <= v then i == 3 else i == 0 && !Occurs("://", v))
  {
    hide Find;
    scheme, i := "", 0;
    var start := Find(v, "://", 0);
    if start.Some? {
      scheme := v[..start.value];
      i := start.value + 3;
      PrefixThere(v, "://", start.value);
      FindPrefix(v, "://", start.value);
      assert v[..i] == scheme + "://";
    } else {
      assert !OccursAt(v, "://", 0);
      assert v[0..] == v;
    }
  }

  /** The host and the path behind the scheme. */
  method CutHost(s: string, i: nat) returns (host: string, path: string)
    requires i <= |s|
    ensures s == s[..i] + host + path && '/' !in host && (path == "" || path[0] == '/')
  {
    var authority, rest := CutAt(s, '/', i);
    path := Optional("/", rest);
    host := authority[i..];
    assert authority == s[..i] + host;
  }

  /** `URI::URI`, up to the host. */
  method TakeApart(v: string) returns (p: Parts)
    ensures PartsOf(v, p)
  {
    hide Find, Occurs;
    var scheme, i := CutScheme(v);
    var s1, fragment := CutAt(v, '#', i);
    var s2, query := CutAt(s1, '?', i);
    Fronts(v, i, s1, fragment, s2, query);
    if scheme == "" {
      p := Parts("", "", s2, query, fragment);
      NoScheme(v, i, s1, fragment, s2, query);
    } else {
      var host, path := CutHost(s2, i);
      p := Parts(scheme, host, path, query, fragment);
      WithScheme(v, i, s1, s2, p);
    }
  }

  lemma NoScheme(v: string, i: nat, s1: string, fragment: Option<string>, s2: string, query: Option<string>)
    requires v == s1 + Optional("#", fragment) && s1 == s2 + Optional("?", query) && i <= |s2|
    requires v[..i] == s2[..i] && '#' !in s2[i..] && '?' !in s2[i..] && (query.Some? ==> '#' !in query.value)
    requires if "://" <= v then i == 3 else i == 0 && !Occurs("://", v)
    ensures PartsOf(v, Parts("", "", s2, query, fragment))
  {
    hide Find, Occurs;
    assert s2 == "" + "" + s2;
    NoMarksInStart(v, s2, i);
    Assemble(v, "", "", s2, query, fragment, s1, s2);
  }

  lemma WithScheme(v: string, i: nat, s1: string, s2: string, p: Parts)
    requires v == s1 + Optional("#", p.fragment) && s1 == s2 + Optional("?", p.query) && i <= |s2|
    requires v[..i] == s2[..i] && '#' !in s2[i..] && '?' !in s2[i..] && (p.query.Some? ==> '#' !in p.query.value)
    requires p.scheme != "" && v[..i] == p.scheme + "://" && Find(v[..i], "://", 0) == Some(|p.scheme|)
    requires s2 == s2[..i] + p.host + p.path && '/' !in p.host && (p.path == "" || p.path[0] == '/')
    ensures PartsOf(v, p)
  {
    hide Find, Occurs;
    assert s2[i..] == p.host + p.path;
    Assemble(v, p.scheme, p.host, p.path, p.query, p.fragment, s1, s2);
  }

  lemma Fronts(v: string, i: nat, s1: string, fragment: Option<string>, s2: string, query: Option<string>)
    requires v == s1 + Optional("#", fragment) && s1 == s2 + Optional("?", query) && i <= |s2|
    requires '#' !in s1[i..]
    ensures v[..i] == s2[..i] && '#' !in s2[i..] && '#' !in Optional("?", query)
    ensures query.Some? ==> '#' !in query.value
  {
    assert s1[i..] == s2[i..] + Optional("?", query);
  }

  /** Without a scheme the search for marks starts at the beginning, or behind a leading `://`. */
  lemma NoMarksInStart(v: string, s: string, i: nat)
    requires i <= |s| && i <= |v| && s[..i] == v[..i]
    requires if "://" <= v then i == 3 else i == 0
    ensures forall c <- "?#" :: c !in s[i..] ==> c !in s
  {
    assert i == 3 ==> s[..i] == "://";
    assert s == s[..i] + s[i..];
  }

  // ---------------------------------------------------------------- the parts are unique

  lemma CutFirst(a: string, x: Option<string>, c: char)
    requires c !in a
    ensures Find(a + Optional([c], x), [c], 0) == if x.Some? then Some(|a|) else None
  {
    hide Find;
    var s := a + Optional([c], x);
    forall j: nat | j < |a| ensures !OccursAt(s, [c], j) {
      assert s[j..][0] == a[j];
    }
    if x.Some? {
      assert s[|a|..] == [c] + x.value;
      assert OccursAt(s, [c], |a|);
    }
  }

  lemma CutUnique(a: string, x: Option<string>, b: string, y: Option<string>, c: char)
    requires a + Optional([c], x) == b + Optional([c], y) && c !in a && c !in b
    ensures a == b && x == y
  {
    hide Find;
    CutFirst(a, x, c);
    CutFirst(b, y, c);
    var s := a + Optional([c], x);
    assert |a| == |b|;
    assert s[..|a|] == a && s[..|b|] == b;
    assert s[|a|..] == Optional([c], x) && s[|b|..] == Optional([c], y);
    if x.Some? {
      assert ([c] + x.value)[1..] == x.value && ([c] + y.value)[1..] == y.value;
    }
  }

  function SchemeText(scheme: string): string {
    if scheme == "" then "" else scheme + "://"
  }

  lemma OccursWithin(s: string, t: string, pat: string, j: nat)
    requires j + |pat| <= |s|
    ensures OccursAt(s + t, pat, j) <==> OccursAt(s, pat, j)
  {
    assert (s + t)[j..] == s[j..] + t;
    assert (s[j..] + t)[..|pat|] == s[j..][..|pat|];
  }

  lemma FindStays(s: string, t: string, pat: string, k: nat)
    requires Find(s, pat, 0) == Some(k) && |s| == k + |pat|
    ensures Find(s + t, pat, 0) == Some(k)
  {
    hide Find, OccursAt;
    forall j: nat | j <= k ensures OccursAt(s + t, pat, j) <==> OccursAt(s, pat, j) {
      OccursWithin(s, t, pat, j);
    }
  }

  lemma SchemeUnique(v: string, p: Parts, q: Parts)
    requires PartsOf(v, p) && PartsOf(v, q)
    ensures p.scheme == q.scheme
  {
    hide Find;
    SchemeFound(v, p);
    SchemeFound(v, q);
  }

  /** The scheme is what comes before the first `://`, if that is not at the beginning. */
  lemma SchemeFound(v: string, p: Parts)
    requires PartsOf(v, p)
    ensures var r := Find(v, "://", 0); p.scheme == if r.Some? then v[..r.value] else ""
  {
    hide Find;
    if p.scheme != "" {
      var rest := p.host + p.path + Optional("?", p.query) + Optional("#", p.fragment);
      assert v == SchemeText(p.scheme) + rest;
      FindStays(SchemeText(p.scheme), rest, "://", |p.scheme|);
      assert v[..|p.scheme|] == p.scheme;
    } else if "://" <= v {
      assert v[0..] == v && OccursAt(v, "://", 0);
      var r := Find(v, "://", 0);
      assert r == Some(0);
    }
  }

  /** So a query that holds the first mark becomes part of the scheme. */
  lemma SchemeInQuery(path: string, query: string, rest: string, p: Parts)
    requires ':' !in path && ':' !in query && PartsOf(path + "?" + query + "://" + rest, p)
    ensures p.scheme == path + "?" + query
  {
    hide Find;
    var before := path + "?" + query;
    var v := before + "://" + rest;
    var r := Find(v, "://", 0);
    assert v[|before|..] == "://" + rest && OccursAt(v, "://", |before|);
    assert r.value >= |before| by {
      assert v[r.value..][0] == ':';
    }
    SchemeFound(v, p);
  }

  /** A text has only one decomposition, so `PartsOf` says all there is to say about `URI::URI`. */
  lemma PartsUnique(v: string, p: Parts, q: Parts)
    requires PartsOf(v, p) && PartsOf(v, q)
    ensures p == q
  {
    hide Find, Occurs;
    SchemeUnique(v, p, q);
    Regroup(p);
    Regroup(q);
    var start := |SchemeText(p.scheme)|;
    assert v[start..] == p.host + p.path + Optional("?", p.query) + Optional("#", p.fragment);
    assert v[start..] == q.host + q.path + Optional("?", q.query) + Optional("#", q.fragment);
    CutUnique(p.host + p.path + Optional("?", p.query), p.fragment, q.host + q.path + Optional("?", q.query), q.fragment, '#');
    CutUnique(p.host + p.path, p.query, q.host + q.path, q.query, '?');
    PathUnique(p, q);
  }

  lemma Regroup(p: Parts)
    ensures Unparse(p) == SchemeText(p.scheme) + (p.host + p.path + Optional("?", p.query) + Optional("#", p.fragment))
  {
  }

  function AsOptional(path: string): Option<string> {
    if path == "" then None else Some(path[1..])
  }

  lemma PathUnique(p: Parts, q: Parts)
    requires WellMarked(p) && WellMarked(q) && p.scheme == q.scheme && p.host + p.path == q.host + q.path
    ensures p.host == q.host && p.path == q.path
  {
    hide Find, Occurs;
    if p.scheme == "" {
      assert "" + p.path == p.path && "" + q.path == q.path;
    } else {
      assert p.path == Optional("/", AsOptional(p.path)) && q.path == Optional("/", AsOptional(q.path));
      CutUnique(p.host, AsOptional(p.path), q.host, AsOptional(q.path), '/');
    }
  }

  /** A text with all parts. */
  lemma AllParts(p: Parts)
    ensures PartsOf("http://h/p?q#f", p) <==> p == Parts("http", "h", "/p", Some("q"), Some("f"))
    ensures ToText("http", "h", "/p", "q", "f") == "http://h/p?q#f"
  {
    hide Find;
    var v, parts := "http://h/p?q#f", Parts("http", "h", "/p", Some("q"), Some("f"));
    SchemeFirst("http");
    assert Unparse(parts) == v;
    assert PartsOf(v, parts);
    if PartsOf(v, p) { PartsUnique(v, p, parts); }
  }

  lemma SchemeFirst(scheme: string)
    requires ':' !in scheme
    ensures Find(scheme + "://", "://", 0) == Some(|scheme|)
  {
    hide Find;
    var s := scheme + "://";
    assert s[|scheme|..] == "://" && OccursAt(s, "://", |scheme|);
    forall k: nat | k < |scheme| ensures !OccursAt(s, "://", k) {
      assert s[k..][0] == scheme[k];
    }
  }
}
