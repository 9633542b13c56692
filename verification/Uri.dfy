/** The URI object of core/uri.cc: its fields, and a query that is kept as text, as a map, or as both. */
module Uris {
  import opened Paths
  import opened UriText
  import opened UrlCodec

  // ---------------------------------------------------------------- the codec loops

  lemma CStrIs(s: string, i: nat)
    requires i <= |s| && NUL !in s[..i] && (i == |s| || s[i] == NUL)
    ensures CStr(s) == s[..i]
  {
    if i > 0 {
      assert s[0] in s[..i] && s[..i][1..] == s[1..][..i - 1];
      assert forall c <- s[1..][..i - 1] :: c in s[..i];
      CStrIs(s[1..], i - 1);
    }
  }

  method EncodeURL(value: string) returns (v: string)
    ensures v == EncodeUrl(CStr(value))
  {
    v := "";
    var p := 0;
    while p != |value| && value[p] != NUL
      invariant 0 <= p <= |value| && NUL !in value[..p] && v == EncodeUrl(value[..p])
      decreases |value| - p
    {
      assert value[..p + 1][..p] == value[..p] && value[..p + 1] == value[..p] + [value[p]];
      v := v + EncodeByte(value[p]);
      p := p + 1;
    }
    CStrIs(value, p);
  }

  method DecodeURL(value: string) returns (v: string)
    requires DecodeUrl(value).Some?
    ensures DecodeUrl(value) == Some(v)
  {
    hide Scan, Before, Prepend;
    v := "";
    var p := 0;
    var i: Option<char> := None;
    assert value[0..] == value;
    BeforeNext("", 'a', DecodeUrl(value));
    while p != |value|
      invariant 0 <= p <= |value| && DecodeUrl(value) == Before(v, DecodeFrom(value[p..], i))
      decreases |value| - p
    {
      var rest := value[p..];
      AnswerAhead(v, DecodeFrom(rest, i));
      assert rest[1..] == value[p + 1..];
      var b: char;
      if rest[0] == '%' {
        var scanned := Scan(rest[1..]);
        if scanned.Read? {
          i := Some(scanned.c);
        }
        b := i.value;
        assert rest[3..] == value[p + 3..];
        p := p + 2;
      } else if rest[0] == '+' {
        b := ' ';
      } else {
        b := rest[0];
      }
      BeforeNext(v, b, DecodeFrom(value[p + 1..], i));
      v := v + [b];
      p := p + 1;
    }
    AllRead(v, value[p..], i);
  }

  lemma AnswerAhead(v: string, r: Option<string>)
    ensures Before(v, r).Some? <==> r.Some?
  {
  }

  lemma AllRead(v: string, rest: string, i: Option<char>)
    requires rest == ""
    ensures Before(v, DecodeFrom(rest, i)) == Some(v)
  {
    assert v + "" == v;
  }

  // ---------------------------------------------------------------- the object

  /** A query that the code can parse. */
  ghost predicate Readable(query: string) {
    Bytes(query) && Parse(query).Some?
  }

  class Uri {
    var scheme: string
    var host: string
    var hostname: string
    var port: string
    var path: string
    var query: string
    var fragment: string
    var queryObject: Option<Query>

    /** The query has a meaning: there is a map, or a text that can be parsed. */
    ghost predicate Valid()
      reads this
    {
      match queryObject
      case None => Readable(query)
      case Some(m) => ByteValues(m)
    }

    /** A text and a map that are both there say the same. */
    ghost predicate InStep()
      reads this
    {
      queryObject.Some? && query != "" ==> Parse(query) == queryObject
    }

    /** What the query means, whichever way it is kept. */
    ghost function Meaning(): Query
      requires Valid()
      reads this
    {
      if queryObject.Some? then queryObject.value else Parse(query).value
    }

    ghost predicate Holds(p: Parts)
      reads this
    {
      && scheme == p.scheme && host == p.host && path == p.path
      && query == OrEmpty(p.query) && fragment == OrEmpty(p.fragment)
    }

    /** `URI::URI`: the parts of the text, and the host cut at its first colon. */
    constructor (v: string)
      ensures exists p :: PartsOf(v, p) && Holds(p)
      ensures if ':' in host then host == hostname + ":" + port && ':' !in hostname else hostname == host && port == ""
      ensures queryObject == None && (Readable(query) ==> Valid())
    {
      var p := TakeApart(v);
      var name, number := CutAt(p.host, ':', 0);
      assert name[0..] == name;
      scheme, host, path := p.scheme, p.host, p.path;
      query, fragment := OrEmpty(p.query), OrEmpty(p.fragment);
      hostname, port := name, OrEmpty(number);
      queryObject := None;
      new;
      assert Holds(p);
    }

    /** What printing the text from the map, if that is needed, has made of the text. */
    twostate predicate Printed()
      reads this
    {
      if old(query) != "" || old(queryObject).None? then query == old(query)
      else exists keys :: Enumerates(keys, old(queryObject).value) && query == Print(keys, old(queryObject).value)
    }

    /**
     * The text of the query; it is printed from the map if it has been cleared. Text and map are in step afterwards
     * exactly if they were, and the map can be read back where it is printed.
     */
    method Query() returns (v: string)
      requires queryObject == None || Valid()
      modifies `query
      ensures v == query && Printed()
      ensures old(Valid()) ==> Valid() && Meaning() == old(Meaning())
      ensures InStep() <==>
        if old(query) == "" && queryObject.Some? then Printable(queryObject.value) else old(InStep())
    {
      if query == "" && queryObject.Some? {
        var m := queryObject.value;
        var text, keys := PrintQuery(m);
        query := text;
        PrintInverts(keys, m);
        PrintedEmpty(keys, m);
      }
      v := query;
    }

    method SetQuery(v: string)
      requires Readable(v)
      modifies `query, `queryObject
      ensures Valid() && InStep() && query == v && Meaning() == Parse(v).value
    {
      query := v;
      queryObject := None;
    }

    /** The map of the query; it is parsed from the text when it is first asked for. */
    method QueryObject() returns (m: Query)
      requires Valid()
      modifies `queryObject
      ensures Valid() && queryObject == Some(m) && m == Meaning() == old(Meaning())
      ensures InStep() <==> old(InStep())
    {
      if queryObject.None? {
        ParsedBytes(query);
        var parsed := ParseQuery(query);
        queryObject := Some(parsed);
      }
      m := queryObject.value;
    }

    method Get(key: string) returns (r: Option<string>)
      requires Valid()
      modifies `queryObject
      ensures Valid() && Meaning() == old(Meaning()) && (InStep() <==> old(InStep()))
      ensures r == if key in Meaning() then Some(Meaning()[key]) else None
    {
      var m := QueryObject();
      r := if key in m then Some(m[key]) else None;
    }

    /** Sets or removes a key; the text is cleared. */
    method Set(key: string, value: Option<string>)
      requires Valid() && (value.Some? ==> ByteValue(value.value))
      modifies `query, `queryObject
      ensures queryObject == Some(Assigned(old(Meaning()), key, value)) && query == ""
      ensures Valid() && InStep() && Meaning() == Assigned(old(Meaning()), key, value)
      ensures if value.Some? then key in Meaning() && Meaning()[key] == value.value else key !in Meaning()
      ensures forall k :: k != key ==> (k in Meaning() <==> k in old(Meaning())) && (k in Meaning() ==> Meaning()[k] == old(Meaning())[k])
    {
      var m := QueryObject();
      queryObject := Some(Assigned(m, key, value));
      query := "";
    }

    /** The text of the whole; an empty query or fragment leaves no mark. */
    method ToString() returns (v: string)
      requires queryObject == None || Valid()
      modifies `query
      ensures v == ToText(scheme, host, path, query, fragment) && Printed()
      ensures old(Valid()) ==> Valid() && Meaning() == old(Meaning())
      ensures InStep() <==>
        if old(query) == "" && queryObject.Some? then Printable(queryObject.value) else old(InStep())
    {
      hide ToText;
      v := Front();
      if query == "" {
        var _ := Query();
      }
      v := Marked(v);
    }

    /** The text up to the query. */
    method Front() returns (v: string)
      ensures v == SchemeText(scheme) + host + path
    {
      v := "";
      if scheme != "" {
        v := v + scheme;
        v := v + "://";
      }
      if host != "" {
        v := v + host;
      }
      if path != "" {
        v := v + path;
      }
    }

    /** The text with query and fragment behind it. */
    method Marked(front: string) returns (v: string)
      requires front == SchemeText(scheme) + host + path
      ensures v == ToText(scheme, host, path, query, fragment)
    {
      v := front;
      if query != "" {
        v := v + "?";
        v := v + query;
      }
      if fragment != "" {
        v := v + "#";
        v := v + fragment;
      }
      Tail(front, query, fragment);
    }
  }

  lemma Tail(front: string, query: string, fragment: string)
    ensures
      var withQuery := if query != "" then front + "?" + query else front;
      (if fragment != "" then withQuery + "#" + fragment else withQuery)
        == front + (if query == "" then "" else "?" + query) + (if fragment == "" then "" else "#" + fragment)
  {
    assert front + "?" + query == front + ("?" + query);
  }

  /** Only the empty map is printed as the empty text. */
  lemma PrintedEmpty(keys: seq<string>, m: Query)
    requires Enumerates(keys, m)
    ensures Print(keys, m) == "" ==> m == map[]
  {
    if |keys| > 0 {
      var items := Items(keys, m);
      assert |items[0]| > 0;
    }
  }

  function Assigned(m: Query, key: string, value: Option<string>): Query {
    if value.Some? then m[key := value.value] else m - {key}
  }

  /** Prints the items in some order of the keys; the code takes them in the order of its map. */
  method PrintQuery(m: Query) returns (text: string, ghost keys: seq<string>)
    ensures Enumerates(keys, m) && text == Print(keys, m)
  {
    text, keys := "", [];
    var rest := m.Keys;
    var first := true;
    while rest != {}
      invariant rest <= m.Keys && (first <==> keys == [])
      invariant forall k <- keys :: k in m
      invariant forall k <- m.Keys :: k in keys || k in rest
      invariant text == Print(keys, m)
      decreases rest
    {
      var k :| k in rest;
      var e := EncodeURL(m[k]);
      PrintSnoc(keys, k, m);
      if !first {
        text := text + "&";
      }
      text := text + k;
      text := text + "=";
      text := text + e;
      first := false;
      keys := keys + [k];
      rest := rest - {k};
    }
  }

  lemma PrintSnoc(keys: seq<string>, k: string, m: Query)
    requires (forall k' <- keys :: k' in m) && k in m
    ensures Print(keys + [k], m)
      == (if keys == [] then "" else Print(keys, m) + "&") + k + "=" + EncodeUrl(CStr(m[k]))
  {
    hide EncodeUrl, Join;
    assert Items(keys + [k], m) == Items(keys, m) + [Item(k, m[k])];
    JoinLast(Items(keys, m), Item(k, m[k]), "&");
  }

  /** The loop of `queryObject`. */
  method ParseQuery(query: string) returns (m: Query)
    requires Parse(query).Some?
    ensures Parse(query) == Some(m)
  {
    m := map[];
    var items := CStringSplit(query, "&");
    assert items[0..] == items;
    for i := 0 to |items|
      invariant AddItems(m, items[i..]) == Parse(query)
    {
      assert items[i..][1..] == items[i + 1..] && items[i..][0] == items[i];
      var kv := CStringSplit(items[i], "=");
      if |kv| > 1 {
        var v := DecodeURL(kv[1]);
        m := m[kv[0] := v];
      } else if |kv| > 0 {
        m := m[kv[0] := ""];
      }
    }
  }

  // ---------------------------------------------------------------- whole texts, and whole runs

  /** Printing what was parsed gives the text back, unless its query or its fragment is present and empty. */
  method Reprint(v: string) returns (t: string)
    ensures exists p :: PartsOf(v, p)
    ensures forall p :: PartsOf(v, p) ==> (t == v <==> p.query != Some("") && p.fragment != Some(""))
  {
    hide PartsOf, Readable, Parse;
    var u := new Uri(v);
    ghost var p :| PartsOf(v, p) && u.Holds(p);
    t := u.ToString();
    TextComesBack(p);
    assert Unparse(p) == v by { PartsText(v, p); }
    forall q | PartsOf(v, q) ensures q == p { PartsUnique(v, p, q); }
  }

  lemma PartsText(v: string, p: Parts)
    requires PartsOf(v, p)
    ensures Unparse(p) == v
  {
  }

  datatype Call =
    | CallGet(key: string)
    | CallSet(key: string, value: Option<string>)
    | CallQuery
    | CallSetQuery(query: string)
    | CallToString

  /** Values are texts of bytes that end at their first NUL; a query has to be one that can be parsed. */
  ghost predicate Allowed(c: Call) {
    match c
    case CallSet(_, value) => value.Some? ==> ByteValue(value.value)
    case CallSetQuery(query) => Readable(query)
    case _ => true
  }

  /** What a call makes of the meaning of the query. */
  ghost function Effect(m: Query, c: Call): Query {
    match c
    case CallSet(key, value) => Assigned(m, key, value)
    case CallSetQuery(query) => if Parse(query).Some? then Parse(query).value else m
    case _ => m
  }

  ghost function Effects(m: Query, calls: seq<Call>): Query {
    if |calls| == 0 then m else Effect(Effects(m, calls[..|calls| - 1]), calls[|calls| - 1])
  }

  method Perform(u: Uri, c: Call)
    requires u.Valid() && Allowed(c)
    modifies u`query, u`queryObject
    ensures u.Valid() && u.Meaning() == Effect(old(u.Meaning()), c)
    ensures old(u.InStep()) && Printable(old(u.Meaning())) ==> u.InStep()
  {
    hide Parse, Printable;
    match c {
      case CallGet(key) => var _ := u.Get(key);
      case CallSet(key, value) => u.Set(key, value);
      case CallQuery => var _ := u.Query();
      case CallSetQuery(query) => u.SetQuery(query);
      case CallToString => var _ := u.ToString();
    }
  }

  /**
   * Over every run of calls the meaning is what the calls made it; and text and map stay in step as long as every
   * meaning on the way can be printed and read back.
   */
  method RunCalls(u: Uri, calls: seq<Call>)
    requires u.Valid() && forall c <- calls :: Allowed(c)
    modifies u`query, u`queryObject
    ensures u.Valid() && u.Meaning() == Effects(old(u.Meaning()), calls)
    ensures old(u.InStep()) && (forall i: nat :: i < |calls| ==> Printable(Effects(old(u.Meaning()), calls[..i])))
      ==> u.InStep()
  {
    hide Parse, Printable, Effect;
    ghost var m, start := u.Meaning(), u.InStep();
    for i := 0 to |calls|
      invariant u.Valid() && u.Meaning() == Effects(m, calls[..i])
      invariant start && (forall j: nat :: j < i ==> Printable(Effects(m, calls[..j]))) ==> u.InStep()
    {
      assert calls[i] in calls;
      assert calls[..i + 1][..i] == calls[..i];
      Perform(u, calls[i]);
    }
    assert calls[..|calls|] == calls;
  }

  /** An escaped NUL is parsed, but not printed again: after these calls the text does not say what the map says. */
  method EscapedNul(u: Uri)
    modifies u`query, u`queryObject
    ensures u.query != "" && u.queryObject.Some? && Parse(u.query) != u.queryObject
  {
    NulReadable();
    u.SetQuery("a=%00");
    u.Set("b", Some("x"));
    assert NUL in u.Meaning()["a"];
    assert !Printable(u.Meaning());
    var _ := u.Query();
    assert !u.InStep();
  }

  lemma DecodedNul()
    ensures DecodeUrl("%00") == Some([NUL])
  {
    assert "%00"[3..] == "" && DecodeFrom("", Some(NUL)) == Some("");
    assert "%00"[1..] == "00";
    TwoDigits("00");
    assert [NUL] + "" == [NUL];
  }

  lemma NulReadable()
    ensures Readable("a=%00") && Parse("a=%00") == Some(map["a" := [NUL]])
  {
    var item := "a=%00";
    assert "=" == ['='] && "&" == ['&'];
    assert Join(["a", "%00"], "=") == item by { assert ["a", "%00"][1..] == ["%00"]; }
    SplitJoined(["a", "%00"], '=');
    assert Join([item], "&") == item;
    SplitJoined([item], '&');
    DecodedNul();
    hide DecodeUrl, Pieces, Join;
    assert AddItem(map[], item) == Some(map["a" := [NUL]]);
    assert [item][1..] == [];
  }
}
