/** The escapes of URL text and the query as a map (core/uri.cc). */
module UrlCodec {
  import opened Paths
  import opened UriText

  const NUL: char := 0 as char

  /** The text of a C string ends before the first NUL. */
  function CStr(s: string): (r: string)
    ensures NUL !in r && (NUL !in s ==> r == s)
  {
    if |s| == 0 || s[0] == NUL then "" else [s[0]] + CStr(s[1..])
  }

  // ---------------------------------------------------------------- escapes

  predicate AlphaNumeric(c: char) {
    '0' <= c <= '9' || 'a' <= c <= 'z' || 'A' <= c <= 'Z'
  }

  function Hex(n: int): char
    requires 0 <= n < 16
  {
    if n < 10 then (n + '0' as int) as char else (n - 10 + 'a' as int) as char
  }

  function HexValue(c: char): (n: int)
    ensures -1 <= n < 16
  {
    if '0' <= c <= '9' then c as int - '0' as int
    else if 'a' <= c <= 'f' then c as int - 'a' as int + 10
    else if 'A' <= c <= 'F' then c as int - 'A' as int + 10
    else -1
  }

  lemma HexInverts(n: int)
    requires 0 <= n < 16
    ensures HexValue(Hex(n)) == n && Hex(n) != '&' && Hex(n) != '='
  {
  }

  predicate Ascends(s: string, from: int) {
    forall i: nat {:trigger s[i]} :: i < |s| ==> HexValue(s[i]) == from + i
  }

  /** The digits of both cases and their values, and that nothing else is a digit. */
  lemma HexDigits(c: char)
    ensures Ascends("0123456789", 0) && Ascends("abcdef", 10) && Ascends("ABCDEF", 10)
    ensures HexValue(c) >= 0 <==> c in "0123456789" || c in "abcdef" || c in "ABCDEF"
  {
    if '0' <= c <= '9' { assert "0123456789"[c as int - '0' as int] == c; }
    if 'a' <= c <= 'f' { assert "abcdef"[c as int - 'a' as int] == c; }
    if 'A' <= c <= 'F' { assert "ABCDEF"[c as int - 'A' as int] == c; }
  }

  lemma LettersAndDigits(c: char)
    ensures AlphaNumeric(c) <==>
      c in "0123456789" || c in "abcdefghijklm" || c in "nopqrstuvwxyz" || c in "ABCDEFGHIJKLM" || c in "NOPQRSTUVWXYZ"
  {
    SmallLetters(c);
    CapitalLetters(c);
    HexDigits(c);
  }

  lemma SmallLetters(c: char)
    ensures 'a' <= c <= 'z' <==> c in "abcdefghijklm" || c in "nopqrstuvwxyz"
  {
    if 'a' <= c <= 'm' { assert "abcdefghijklm"[c as int - 'a' as int] == c; }
    if 'n' <= c <= 'z' { assert "nopqrstuvwxyz"[c as int - 'n' as int] == c; }
  }

  lemma CapitalLetters(c: char)
    ensures 'A' <= c <= 'Z' <==> c in "ABCDEFGHIJKLM" || c in "NOPQRSTUVWXYZ"
  {
    if 'A' <= c <= 'M' { assert "ABCDEFGHIJKLM"[c as int - 'A' as int] == c; }
    if 'N' <= c <= 'Z' { assert "NOPQRSTUVWXYZ"[c as int - 'N' as int] == c; }
  }

  function EncodeByte(c: char): (e: string)
    ensures |e| > 0
  {
    if AlphaNumeric(c) then [c]
    else if c == ' ' then "+"
    else ['%', Hex(c as int / 16 % 16), Hex(c as int % 16)]
  }

  /** Letters and digits stand for themselves, a space for a plus, and any other byte for two small digits. */
  lemma ByteEncoded(c: char)
    requires c as int < 256
    ensures
      var e := EncodeByte(c);
      if AlphaNumeric(c) then e == [c]
      else if c == ' ' then e == "+"
      else |e| == 3 && e[0] == '%' && HexValue(e[1]) * 16 + HexValue(e[2]) == c as int
           && e[1] !in "ABCDEF" && e[2] !in "ABCDEF"
  {
    HexInverts(c as int / 16 % 16);
    HexInverts(c as int % 16);
  }

  function EncodeUrl(s: string): string {
    if |s| == 0 then "" else EncodeUrl(s[..|s| - 1]) + EncodeByte(s[|s| - 1])
  }

  function Prepend(c: char, r: Option<string>): Option<string> {
    if r.Some? then Some([c] + r.value) else None
  }

  datatype Scanned = Read(c: char) | Nothing | Unsure

  predicate Space(c: char) {
    c == ' ' || 9 <= c as int <= 13
  }

  /**
   * What `sscanf` reads for `%02x`: white space is skipped, and then at most two characters are taken, of which the
   * first may be a sign. Of a lone `0x` some C libraries read a zero, and others read nothing.
   */
  function Scan(s: string): (r: Scanned)
    ensures r.Read? ==> r.c as int < 256
  {
    if |s| == 0 then Nothing
    else if Space(s[0]) then Scan(s[1..])
    else if s[0] == '+' || s[0] == '-' then
      if |s| == 1 || HexValue(s[1]) < 0 then Nothing
      else if s[0] == '+' || HexValue(s[1]) == 0 then Read(HexValue(s[1]) as char)
      else Read((256 - HexValue(s[1])) as char)
    else if HexValue(s[0]) < 0 then Nothing
    else if |s| > 1 && HexValue(s[1]) >= 0 then Read((HexValue(s[0]) * 16 + HexValue(s[1])) as char)
    else if |s| > 1 && s[0] == '0' && (s[1] == 'x' || s[1] == 'X') then Unsure
    else Read(HexValue(s[0]) as char)
  }

  /**
   * The text that `s` stands for, if `last` is what the last escape before it has been read as. Three characters are
   * passed over for each escape, whatever has been read of them. If nothing has, the variable keeps its value; there is
   * no answer if it was never set, or if the loop runs past the end of the string.
   */
  function DecodeFrom(s: string, last: Option<char>): Option<string> {
    if |s| == 0 then Some("")
    else if s[0] == '%' then
      if |s| < 3 then None
      else
        match Scan(s[1..])
        case Read(c) => Prepend(c, DecodeFrom(s[3..], Some(c)))
        case Nothing => if last.None? then None else Prepend(last.value, DecodeFrom(s[3..], last))
        case Unsure => None
    else Prepend(if s[0] == '+' then ' ' else s[0], DecodeFrom(s[1..], last))
  }

  function DecodeUrl(s: string): Option<string> {
    DecodeFrom(s, None)
  }

  predicate Bytes(s: string) {
    forall c <- s :: c as int < 256
  }

  predicate Escaped(c: char) {
    !AlphaNumeric(c) && c != ' '
  }

  /** The last character of `s` that is encoded as an escape, or else the one before. */
  function LastEscaped(s: string, last: Option<char>): Option<char> {
    if |s| == 0 then last
    else if Escaped(s[|s| - 1]) then Some(s[|s| - 1])
    else LastEscaped(s[..|s| - 1], last)
  }

  lemma DecodeByte(c: char, rest: string, last: Option<char>)
    requires c as int < 256
    ensures DecodeFrom(EncodeByte(c) + rest, last)
      == Prepend(c, DecodeFrom(rest, if Escaped(c) then Some(c) else last))
  {
    var s := EncodeByte(c) + rest;
    assert s[|EncodeByte(c)|..] == rest;
    if Escaped(c) {
      HexInverts(c as int / 16 % 16);
      HexInverts(c as int % 16);
      TwoDigits(s[1..]);
    }
  }

  lemma TwoDigits(s: string)
    requires |s| > 1 && HexValue(s[0]) >= 0 && HexValue(s[1]) >= 0
    ensures Scan(s) == Read((HexValue(s[0]) * 16 + HexValue(s[1])) as char)
  {
  }

  lemma SpacesAre(c: char)
    ensures Space(c) <==> c in " \t\n\U{b}\U{c}\r"
  {
    var spaces := " \t\n\U{b}\U{c}\r";
    assert spaces[0] == ' ' && spaces[1] == 9 as char && spaces[2] == 10 as char;
    assert spaces[3] == 11 as char && spaces[4] == 12 as char && spaces[5] == 13 as char;
  }

  /** What a sign, white space, and a digit alone come to; `g` stands for anything that is no digit. */
  lemma OddNumbers(s: string, c: char, g: char, rest: string)
    requires HexValue(c) >= 0 && HexValue(g) < 0 && g != 'x' && g != 'X'
    ensures forall w <- " \t\n\U{b}\U{c}\r" :: Scan([w] + s) == Scan(s)
    ensures Scan("+" + ([c] + rest)) == Read(HexValue(c) as char)
    ensures Scan("-" + ([c] + rest)) == Read(((256 - HexValue(c)) % 256) as char)
    ensures Scan([c, g] + rest) == Scan([c]) == Read(HexValue(c) as char)
    ensures !Space(g) && g != '+' && g != '-' ==> Scan([g] + s) == Nothing
    ensures Scan("") == Nothing && Scan("+" + ([g] + rest)) == Scan("-" + ([g] + rest)) == Nothing
    ensures Scan("0x" + rest) == Scan("0X" + rest) == Unsure
  {
    forall w | w in " \t\n\U{b}\U{c}\r" ensures Scan([w] + s) == Scan(s) {
      assert ([w] + s)[1..] == s;
    }
  }

  function Before(s: string, r: Option<string>): Option<string> {
    if r.Some? then Some(s + r.value) else None
  }

  lemma BeforeNext(s: string, c: char, r: Option<string>)
    ensures Before(s, Prepend(c, r)) == Before(s + [c], r) && Before("", r) == r
  {
    if r.Some? {
      assert s + ([c] + r.value) == s + [c] + r.value && "" + r.value == r.value;
    }
  }

  lemma EncodeSnoc(s: string, c: char, rest: string)
    ensures EncodeUrl(s + [c]) + rest == EncodeUrl(s) + (EncodeByte(c) + rest)
  {
    hide EncodeByte;
    assert (s + [c])[..|s|] == s;
  }

  lemma {:induction false} DecodeEncoded(s: string, rest: string, last: Option<char>)
    requires Bytes(s)
    ensures DecodeFrom(EncodeUrl(s) + rest, last) == Before(s, DecodeFrom(rest, LastEscaped(s, last)))
  {
    hide DecodeFrom, EncodeByte, Before, Prepend, Escaped;
    if |s| == 0 {
      assert EncodeUrl(s) + rest == rest;
      BeforeNext("", 'a', DecodeFrom(rest, last));
    } else {
      var front, c := s[..|s| - 1], s[|s| - 1];
      assert s == front + [c] && c in s && forall d <- front :: d in s;
      EncodeSnoc(front, c, rest);
      DecodeEncoded(front, EncodeByte(c) + rest, last);
      DecodeByte(c, rest, LastEscaped(front, last));
      BeforeNext(front, c, DecodeFrom(rest, LastEscaped(s, last)));
    }
  }

  /** Decoding an encoded text gives the text back. */
  lemma DecodeInvertsEncode(s: string)
    requires Bytes(s)
    ensures DecodeUrl(EncodeUrl(s)) == Some(s)
  {
    DecodeEncoded(s, "", None);
    assert EncodeUrl(s) + "" == EncodeUrl(s) && s + "" == s;
  }

  /** One digit is enough for an escape, and the character behind it is lost. */
  lemma OneDigit(rest: string)
    ensures DecodeUrl("%4g" + rest) == Prepend(4 as char, DecodeFrom(rest, Some(4 as char)))
  {
    hide Prepend;
    var s := "%4g" + rest;
    assert s[3..] == rest && s[1..] == "4g" + rest;
  }

  /** An escape that cannot be read repeats the one before it, and without one before it there is no answer. */
  lemma EscapeRepeated(rest: string)
    ensures DecodeUrl("%zz" + rest) == None
    ensures DecodeUrl("%41%zz" + rest) == Prepend('A', Prepend('A', DecodeFrom(rest, Some('A'))))
  {
    hide Prepend;
    var u, t := "%zz" + rest, "%41%zz" + rest;
    assert u[3..] == rest && u[1..] == "zz" + rest;
    assert t[3..] == u && t[1..] == "41" + u;
    TwoDigits(t[1..]);
    assert HexValue('4') * 16 + HexValue('1') == 65;
    assert Scan(t[1..]) == Read('A') && Scan(u[1..]) == Nothing;
    hide Scan;
    assert DecodeFrom(u, Some('A')) == Prepend('A', DecodeFrom(rest, Some('A')));
  }

  /** An encoded text can stand in a query: it has no separators in it. */
  lemma {:induction false} EncodedSafe(s: string)
    ensures '&' !in EncodeUrl(s) && '=' !in EncodeUrl(s)
    ensures EncodeUrl(s) == "" <==> s == ""
  {
    if |s| > 0 {
      var c := s[|s| - 1];
      EncodedSafe(s[..|s| - 1]);
      HexInverts(c as int / 16 % 16);
      HexInverts(c as int % 16);
    }
  }

  // ---------------------------------------------------------------- the query as a map

  type Query = map<string, string>

  /** One `key=value` of a query, up to the next `=` if there is one. */
  function AddItem(m: Query, item: string): Option<Query> {
    var kv := Split(item, "=");
    if |kv| > 1 then
      match DecodeUrl(kv[1])
      case None => None
      case Some(v) => Some(m[kv[0] := v])
    else if |kv| > 0 then Some(m[kv[0] := ""])
    else Some(m)
  }

  function AddItems(m: Query, items: seq<string>): Option<Query>
    decreases |items|
  {
    if |items| == 0 then Some(m)
    else
      match AddItem(m, items[0])
      case None => None
      case Some(m') => AddItems(m', items[1..])
  }

  function Parse(query: string): Option<Query> {
    AddItems(map[], Split(query, "&"))
  }

  function Item(k: string, v: string): string {
    k + "=" + EncodeUrl(CStr(v))
  }

  /** The items of `m` in the order of `keys`. */
  function Items(keys: seq<string>, m: Query): (items: seq<string>)
    requires forall k <- keys :: k in m
    ensures |items| == |keys|
  {
    seq(|keys|, i requires 0 <= i < |keys| => Item(keys[i], m[keys[i]]))
  }

  function Print(keys: seq<string>, m: Query): string
    requires forall k <- keys :: k in m
  {
    Join(Items(keys, m), "&")
  }

  ghost predicate Enumerates(keys: seq<string>, m: Query) {
    (forall k <- keys :: k in m) && (forall k <- m.Keys :: k in keys)
  }

  predicate CleanKey(k: string) {
    '&' !in k && '=' !in k
  }

  predicate ByteValue(v: string) {
    Bytes(v) && NUL !in v
  }

  ghost predicate Printable(m: Query) {
    (forall k <- m.Keys :: CleanKey(k)) && (forall k <- m.Keys :: ByteValue(m[k]))
  }

  ghost predicate ByteValues(m: Query) {
    forall k <- m.Keys :: Bytes(m[k])
  }

  lemma CStrBytes(s: string)
    requires Bytes(s)
    ensures Bytes(CStr(s))
  {
    if |s| > 0 && s[0] != NUL {
      assert s[0] in s && forall c <- s[1..] :: c in s;
      CStrBytes(s[1..]);
    }
  }

  /** Adding a printed item puts the key and its value, up to the first NUL, into the map. */
  lemma AddPrinted(m: Query, k: string, v: string)
    requires CleanKey(k) && Bytes(v)
    ensures AddItem(m, Item(k, v)) == Some(m[k := CStr(v)])
  {
    hide DecodeUrl, EncodeUrl;
    var e := EncodeUrl(CStr(v));
    EncodedSafe(CStr(v));
    var kv := [k, e];
    assert "=" == ['='] && kv[1..] == [e] && Join(kv, "=") == Item(k, v);
    SplitJoined(kv, '=');
    if e == "" {
      assert DropEmptyEnd(kv) == [k];
    } else {
      CStrBytes(v);
      DecodeInvertsEncode(CStr(v));
    }
  }

  /** The other forms of an item: a second `=` ends the value, without any the value is empty, and nothing adds nothing. */
  lemma OddItems(m: Query, k: string, v: string, rest: string)
    requires '=' !in k && '=' !in v
    ensures v != "" ==> AddItem(m, k + "=" + v + "=" + rest) == AddItem(m, k + "=" + v)
    ensures k != "" ==> AddItem(m, k) == AddItem(m, k + "=") == Some(m[k := ""])
    ensures AddItem(m, "") == Some(m)
  {
    hide DecodeUrl;
    assert "=" == ['='];
    SplitCons(k, v + "=" + rest, '=');
    assert k + "=" + v + "=" + rest == k + ['='] + (v + "=" + rest);
    SplitCons(v, rest, '=');
    assert v + ['='] + rest == v + "=" + rest;
    SplitCons(k, v, '=');
    SplitCons(k, "", '=');
    assert k + ['='] + "" == k + "=";
    SplitWhole(v, '=');
    SplitWhole(k, '=');
  }

  function Put(m0: Query, keys: seq<string>, m: Query): Query
    requires forall k <- keys :: k in m
    decreases |keys|
  {
    if |keys| == 0 then m0 else Put(m0[keys[0] := CStr(m[keys[0]])], keys[1..], m)
  }

  lemma {:induction false} AddItemsPrinted(m0: Query, keys: seq<string>, m: Query)
    requires (forall k <- keys :: k in m && CleanKey(k)) && ByteValues(m)
    ensures AddItems(m0, Items(keys, m)) == Some(Put(m0, keys, m))
    decreases |keys|
  {
    hide AddItem, Item;
    if |keys| > 0 {
      assert keys[0] in keys;
      AddPrinted(m0, keys[0], m[keys[0]]);
      assert Items(keys, m)[1..] == Items(keys[1..], m);
      assert Items(keys, m)[0] == Item(keys[0], m[keys[0]]);
      AddItemsPrinted(m0[keys[0] := CStr(m[keys[0]])], keys[1..], m);
    }
  }

  lemma {:induction false} PutAll(m0: Query, keys: seq<string>, m: Query)
    requires forall k <- keys :: k in m
    ensures forall k <- keys :: k in Put(m0, keys, m) && Put(m0, keys, m)[k] == CStr(m[k])
    ensures forall k :: k !in keys ==> (k in Put(m0, keys, m) <==> k in m0) && (k in m0 ==> Put(m0, keys, m)[k] == m0[k])
    decreases |keys|
  {
    if |keys| > 0 {
      PutAll(m0[keys[0] := CStr(m[keys[0]])], keys[1..], m);
    }
  }

  // ---------------------------------------------------------------- printing and parsing again

  /** A map as it is after printing: values end at the first NUL. */
  function Truncated(m: Query): Query {
    map k | k in m :: CStr(m[k])
  }

  /** Printed items are what splitting at `&` gives back. */
  lemma SplitPrinted(keys: seq<string>, m: Query)
    requires forall k <- keys :: k in m && '&' !in k
    ensures Split(Print(keys, m), "&") == Items(keys, m)
  {
    hide EncodeUrl;
    var items := Items(keys, m);
    assert "&" == ['&'];
    forall i: nat | i < |items| ensures '&' !in items[i] && items[i] != "" {
      assert keys[i] in keys;
      EncodedSafe(CStr(m[keys[i]]));
    }
    SplitJoined(items, '&');
  }

  lemma ParsePrinted(keys: seq<string>, m: Query)
    requires Enumerates(keys, m) && ByteValues(m) && forall k <- m.Keys :: CleanKey(k)
    ensures Parse(Print(keys, m)) == Some(Truncated(m))
  {
    hide Put, AddItems, Items, Print;
    SplitPrinted(keys, m);
    AddItemsPrinted(map[], keys, m);
    PutAll(map[], keys, m);
    assert Put(map[], keys, m) == Truncated(m);
  }

  lemma TruncatedSame(m: Query)
    ensures Truncated(m) == m <==> forall k <- m.Keys :: NUL !in m[k]
  {
    assert forall k <- m.Keys :: Truncated(m)[k] == CStr(m[k]);
  }

  lemma {:induction false} ParsedKeysClean(m: Query, items: seq<string>)
    requires Without(items, '&') && forall k <- m.Keys :: CleanKey(k)
    requires AddItems(m, items).Some?
    ensures forall k <- AddItems(m, items).value.Keys :: CleanKey(k)
    decreases |items|
  {
    hide DecodeUrl, Pieces;
    if |items| > 0 {
      assert items[0] in items;
      assert "=" == ['='];
      PiecesWithout("", items[0], '=');
      PiecesSubset("", items[0], "=", '&');
      ParsedKeysClean(AddItem(m, items[0]).value, items[1..]);
    }
  }

  /** Splitting makes up no characters. */
  lemma {:induction false} PiecesSubset(cur: string, rest: string, delim: string, c: char)
    requires |delim| > 0 && c !in cur && c !in rest
    ensures Without(Pieces(cur, rest, delim), c)
    decreases |rest|
  {
    if |rest| > 0 {
      if delim <= rest {
        PiecesSubset("", rest[|delim|..], delim, c);
      } else {
        PiecesSubset(cur + [rest[0]], rest[1..], delim, c);
      }
    }
  }

  /**
   * Printing a map and parsing it again gives the map back exactly if no key has a separator in it and no value
   * has a NUL in it.
   */
  lemma PrintInverts(keys: seq<string>, m: Query)
    requires Enumerates(keys, m) && ByteValues(m)
    ensures Parse(Print(keys, m)) == Some(m) <==> Printable(m)
  {
    hide AddItems, Print, Pieces;
    if Parse(Print(keys, m)) == Some(m) {
      assert "&" == ['&'];
      PiecesWithout("", Print(keys, m), '&');
      ParsedKeysClean(map[], Split(Print(keys, m), "&"));
    }
    if forall k <- m.Keys :: CleanKey(k) {
      ParsePrinted(keys, m);
      TruncatedSame(m);
    }
  }

  // ---------------------------------------------------------------- queries of bytes

  lemma {:induction false} DecodedBytes(s: string, last: Option<char>)
    requires Bytes(s) && DecodeFrom(s, last).Some? && (last.Some? ==> last.value as int < 256)
    ensures Bytes(DecodeFrom(s, last).value)
    decreases |s|
  {
    hide Scan;
    if |s| > 0 {
      assert s[0] in s;
      if s[0] == '%' {
        assert forall c <- s[3..] :: c in s;
        match Scan(s[1..])
        case Read(c) => DecodedBytes(s[3..], Some(c));
        case Nothing => DecodedBytes(s[3..], last);
        case Unsure =>
      } else {
        assert forall c <- s[1..] :: c in s;
        DecodedBytes(s[1..], last);
      }
    }
  }

  ghost predicate AllBytes(items: seq<string>) {
    forall v <- items :: Bytes(v)
  }

  lemma {:induction false} PiecesBytes(cur: string, rest: string, delim: string)
    requires |delim| > 0 && Bytes(cur) && Bytes(rest)
    ensures AllBytes(Pieces(cur, rest, delim))
    decreases |rest|
  {
    if |rest| > 0 {
      assert rest[0] in rest;
      if delim <= rest {
        assert forall c <- rest[|delim|..] :: c in rest;
        PiecesBytes("", rest[|delim|..], delim);
      } else {
        assert forall c <- rest[1..] :: c in rest;
        PiecesBytes(cur + [rest[0]], rest[1..], delim);
      }
    }
  }

  lemma {:induction false} AddItemsBytes(m: Query, items: seq<string>)
    requires ByteValues(m) && AllBytes(items) && AddItems(m, items).Some?
    ensures ByteValues(AddItems(m, items).value)
    decreases |items|
  {
    hide DecodeFrom, Pieces;
    if |items| > 0 {
      assert items[0] in items;
      PiecesBytes("", items[0], "=");
      var kv := Split(items[0], "=");
      if |kv| > 1 {
        assert kv[1] in kv;
        DecodedBytes(kv[1], None);
      }
      assert forall v <- items[1..] :: v in items;
      AddItemsBytes(AddItem(m, items[0]).value, items[1..]);
    }
  }

  /** The values of a query of bytes are bytes again. */
  lemma ParsedBytes(query: string)
    requires Bytes(query) && Parse(query).Some?
    ensures ByteValues(Parse(query).value)
  {
    PiecesBytes("", query, "&");
    AddItemsBytes(map[], Split(query, "&"));
  }

  /** A key with a separator in it is printed as it is, and read back as something else. */
  lemma KeyNotEscaped()
    ensures Parse(Print(["a&b"], map["a&b" := "c"])) != Some(map["a&b" := "c"])
  {
    hide Print;
    var m := map["a&b" := "c"];
    assert !CleanKey("a&b") && "a&b" in m;
    PrintInverts(["a&b"], m);
  }
}
