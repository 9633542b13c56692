/** Splitting, joining and path normalisation of core/kk.cc. Strings hold no NUL character. */
module Paths {
  // ---------------------------------------------------------------- split

  /** The pieces of `cur + rest`, of which `cur` has been scanned since the last delimiter. */
  function Pieces(cur: string, rest: string, delim: string): seq<string>
    requires |delim| > 0
    decreases |rest|
  {
    if |rest| == 0 then (if |cur| == 0 then [] else [cur])
    else if delim <= rest then [cur] + Pieces("", rest[|delim|..], delim)
    else Pieces(cur + [rest[0]], rest[1..], delim)
  }

  /** What follows the last delimiter. */
  function LastPiece(cur: string, rest: string, delim: string): string
    requires |delim| > 0
    decreases |rest|
  {
    if |rest| == 0 then cur
    else if delim <= rest then LastPiece("", rest[|delim|..], delim)
    else LastPiece(cur + [rest[0]], rest[1..], delim)
  }

  function Split(s: string, delim: string): seq<string>
    requires |delim| > 0
  {
    Pieces("", s, delim)
  }

  /** `CStringSplit`; with an empty delimiter its loop would not end. */
  method CStringSplit(s: string, delim: string) returns (items: seq<string>)
    requires |delim| > 0
    ensures items == Split(s, delim)
  {
    items := [];
    var p: nat, b: nat := 0, 0;
    assert s[0..] == s;
    while b != |s|
      invariant p <= b <= |s|
      invariant items + Pieces(s[p..b], s[b..], delim) == Split(s, delim)
      decreases |s| - b
    {
      if delim <= s[b..] {
        assert s[b..][|delim|..] == s[b + |delim|..];
        assert s[b + |delim|..b + |delim|] == "";
        items := items + [s[p..b]];
        b := b + |delim|;
        p := b;
      } else {
        assert s[p..b] + [s[b..][0]] == s[p..b + 1];
        assert s[b..][1..] == s[b + 1..];
        b := b + 1;
      }
    }
    if b != p {
      items := items + [s[p..b]];
    }
  }

  /** In front of its first occurrence no part of a text is the delimiter, not even one that reaches into it. */
  ghost predicate FirstAtEnd(v: string, delim: string) {
    forall k: nat {:trigger (v + delim)[k..]} :: k < |v| ==> !(delim <= (v + delim)[k..])
  }

  lemma {:induction false} ScanFirst(cur: string, v: string, s: string, delim: string)
    requires |delim| > 0 && FirstAtEnd(v, delim)
    ensures Pieces(cur, v + delim + s, delim) == [cur + v] + Pieces("", s, delim)
    decreases |v|
  {
    var rest := v + delim + s;
    if |v| == 0 {
      assert rest == delim + s && rest[|delim|..] == s && cur + v == cur;
    } else {
      assert !(delim <= (v + delim)[0..]) && (v + delim)[0..] == v + delim;
      assert rest[..|delim|] == (v + delim)[..|delim|];
      assert rest[1..] == v[1..] + delim + s && rest[0] == v[0];
      FirstLater(v, delim);
      ScanFirst(cur + [v[0]], v[1..], s, delim);
      assert cur + [v[0]] + v[1..] == cur + v;
    }
  }

  lemma FirstLater(v: string, delim: string)
    requires |v| > 0 && FirstAtEnd(v, delim)
    ensures FirstAtEnd(v[1..], delim)
  {
    forall k: nat {:trigger (v[1..] + delim)[k..]} | k < |v| - 1 ensures !(delim <= (v[1..] + delim)[k..]) {
      assert (v[1..] + delim)[k..] == (v + delim)[k + 1..];
    }
  }

  /** The first piece ends at the first occurrence of the delimiter, of any length, and the rest is split in turn. */
  lemma SplitAtFirst(v: string, s: string, delim: string)
    requires |delim| > 0 && FirstAtEnd(v, delim)
    ensures Split(v + delim + s, delim) == [v] + Split(s, delim)
  {
    ScanFirst("", v, s, delim);
    assert "" + v == v;
  }

  /** A text in which the delimiter does not occur is one piece, and the empty text none. */
  lemma {:induction false} SplitNone(cur: string, rest: string, delim: string)
    requires |delim| > 0 && forall k: nat {:trigger rest[k..]} :: k < |rest| ==> !(delim <= rest[k..])
    ensures Pieces(cur, rest, delim) == if cur + rest == "" then [] else [cur + rest]
    decreases |rest|
  {
    if |rest| == 0 {
      assert cur + rest == cur;
    } else {
      assert !(delim <= rest[0..]) && rest[0..] == rest;
      forall k: nat {:trigger rest[1..][k..]} | k < |rest| - 1 ensures !(delim <= rest[1..][k..]) {
        assert rest[1..][k..] == rest[k + 1..];
      }
      SplitNone(cur + [rest[0]], rest[1..], delim);
      assert cur + [rest[0]] + rest[1..] == cur + rest;
    }
  }

  // ---------------------------------------------------------------- join

  function Join(items: seq<string>, delim: string): string {
    if |items| == 0 then ""
    else if |items| == 1 then items[0]
    else items[0] + delim + Join(items[1..], delim)
  }

  lemma {:induction false} JoinLast(items: seq<string>, item: string, delim: string)
    ensures Join(items + [item], delim) == if |items| == 0 then item else Join(items, delim) + delim + item
  {
    if |items| > 1 {
      assert (items + [item])[1..] == items[1..] + [item];
      JoinLast(items[1..], item, delim);
      Regroup(items[0], delim, Join(items[1..], delim), delim + item);
    }
  }

  lemma Regroup(a: string, b: string, c: string, d: string)
    ensures a + b + (c + d) == a + b + c + d
  {
  }

  lemma JoinNothing(delim: string)
    ensures Join([], delim) == ""
  {
  }

  method CStringJoin(items: seq<string>, delim: string) returns (s: string)
    ensures s == Join(items, delim)
  {
    hide Join;
    JoinNothing(delim);
    s := "";
    assert items[..0] == [];
    for i := 0 to |items|
      invariant s == Join(items[..i], delim)
    {
      JoinLast(items[..i], items[i], delim);
      assert items[..i + 1] == items[..i] + [items[i]];
      if i != 0 {
        s := s + delim;
      }
      s := s + items[i];
    }
    assert items[..|items|] == items;
  }

  // ---------------------------------------------------------------- one undoes the other

  lemma PiecesNone(cur: string, rest: string, delim: string)
    requires |delim| > 0
    ensures Pieces(cur, rest, delim) == [] <==> cur + rest == ""
    decreases |rest|
  {
    if |rest| > 0 && !(delim <= rest) {
      PiecesNone(cur + [rest[0]], rest[1..], delim);
    }
  }

  lemma JoinCons(item: string, items: seq<string>, delim: string)
    ensures Join([item] + items, delim) == if |items| == 0 then item else item + delim + Join(items, delim)
  {
    assert ([item] + items)[1..] == items;
  }

  /** The delimiter that joining does not give back, if the string ends with one. */
  function LostDelimiter(cur: string, rest: string, delim: string): string
    requires |delim| > 0
  {
    if LastPiece(cur, rest, delim) == "" && cur + rest != "" then delim else ""
  }

  lemma {:induction false} JoinPieces(cur: string, rest: string, delim: string)
    requires |delim| > 0
    ensures cur + rest == Join(Pieces(cur, rest, delim), delim) + LostDelimiter(cur, rest, delim)
    decreases |rest|
  {
    if |rest| == 0 {
      assert cur + rest == cur && cur + "" == cur;
    } else if delim <= rest {
      var rest' := rest[|delim|..];
      assert rest == delim + rest' && "" + rest' == rest';
      JoinPieces("", rest', delim);
      JoinMatched(cur, rest', delim);
    } else {
      assert cur + rest == cur + [rest[0]] + rest[1..];
      JoinPieces(cur + [rest[0]], rest[1..], delim);
    }
  }

  /** One piece more in front. */
  lemma JoinMatched(cur: string, rest: string, delim: string)
    requires |delim| > 0 && rest == Join(Split(rest, delim), delim) + LostDelimiter("", rest, delim)
    ensures cur + (delim + rest)
      == Join([cur] + Split(rest, delim), delim) + if LastPiece("", rest, delim) == "" then delim else ""
  {
    hide *;
    PiecesNone("", rest, delim);
    JoinCons(cur, Split(rest, delim), delim);
    NothingLeft(rest, delim);
    Concatenated(cur, delim, rest, Join(Split(rest, delim), delim), LostDelimiter("", rest, delim));
  }

  lemma NothingLeft(rest: string, delim: string)
    requires |delim| > 0
    ensures "" + rest == rest && Split(rest, delim) == Pieces("", rest, delim)
    ensures rest == "" ==> LastPiece("", rest, delim) == "" && |Split(rest, delim)| == 0
    ensures LostDelimiter("", rest, delim) == if LastPiece("", rest, delim) == "" && rest != "" then delim else ""
  {
    assert "" + rest == rest;
  }

  lemma Concatenated(cur: string, delim: string, rest: string, joined: string, lost: string)
    ensures rest == "" ==> cur + (delim + rest) == cur + delim
    ensures rest == joined + lost ==> cur + (delim + rest) == cur + delim + joined + lost
  {
    assert rest == "" ==> delim + rest == delim;
    assert cur + (delim + (joined + lost)) == cur + delim + joined + lost;
  }

  /** Joining the pieces gives the string back, but for one delimiter at its end. */
  lemma JoinUndoesSplit(s: string, delim: string)
    requires |delim| > 0
    ensures s == Join(Split(s, delim), delim) + if LastPiece("", s, delim) == "" && s != "" then delim else ""
  {
    assert "" + s == s;
    JoinPieces("", s, delim);
  }

  predicate Without(vs: seq<string>, c: char) {
    forall v <- vs :: c !in v
  }

  lemma {:induction false} PiecesWithout(cur: string, rest: string, c: char)
    requires c !in cur
    ensures Without(Pieces(cur, rest, [c]), c)
    decreases |rest|
  {
    if |rest| > 0 {
      if [c] <= rest {
        PiecesWithout("", rest[1..], c);
      } else {
        assert rest[0] != c;
        PiecesWithout(cur + [rest[0]], rest[1..], c);
      }
    }
  }

  /** A piece without the delimiter is scanned to its end. */
  lemma {:induction false} ScanPiece(cur: string, v: string, rest: string, c: char)
    requires c !in v
    ensures Pieces(cur, v + rest, [c]) == Pieces(cur + v, rest, [c])
    decreases |v|
  {
    if |v| == 0 {
      assert v + rest == rest && cur + v == cur;
    } else {
      assert (v + rest)[0] == v[0] && (v + rest)[1..] == v[1..] + rest;
      assert cur + [v[0]] + v[1..] == cur + v;
      ScanPiece(cur + [v[0]], v[1..], rest, c);
    }
  }

  function DropEmptyEnd(vs: seq<string>): seq<string> {
    if |vs| > 0 && vs[|vs| - 1] == "" then vs[..|vs| - 1] else vs
  }

  lemma SplitWhole(v: string, c: char)
    requires c !in v
    ensures Split(v, [c]) == if v == "" then [] else [v]
  {
    ScanPiece("", v, "", c);
    assert v + "" == v && "" + v == v;
  }

  lemma {:induction false} SplitJoined(vs: seq<string>, c: char)
    requires Without(vs, c)
    ensures Split(Join(vs, [c]), [c]) == DropEmptyEnd(vs)
  {
    if |vs| > 0 {
      var v := vs[0];
      assert v in vs && [v] + vs[1..] == vs;
      JoinCons(v, vs[1..], [c]);
      if |vs| == 1 {
        assert vs == [v];
        SplitWhole(v, c);
      } else {
        hide Join, Pieces;
        SplitJoined(vs[1..], c);
        SplitCons(v, Join(vs[1..], [c]), c);
        assert [v] + DropEmptyEnd(vs[1..]) == DropEmptyEnd(vs);
      }
    }
  }

  lemma SplitCons(v: string, s: string, c: char)
    requires c !in v
    ensures Split(v + [c] + s, [c]) == [v] + Split(s, [c])
  {
    var rest := [c] + s;
    assert v + [c] + s == v + rest && "" + v == v;
    ScanPiece("", v, rest, c);
    assert [c] <= rest && rest[1..] == s;
  }

  /** Splitting undoes joining exactly if no item contains the delimiter and the last one is not empty. */
  lemma SplitUndoesJoin(vs: seq<string>, c: char)
    ensures Split(Join(vs, [c]), [c]) == vs <==> Without(vs, c) && (|vs| > 0 ==> vs[|vs| - 1] != "")
  {
    PiecesWithout("", Join(vs, [c]), c);
    if Without(vs, c) {
      SplitJoined(vs, c);
    }
  }

  // ---------------------------------------------------------------- normalisation

  /** One segment, read from left to right onto a stack. */
  function Push(stack: seq<string>, v: string): seq<string> {
    if v == "." then stack
    else if v == ".." then (if |stack| > 0 then stack[..|stack| - 1] else stack)
    else if v == "" && |stack| > 0 then stack
    else stack + [v]
  }

  /** A name goes on top, `..` takes the top away, `.` does nothing, and an empty segment counts at the bottom alone. */
  lemma Segments(stack: seq<string>, v: string)
    ensures v != "" && v != "." && v != ".." ==> Push(stack, v) == stack + [v]
    ensures Push(stack + [v], "..") == stack && Push([], "..") == []
    ensures Push(stack, ".") == stack && Push([], "") == [""] && (stack != [] ==> Push(stack, "") == stack)
  {
  }

  function Evaluate(stack: seq<string>, vs: seq<string>): seq<string>
    decreases |vs|
  {
    if |vs| == 0 then stack else Evaluate(Push(stack, vs[0]), vs[1..])
  }

  function Normalize(path: string): string {
    Join(Evaluate([], Split(path, "/")), "/")
  }

  lemma EvaluateNext(stack: seq<string>, vs: seq<string>, next: seq<string>, rest: seq<string>)
    requires |vs| > 0 && vs[1..] == rest && Push(stack, vs[0]) == next
    ensures Evaluate(stack, vs) == Evaluate(next, rest)
  {
  }

  lemma EvaluateNothing(stack: seq<string>)
    ensures Evaluate(stack, []) == stack
  {
  }

  /** The loop of `CStringPathNormalize`, which erases from the list it walks along. */
  method EraseSegments(segments: seq<string>) returns (vs: seq<string>)
    ensures vs == Evaluate([], segments)
  {
    hide Evaluate;
    vs := segments;
    var i: nat := 0;
    assert vs[..0] == [] && vs[0..] == vs;
    while i != |vs|
      invariant i <= |vs|
      invariant Evaluate(vs[..i], vs[i..]) == Evaluate([], segments)
      decreases |vs| - i
    {
      var v := vs[i];
      ghost var stack, rest := vs[..i], vs[i + 1..];
      EvaluateNext(stack, vs[i..], Push(stack, v), rest);
      if v == "." {
        vs := Erase(vs, i);
        continue;
      } else if v == ".." {
        vs := Erase(vs, i);
        if i != 0 {
          assert vs[..i - 1] == stack[..i - 1];
          vs := Erase(vs, i - 1);
          i := i - 1;
        }
        continue;
      } else if v == "" && i != 0 {
        vs := Erase(vs, i);
        continue;
      }
      assert stack + [v] == vs[..i + 1];
      i := i + 1;
    }
    assert vs[..i] == vs && vs[i..] == [];
    EvaluateNothing(vs);
  }

  /** `vs.erase(vs.begin() + i)`. */
  function Erase(vs: seq<string>, i: nat): (r: seq<string>)
    requires i < |vs|
    ensures |r| == |vs| - 1 && r[..i] == vs[..i] && r[i..] == vs[i + 1..]
  {
    vs[..i] + vs[i + 1..]
  }

  method CStringPathNormalize(path: string) returns (s: string)
    ensures s == Normalize(path)
  {
    var vs := CStringSplit(path, "/");
    vs := EraseSegments(vs);
    s := CStringJoin(vs, "/");
  }

  predicate CleanSegment(v: string, first: bool) {
    v != "." && v != ".." && (v == "" ==> first) && '/' !in v
  }

  /** No `.` or `..`, and no empty segment but the first, which stands for the root. */
  predicate Clean(vs: seq<string>) {
    forall i {:trigger vs[i]} :: 0 <= i < |vs| ==> CleanSegment(vs[i], i == 0)
  }

  lemma {:induction false} EvaluateClean(stack: seq<string>, vs: seq<string>)
    requires Clean(stack) && Without(vs, '/')
    ensures Clean(Evaluate(stack, vs))
    decreases |vs|
  {
    if |vs| > 0 {
      assert '/' !in vs[0];
      EvaluateClean(Push(stack, vs[0]), vs[1..]);
    }
  }

  lemma {:induction false} EvaluateKeeps(stack: seq<string>, vs: seq<string>)
    requires Clean(stack + vs)
    ensures Evaluate(stack, vs) == stack + vs
    decreases |vs|
  {
    if |vs| > 0 {
      assert (stack + vs)[|stack|] == vs[0];
      assert Push(stack, vs[0]) == stack + [vs[0]];
      assert stack + [vs[0]] + vs[1..] == stack + vs;
      EvaluateKeeps(stack + [vs[0]], vs[1..]);
    } else {
      assert stack + vs == stack;
    }
  }

  /** The segments of a normal path are clean. */
  lemma NormalizeClean(path: string)
    ensures Clean(Evaluate([], Split(path, "/")))
    ensures Clean(Split(Normalize(path), "/"))
  {
    var vs := Evaluate([], Split(path, "/"));
    assert "/" == ['/'];
    PiecesWithout("", path, '/');
    EvaluateClean([], Split(path, "/"));
    if |vs| > 0 && vs[|vs| - 1] == "" {
      assert |vs| == 1;
    } else {
      SplitJoined(vs, '/');
    }
  }

  /** Normalising a normal path changes nothing. */
  lemma NormalizeIdempotent(path: string)
    ensures Normalize(Normalize(path)) == Normalize(path)
  {
    var vs := Evaluate([], Split(path, "/"));
    assert "/" == ['/'];
    NormalizeClean(path);
    if |vs| > 0 && vs[|vs| - 1] == "" {
      assert |vs| == 1;
    } else {
      SplitJoined(vs, '/');
      EvaluateKeeps([], vs);
      assert [] + vs == vs;
    }
  }

  /** A path can be normalised up to any segment first. */
  lemma {:induction false} EvaluateConcat(stack: seq<string>, a: seq<string>, b: seq<string>)
    ensures Evaluate(stack, a + b) == Evaluate(Evaluate(stack, a), b)
    decreases |a|
  {
    if |a| == 0 {
      assert a + b == b;
    } else {
      assert (a + b)[1..] == a[1..] + b;
      EvaluateConcat(Push(stack, a[0]), a[1..], b);
    }
  }

  // ---------------------------------------------------------------- the root

  /** How many segments are on the stack, and whether the first is the empty one that stands for the root. */
  datatype Depth = Depth(segments: nat, rooted: bool)

  function Enter(d: Depth, v: string): Depth {
    if v == "." then d
    else if v == ".." then
      if d.segments <= 1 then Depth(0, false) else Depth(d.segments - 1, d.rooted)
    else if d.segments == 0 then Depth(1, v == "")
    else if v == "" then d
    else Depth(d.segments + 1, d.rooted)
  }

  function Descend(d: Depth, vs: seq<string>): Depth
    decreases |vs|
  {
    if |vs| == 0 then d else Descend(Enter(d, vs[0]), vs[1..])
  }

  function DepthOf(stack: seq<string>): Depth {
    Depth(|stack|, |stack| > 0 && stack[0] == "")
  }

  /** The depth can be counted without the names. */
  lemma {:induction false} DescendEvaluates(stack: seq<string>, vs: seq<string>)
    ensures DepthOf(Evaluate(stack, vs)) == Descend(DepthOf(stack), vs)
    decreases |vs|
  {
    if |vs| > 0 {
      DescendEvaluates(Push(stack, vs[0]), vs[1..]);
    }
  }

  predicate Absolute(path: string) {
    |path| > 0 && path[0] == '/'
  }

  lemma JoinAbsolute(vs: seq<string>)
    requires Without(vs, '/')
    ensures Absolute(Join(vs, "/")) <==> |vs| > 1 && vs[0] == ""
  {
    if |vs| > 0 {
      assert vs[0] in vs;
    }
  }

  /**
   * A normal path is absolute exactly if the count down the segments ends below the root: a `..` at the root takes
   * the root away, an empty segment on the empty stack brings it back, and the root alone becomes the empty text.
   */
  lemma AbsoluteIff(path: string)
    ensures Absolute(Normalize(path)) <==>
      var d := Descend(Depth(0, false), Split(path, "/")); d.rooted && d.segments > 1
  {
    var vs := Evaluate([], Split(path, "/"));
    assert "/" == ['/'];
    PiecesWithout("", path, '/');
    EvaluateClean([], Split(path, "/"));
    forall v | v in vs ensures '/' !in v {
      var i :| 0 <= i < |vs| && vs[i] == v;
    }
    JoinAbsolute(vs);
    DescendEvaluates([], Split(path, "/"));
  }

  /** An absolute path that becomes relative. */
  lemma RootEscapes()
    ensures Absolute("/../a") && Normalize("/../a") == "a"
  {
    var vs := ["", "..", "a"];
    assert "/" == ['/'] && vs[1..] == ["..", "a"] && ["..", "a"][1..] == ["a"];
    assert Join(vs, "/") == "/../a";
    SplitJoined(vs, '/');
    assert Push([], "") == [""] && Push([""], "..") == [] && Push([], "a") == ["a"];
    assert Evaluate([], vs) == ["a"];
  }

  /** The root itself becomes the empty text. */
  lemma RootVanishes()
    ensures Absolute("/") && Normalize("/") == ""
  {
    assert "/"[1..] == "" && Split("/", "/") == [""];
  }

  lemma JoinNext(vs: seq<string>, rest: seq<string>)
    requires |vs| > 1 && vs[1..] == rest
    ensures Join(vs, "/") == vs[0] + "/" + Join(rest, "/")
  {
  }

  lemma PathJoined()
    ensures Join(["a", ".", "b", "", "..", "c"], "/") == "a/./b//../c"
    ensures Join(["a", "c"], "/") == "a/c"
  {
    hide Join;
    JoinNext(["a", ".", "b", "", "..", "c"], [".", "b", "", "..", "c"]);
    JoinNext([".", "b", "", "..", "c"], ["b", "", "..", "c"]);
    JoinNext(["b", "", "..", "c"], ["", "..", "c"]);
    JoinNext(["", "..", "c"], ["..", "c"]);
    JoinNext(["..", "c"], ["c"]);
    JoinNext(["a", "c"], ["c"]);
    JoinOne("c");
  }

  lemma JoinOne(v: string)
    ensures Join([v], "/") == v
  {
  }

  lemma PathEvaluated()
    ensures Evaluate([], ["a", ".", "b", "", "..", "c"]) == ["a", "c"]
  {
    hide Evaluate;
    EvaluateNext([], ["a", ".", "b", "", "..", "c"], ["a"], [".", "b", "", "..", "c"]);
    EvaluateNext(["a"], [".", "b", "", "..", "c"], ["a"], ["b", "", "..", "c"]);
    EvaluateNext(["a"], ["b", "", "..", "c"], ["a", "b"], ["", "..", "c"]);
    EvaluateNext(["a", "b"], ["", "..", "c"], ["a", "b"], ["..", "c"]);
    EvaluateNext(["a", "b"], ["..", "c"], ["a"], ["c"]);
    EvaluateNext(["a"], ["c"], ["a", "c"], []);
    EvaluateNothing(["a", "c"]);
  }

  /** All kinds of segments at once. */
  lemma Normalized()
    ensures Normalize("a/./b//../c") == "a/c"
  {
    hide Evaluate, Join, Pieces;
    var vs := ["a", ".", "b", "", "..", "c"];
    assert "/" == ['/'];
    PathJoined();
    SplitJoined(vs, '/');
    PathEvaluated();
  }
}
