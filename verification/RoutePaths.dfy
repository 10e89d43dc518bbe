module RoutePaths {
  // What the router makes of any path and query (splitPath, splitQuery and match in
  // pkg/router/router.go), said of the characters themselves.

  import opened Seqs
  import opened Wire
  import opened Dom
  import opened Trees
  import opened Router

  // ------------------------------------------------------------------ segments

  function Slashes(n: nat): Str {
    seq(n, i => 0x2F)
  }

  /** A path with `gaps[i]` slashes before segment `i`, and as many as the last says at its end. */
  function Spread(segments: seq<Str>, gaps: seq<nat>): Str
    requires |gaps| == |segments| + 1
    decreases segments
  {
    Slashes(gaps[0]) + if segments == [] then [] else segments[0] + Spread(segments[1..], gaps[1..])
  }

  /** Segments are not empty and hold no slash; between two of them there is at least one. */
  ghost predicate Separated(segments: seq<Str>, gaps: seq<nat>) {
    && |gaps| == |segments| + 1
    && (forall p | p in segments :: p != [] && 0x2F !in p)
    && (forall i | 0 < i < |segments| :: gaps[i] > 0)
  }

  lemma {:induction false} NonEmptyConcat(a: seq<Str>, b: seq<Str>)
    ensures NonEmptyParts(a + b) == NonEmptyParts(a) + NonEmptyParts(b)
    decreases b
  {
    if b == [] {
      assert a + b == a;
    } else {
      assert (a + b)[..|a + b| - 1] == a + b[..|b| - 1];
      NonEmptyConcat(a, b[..|b| - 1]);
    }
  }

  lemma {:induction false} SlashInFront(s: Str)
    ensures Segments([0x2F] + s) == Segments(s)
  {
    assert [] + [SLASH] + s == [0x2F] + s;
    SplitStep([], SLASH, s);
    NonEmptyConcat([[]], Split(s, SLASH));
    assert NonEmptyParts([[]]) == [];
  }

  lemma {:induction false} SlashesInFront(n: nat, s: Str)
    ensures Segments(Slashes(n) + s) == Segments(s)
  {
    if n == 0 {
      assert Slashes(0) + s == s;
    } else {
      SlashesInFront(n - 1, s);
      assert Slashes(n) + s == [0x2F] + (Slashes(n - 1) + s);
      SlashInFront(Slashes(n - 1) + s);
    }
  }

  lemma {:induction false} SegmentInFront(p: Str, s: Str)
    requires p != [] && 0x2F !in p
    ensures Segments(p + [0x2F] + s) == [p] + Segments(s)
    ensures Segments(p) == [p]
  {
    SplitStep(p, SLASH, s);
    SplitOne(p, SLASH);
    NonEmptyConcat([p], Split(s, SLASH));
    assert NonEmptyParts([p]) == [p];
  }

  /** The segments of a path are found whatever slashes stand around them. */
  lemma {:induction false} SpreadBack(segments: seq<Str>, gaps: seq<nat>)
    requires Separated(segments, gaps)
    ensures Segments(Spread(segments, gaps)) == segments
    decreases segments
  {
    hide Segments, Slashes;
    if segments == [] {
      SlashesInFront(gaps[0], []);
      OnlySlashes();
    } else {
      var p, rest := segments[0], Spread(segments[1..], gaps[1..]);
      assert p in segments;
      SlashesInFront(gaps[0], p + rest);
      forall q | q in segments[1..] ensures q in segments {
      }
      SpreadBack(segments[1..], gaps[1..]);
      assert segments == [p] + segments[1..];
      AfterSegment(p, segments[1..], gaps[1..]);
    }
  }

  lemma OnlySlashes()
    ensures Segments([]) == []
  {
    SplitOne([], SLASH);
    assert NonEmptyParts([[]]) == [];
  }

  lemma {:induction false} AfterSegment(p: Str, segments: seq<Str>, gaps: seq<nat>)
    requires p != [] && 0x2F !in p && |gaps| == |segments| + 1 && (segments != [] ==> gaps[0] > 0)
    ensures Segments(p + Spread(segments, gaps)) == [p] + Segments(Spread(segments, gaps))
  {
    hide *;
    if gaps[0] > 0 {
      var rest := SlashTaken(segments, gaps);
      SegmentInFront(p, rest);
      SlashInFront(rest);
      Regroup(p, [0x2F], rest);
    } else {
      NothingSpread(segments, gaps);
      SegmentInFront(p, []);
      OnlySlashes();
      assert p + [] == p;
    }
  }

  lemma NothingSpread(segments: seq<Str>, gaps: seq<nat>)
    requires segments == [] && |gaps| == 1 && gaps[0] == 0
    ensures Spread(segments, gaps) == []
  {
  }

  lemma SlashTaken(segments: seq<Str>, gaps: seq<nat>) returns (rest: Str)
    requires |gaps| == |segments| + 1 && gaps[0] > 0
    ensures Spread(segments, gaps) == [0x2F] + rest
  {
    assert Slashes(gaps[0])[0] == 0x2F;
    rest := Spread(segments, gaps)[1..];
  }

  /** And every path is such a one. */
  lemma {:induction false} EveryPath(path: Str) returns (gaps: seq<nat>)
    ensures Separated(Segments(path), gaps) && path == Spread(Segments(path), gaps)
    decreases |path|
  {
    hide Segments, Spread, Separated, IndexByte;
    if path == [] {
      gaps := [0];
      EmptyPath();
    } else if path[0] == 0x2F {
      var more := EveryPath(path[1..]);
      gaps := OneMoreSlash(path, more);
    } else {
      var i := IndexByte(path, SLASH);
      if i == -1 {
        gaps := [0, 0];
        OneSegment(path);
      } else {
        var more := EveryPath(path[i..]);
        gaps := [0] + more;
        SegmentAhead(path, i, more);
      }
    }
  }

  lemma EmptyPath()
    ensures Separated(Segments([]), [0]) && Spread(Segments([]), [0]) == []
  {
    OnlySlashes();
  }

  lemma OneSegment(p: Str)
    requires p != [] && 0x2F !in p
    ensures Separated(Segments(p), [0, 0]) && Spread(Segments(p), [0, 0]) == p
  {
    SegmentInFront(p, []);
    hide Segments;
    SpreadOne(p);
  }

  lemma SpreadOne(p: Str)
    ensures Spread([p], [0, 0]) == p
  {
    assert [p][1..] == [] && [0, 0][1..] == [0];
    assert Slashes(0) == [];
  }

  lemma {:induction false} OneMoreSlash(path: Str, more: seq<nat>) returns (gaps: seq<nat>)
    requires path != [] && path[0] == 0x2F
    requires Separated(Segments(path[1..]), more) && path[1..] == Spread(Segments(path[1..]), more)
    ensures Separated(Segments(path), gaps) && path == Spread(Segments(path), gaps)
  {
    assert path == [0x2F] + path[1..];
    hide *;
    SlashInFront(path[1..]);
    gaps := SpreadSlash(Segments(path[1..]), more);
  }

  lemma {:induction false} SpreadSlash(segments: seq<Str>, more: seq<nat>) returns (gaps: seq<nat>)
    requires Separated(segments, more)
    ensures Separated(segments, gaps) && Spread(segments, gaps) == [0x2F] + Spread(segments, more)
  {
    gaps := more[0 := more[0] + 1];
    assert gaps[1..] == more[1..];
    assert Slashes(more[0] + 1) == [0x2F] + Slashes(more[0]);
  }

  lemma {:induction false} SegmentAhead(path: Str, i: nat, more: seq<nat>)
    requires 0 < i < |path| && path[i] == 0x2F && 0x2F !in path[..i]
    requires Separated(Segments(path[i..]), more) && path[i..] == Spread(Segments(path[i..]), more)
    ensures Separated(Segments(path), [0] + more) && path == Spread(Segments(path), [0] + more)
  {
    hide Segments, Spread, Separated;
    CutAt(path, i);
    SegmentInFront(path[..i], path[i + 1..]);
    SlashInFront(path[i + 1..]);
    SpreadAhead(path[..i], Segments(path[i..]), more);
  }

  lemma CutAt(path: Str, i: nat)
    requires 0 < i < |path| && path[i] == 0x2F
    ensures path == path[..i] + [0x2F] + path[i + 1..] && path == path[..i] + path[i..]
    ensures path[i..] == [0x2F] + path[i + 1..] && path[..i] != []
  {
  }

  lemma {:induction false} SpreadAhead(p: Str, segments: seq<Str>, gaps: seq<nat>)
    requires p != [] && 0x2F !in p && Separated(segments, gaps)
    requires Spread(segments, gaps) != [] && Spread(segments, gaps)[0] == 0x2F
    ensures Separated([p] + segments, [0] + gaps) && Spread([p] + segments, [0] + gaps) == p + Spread(segments, gaps)
  {
    SegmentFirst(segments, gaps);
    hide Spread;
    SpreadCons(p, segments, gaps);
  }

  lemma SpreadCons(p: Str, segments: seq<Str>, gaps: seq<nat>)
    requires |gaps| == |segments| + 1
    ensures Spread([p] + segments, [0] + gaps) == p + Spread(segments, gaps)
  {
    assert ([p] + segments)[1..] == segments && ([0] + gaps)[1..] == gaps;
    assert Slashes(0) == [];
  }

  lemma {:induction false} SegmentFirst(segments: seq<Str>, gaps: seq<nat>)
    requires Separated(segments, gaps)
    ensures segments != [] && gaps[0] == 0 ==> Spread(segments, gaps) != [] && Spread(segments, gaps)[0] != 0x2F
  {
    if segments != [] && gaps[0] == 0 {
      assert segments[0] in segments;
      assert Spread(segments, gaps) == segments[0] + Spread(segments[1..], gaps[1..]);
    }
  }

  // ------------------------------------------------------------------- queries

  /** One piece of a query: "name=value", "name", "=value" or nothing at all. */
  datatype Item = Item(key: Str, value: Option<Str>)

  function Written(item: Item): Str {
    item.key + if item.value.Some? then [0x3D] + item.value.value else []
  }

  function AllWritten(items: seq<Item>): (r: seq<Str>)
    ensures |r| == |items| && forall i | 0 <= i < |items| :: r[i] == Written(items[i])
  {
    seq(|items|, i requires 0 <= i < |items| => Written(items[i]))
  }

  /** A name holds no "=", and neither a name nor a value holds "&". */
  ghost predicate Clean(item: Item) {
    0x3D !in item.key && 0x26 !in item.key && (item.value.Some? ==> 0x26 !in item.value.value)
  }

  function ValueOf(item: Item): Str {
    if item.value.Some? then item.value.value else []
  }

  /** The names that are not empty, each with the last value given for it. */
  ghost predicate Lists(query: map<Str, Str>, items: seq<Item>) {
    && (forall k :: k in query <==> k != [] && exists i :: 0 <= i < |items| && items[i].key == k)
    && (forall i | 0 <= i < |items| && items[i].key != []
             && (forall j | i < j < |items| :: items[j].key != items[i].key) ::
          items[i].key in query && query[items[i].key] == ValueOf(items[i]))
  }

  lemma {:induction false} PieceRead(item: Item)
    requires Clean(item)
    ensures var piece := Written(item);
            var i := IndexByte(piece, EQUALS);
            && (if i == -1 then piece else piece[..i]) == item.key
            && (if i == -1 then [] else piece[i + 1..]) == ValueOf(item)
  {
    var piece := Written(item);
    if item.value.Some? {
      IndexByteAt(item.key, EQUALS, item.value.value);
      assert piece == item.key + [EQUALS] + item.value.value;
      assert piece[..|item.key|] == item.key && piece[|item.key| + 1..] == item.value.value;
    } else {
      IndexByteNone(item.key, EQUALS);
    }
  }

  lemma {:induction false} ItemsListed(items: seq<Item>)
    requires forall item | item in items :: Clean(item)
    ensures Lists(QueryOf(AllWritten(items)), items)
    decreases items
  {
    hide QueryOf, IndexByte, Clean, Lists;
    if items == [] {
      QueryNone();
      NoneListed();
    } else {
      var n := |items| - 1;
      assert items[n] in items;
      assert forall item | item in items[..n] :: item in items;
      ItemsListed(items[..n]);
      ItemNext(items);
      OneListed(QueryOf(AllWritten(items[..n])), items, QueryOf(AllWritten(items)));
    }
  }

  lemma NoneListed()
    ensures Lists(map[], [])
  {
  }

  lemma {:induction false} ItemNext(items: seq<Item>)
    requires items != [] && Clean(items[|items| - 1])
    ensures var before, last := QueryOf(AllWritten(items[..|items| - 1])), items[|items| - 1];
            QueryOf(AllWritten(items)) == if last.key == [] then before else before[last.key := ValueOf(last)]
  {
    var n := |items| - 1;
    PieceRead(items[n]);
    QueryNext(AllWritten(items), n);
    hide QueryOf, IndexByte;
    assert AllWritten(items)[..n] == AllWritten(items[..n]) && AllWritten(items)[..n + 1] == AllWritten(items);
  }

  lemma {:induction false} OneListed(before: map<Str, Str>, items: seq<Item>, after: map<Str, Str>)
    requires items != [] && Lists(before, items[..|items| - 1])
    requires var last := items[|items| - 1];
             after == if last.key == [] then before else before[last.key := ValueOf(last)]
    ensures Lists(after, items)
  {
    NamesListed(before, items, after);
    ValuesListed(before, items, after);
  }

  lemma {:induction false} NamesListed(before: map<Str, Str>, items: seq<Item>, after: map<Str, Str>)
    requires items != [] && Lists(before, items[..|items| - 1])
    requires var last := items[|items| - 1];
             after == if last.key == [] then before else before[last.key := ValueOf(last)]
    ensures forall k :: k in after <==> k != [] && exists i :: 0 <= i < |items| && items[i].key == k
  {
    var n := |items| - 1;
    var front := items[..n];
    forall k ensures k in after <==> k != [] && exists i :: 0 <= i < |items| && items[i].key == k {
      if exists i :: 0 <= i < |items| && items[i].key == k {
        var i :| 0 <= i < |items| && items[i].key == k;
        assert i < n ==> front[i].key == k;
      }
      if k in before {
        var i :| 0 <= i < n && front[i].key == k;
        assert items[i].key == k;
      }
    }
  }

  lemma {:induction false} ValuesListed(before: map<Str, Str>, items: seq<Item>, after: map<Str, Str>)
    requires items != [] && Lists(before, items[..|items| - 1])
    requires var last := items[|items| - 1];
             after == if last.key == [] then before else before[last.key := ValueOf(last)]
    ensures forall i | 0 <= i < |items| && items[i].key != []
                       && (forall j | i < j < |items| :: items[j].key != items[i].key) ::
              items[i].key in after && after[items[i].key] == ValueOf(items[i])
  {
    var n := |items| - 1;
    var front := items[..n];
    forall i | 0 <= i < |items| && items[i].key != [] && forall j | i < j < |items| :: items[j].key != items[i].key
      ensures items[i].key in after && after[items[i].key] == ValueOf(items[i])
    {
      if i < n {
        assert front[i] == items[i] && items[n].key != items[i].key;
        assert forall j | i < j < n :: front[j].key != front[i].key;
      }
    }
  }

  /** A URL without "?" is its own path; otherwise the path ends before the first one. */
  lemma {:induction false} PlainUrl(path: Str)
    requires 0x3F !in path
    ensures CleanPath(path) == path && Query(path) == map[]
  {
    IndexByteNone(path, QUESTION);
  }

  /** The names and values of a query, in any mixture of well-formed and degenerate pieces. */
  lemma {:induction false} UrlBack(path: Str, items: seq<Item>)
    requires 0x3F !in path && |items| > 0 && forall item | item in items :: Clean(item)
    ensures var url := path + [0x3F] + Join(AllWritten(items), 0x26);
            CleanPath(url) == path && Lists(Query(url), items)
  {
    var pieces := AllWritten(items);
    var raw := Join(pieces, AMPERSAND);
    var url := path + [QUESTION] + raw;
    IndexByteAt(path, QUESTION, raw);
    assert url[..|path|] == path && url[|path| + 1..] == raw;
    forall p | p in pieces ensures AMPERSAND !in p {
      var i :| 0 <= i < |items| && pieces[i] == p;
      assert items[i] in items && Clean(items[i]);
    }
    SplitJoined(pieces, AMPERSAND);
    ItemsListed(items);
    hide QueryOf, Split, IndexByte, Join;
    if raw == [] {
      SplitOne(raw, AMPERSAND);
      NothingListed(items, raw);
    }
  }

  lemma {:induction false} NothingListed(items: seq<Item>, raw: Str)
    requires AllWritten(items) == [[]]
    ensures Lists(map[], items)
  {
    assert Written(items[0]) == [];
  }

  // ----------------------------------------------------------------- parameters

  /** A segment ":name". */
  ghost predicate IsNamed(segment: Str, name: Str) {
    segment != [] && segment[0] == 0x3A && segment[1..] == name
  }

  /** The names of the segments with ":", each with the segment at its last place. */
  ghost predicate Named(params: map<Str, Str>, pattern: seq<Str>, path: seq<Str>)
    requires |pattern| == |path|
  {
    && (forall k :: k in params <==> exists i :: 0 <= i < |pattern| && IsNamed(pattern[i], k))
    && (forall i, k | 0 <= i < |pattern| && IsNamed(pattern[i], k)
             && (forall j | i < j < |pattern| :: !IsNamed(pattern[j], k)) ::
          k in params && params[k] == path[i])
  }

  lemma {:induction false} ParamsNamed(pattern: seq<Str>, path: seq<Str>)
    requires |pattern| == |path|
    ensures Named(Params(pattern, path), pattern, path)
    decreases pattern
  {
    if pattern != [] {
      var n := |pattern| - 1;
      ParamsNamed(pattern[..n], path[..n]);
      var before, after := Params(pattern[..n], path[..n]), Params(pattern, path);
      assert IsParam(pattern[n]) ==> IsNamed(pattern[n], pattern[n][1..]);
      assert !IsParam(pattern[n]) ==> forall k :: !IsNamed(pattern[n], k);
      hide Params;
      OneNamed(before, pattern, path, after);
    }
  }

  lemma {:induction false} OneNamed(before: map<Str, Str>, pattern: seq<Str>, path: seq<Str>, after: map<Str, Str>)
    requires |pattern| == |path| && pattern != []
    requires var n := |pattern| - 1;
             && Named(before, pattern[..n], path[..n])
             && after == (if IsParam(pattern[n]) then before[pattern[n][1..] := path[n]] else before)
             && (IsParam(pattern[n]) <==> exists k :: IsNamed(pattern[n], k))
    ensures Named(after, pattern, path)
  {
    var n := |pattern| - 1;
    var front := pattern[..n];
    assert forall k | IsNamed(pattern[n], k) :: IsParam(pattern[n]) && k == pattern[n][1..];
    assert IsParam(pattern[n]) ==> IsNamed(pattern[n], pattern[n][1..]);
    hide IsNamed, IsParam;
    forall k ensures k in after <==> exists i :: 0 <= i < |pattern| && IsNamed(pattern[i], k) {
      if exists i :: 0 <= i < |pattern| && IsNamed(pattern[i], k) {
        var i :| 0 <= i < |pattern| && IsNamed(pattern[i], k);
        assert i < n ==> IsNamed(front[i], k);
      }
      if k in before {
        var i :| 0 <= i < n && IsNamed(front[i], k);
        assert IsNamed(pattern[i], k);
      }
    }
    forall i, k | 0 <= i < |pattern| && IsNamed(pattern[i], k)
                  && forall j | i < j < |pattern| :: !IsNamed(pattern[j], k)
      ensures k in after && after[k] == path[i]
    {
      if i < n {
        assert front[i] == pattern[i] && path[..n][i] == path[i];
        assert forall j | i < j < n :: front[j] == pattern[j];
      }
    }
  }

  /** A pattern with its parameters filled in is matched, and with distinct names they are read back. */
  lemma {:induction false} FilledMatches(pattern: seq<Str>, params: map<Str, Str>)
    requires forall i, k | 0 <= i < |pattern| && IsNamed(pattern[i], k) :: k in params
    requires forall k | k in params :: exists i :: 0 <= i < |pattern| && IsNamed(pattern[i], k)
    ensures Matches(pattern, FillAll(pattern, params)) && Params(pattern, FillAll(pattern, params)) == params
  {
    FilledFits(pattern, params);
    FilledNames(pattern, params);
  }

  lemma {:induction false} FilledFits(pattern: seq<Str>, params: map<Str, Str>)
    requires forall i, k | 0 <= i < |pattern| && IsNamed(pattern[i], k) :: k in params
    ensures Matches(pattern, FillAll(pattern, params))
    ensures forall i, k | 0 <= i < |pattern| && IsNamed(pattern[i], k) ::
              k in params && FillAll(pattern, params)[i] == params[k]
  {
    assert forall i | 0 <= i < |pattern| && IsParam(pattern[i]) :: IsNamed(pattern[i], pattern[i][1..]);
  }

  lemma {:induction false} FilledNames(pattern: seq<Str>, params: map<Str, Str>)
    requires forall i, k | 0 <= i < |pattern| && IsNamed(pattern[i], k) ::
               k in params && FillAll(pattern, params)[i] == params[k]
    requires forall k | k in params :: exists i :: 0 <= i < |pattern| && IsNamed(pattern[i], k)
    ensures Params(pattern, FillAll(pattern, params)) == params
  {
    var path := FillAll(pattern, params);
    var found := Params(pattern, path);
    ParamsNamed(pattern, path);
    hide Params, FillAll, IsNamed;
    forall k | k in params ensures k in found && found[k] == params[k] {
      var i := LastNamed(pattern, k, |pattern|);
    }
  }

  lemma {:induction false} LastNamed(pattern: seq<Str>, k: Str, n: nat) returns (i: nat)
    requires n <= |pattern| && exists i :: 0 <= i < n && IsNamed(pattern[i], k)
    ensures i < n && IsNamed(pattern[i], k) && forall j | i < j < n :: !IsNamed(pattern[j], k)
    decreases n
  {
    if IsNamed(pattern[n - 1], k) {
      i := n - 1;
    } else {
      i := LastNamed(pattern, k, n - 1);
    }
  }

  // ------------------------------------------------------------ the chosen page

  /** Equal length, and equal segments but for those with ":". */
  ghost predicate Fits(pattern: seq<Str>, segments: seq<Str>) {
    && |pattern| == |segments|
    && forall i | 0 <= i < |pattern| :: pattern[i] == segments[i] || (pattern[i] != [] && pattern[i][0] == 0x3A)
  }

  /**
   Any URL, as slashes, segments and query: shown is the page of the first route
   whose pattern fits the segments; with none, the not-found page, if there is one.
   */
  lemma {:induction false} ChosenPage(routes: seq<Route>, notFound: Option<Component>, pages: map<Component, VNode>,
                                      segments: seq<Str>, gaps: seq<nat>, query: Option<Str>, i: nat)
    requires Rendered(routes, notFound, pages) && Separated(segments, gaps) && 0x3F !in Spread(segments, gaps)
    requires i <= |routes| && (forall j | 0 <= j < i :: !Fits(routes[j].segments, segments))
    requires i < |routes| ==> Fits(routes[i].segments, segments)
    ensures var url := Spread(segments, gaps) + if query.Some? then [0x3F] + query.value else [];
            var path := CleanPath(url);
            && path == Spread(segments, gaps)
            && PageAt(routes, notFound, pages, FirstMatch(routes, Segments(path)))
               == (if i < |routes| then Some(pages[routes[i].comp])
                   else if notFound.Some? then Some(pages[notFound.value])
                   else None)
            && (i < |routes| ==> Named(FoundAt(routes, Segments(path)), routes[i].segments, segments))
            && (i == |routes| ==> FoundAt(routes, Segments(path)) == map[])
  {
    var path := Spread(segments, gaps);
    hide *;
    SpreadBack(segments, gaps);
    UrlPath(path, query);
    PageIs(routes, notFound, pages, path, segments, i);
  }

  lemma {:induction false} UrlPath(path: Str, query: Option<Str>)
    requires 0x3F !in path
    ensures CleanPath(path + if query.Some? then [0x3F] + query.value else []) == path
  {
    if query.Some? {
      var url := path + [0x3F] + query.value;
      IndexByteAt(path, QUESTION, query.value);
      assert path + ([0x3F] + query.value) == url;
      assert url[..|path|] == path;
    } else {
      PlainUrl(path);
      assert path + [] == path;
    }
  }

  lemma {:induction false} PageIs(routes: seq<Route>, notFound: Option<Component>, pages: map<Component, VNode>,
                                  path: Str, segments: seq<Str>, i: nat)
    requires Rendered(routes, notFound, pages) && Segments(path) == segments
    requires i <= |routes| && (forall j | 0 <= j < i :: !Fits(routes[j].segments, segments))
    requires i < |routes| ==> Fits(routes[i].segments, segments)
    ensures PageAt(routes, notFound, pages, FirstMatch(routes, segments))
            == (if i < |routes| then Some(pages[routes[i].comp])
                else if notFound.Some? then Some(pages[notFound.value])
                else None)
    ensures i < |routes| ==> Named(FoundAt(routes, segments), routes[i].segments, segments)
    ensures i == |routes| ==> FoundAt(routes, segments) == map[]
  {
    hide Segments;
    forall j | 0 <= j < |routes| ensures Fits(routes[j].segments, segments) <==> Matches(routes[j].segments, segments) {
    }
    hide Fits, Matches, Named, Params;
    FirstMatchIs(routes, segments, i);
    if i < |routes| {
      ParamsNamed(routes[i].segments, segments);
    }
  }
}
