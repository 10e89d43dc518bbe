module Router {
  // URL routing (pkg/router/router.go): choosing a page, its parameters, and showing it.

  import opened Seqs
  import opened Wire
  import opened Dom
  import opened Client
  import opened Trees
  import opened Emission
  import opened Buffers
  import opened Mount
  import opened FlipStreams
  import opened Conditional
  import opened RouteQueue

  const SLASH: byte := 0x2F
  const QUESTION: byte := 0x3F
  const AMPERSAND: byte := 0x26
  const EQUALS: byte := 0x3D
  const COLON: byte := 0x3A

  // -------------------------------------------------------- splitting strings

  /** strings.IndexByte. */
  function IndexByte(s: Str, b: byte): (i: int)
    ensures i == -1 ==> b !in s
    ensures i != -1 ==> 0 <= i < |s| && s[i] == b && b !in s[..i]
  {
    if s == [] then -1
    else if s[0] == b then 0
    else
      var i := IndexByte(s[1..], b);
      assert i != -1 ==> s[..i + 1] == [s[0]] + s[1..][..i];
      if i == -1 then -1 else i + 1
  }

  lemma {:induction false} IndexByteAt(a: Str, b: byte, rest: Str)
    requires b !in a
    ensures IndexByte(a + [b] + rest, b) == |a|
  {
    var s := a + [b] + rest;
    assert s[|a|] == b && forall k | 0 <= k < |a| :: s[k] == a[k];
    assert forall k | |a| < k <= |s| :: s[..k][|a|] == b;
  }

  lemma {:induction false} IndexByteNone(a: Str, b: byte)
    requires b !in a
    ensures IndexByte(a, b) == -1
  {
  }

  /** strings.Split with a one-byte separator. */
  function Split(s: Str, sep: byte): (r: seq<Str>)
    ensures |r| > 0
    decreases |s|
  {
    var i := IndexByte(s, sep);
    if i == -1 then [s] else [s[..i]] + Split(s[i + 1..], sep)
  }

  function Join(parts: seq<Str>, sep: byte): Str
    requires |parts| > 0
  {
    if |parts| == 1 then parts[0] else parts[0] + [sep] + Join(parts[1..], sep)
  }

  /** Splitting takes joining back, and joining splitting. */
  lemma {:induction false} SplitJoined(parts: seq<Str>, sep: byte)
    requires |parts| > 0 && forall p | p in parts :: sep !in p
    ensures Split(Join(parts, sep), sep) == parts
    decreases parts
  {
    assert parts[0] in parts;
    hide Split;
    if |parts| == 1 {
      SplitOne(parts[0], sep);
    } else {
      SplitStep(parts[0], sep, Join(parts[1..], sep));
      SplitJoined(parts[1..], sep);
      assert parts == [parts[0]] + parts[1..];
    }
  }

  lemma SplitOne(a: Str, sep: byte)
    requires sep !in a
    ensures Split(a, sep) == [a]
  {
    IndexByteNone(a, sep);
  }

  lemma {:induction false} SplitStep(a: Str, sep: byte, rest: Str)
    requires sep !in a
    ensures Split(a + [sep] + rest, sep) == [a] + Split(rest, sep)
  {
    var s := a + [sep] + rest;
    IndexByteAt(a, sep, rest);
    assert s[..|a|] == a && s[|a| + 1..] == rest;
  }

  lemma {:induction false} JoinSplit(s: Str, sep: byte)
    ensures Join(Split(s, sep), sep) == s
    ensures forall p | p in Split(s, sep) :: sep !in p
    decreases |s|
  {
    var i := IndexByte(s, sep);
    SplitAt(s, sep);
    hide Split;
    if i != -1 {
      JoinSplit(s[i + 1..], sep);
      var rest := Split(s[i + 1..], sep);
      JoinFirst(s[..i], rest, sep);
      hide IndexByte, Join;
      assert s == s[..i] + [sep] + s[i + 1..];
    } else {
      JoinOne(s, sep);
    }
  }

  lemma JoinOne(s: Str, sep: byte)
    ensures Join([s], sep) == s
  {
  }

  lemma JoinFirst(a: Str, rest: seq<Str>, sep: byte)
    requires rest != []
    ensures Join([a] + rest, sep) == a + [sep] + Join(rest, sep)
  {
    assert ([a] + rest)[1..] == rest;
  }

  lemma SplitAt(s: Str, sep: byte)
    ensures var i := IndexByte(s, sep); Split(s, sep) == if i == -1 then [s] else [s[..i]] + Split(s[i + 1..], sep)
  {
    hide IndexByte;
  }

  function NonEmptyParts(parts: seq<Str>): (r: seq<Str>)
    ensures forall p | p in r :: p in parts && p != []
  {
    if parts == [] then []
    else NonEmptyParts(parts[..|parts| - 1]) + if parts[|parts| - 1] != [] then [parts[|parts| - 1]] else []
  }

  function Segments(path: Str): seq<Str> {
    NonEmptyParts(Split(path, SLASH))
  }

  /** splitPath. */
  method SplitPath(path: Str) returns (out: seq<Str>)
    ensures out == Segments(path)
  {
    var parts := Split(path, SLASH);
    out := [];
    for i := 0 to |parts|
      invariant out == NonEmptyParts(parts[..i])
    {
      assert parts[..i + 1][..i] == parts[..i];
      if parts[i] != [] {
        out := out + [parts[i]];
      }
    }
    assert parts[..|parts|] == parts;
  }

  lemma {:induction false} AllNonEmpty(parts: seq<Str>)
    requires forall i | 0 <= i < |parts| :: parts[i] != []
    ensures NonEmptyParts(parts) == parts
  {
    if parts != [] {
      AllNonEmpty(parts[..|parts| - 1]);
      assert parts == parts[..|parts| - 1] + [parts[|parts| - 1]];
    }
  }

  lemma {:induction false} NonEmptyCons(parts: seq<Str>)
    ensures NonEmptyParts([[]] + parts) == NonEmptyParts(parts)
    decreases parts
  {
    if parts == [] {
      assert ([[]] + parts)[..0] == [];
    } else {
      assert ([[]] + parts)[..|parts|] == [[]] + parts[..|parts| - 1];
      NonEmptyCons(parts[..|parts| - 1]);
    }
  }

  /** "/a/b" has the segments a and b. */
  lemma {:induction false} SegmentsBack(segments: seq<Str>)
    requires |segments| > 0 && forall p | p in segments :: p != [] && SLASH !in p
    ensures Segments([SLASH] + Join(segments, SLASH)) == segments
  {
    var parts := [[]] + segments;
    assert parts[1..] == segments;
    assert Join(parts, SLASH) == [SLASH] + Join(segments, SLASH);
    SplitJoined(parts, SLASH);
    NonEmptyCons(segments);
    AllNonEmpty(segments);
  }

  // ------------------------------------------------------------------- queries

  /** The part before the "?", and the parameters behind it. */
  function CleanPath(path: Str): Str {
    var i := IndexByte(path, QUESTION);
    if i == -1 then path else path[..i]
  }

  /** The parameters among `pairs`: later ones win, empty names are dropped. */
  function QueryOf(pairs: seq<Str>): map<Str, Str> {
    if pairs == [] then map[]
    else
      var before, pair := QueryOf(pairs[..|pairs| - 1]), pairs[|pairs| - 1];
      var i := IndexByte(pair, EQUALS);
      var key, value := if i == -1 then pair else pair[..i], if i == -1 then [] else pair[i + 1..];
      if pair == [] || key == [] then before else before[key := value]
  }

  lemma QueryNone()
    ensures QueryOf([]) == map[]
  {
  }

  lemma QueryNext(pairs: seq<Str>, n: nat)
    requires n < |pairs|
    ensures var before, pair := QueryOf(pairs[..n]), pairs[n];
            var i := IndexByte(pair, EQUALS);
            var key, value := if i == -1 then pair else pair[..i], if i == -1 then [] else pair[i + 1..];
            QueryOf(pairs[..n + 1]) == if pair == [] || key == [] then before else before[key := value]
  {
    assert pairs[..n + 1][..n] == pairs[..n];
  }

  function Query(path: Str): map<Str, Str> {
    var i := IndexByte(path, QUESTION);
    if i == -1 || path[i + 1..] == [] then map[] else QueryOf(Split(path[i + 1..], AMPERSAND))
  }

  /** splitQuery. */
  method SplitQuery(path: Str) returns (clean: Str, query: map<Str, Str>)
    ensures clean == CleanPath(path) && query == Query(path)
    ensures clean <= path && 0x3F !in clean && (clean == path || path[|clean|] == 0x3F)
    ensures 0x3F !in path ==> clean == path && query == map[]
  {
    hide QueryOf, Split;
    var idx := IndexByte(path, QUESTION);
    QueryNone();
    if idx < 0 {
      return path, map[];
    }
    clean := path[..idx];
    var raw := path[idx + 1..];
    query := map[];
    if raw == [] {
      return;
    }
    var pairs := Split(raw, AMPERSAND);
    for i := 0 to |pairs|
      invariant query == QueryOf(pairs[..i])
    {
      QueryNext(pairs, i);
      if pairs[i] == [] {
        continue;
      }
      var cut := IndexByte(pairs[i], EQUALS);
      var k, v := pairs[i], [];
      if cut >= 0 {
        k, v := pairs[i][..cut], pairs[i][cut + 1..];
      }
      if k != [] {
        query := query[k := v];
      }
    }
    assert pairs[..|pairs|] == pairs;
  }

  function Pair(key: Str, value: Str): Str {
    key + [EQUALS] + value
  }

  function Pairs(entries: seq<(Str, Str)>): (r: seq<Str>)
    ensures |r| == |entries| && forall i | 0 <= i < |entries| :: r[i] == Pair(entries[i].0, entries[i].1)
  {
    seq(|entries|, i requires 0 <= i < |entries| => Pair(entries[i].0, entries[i].1))
  }

  ghost predicate Writable(e: (Str, Str)) {
    e.0 != [] && EQUALS !in e.0 && AMPERSAND !in e.0 && AMPERSAND !in e.1
  }

  lemma {:induction false} PairsBack(entries: seq<(Str, Str)>)
    requires forall e | e in entries :: Writable(e)
    ensures QueryOf(Pairs(entries)) == FromPairs(entries)
    decreases entries
  {
    if entries != [] {
      var front, last := entries[..|entries| - 1], entries[|entries| - 1];
      assert last in entries;
      assert Pairs(entries)[..|entries| - 1] == Pairs(front);
      PairsBack(front);
      IndexByteAt(last.0, EQUALS, last.1);
      var pair := Pair(last.0, last.1);
      assert pair[..|last.0|] == last.0 && pair[|last.0| + 1..] == last.1;
    }
  }

  /** A query written out is read back, the last value of each name winning. */
  lemma {:induction false} QueryBack(path: Str, entries: seq<(Str, Str)>)
    requires QUESTION !in path && |entries| > 0 && forall e | e in entries :: Writable(e)
    ensures var url := path + [QUESTION] + Join(Pairs(entries), AMPERSAND);
            CleanPath(url) == path && Query(url) == FromPairs(entries)
  {
    var raw := Join(Pairs(entries), AMPERSAND);
    var url := path + [QUESTION] + raw;
    IndexByteAt(path, QUESTION, raw);
    assert url[..|path|] == path && url[|path| + 1..] == raw;
    forall p | p in Pairs(entries) ensures AMPERSAND !in p {
      var i :| 0 <= i < |entries| && Pairs(entries)[i] == p;
      assert entries[i] in entries && Writable(entries[i]);
    }
    SplitJoined(Pairs(entries), AMPERSAND);
    PairsBack(entries);
    assert entries[0] in entries && |Pairs(entries)[0]| > 0;
    JoinNotEmpty(Pairs(entries), AMPERSAND);
  }

  lemma JoinNotEmpty(parts: seq<Str>, sep: byte)
    requires |parts| > 0 && parts[0] != []
    ensures Join(parts, sep) != []
  {
  }

  // ------------------------------------------------------------------- patterns

  predicate IsParam(seg: Str) {
    |seg| > 0 && seg[0] == COLON
  }

  /** A pattern matches a path of the same length whose fixed segments are equal. */
  predicate Matches(pattern: seq<Str>, path: seq<Str>) {
    |pattern| == |path| && forall i | 0 <= i < |pattern| :: IsParam(pattern[i]) || pattern[i] == path[i]
  }

  /** The values of the named segments, later ones winning. */
  function Params(pattern: seq<Str>, path: seq<Str>): map<Str, Str>
    requires |pattern| == |path|
  {
    if pattern == [] then map[]
    else
      var n := |pattern| - 1;
      var before := Params(pattern[..n], path[..n]);
      if IsParam(pattern[n]) then before[pattern[n][1..] := path[n]] else before
  }

  /** matchSegments. */
  method MatchSegments(pattern: seq<Str>, path: seq<Str>) returns (params: map<Str, Str>, ok: bool)
    ensures ok <==> Matches(pattern, path)
    ensures ok ==> params == Params(pattern, path)
  {
    params := map[];
    if |pattern| != |path| {
      return params, false;
    }
    for i := 0 to |pattern|
      invariant forall j | 0 <= j < i :: IsParam(pattern[j]) || pattern[j] == path[j]
      invariant params == Params(pattern[..i], path[..i])
    {
      assert pattern[..i + 1][..i] == pattern[..i] && path[..i + 1][..i] == path[..i];
      if IsParam(pattern[i]) {
        params := params[pattern[i][1..] := path[i]];
        continue;
      }
      if pattern[i] != path[i] {
        return params, false;
      }
    }
    assert pattern[..|pattern|] == pattern && path[..|path|] == path;
    ok := true;
  }

  /** A pattern's segment with its parameter put in. */
  function Fill(seg: Str, params: map<Str, Str>): Str {
    if IsParam(seg) && seg[1..] in params then params[seg[1..]] else seg
  }

  function FillAll(pattern: seq<Str>, params: map<Str, Str>): seq<Str> {
    seq(|pattern|, i requires 0 <= i < |pattern| => Fill(pattern[i], params))
  }

  /** The last position of the parameter at `i`. */
  lemma {:induction false} ParamLast(pattern: seq<Str>, path: seq<Str>, i: nat) returns (j: nat)
    requires |pattern| == |path| && i < |pattern| && IsParam(pattern[i])
    ensures i <= j < |pattern| && pattern[j] == pattern[i]
    ensures pattern[i][1..] in Params(pattern, path) && Params(pattern, path)[pattern[i][1..]] == path[j]
    decreases pattern
  {
    var n := |pattern| - 1;
    if IsParam(pattern[n]) && pattern[n][1..] == pattern[i][1..] {
      j := n;
      assert pattern[n] == [COLON] + pattern[n][1..] && pattern[i] == [COLON] + pattern[i][1..];
    } else {
      j := ParamLast(pattern[..n], path[..n], i);
    }
  }

  /**
   Filling the parameters into the pattern rebuilds the path exactly when segments
   of the same name have the same value.
   */
  lemma {:induction false} FillRebuilds(pattern: seq<Str>, path: seq<Str>)
    requires Matches(pattern, path)
    ensures FillAll(pattern, Params(pattern, path)) == path
            <==> forall i, j | 0 <= i < j < |pattern| && IsParam(pattern[i])
              && pattern[i] == pattern[j] :: path[i] == path[j]
  {
    var params := Params(pattern, path);
    var filled := FillAll(pattern, params);
    if filled == path {
      forall i, j | 0 <= i < j < |pattern| && IsParam(pattern[i])
             && pattern[i] == pattern[j] ensures path[i] == path[j] {
        assert filled[i] == filled[j];
      }
    }
    if forall i, j | 0 <= i < j < |pattern| && IsParam(pattern[i]) && pattern[i] == pattern[j] :: path[i] == path[j] {
      forall i | 0 <= i < |pattern| ensures filled[i] == path[i] {
        if IsParam(pattern[i]) {
          var j := ParamLast(pattern, path, i);
        }
      }
    }
  }

  /** In particular when the names are distinct. */
  lemma DistinctNames(pattern: seq<Str>, path: seq<Str>)
    requires Matches(pattern, path)
    requires forall i, j | 0 <= i < j < |pattern| && IsParam(pattern[i]) :: pattern[i] != pattern[j]
    ensures FillAll(pattern, Params(pattern, path)) == path
  {
    FillRebuilds(pattern, path);
  }

  // ------------------------------------------------------------------ the router

  /** A page function of the application; the router only tells them apart. */
  type Component = nat

  datatype Route = Route(pattern: Str, comp: Component, segments: seq<Str>)

  /** The position of the first route that matches, or behind the last one. */
  function FirstMatch(routes: seq<Route>, path: seq<Str>): (i: nat)
    ensures i <= |routes|
    ensures forall j | 0 <= j < i :: !Matches(routes[j].segments, path)
    ensures i < |routes| ==> Matches(routes[i].segments, path)
  {
    if routes == [] || Matches(routes[0].segments, path) then 0 else 1 + FirstMatch(routes[1..], path)
  }

  lemma {:induction false} FirstMatchIs(routes: seq<Route>, path: seq<Str>, i: nat)
    requires i <= |routes| && (forall j | 0 <= j < i :: !Matches(routes[j].segments, path))
    requires i < |routes| ==> Matches(routes[i].segments, path)
    ensures FirstMatch(routes, path) == i
  {
  }

  /** Every page there is can be rendered. */
  predicate Rendered(routes: seq<Route>, notFound: Option<Component>, pages: map<Component, VNode>) {
    (forall j | 0 <= j < |routes| :: routes[j].comp in pages) && (notFound.Some? ==> notFound.value in pages)
  }

  /** The page of route `i`; behind the last route, the not-found page. */
  function PageAt(routes: seq<Route>, notFound: Option<Component>, pages: map<Component, VNode>, i: nat): Option<VNode>
    requires Rendered(routes, notFound, pages)
  {
    if i < |routes| then Some(pages[routes[i].comp])
    else if notFound.Some? then Some(pages[notFound.value])
    else None
  }

  /** The parameters of the first route that matches. */
  function FoundAt(routes: seq<Route>, path: seq<Str>): map<Str, Str> {
    var i := FirstMatch(routes, path);
    if i < |routes| then Params(routes[i].segments, path) else map[]
  }

  class Router {
    const id: uint32                     // the container's node id
    var routes: seq<Route>
    var notFound: Option<Component>
    var currentPath: Str
    var currentChild: Option<VNode>
    var children: seq<VNode>             // the container's
    var params: map<Str, Str>            // of the session
    var query: map<Str, Str>
    var pending: seq<Entry>              // the container's queue
    var dirty: bool
    ghost var flushed: Option<VNode>     // the page when the queue was last drained
    ghost var visits: seq<Option<VNode>> // what came after it
    ghost var paths: seq<Str>            // and where it was

    /** The only child is the current page; the queue leads from the flushed page through the visited ones. */
    ghost predicate Valid()
      reads this
    {
      && children == Listed(currentChild) && QUESTION !in currentPath && |paths| == |visits|
      && pending == Trail(flushed, visits, paths) && currentChild == Conditional.Current(flushed, visits)
      && (visits != [] ==> dirty)
    }

    /** Handle for every pattern in order, then Mount: the page of the initial path is rendered, nothing is queued. */
    constructor (id: uint32, patterns: seq<(Str, Component)>, notFound: Option<Component>, initial: Str,
                 pages: map<Component, VNode>)
      requires (forall p | p in patterns :: p.1 in pages) && (notFound.Some? ==> notFound.value in pages)
      ensures Valid() && this.id == id && visits == [] && Rendered(routes, notFound, pages) && this.notFound == notFound
      ensures |routes| == |patterns|
      ensures forall i | 0 <= i < |patterns| ::
              routes[i] == Route(patterns[i].0, patterns[i].1, Segments(patterns[i].0))
      ensures var path := if initial == [] then [SLASH] else initial;
              && currentPath == CleanPath(path) && query == Query(path)
              && currentChild == PageAt(routes, notFound, pages, FirstMatch(routes, Segments(CleanPath(path))))
              && params == FoundAt(routes, Segments(CleanPath(path)))
    {
      this.id, this.notFound := id, notFound;
      routes, currentPath, currentChild, children, params, query := [], [], None, [], map[], map[];
      pending, dirty := [], false;
      flushed, visits, paths := None, [], [];
      new;
      for i := 0 to |patterns|
        invariant |routes| == i && this.notFound == notFound && pending == [] && visits == [] && paths == []
        invariant forall j | 0 <= j < i :: routes[j] == Route(patterns[j].0, patterns[j].1, Segments(patterns[j].0))
      {
        var segments := SplitPath(patterns[i].0);
        routes := routes + [Route(patterns[i].0, patterns[i].1, segments)];
      }
      assert Rendered(routes, notFound, pages) by {
        forall j | 0 <= j < |routes| ensures routes[j].comp in pages {
          assert patterns[j] in patterns;
        }
      }
      RenderPath(if initial == [] then [SLASH] else initial, pages);
    }

    /** renderPath: the first page, without a removal. */
    method RenderPath(path: Str, pages: map<Component, VNode>)
      requires Rendered(routes, notFound, pages) && pending == [] && visits == [] && paths == []
      modifies this`currentPath, this`params, this`query, this`currentChild, this`children, this`flushed
      ensures Valid() && flushed == currentChild && currentPath == CleanPath(path) && query == Query(path)
      ensures currentChild == PageAt(routes, notFound, pages, FirstMatch(routes, Segments(CleanPath(path))))
      ensures params == FoundAt(routes, Segments(CleanPath(path)))
    {
      hide FoundAt, Segments, Query, FirstMatch, PageAt, Rendered;
      var clean, q := SplitQuery(path);
      var page, found := Choose(clean, pages);
      currentPath, params, query := clean, found, q;
      currentChild, children := page, Listed(page);
      flushed := page;
    }

    /** Choosing the page: the first matching route, otherwise the not-found page. */
    method Match(path: Str) returns (comp: Option<Component>, found: map<Str, Str>)
      ensures var i := FirstMatch(routes, Segments(path));
              && comp == (if i < |routes| then Some(routes[i].comp) else notFound)
              && found == (if i < |routes| then Params(routes[i].segments, Segments(path)) else map[])
    {
      var segments := SplitPath(path);
      for k := 0 to |routes|
        invariant forall j | 0 <= j < k :: !Matches(routes[j].segments, segments)
      {
        var ps, ok := MatchSegments(routes[k].segments, segments);
        if ok {
          FirstMatchIs(routes, segments, k);
          return Some(routes[k].comp), ps;
        }
      }
      FirstMatchIs(routes, segments, |routes|);
      return notFound, map[];
    }

    /**
     A navigation: without effect on the current path; otherwise the chosen page,
     as `pages` renders it, takes the place of the old one.
     */
    method Navigate(path: Str, pages: map<Component, VNode>)
      requires Valid() && Rendered(routes, notFound, pages)
      modifies this
      ensures Valid() && currentPath == CleanPath(path) && flushed == old(flushed)
      ensures routes == old(routes) && notFound == old(notFound)
      ensures CleanPath(path) == old(currentPath) ==>
                currentChild == old(currentChild) && visits == old(visits) && paths == old(paths)
                  && pending == old(pending)
      ensures CleanPath(path) != old(currentPath) ==>
                var segments := Segments(CleanPath(path));
                && currentChild == PageAt(routes, notFound, pages, FirstMatch(routes, segments))
                && params == FoundAt(routes, segments) && query == Query(path)
                && paths == old(paths) + [path] && dirty && visits == old(visits) + [currentChild]
    {
      var clean, q := SplitQuery(path);
      if clean == currentPath {
        return;
      }
      SwapRoute(path, pages);
    }

    /** The old page goes, the new one comes, and the history entry is queued. */
    method SwapRoute(path: Str, pages: map<Component, VNode>)
      requires Valid() && Rendered(routes, notFound, pages)
      modifies this
      ensures Valid() && currentPath == CleanPath(path) && flushed == old(flushed)
      ensures routes == old(routes) && notFound == old(notFound)
      ensures currentChild == PageAt(routes, notFound, pages, FirstMatch(routes, Segments(CleanPath(path))))
      ensures params == FoundAt(routes, Segments(CleanPath(path)))
      ensures query == Query(path) && paths == old(paths) + [path] && dirty
      ensures visits == old(visits) + [currentChild]
    {
      hide Trail, FoundAt, Segments, CleanPath, Query, FirstMatch, Conditional.Current, Listed, PageAt, Rendered;
      var clean, q := SplitQuery(path);
      var page, found := Choose(clean, pages);
      currentPath := clean;
      params := found;
      query := q;
      ReplacePage(page, path);
      dirty := true;
    }

    method Choose(path: Str, pages: map<Component, VNode>) returns (page: Option<VNode>, found: map<Str, Str>)
      requires Rendered(routes, notFound, pages)
      ensures page == PageAt(routes, notFound, pages, FirstMatch(routes, Segments(path)))
      ensures found == FoundAt(routes, Segments(path))
    {
      var comp;
      comp, found := Match(path);
      page := if comp.Some? then Some(pages[comp.value]) else None;
    }

    /** The page swap itself, and the history entry. */
    method ReplacePage(page: Option<VNode>, path: Str)
      requires children == Listed(currentChild) && |paths| == |visits|
      requires pending == Trail(flushed, visits, paths) && currentChild == Conditional.Current(flushed, visits)
      modifies this`children, this`currentChild, this`pending, this`visits, this`paths
      ensures children == Listed(currentChild) && currentChild == page
      ensures visits == old(visits) + [page] && paths == old(paths) + [path] && |paths| == |visits|
      ensures pending == Trail(flushed, visits, paths) && currentChild == Conditional.Current(flushed, visits)
    {
      TrailSnoc(flushed, visits, paths, page, path);
      hide Trail;
      // with nothing shown, nothing is written for the removal
      pending := pending + [Swap(Gone(currentChild))];
      if currentChild.Some? {
        children := [];
        currentChild := None;
      }
      if page.Some? {
        children := children + [page.value];
        currentChild := page;
        pending := pending + [Swap(Come(page.value))];
      }
      pending := pending + [Push(path)];
      visits := visits + [page];
      paths := paths + [path];
    }

    /** The flush runs every queued closure; an insertion asks for the page's parent now. */
    method Drain(buf: Buffer) returns (ghost msgs: seq<Msg>)
      requires Valid()
      modifies this`pending, this`dirty, this`flushed, this`visits, this`paths, buf
      ensures Valid() && visits == [] && flushed == currentChild
      ensures buf.buf == old(buf.buf) + EncodeAll(msgs)
      ensures |old(paths)| == |old(visits)| && RouteStream(msgs, id, old(flushed), old(visits), old(paths))
      ensures FlipStream(TreeOnly(msgs), id, old(flushed), old(visits)) && Histories(msgs) == old(paths)
    {
      hide TrailDrained, RouteStream, FlipStream, Trail, EncodeAll, TreeOnly, Histories;
      msgs := DrainAll(buf);
      TrailIsStream(msgs, flushed, visits, paths, id, currentChild);
      RouteIsFlips(msgs, id, flushed, visits, paths);
      pending := [];
      dirty := false;
      flushed, visits, paths := currentChild, [], [];
      NothingTrailed(currentChild);
    }

    method DrainAll(buf: Buffer) returns (ghost msgs: seq<Msg>)
      requires children == Listed(currentChild)
      modifies buf
      ensures buf.buf == old(buf.buf) + EncodeAll(msgs) && TrailDrained(msgs, pending, id, currentChild)
    {
      hide EntryDrained, Body, Frame;
      msgs := [];
      for i := 0 to |pending|
        invariant buf.buf == old(buf.buf) + EncodeAll(msgs)
        invariant TrailDrained(msgs, pending[..i], id, currentChild)
      {
        ghost var more := DrainOne(buf, pending[i]);
        EncodeAllSplit(msgs, more);
        TrailDrainedSnoc(msgs, pending[..i], id, currentChild, more, pending[i]);
        assert pending[..i + 1] == pending[..i] + [pending[i]];
        msgs := msgs + more;
      }
      assert pending[..|pending|] == pending;
    }

    method DrainOne(buf: Buffer, e: Entry) returns (ghost msgs: seq<Msg>)
      requires children == Listed(currentChild)
      modifies buf
      ensures buf.buf == old(buf.buf) + EncodeAll(msgs) && EntryDrained(msgs, e, id, currentChild)
    {
      match e
      case Swap(Gone(old_)) =>
        msgs := [];
        if old_.Some? {
          buf.EncodeRemoveNode(old_.value.id);
          msgs := [RemoveNode(old_.value.id)];
          EncodeOne(msgs[0]);
        }
      case Swap(Come(v)) =>
        msgs := EmitInsertTree(buf, v, if v in children then id else 0);
      case Push(path) =>
        buf.EncodePushHistory(path);
        msgs := [PushHistory(path)];
        EncodeOne(msgs[0]);
    }

    /** A navigation and the flush after it, with nothing queued before. */
    method NavigateAndFlush(path: Str, pages: map<Component, VNode>, buf: Buffer) returns (ghost msgs: seq<Msg>)
      requires Valid() && visits == [] && Rendered(routes, notFound, pages)
      modifies this, buf
      ensures Valid() && visits == [] && currentPath == CleanPath(path) && routes == old(routes)
              && notFound == old(notFound)
      ensures buf.buf == old(buf.buf) + EncodeAll(msgs)
      ensures currentChild == NextPage(routes, notFound, old(currentPath), old(currentChild), path, pages)
      ensures NavigationSent(msgs, id, routes, notFound, old(currentPath), old(currentChild), path, pages)
    {
      hide Trail, Segments, CleanPath, Query, FirstMatch, PageAt, Rendered, FoundAt, RouteStream;
      ghost var before := currentChild;
      assert flushed == before && paths == [];
      Navigate(path, pages);
      assert visits == [] || (visits == [currentChild] && paths == [path]);
      msgs := Drain(buf);
      NothingRouted(id, before);
    }
  }

  lemma NothingTrailed(cur: Option<VNode>)
    ensures Trail(cur, [], []) == []
  {
  }

  lemma NothingRouted(id: uint32, cur: Option<VNode>)
    ensures forall msgs :: RouteStream(msgs, id, cur, [], []) ==> msgs == []
  {
  }

  /** The page after a navigation: the current path changes nothing. */
  function NextPage(routes: seq<Route>, notFound: Option<Component>, at: Str, cur: Option<VNode>, path: Str,
                    pages: map<Component, VNode>): Option<VNode>
    requires Rendered(routes, notFound, pages)
  {
    if CleanPath(path) == at then cur
    else PageAt(routes, notFound, pages, FirstMatch(routes, Segments(CleanPath(path))))
  }

  /** What the flush after it writes. */
  ghost predicate NavigationSent(msgs: seq<Msg>, id: uint32, routes: seq<Route>, notFound: Option<Component>, at: Str,
                                 cur: Option<VNode>, path: Str, pages: map<Component, VNode>)
    requires Rendered(routes, notFound, pages)
  {
    if CleanPath(path) == at then msgs == []
    else RouteStream(msgs, id, cur, [NextPage(routes, notFound, at, cur, path, pages)], [path])
  }
}
