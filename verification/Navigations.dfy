module Navigations {
  // Whole runs of navigations, from the paths to the client's page.

  import opened Seqs
  import opened Wire
  import opened Dom
  import opened Client
  import opened Trees
  import opened Emission
  import opened FlipStreams
  import opened RouteQueue
  import opened Router
  import opened Branches
  import Rounds
  import ForUpdate
  import ForAgreement

  /** The routes of an application. */
  datatype Site = Site(routes: seq<Route>, notFound: Option<Component>)

  /** One navigation: its path, what every page renders, and what the flush after it writes. */
  datatype Visit = Visit(path: Str, pages: map<Component, VNode>, msgs: seq<Msg>)

  /** The page after one navigation. */
  function PageNext(site: Site, at: Str, cur: Option<VNode>, v: Visit): Option<VNode>
    requires Rendered(site.routes, site.notFound, v.pages)
  {
    NextPage(site.routes, site.notFound, at, cur, v.path, v.pages)
  }

  /**
   Every navigation is sent as the router sends it; the pages that come to be shown
   are among `pool`.
   */
  ghost predicate Visits(site: Site, id: uint32, at: Str, cur: Option<VNode>, pool: seq<VNode>, vs: seq<Visit>)
    decreases vs
  {
    vs == [] ||
    (var v := vs[0];
     && Rendered(site.routes, site.notFound, v.pages)
     && NavigationSent(v.msgs, id, site.routes, site.notFound, at, cur, v.path, v.pages)
     && InPool([PageNext(site, at, cur, v)], pool)
     && Visits(site, id, CleanPath(v.path), PageNext(site, at, cur, v), pool, vs[1..]))
  }

  /** The page after them all. */
  function PageAfter(site: Site, at: Str, cur: Option<VNode>, vs: seq<Visit>): Option<VNode>
    requires forall v | v in vs :: Rendered(site.routes, site.notFound, v.pages)
    decreases vs
  {
    if vs == [] then cur
    else
      assert vs[0] in vs;
      PageAfter(site, CleanPath(vs[0].path), PageNext(site, at, cur, vs[0]), vs[1..])
  }

  /** A client that gets what is written, if anything is. */
  function Receives(c: Client, msgs: seq<Msg>): Client {
    if msgs == [] then c else Process(c, msgs)
  }

  function AfterVisits(c: Client, vs: seq<Visit>): Client
    decreases vs
  {
    if vs == [] then c else AfterVisits(Receives(c, vs[0].msgs), vs[1..])
  }

  lemma {:induction false} VisitsRendered(site: Site, id: uint32, at: Str, cur: Option<VNode>, pool: seq<VNode>,
                                          vs: seq<Visit>)
    requires Visits(site, id, at, cur, pool, vs)
    ensures forall v | v in vs :: Rendered(site.routes, site.notFound, v.pages)
    decreases vs
  {
    if vs != [] {
      VisitsRendered(site, id, CleanPath(vs[0].path), PageNext(site, at, cur, vs[0]), pool, vs[1..]);
    }
  }

  /** One navigation leaves the client with the next page. */
  lemma {:induction false} VisitShown(c: Client, site: Site, id: uint32, at: Str, cur: Option<VNode>, pool: seq<VNode>,
                                      v: Visit)
    requires Ready(c, id, cur, cur, pool) && forall w | w in pool :: ForAgreement.StyleFree(w)
    requires Rendered(site.routes, site.notFound, v.pages) && InPool([PageNext(site, at, cur, v)], pool)
    requires NavigationSent(v.msgs, id, site.routes, site.notFound, at, cur, v.path, v.pages)
    ensures var page := PageNext(site, at, cur, v);
            Ready(Receives(c, v.msgs), id, page, page, pool)
  {
    var page := PageNext(site, at, cur, v);
    hide Ready, Process, CleanPath, ForAgreement.StyleFree, Rounds.Right, Tidy, ShownAfter, RouteStream, Segments,
         PageAt;
    if CleanPath(v.path) != at {
      var flips := TreeOnly(v.msgs);
      RouteIsFlips(v.msgs, id, cur, [page], [v.path]);
      HistoryIgnored(c, v.msgs);
      assert page.Some? ==> page in [page] && page.value in pool;
      assert Rounds.Calm(cur, [page]) by { assert [page][..0] == []; }
      Rounds.CalmIsRight(cur, [page]);
      FlipsOnPage(c, id, cur, cur, pool, [page], flips);
      assert v.msgs != [];
    }
  }

  /**
   Over every run of navigations, each flushed before the next: the client's
   container holds exactly the page that the routes give for the last path that
   was not the current one.
   */
  lemma {:induction false} NavigationsInSync(c: Client, site: Site, id: uint32, at: Str, cur: Option<VNode>,
                                             pool: seq<VNode>, vs: seq<Visit>)
    requires Ready(c, id, cur, cur, pool) && Visits(site, id, at, cur, pool, vs)
    requires forall w | w in pool :: ForAgreement.StyleFree(w)
    ensures forall v | v in vs :: Rendered(site.routes, site.notFound, v.pages)
    ensures ForUpdate.InSync(AfterVisits(c, vs), id, Listed(PageAfter(site, at, cur, vs)))
    decreases vs
  {
    VisitsRendered(site, id, at, cur, pool, vs);
    hide Process, Rendered, NavigationSent, PageNext, InPool, Receives, ForAgreement.StyleFree;
    if vs == [] {
      hide ForUpdate.InSync;
    } else {
      VisitShown(c, site, id, at, cur, pool, vs[0]);
      hide Ready;
      NavigationsInSync(Receives(c, vs[0].msgs), site, id, CleanPath(vs[0].path), PageNext(site, at, cur, vs[0]),
        pool, vs[1..]);
    }
  }

  // ------------------------------------------------- pages that are rendered once

  /** The page of a path. */
  function PageOf(site: Site, pages: map<Component, VNode>, path: Str): Option<VNode>
    requires Rendered(site.routes, site.notFound, pages)
  {
    PageAt(site.routes, site.notFound, pages, FirstMatch(site.routes, Segments(path)))
  }

  lemma {:induction false} PageAfterIs(site: Site, at: Str, pages: map<Component, VNode>, vs: seq<Visit>)
    requires Rendered(site.routes, site.notFound, pages) && forall v | v in vs :: v.pages == pages
    ensures PageAfter(site, at, PageOf(site, pages, at), vs)
            == PageOf(site, pages, if vs == [] then at else CleanPath(vs[|vs| - 1].path))
    decreases vs
  {
    hide Rendered, CleanPath, FirstMatch, Segments, PageAt;
    if vs != [] {
      var v := vs[0];
      assert v in vs;
      assert PageNext(site, at, PageOf(site, pages, at), v) == PageOf(site, pages, CleanPath(v.path));
      PageAfterIs(site, CleanPath(v.path), pages, vs[1..]);
    }
  }

  /** With the same page nodes every time: the client shows the page of the last path, whatever came before. */
  lemma {:induction false} LastPathShown(c: Client, site: Site, id: uint32, at: Str, pages: map<Component, VNode>,
                                         pool: seq<VNode>, vs: seq<Visit>)
    requires Rendered(site.routes, site.notFound, pages) && forall v | v in vs :: v.pages == pages
    requires Ready(c, id, PageOf(site, pages, at), PageOf(site, pages, at), pool)
    requires Visits(site, id, at, PageOf(site, pages, at), pool, vs)
    requires forall w | w in pool :: ForAgreement.StyleFree(w)
    ensures var last := if vs == [] then at else CleanPath(vs[|vs| - 1].path);
            ForUpdate.InSync(AfterVisits(c, vs), id, Listed(PageOf(site, pages, last)))
  {
    hide Ready, Visits, Rendered, ForUpdate.InSync, ForAgreement.StyleFree, PageOf, CleanPath;
    NavigationsInSync(c, site, id, at, PageOf(site, pages, at), pool, vs);
    PageAfterIs(site, at, pages, vs);
  }
}
