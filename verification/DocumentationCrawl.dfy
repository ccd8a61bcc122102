/**
 The documentation crawl of src/domains/codebase-knowledge/documentation-discovery.ts: level by
 level along the links of valid pages, from the index files, within a depth and a page budget.
 */
module DocumentationCrawl {
  import opened Text
  import opened Wrappers

  /**
   What the crawl works on: the manifest's paths, which of them are index files (and which of
   those are agent instructions), which files pass all checks (a documentation path, a regular
   file that can be read and still has its digest), and the links found in a page.
   */
  datatype Site = Site(
    entries: seq<Str>, isRootIndex: Str -> bool, isAgents: Str -> bool, isValid: Str -> bool, links: Str -> seq<Str>)

  /** `depth` is the level a page was found at, which the original keeps only in its queue. */
  datatype Page = Page(path: Str, parent: Option<Str>, depth: nat)

  datatype Item = Item(path: Str, depth: nat, parent: Option<Str>)

  function Filter(s: seq<Str>, keep: Str -> bool): (r: seq<Str>)
    ensures forall x :: x in r <==> x in s && keep(x)
  {
    if |s| == 0 then []
    else if keep(s[0]) then [s[0]] + Filter(s[1..], keep)
    else Filter(s[1..], keep)
  }

  /** The index files: agent instructions first, otherwise in manifest order. */
  function Roots(site: Site): (r: seq<Str>)
    ensures forall x :: x in r <==> x in site.entries && site.isRootIndex(x)
    ensures forall i, j :: 0 <= i < j < |r| && site.isAgents(r[j]) ==> site.isAgents(r[i])
  {
    var roots := Filter(site.entries, site.isRootIndex);
    Filter(roots, site.isAgents) + Filter(roots, x => !site.isAgents(x))
  }

  predicate Usable(site: Site, p: Str) {
    p in site.entries && site.isValid(p)
  }

  /** A usable page is reached by following `d` links through usable pages. */
  ghost predicate Reach(site: Site, d: nat, p: Str) {
    && Usable(site, p)
    && if d == 0 then site.isRootIndex(p) else exists q :: Reach(site, d - 1, q) && p in site.links(q)
  }

  ghost predicate Reachable(site: Site, maxDepth: nat, p: Str) {
    exists d :: 0 <= d <= maxDepth && Reach(site, d, p)
  }

  // ---- what the crawl keeps

  function PagePaths(pages: seq<Page>): (r: set<Str>)
    ensures forall i :: 0 <= i < |pages| ==> pages[i].path in r
  {
    set i | 0 <= i < |pages| :: pages[i].path
  }

  function ItemPaths(items: seq<Item>): (r: set<Str>)
    ensures forall i :: 0 <= i < |items| ==> items[i].path in r
  {
    set i | 0 <= i < |items| :: items[i].path
  }

  /** A page linking to `p` on the level before `d`, or no page for an index file. */
  ghost predicate HasParent(site: Site, pages: seq<Page>, p: Str, d: nat, parent: Option<Str>) {
    match parent
    case None => d == 0 && site.isRootIndex(p)
    case Some(q) => p in site.links(q) && exists j :: 0 <= j < |pages| && pages[j].path == q && pages[j].depth + 1 == d
  }

  /** The page is usable, found at its shortest distance, and its parent is listed before it. */
  ghost predicate Found(site: Site, pages: seq<Page>, i: nat)
    requires i < |pages|
  {
    var page := pages[i];
    && Reach(site, page.depth, page.path)
    && (forall e :: 0 <= e < page.depth ==> !Reach(site, e, page.path))
    && HasParent(site, pages[..i], page.path, page.depth, page.parent)
  }

  ghost predicate Sound(site: Site, pages: seq<Page>) {
    && (forall i :: 0 <= i < |pages| ==> Found(site, pages, i))
    && (forall i, j :: 0 <= i < j < |pages| ==> pages[i].path != pages[j].path)
    && (forall i, j :: 0 <= i < j < |pages| ==> pages[i].depth <= pages[j].depth)
  }

  /** Items of one level, each with its parent. */
  ghost predicate LevelItems(site: Site, pages: seq<Page>, items: seq<Item>, d: nat) {
    forall k :: 0 <= k < |items| ==>
      items[k].depth == d && items[k].path in site.entries && HasParent(site, pages, items[k].path, d, items[k].parent)
  }

  /** Every usable path seen is a page, and every page is seen. */
  ghost predicate Seen(site: Site, pages: seq<Page>, visited: set<Str>) {
    PagePaths(pages) <= visited && forall p :: p in visited && Usable(site, p) ==> p in PagePaths(pages)
  }

  /** Every link the crawl has to follow leads to something seen or waiting. */
  ghost predicate LinksKnown(site: Site, maxDepth: nat, pages: seq<Page>, known: set<Str>) {
    forall i, p ::
      0 <= i < |pages| && pages[i].depth < maxDepth && p in site.links(pages[i].path) && p in site.entries ==>
        p in known
  }

  ghost predicate LevelSeen(site: Site, d: nat, known: set<Str>) {
    forall p :: Reach(site, d, p) ==> p in known
  }

  ghost predicate BelowSeen(site: Site, d: nat, visited: set<Str>) {
    forall e :: 0 <= e < d ==> LevelSeen(site, e, visited)
  }

  /** In the middle of level `d`: `rest` of it is still to come, `queue` is the next level so far. */
  ghost predicate AtLevel(
    site: Site, maxDepth: nat, d: nat, pages: seq<Page>, visited: set<Str>, rest: seq<Item>, queue: seq<Item>)
  {
    && Sound(site, pages) && (forall i :: 0 <= i < |pages| ==> pages[i].depth <= d)
    && Seen(site, pages, visited)
    && LinksKnown(site, maxDepth, pages, visited + ItemPaths(rest) + ItemPaths(queue))
    && BelowSeen(site, d, visited)
    && (d <= maxDepth ==> LevelSeen(site, d, visited + ItemPaths(rest)))
    && LevelItems(site, pages, rest, d) && (|rest| > 0 ==> d <= maxDepth)
    && LevelItems(site, pages, queue, d + 1) && (|queue| > 0 ==> d < maxDepth)
  }

  function RootItems(site: Site): seq<Item> {
    var roots := Roots(site);
    seq(|roots|, i requires 0 <= i < |roots| => Item(roots[i], 0, None))
  }

  lemma BeginsAtLevel(site: Site, maxDepth: nat)
    ensures AtLevel(site, maxDepth, 0, [], {}, RootItems(site), [])
  {
    var roots, items := Roots(site), RootItems(site);
    forall p | Reach(site, 0, p)
      ensures p in ItemPaths(items)
    {
      var i :| 0 <= i < |roots| && roots[i] == p;
      assert items[i].path == p;
    }
    assert forall i :: 0 <= i < |items| ==> items[i].path in roots;
  }

  // ---- one item

  lemma RestPaths(rest: seq<Item>)
    requires |rest| > 0
    ensures ItemPaths(rest) == {rest[0].path} + ItemPaths(rest[1..])
  {
    forall p | p in ItemPaths(rest)
      ensures p == rest[0].path || p in ItemPaths(rest[1..])
    {
      var i :| 0 <= i < |rest| && rest[i].path == p;
      assert i > 0 ==> rest[1..][i - 1].path == p;
    }
    forall p | p in ItemPaths(rest[1..])
      ensures p in ItemPaths(rest)
    {
      var i :| 0 <= i < |rest[1..]| && rest[1..][i].path == p;
      assert rest[i + 1].path == p;
    }
  }

  lemma ItemsTail(site: Site, pages: seq<Page>, rest: seq<Item>, d: nat)
    requires LevelItems(site, pages, rest, d) && |rest| > 0
    ensures LevelItems(site, pages, rest[1..], d)
  {
    assert forall k :: 0 <= k < |rest[1..]| ==> rest[1..][k] == rest[k + 1];
  }

  lemma BelowSeenGrows(site: Site, d: nat, visited: set<Str>, visited': set<Str>)
    requires BelowSeen(site, d, visited) && visited <= visited'
    ensures BelowSeen(site, d, visited')
  {
    forall e | 0 <= e < d
      ensures LevelSeen(site, e, visited')
    {
      assert LevelSeen(site, e, visited);
    }
  }

  lemma MoveSeen(visited: set<Str>, rest: seq<Item>, queue: set<Str>)
    requires |rest| > 0
    ensures visited + {rest[0].path} + ItemPaths(rest[1..]) == visited + ItemPaths(rest)
    ensures visited + {rest[0].path} + ItemPaths(rest[1..]) + queue == visited + ItemPaths(rest) + queue
  {
    RestPaths(rest);
  }

  /** A path already seen, or one that is not usable, is passed over. */
  lemma PassOver(
    site: Site, maxDepth: nat, d: nat, pages: seq<Page>, visited: set<Str>, rest: seq<Item>, queue: seq<Item>)
    requires AtLevel(site, maxDepth, d, pages, visited, rest, queue) && |rest| > 0
    requires rest[0].path in visited || !Usable(site, rest[0].path)
    ensures AtLevel(site, maxDepth, d, pages, visited + {rest[0].path}, rest[1..], queue)
  {
    MoveSeen(visited, rest, ItemPaths(queue));
    ItemsTail(site, pages, rest, d);
    BelowSeenGrows(site, d, visited, visited + {rest[0].path});
  }

  lemma ParentKept(site: Site, pages: seq<Page>, page: Page, p: Str, d: nat, parent: Option<Str>)
    requires HasParent(site, pages, p, d, parent)
    ensures HasParent(site, pages + [page], p, d, parent)
  {
    if parent.Some? {
      var j :| 0 <= j < |pages| && pages[j].path == parent.value && pages[j].depth + 1 == d;
      assert (pages + [page])[j] == pages[j];
    }
  }

  lemma FoundKept(site: Site, pages: seq<Page>, page: Page, i: nat)
    requires i < |pages| && Found(site, pages, i)
    ensures Found(site, pages + [page], i)
  {
    assert (pages + [page])[..i] == pages[..i] && (pages + [page])[i] == pages[i];
  }

  lemma ReachedThroughParent(site: Site, pages: seq<Page>, item: Item)
    requires Sound(site, pages) && Usable(site, item.path) && HasParent(site, pages, item.path, item.depth, item.parent)
    ensures Reach(site, item.depth, item.path)
  {
    if item.parent.Some? {
      var j :| 0 <= j < |pages| && pages[j].path == item.parent.value && pages[j].depth + 1 == item.depth;
      assert Found(site, pages, j);
    }
  }

  /** A usable path that is met for the first time is at its shortest distance. */
  lemma NewPageFound(site: Site, d: nat, pages: seq<Page>, visited: set<Str>, item: Item)
    requires Sound(site, pages) && (forall i :: 0 <= i < |pages| ==> pages[i].depth <= d)
    requires PagePaths(pages) <= visited && BelowSeen(site, d, visited) && item.depth == d
    requires HasParent(site, pages, item.path, d, item.parent) && item.path !in visited && Usable(site, item.path)
    ensures Sound(site, pages + [Page(item.path, item.parent, d)])
  {
    var page := Page(item.path, item.parent, d);
    var pages' := pages + [page];
    ReachedThroughParent(site, pages, item);
    forall i | 0 <= i < |pages|
      ensures Found(site, pages', i)
    {
      FoundKept(site, pages, page, i);
    }
    assert pages'[..|pages|] == pages;
    forall e | 0 <= e < d
      ensures !Reach(site, e, item.path)
    {
      assert LevelSeen(site, e, visited);
    }
    assert Found(site, pages', |pages|);
    Distinct(pages, page, visited);
  }

  lemma Distinct(pages: seq<Page>, page: Page, visited: set<Str>)
    requires PagePaths(pages) <= visited && page.path !in visited
    requires forall i, j :: 0 <= i < j < |pages| ==> pages[i].path != pages[j].path
    ensures forall i, j :: 0 <= i < j < |pages + [page]| ==> (pages + [page])[i].path != (pages + [page])[j].path
  {
    assert forall i :: 0 <= i < |pages| ==> (pages + [page])[i].path in PagePaths(pages);
  }

  lemma NewPagePaths(pages: seq<Page>, page: Page)
    ensures PagePaths(pages + [page]) == PagePaths(pages) + {page.path}
  {
    var pages' := pages + [page];
    assert forall i :: 0 <= i < |pages| ==> pages'[i] == pages[i];
    assert pages'[|pages|] == page;
  }

  /** The next level grows by the links of the new page that are not seen yet. */
  ghost predicate LinksAdded(site: Site, visited: set<Str>, page: Page, queue: seq<Item>, queue': seq<Item>) {
    && |queue| <= |queue'| && queue'[..|queue|] == queue
    && (forall k :: |queue| <= k < |queue'| ==>
          && queue'[k].depth == page.depth + 1 && queue'[k].parent == Some(page.path)
          && queue'[k].path in site.links(page.path) && queue'[k].path in site.entries && queue'[k].path !in visited)
    && forall p :: p in site.links(page.path) && p in site.entries ==> p in visited || p in ItemPaths(queue')
  }

  lemma QueueGrows(queue: seq<Item>, queue': seq<Item>)
    requires |queue| <= |queue'| && queue'[..|queue|] == queue
    ensures ItemPaths(queue) <= ItemPaths(queue')
  {
    forall p | p in ItemPaths(queue)
      ensures p in ItemPaths(queue')
    {
      var i :| 0 <= i < |queue| && queue[i].path == p;
      assert queue'[..|queue|][i] == queue'[i];
    }
  }

  lemma NextLevelItems(
    site: Site, d: nat, pages: seq<Page>, page: Page, visited: set<Str>, queue: seq<Item>, queue': seq<Item>)
    requires LevelItems(site, pages, queue, d + 1) && page.depth == d
    requires queue' == queue || LinksAdded(site, visited, page, queue, queue')
    ensures LevelItems(site, pages + [page], queue', d + 1)
  {
    var pages' := pages + [page];
    forall k | 0 <= k < |queue'|
      ensures queue'[k].depth == d + 1 && queue'[k].path in site.entries
      ensures HasParent(site, pages', queue'[k].path, d + 1, queue'[k].parent)
    {
      if k < |queue| {
        assert queue'[k] == queue'[..|queue|][k];
        ParentKept(site, pages, page, queue'[k].path, d + 1, queue'[k].parent);
      } else {
        assert pages'[|pages|] == page;
      }
    }
  }

  lemma ItemsKept(site: Site, pages: seq<Page>, page: Page, items: seq<Item>, d: nat)
    requires LevelItems(site, pages, items, d)
    ensures LevelItems(site, pages + [page], items, d)
  {
    forall k | 0 <= k < |items|
      ensures HasParent(site, pages + [page], items[k].path, d, items[k].parent)
    {
      ParentKept(site, pages, page, items[k].path, d, items[k].parent);
    }
  }

  lemma SeenAfter(site: Site, pages: seq<Page>, visited: set<Str>, page: Page)
    requires Seen(site, pages, visited)
    ensures Seen(site, pages + [page], visited + {page.path})
  {
    NewPagePaths(pages, page);
  }

  /** A new page. */
  lemma AddPage(
    site: Site, maxDepth: nat, d: nat, pages: seq<Page>, visited: set<Str>, rest: seq<Item>, queue: seq<Item>,
    queue': seq<Item>)
    requires AtLevel(site, maxDepth, d, pages, visited, rest, queue) && |rest| > 0
    requires rest[0].path !in visited && Usable(site, rest[0].path)
    requires var page := Page(rest[0].path, rest[0].parent, d);
      if d < maxDepth then LinksAdded(site, visited + {rest[0].path}, page, queue, queue') else queue' == queue
    ensures AtLevel(
      site, maxDepth, d, pages + [Page(rest[0].path, rest[0].parent, d)], visited + {rest[0].path}, rest[1..], queue')
  {
    var item := rest[0];
    var page := Page(item.path, item.parent, d);
    var visited' := visited + {item.path};
    NewPageFound(site, d, pages, visited, item);
    SeenAfter(site, pages, visited, page);
    MoveSeen(visited, rest, ItemPaths(queue));
    QueueGrows(queue, queue');
    NextLevelItems(site, d, pages, page, visited', queue, queue');
    ItemsTail(site, pages, rest, d);
    ItemsKept(site, pages, page, rest[1..], d);
    BelowSeenGrows(site, d, visited, visited');
    LinksStayKnown(
      site, maxDepth, pages, page,
      visited + ItemPaths(rest) + ItemPaths(queue), visited' + ItemPaths(rest[1..]) + ItemPaths(queue'));
  }

  lemma LinksStayKnown(site: Site, maxDepth: nat, pages: seq<Page>, page: Page, known: set<Str>, known': set<Str>)
    requires LinksKnown(site, maxDepth, pages, known) && known <= known'
    requires page.depth < maxDepth ==> forall p :: p in site.links(page.path) && p in site.entries ==> p in known'
    ensures LinksKnown(site, maxDepth, pages + [page], known')
  {
    var pages' := pages + [page];
    assert forall i :: 0 <= i < |pages| ==> pages'[i] == pages[i];
  }

  // ---- one level after another

  lemma NextLevel(site: Site, maxDepth: nat, d: nat, pages: seq<Page>, visited: set<Str>, queue: seq<Item>)
    requires AtLevel(site, maxDepth, d, pages, visited, [], queue) && d <= maxDepth
    ensures AtLevel(site, maxDepth, d + 1, pages, visited, queue, [])
  {
    assert visited + ItemPaths([]) == visited;
    assert LevelSeen(site, d, visited);
    if d + 1 <= maxDepth {
      forall p | Reach(site, d + 1, p)
        ensures p in visited + ItemPaths(queue)
      {
        var q :| Reach(site, d, q) && p in site.links(q);
        assert q in PagePaths(pages);
        var i :| 0 <= i < |pages| && pages[i].path == q;
      }
    }
    assert visited + ItemPaths([]) + ItemPaths(queue) == visited + ItemPaths(queue) + ItemPaths([]);
  }

  /** With nothing left to visit, everything within the depth limit has been seen. */
  lemma {:induction false} NothingMissed(site: Site, maxDepth: nat, d: nat, pages: seq<Page>, visited: set<Str>, e: nat)
    requires AtLevel(site, maxDepth, d, pages, visited, [], []) && e <= maxDepth
    ensures LevelSeen(site, e, visited)
  {
    assert visited + ItemPaths([]) == visited;
    if e > 0 {
      NothingMissed(site, maxDepth, d, pages, visited, e - 1);
      forall p | Reach(site, e, p)
        ensures p in visited
      {
        var q :| Reach(site, e - 1, q) && p in site.links(q);
        assert q in PagePaths(pages);
        var i :| 0 <= i < |pages| && pages[i].path == q;
        assert Found(site, pages, i);
        assert pages[i].depth <= e - 1;
      }
    } else if d > 0 {
      assert LevelSeen(site, 0, visited);
    }
  }

  lemma EverythingFound(site: Site, maxDepth: nat, d: nat, pages: seq<Page>, visited: set<Str>)
    requires AtLevel(site, maxDepth, d, pages, visited, [], [])
    requires forall i :: 0 <= i < |pages| ==> pages[i].depth <= maxDepth
    ensures forall p :: p in PagePaths(pages) <==> Reachable(site, maxDepth, p)
  {
    forall p | Reachable(site, maxDepth, p)
      ensures p in PagePaths(pages)
    {
      var e :| 0 <= e <= maxDepth && Reach(site, e, p);
      NothingMissed(site, maxDepth, d, pages, visited, e);
    }
    forall p | p in PagePaths(pages)
      ensures Reachable(site, maxDepth, p)
    {
      var i :| 0 <= i < |pages| && pages[i].path == p;
      assert Found(site, pages, i);
    }
  }

  // ---- the crawl as one queue

  /** Pages, paths seen, and items waiting, first come first served. */
  datatype Crawl = Crawl(pages: seq<Page>, visited: set<Str>, queue: seq<Item>)

  /** The links of a page that are in the manifest and not seen yet, in order. */
  function NewItems(site: Site, page: Page, links: seq<Str>, visited: set<Str>): seq<Item> {
    if |links| == 0 then []
    else
      (if links[0] !in visited && links[0] in site.entries then
        [Item(links[0], page.depth + 1, Some(page.path))] else [])
      + NewItems(site, page, links[1..], visited)
  }

  function Advance(site: Site, maxDepth: nat, c: Crawl): Crawl
    requires |c.queue| > 0
  {
    var item, rest := c.queue[0], c.queue[1..];
    var visited := c.visited + {item.path};
    if item.path in c.visited || !Usable(site, item.path) then Crawl(c.pages, visited, rest)
    else
      var page := Page(item.path, item.parent, item.depth);
      Crawl(c.pages + [page], visited,
            if item.depth < maxDepth then rest + NewItems(site, page, site.links(page.path), visited) else rest)
  }

  function Unseen(site: Site, c: Crawl): set<Str> {
    ToSet(site.entries) - c.visited
  }

  lemma AdvanceShrinks(site: Site, maxDepth: nat, c: Crawl)
    requires |c.queue| > 0
    ensures var c' := Advance(site, maxDepth, c);
      |Unseen(site, c')| < |Unseen(site, c)| || (|Unseen(site, c')| == |Unseen(site, c)| && |c'.queue| < |c.queue|)
  {
    var c' := Advance(site, maxDepth, c);
    var p := c.queue[0].path;
    assert Unseen(site, c') == Unseen(site, c) - {p};
    assert p in Unseen(site, c) ==> |Unseen(site, c) - {p}| == |Unseen(site, c)| - 1;
  }

  /** Goes on until nothing is waiting, or an item is waiting when the page budget is used up. */
  function Finish(site: Site, maxPages: nat, maxDepth: nat, c: Crawl): Crawl
    decreases |Unseen(site, c)|, |c.queue|
  {
    if |c.queue| == 0 || |c.pages| >= maxPages then c
    else
      AdvanceShrinks(site, maxDepth, c);
      Finish(site, maxPages, maxDepth, Advance(site, maxDepth, c))
  }

  function End(site: Site, maxPages: nat, maxDepth: nat): Crawl {
    Finish(site, maxPages, maxDepth, Crawl([], {}, RootItems(site)))
  }

  /** A link of the page that is in the manifest and not seen, one level further on. */
  predicate IsNewItem(site: Site, page: Page, links: seq<Str>, visited: set<Str>, item: Item) {
    && item.depth == page.depth + 1 && item.parent == Some(page.path)
    && item.path in links && item.path in site.entries && item.path !in visited
  }

  lemma {:induction false} NewItemsAre(site: Site, page: Page, links: seq<Str>, visited: set<Str>)
    ensures forall item :: item in NewItems(site, page, links, visited) ==> IsNewItem(site, page, links, visited, item)
    decreases |links|
  {
    if |links| > 0 {
      NewItemsAre(site, page, links[1..], visited);
    }
  }

  lemma {:induction false} NewItemsCover(site: Site, page: Page, links: seq<Str>, visited: set<Str>, p: Str)
    requires p in links && p in site.entries && p !in visited
    ensures Item(p, page.depth + 1, Some(page.path)) in NewItems(site, page, links, visited)
    decreases |links|
  {
    if p != links[0] {
      NewItemsCover(site, page, links[1..], visited, p);
    }
  }

  lemma NewLinksAdded(site: Site, page: Page, visited: set<Str>, queue: seq<Item>)
    ensures LinksAdded(site, visited, page, queue, queue + NewItems(site, page, site.links(page.path), visited))
  {
    var items := NewItems(site, page, site.links(page.path), visited);
    var queue' := queue + items;
    NewItemsAre(site, page, site.links(page.path), visited);
    assert forall k :: |queue| <= k < |queue'| ==> queue'[k] == items[k - |queue|] && queue'[k] in items;
    forall p | p in site.links(page.path) && p in site.entries && p !in visited
      ensures p in ItemPaths(queue')
    {
      NewItemsCover(site, page, site.links(page.path), visited, p);
      var k :| 0 <= k < |items| && items[k] == Item(p, page.depth + 1, Some(page.path));
      assert queue'[|queue| + k].path == p;
    }
  }

  /** What a crawl that has come to its end has found. */
  ghost predicate Explored(site: Site, maxPages: nat, maxDepth: nat, c: Crawl) {
    && Sound(site, c.pages) && |c.pages| <= maxPages
    && (forall i :: 0 <= i < |c.pages| ==> c.pages[i].depth <= maxDepth)
    && (|c.queue| > 0 ==> |c.pages| == maxPages)
    && (|c.queue| == 0 ==> forall p :: p in PagePaths(c.pages) <==> Reachable(site, maxDepth, p))
  }

  lemma TailOfConcat(rest: seq<Item>, queue: seq<Item>, items: seq<Item>)
    requires |rest| > 0
    ensures (rest + queue)[0] == rest[0] && (rest + queue)[1..] == rest[1..] + queue
    ensures (rest + queue)[1..] + items == rest[1..] + (queue + items)
  {
  }

  /** One step in the middle of a level. */
  lemma AdvanceKeepsLevel(site: Site, maxDepth: nat, d: nat, c: Crawl, rest: seq<Item>, queue: seq<Item>)
    returns (queue': seq<Item>)
    requires AtLevel(site, maxDepth, d, c.pages, c.visited, rest, queue) && |rest| > 0 && c.queue == rest + queue
    ensures var c' := Advance(site, maxDepth, c);
      && c'.queue == rest[1..] + queue'
      && AtLevel(site, maxDepth, d, c'.pages, c'.visited, rest[1..], queue')
  {
    var item := rest[0];
    queue' := queue;
    TailOfConcat(rest, queue, []);
    if item.path in c.visited || !Usable(site, item.path) {
      PassOver(site, maxDepth, d, c.pages, c.visited, rest, queue);
    } else {
      var page := Page(item.path, item.parent, d);
      if d < maxDepth {
        var visited := c.visited + {item.path};
        var items := NewItems(site, page, site.links(page.path), visited);
        queue' := queue + items;
        TailOfConcat(rest, queue, items);
        NewLinksAdded(site, page, visited, queue);
      }
      AddPage(site, maxDepth, d, c.pages, c.visited, rest, queue, queue');
    }
  }

  /** The crawl stands in the middle of level `d`, within its limits. */
  ghost predicate Underway(
    site: Site, maxPages: nat, maxDepth: nat, d: nat, c: Crawl, rest: seq<Item>, queue: seq<Item>)
  {
    && AtLevel(site, maxDepth, d, c.pages, c.visited, rest, queue) && c.queue == rest + queue
    && |c.pages| <= maxPages && forall i :: 0 <= i < |c.pages| ==> c.pages[i].depth <= maxDepth
  }

  lemma UnderwayEnds(site: Site, maxPages: nat, maxDepth: nat, d: nat, c: Crawl, rest: seq<Item>, queue: seq<Item>)
    requires Underway(site, maxPages, maxDepth, d, c, rest, queue) && (|c.queue| == 0 || |c.pages| >= maxPages)
    ensures Explored(site, maxPages, maxDepth, c)
  {
    if |c.queue| == 0 {
      assert rest == [] && queue == [];
      EverythingFound(site, maxDepth, d, c.pages, c.visited);
    }
  }

  lemma UnderwayTurns(site: Site, maxPages: nat, maxDepth: nat, d: nat, c: Crawl, queue: seq<Item>)
    requires Underway(site, maxPages, maxDepth, d, c, [], queue) && |queue| > 0
    ensures Underway(site, maxPages, maxDepth, d + 1, c, queue, [])
  {
    assert [] + queue == queue && queue + [] == queue;
    NextLevel(site, maxDepth, d, c.pages, c.visited, queue);
  }

  lemma UnderwayAdvances(site: Site, maxPages: nat, maxDepth: nat, d: nat, c: Crawl, rest: seq<Item>, queue: seq<Item>)
    returns (queue': seq<Item>)
    requires Underway(site, maxPages, maxDepth, d, c, rest, queue) && |rest| > 0 && |c.pages| < maxPages
    ensures Underway(site, maxPages, maxDepth, d, Advance(site, maxDepth, c), rest[1..], queue')
  {
    assert rest[0].depth == d && d <= maxDepth;
    queue' := AdvanceKeepsLevel(site, maxDepth, d, c, rest, queue);
  }

  /** The crawl stands somewhere in the middle of some level. */
  ghost predicate OnTheWay(site: Site, maxPages: nat, maxDepth: nat, c: Crawl) {
    exists d, rest, queue :: d >= 0 && Underway(site, maxPages, maxDepth, d, c, rest, queue)
  }

  lemma WayEnds(site: Site, maxPages: nat, maxDepth: nat, c: Crawl)
    requires OnTheWay(site, maxPages, maxDepth, c) && (|c.queue| == 0 || |c.pages| >= maxPages)
    ensures Explored(site, maxPages, maxDepth, c)
  {
    var d, rest, queue :| d >= 0 && Underway(site, maxPages, maxDepth, d, c, rest, queue);
    UnderwayEnds(site, maxPages, maxDepth, d, c, rest, queue);
  }

  /** The same, with an item of the level still to come. */
  ghost predicate WithinLevel(site: Site, maxPages: nat, maxDepth: nat, c: Crawl) {
    exists d, rest, queue :: d >= 0 && |rest| > 0 && Underway(site, maxPages, maxDepth, d, c, rest, queue)
  }

  lemma WayTurns(site: Site, maxPages: nat, maxDepth: nat, c: Crawl)
    requires OnTheWay(site, maxPages, maxDepth, c) && |c.queue| > 0
    ensures WithinLevel(site, maxPages, maxDepth, c)
  {
    var d, rest, queue :| d >= 0 && Underway(site, maxPages, maxDepth, d, c, rest, queue);
    if rest == [] {
      assert rest + queue == queue;
      UnderwayTurns(site, maxPages, maxDepth, d, c, queue);
    }
  }

  lemma WayGoesOn(site: Site, maxPages: nat, maxDepth: nat, c: Crawl)
    requires WithinLevel(site, maxPages, maxDepth, c) && |c.queue| > 0 && |c.pages| < maxPages
    ensures OnTheWay(site, maxPages, maxDepth, Advance(site, maxDepth, c))
  {
    var d, rest, queue :| d >= 0 && |rest| > 0 && Underway(site, maxPages, maxDepth, d, c, rest, queue);
    var queue' := UnderwayAdvances(site, maxPages, maxDepth, d, c, rest, queue);
  }

  lemma FinishStep(site: Site, maxPages: nat, maxDepth: nat, c: Crawl)
    requires |c.queue| > 0 && |c.pages| < maxPages
    ensures Finish(site, maxPages, maxDepth, c) == Finish(site, maxPages, maxDepth, Advance(site, maxDepth, c))
  {
  }

  /** From the middle of any level the crawl ends having found what it should. */
  lemma {:induction false} FinishExplores(site: Site, maxPages: nat, maxDepth: nat, c: Crawl)
    requires OnTheWay(site, maxPages, maxDepth, c)
    ensures Explored(site, maxPages, maxDepth, Finish(site, maxPages, maxDepth, c))
    decreases |Unseen(site, c)|, |c.queue|
  {
    if |c.queue| == 0 || |c.pages| >= maxPages {
      WayEnds(site, maxPages, maxDepth, c);
    } else {
      WayTurns(site, maxPages, maxDepth, c);
      WayGoesOn(site, maxPages, maxDepth, c);
      AdvanceShrinks(site, maxDepth, c);
      FinishExplores(site, maxPages, maxDepth, Advance(site, maxDepth, c));
      FinishStep(site, maxPages, maxDepth, c);
    }
  }

  /**
   The crawl: pages are usable, listed once, at their shortest distance, after their parents,
   within both limits; with nothing left waiting they are exactly the reachable ones, and with
   something left there are as many as the budget allows.
   */
  lemma CrawlExplores(site: Site, maxPages: nat, maxDepth: nat)
    ensures Explored(site, maxPages, maxDepth, End(site, maxPages, maxDepth))
  {
    var items := RootItems(site);
    assert items + [] == items;
    BeginsAtLevel(site, maxDepth);
    assert Underway(site, maxPages, maxDepth, 0, Crawl([], {}, items), items, []);
    FinishExplores(site, maxPages, maxDepth, Crawl([], {}, items));
  }
}
