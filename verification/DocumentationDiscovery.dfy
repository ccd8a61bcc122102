/**
 `discoverDocumentation` as it is written, level by level, and exactly when it reports that it
 was truncated (src/domains/codebase-knowledge/documentation-discovery.ts).
 */
module DocumentationDiscovery {
  import opened Text
  import opened Wrappers
  import opened DocumentationCrawl

  lemma {:induction false} NewItemsStep(site: Site, page: Page, links: seq<Str>, visited: set<Str>, i: nat)
    requires i < |links|
    ensures NewItems(site, page, links[i..], visited) ==
      (if links[i] !in visited && links[i] in site.entries then
        [Item(links[i], page.depth + 1, Some(page.path))] else [])
      + NewItems(site, page, links[i + 1..], visited)
  {
    assert links[i..][0] == links[i] && links[i..][1..] == links[i + 1..];
  }

  method PushLinks(site: Site, page: Page, visited: set<Str>, queue: seq<Item>) returns (queue': seq<Item>)
    ensures queue' == queue + NewItems(site, page, site.links(page.path), visited)
    ensures LinksAdded(site, visited, page, queue, queue')
  {
    queue' := queue;
    var links := site.links(page.path);
    assert links[0..] == links;
    for i := 0 to |links|
      invariant queue' + NewItems(site, page, links[i..], visited) == queue + NewItems(site, page, links, visited)
    {
      var link := links[i];
      NewItemsStep(site, page, links, visited, i);
      if link !in visited && link in site.entries {
        queue' := queue' + [Item(link, page.depth + 1, Some(page.path))];
      }
    }
    assert links[|links|..] == [];
    NewLinksAdded(site, page, visited, queue);
  }

  /** The body of the outer loop: one level, item by item. */
  method CrawlLevel(
    site: Site, maxPages: nat, maxDepth: nat, ghost d: nat, level: seq<Item>, pages0: seq<Page>, visited0: set<Str>)
    returns (pages: seq<Page>, visited: set<Str>, queue: seq<Item>, truncated: bool)
    requires forall k :: 0 <= k < |level| ==> level[k].depth == d
    ensures truncated ==> Finish(site, maxPages, maxDepth, Crawl(pages0, visited0, level)).pages == pages
    ensures truncated ==> |Finish(site, maxPages, maxDepth, Crawl(pages0, visited0, level)).queue| > 0
    ensures !truncated ==>
      Finish(site, maxPages, maxDepth, Crawl(pages0, visited0, level))
      == Finish(site, maxPages, maxDepth, Crawl(pages, visited, queue))
    ensures forall k :: 0 <= k < |queue| ==> queue[k].depth == d + 1 <= maxDepth
  {
    pages, visited, queue, truncated := pages0, visited0, [], false;
    ghost var goal := Finish(site, maxPages, maxDepth, Crawl(pages0, visited0, level));
    assert level[0..] + [] == level;
    for k := 0 to |level|
      invariant !truncated && Finish(site, maxPages, maxDepth, Crawl(pages, visited, level[k..] + queue)) == goal
      invariant forall j :: 0 <= j < |queue| ==> queue[j].depth == d + 1 <= maxDepth
    {
      ghost var c := Crawl(pages, visited, level[k..] + queue);
      if |pages| >= maxPages {
        truncated := true;
        return;
      }
      FinishStep(site, maxPages, maxDepth, c);
      var item := level[k];
      assert level[k..][0] == item && level[k..][1..] == level[k + 1..];
      TailOfConcat(level[k..], queue, []);
      if item.path in visited || !Usable(site, item.path) {
        visited := visited + {item.path};
        continue;
      }
      visited := visited + {item.path};
      var page := Page(item.path, item.parent, item.depth);
      pages := pages + [page];
      if item.depth < maxDepth {
        TailOfConcat(level[k..], queue, NewItems(site, page, site.links(page.path), visited));
        queue := PushLinks(site, page, visited, queue);
      }
    }
    assert level[|level|..] + queue == queue;
  }

  /** The loop over levels gives what one queue gives, and says truncated exactly if an item was left in it. */
  method Discover(site: Site, maxPages: nat, maxDepth: nat) returns (pages: seq<Page>, truncated: bool)
    ensures pages == End(site, maxPages, maxDepth).pages
    ensures truncated <==> |End(site, maxPages, maxDepth).queue| > 0
    // each page is usable, listed once, at its shortest distance, after its parent
    ensures Sound(site, pages) && |pages| <= maxPages && forall i :: 0 <= i < |pages| ==> pages[i].depth <= maxDepth
    ensures truncated ==> |pages| == maxPages
    // nothing is missed
    ensures !truncated ==> forall p :: p in PagePaths(pages) <==> Reachable(site, maxDepth, p)
  {
    pages, truncated := [], false;
    var visited: set<Str> := {};
    var queue := RootItems(site);
    ghost var d: nat := 0;
    CrawlExplores(site, maxPages, maxDepth);
    while |queue| > 0
      invariant !truncated
        && Finish(site, maxPages, maxDepth, Crawl(pages, visited, queue)) == End(site, maxPages, maxDepth)
      invariant forall k :: 0 <= k < |queue| ==> queue[k].depth == d <= maxDepth
      decreases maxDepth + 1 - d
    {
      var level := queue;
      assert level[0].depth == d <= maxDepth;
      pages, visited, queue, truncated := CrawlLevel(site, maxPages, maxDepth, d, level, pages, visited);
      if truncated {
        return;
      }
      d := d + 1;
    }
  }

  // ---- truncation

  /** The pages a crawl without a budget lists. */
  ghost function ReachablePages(site: Site, maxDepth: nat): set<Str> {
    set p | p in site.entries && Reachable(site, maxDepth, p)
  }

  predicate Truncated(site: Site, maxPages: nat, maxDepth: nat) {
    |End(site, maxPages, maxDepth).queue| > 0
  }

  lemma {:induction false} PageCount(pages: seq<Page>)
    requires forall i, j :: 0 <= i < j < |pages| ==> pages[i].path != pages[j].path
    ensures |PagePaths(pages)| == |pages|
  {
    if |pages| > 0 {
      var rest, last := pages[..|pages| - 1], pages[|pages| - 1];
      PageCount(rest);
      assert pages == rest + [last];
      NewPagePaths(rest, last);
      assert last.path !in PagePaths(rest);
    }
  }

  lemma PagesReachable(site: Site, maxPages: nat, maxDepth: nat, c: Crawl)
    requires Explored(site, maxPages, maxDepth, c)
    ensures PagePaths(c.pages) <= ReachablePages(site, maxDepth) && |PagePaths(c.pages)| == |c.pages|
    ensures |c.queue| == 0 ==> PagePaths(c.pages) == ReachablePages(site, maxDepth)
  {
    PageCount(c.pages);
    forall p | p in PagePaths(c.pages)
      ensures p in ReachablePages(site, maxDepth)
    {
      var i :| 0 <= i < |c.pages| && c.pages[i].path == p;
      assert Found(site, c.pages, i);
    }
  }

  lemma ListedReachable(site: Site, maxPages: nat, maxDepth: nat)
    ensures PagePaths(End(site, maxPages, maxDepth).pages) <= ReachablePages(site, maxDepth)
  {
    CrawlExplores(site, maxPages, maxDepth);
    PagesReachable(site, maxPages, maxDepth, End(site, maxPages, maxDepth));
  }

  /** Every item that a crawl without a budget takes from its queue, in order. */
  function Handled(site: Site, maxDepth: nat, c: Crawl): seq<Item>
    decreases |Unseen(site, c)|, |c.queue|
  {
    if |c.queue| == 0 then []
    else
      AdvanceShrinks(site, maxDepth, c);
      [c.queue[0]] + Handled(site, maxDepth, Advance(site, maxDepth, c))
  }

  /** Every item of a crawl without a budget, from the index files on. */
  function AllHandled(site: Site, maxDepth: nat): seq<Item> {
    Handled(site, maxDepth, Crawl([], {}, RootItems(site)))
  }

  /** The last item is the first mention of a usable page. */
  predicate LastIsNew(site: Site, visited: set<Str>, items: seq<Item>) {
    && |items| > 0
    && Usable(site, items[|items| - 1].path)
    && items[|items| - 1].path !in visited + ItemPaths(items[..|items| - 1])
  }

  lemma LastOfMore(site: Site, visited: set<Str>, first: Item, rest: seq<Item>)
    requires |rest| > 0
    ensures LastIsNew(site, visited, [first] + rest) <==> LastIsNew(site, visited + {first.path}, rest)
  {
    var items := [first] + rest;
    var front := items[..|items| - 1];
    assert front[0] == first && front[1..] == rest[..|rest| - 1];
    RestPaths(front);
  }

  lemma {:induction false} PagesGrow(site: Site, maxPages: nat, maxDepth: nat, c: Crawl)
    ensures |c.pages| <= |Finish(site, maxPages, maxDepth, c).pages|
    decreases |Unseen(site, c)|, |c.queue|
  {
    if |c.queue| > 0 && |c.pages| < maxPages {
      AdvanceShrinks(site, maxDepth, c);
      PagesGrow(site, maxPages, maxDepth, Advance(site, maxDepth, c));
      FinishStep(site, maxPages, maxDepth, c);
    }
  }

  /** When no more pages are listed, the last item is none. */
  lemma {:induction false} NothingNew(site: Site, budget: nat, maxDepth: nat, c: Crawl)
    requires |Finish(site, budget, maxDepth, c).queue| == 0
      && |Finish(site, budget, maxDepth, c).pages| == |c.pages| < budget
    ensures !LastIsNew(site, c.visited, Handled(site, maxDepth, c))
    decreases |Unseen(site, c)|, |c.queue|
  {
    if |c.queue| > 0 {
      var c' := Advance(site, maxDepth, c);
      AdvanceShrinks(site, maxDepth, c);
      FinishStep(site, budget, maxDepth, c);
      PagesGrow(site, budget, maxDepth, c');
      NothingNew(site, budget, maxDepth, c');
      LastAfterStep(site, maxDepth, c);
    }
  }

  lemma LastAfterStep(site: Site, maxDepth: nat, c: Crawl)
    requires |c.queue| > 0
    ensures var c' := Advance(site, maxDepth, c);
      LastIsNew(site, c.visited, Handled(site, maxDepth, c)) <==>
        if |c'.queue| > 0 then LastIsNew(site, c'.visited, Handled(site, maxDepth, c'))
        else c.queue[0].path !in c.visited && Usable(site, c.queue[0].path)
  {
    var c' := Advance(site, maxDepth, c);
    var rest := Handled(site, maxDepth, c');
    assert Handled(site, maxDepth, c) == [c.queue[0]] + rest;
    if |c'.queue| > 0 {
      LastOfMore(site, c.visited, c.queue[0], rest);
    } else {
      assert ([c.queue[0]] + rest)[..0] == [];
    }
  }

  /** A budget of just the pages there are is reported used up exactly if an item comes after the last page. */
  lemma {:induction false} TruncatedAtBudget(site: Site, maxPages: nat, maxDepth: nat, c: Crawl)
    requires |Finish(site, maxPages + 1, maxDepth, c).queue| == 0
    requires |c.pages| <= |Finish(site, maxPages + 1, maxDepth, c).pages| == maxPages
    ensures |Finish(site, maxPages, maxDepth, c).queue| > 0 <==>
      |c.queue| > 0 && !LastIsNew(site, c.visited, Handled(site, maxDepth, c))
    decreases |Unseen(site, c)|, |c.queue|
  {
    if |c.queue| > 0 {
      if |c.pages| == maxPages {
        NothingNew(site, maxPages + 1, maxDepth, c);
      } else {
        var c' := Advance(site, maxDepth, c);
        AdvanceShrinks(site, maxDepth, c);
        FinishStep(site, maxPages + 1, maxDepth, c);
        FinishStep(site, maxPages, maxDepth, c);
        TruncatedAtBudget(site, maxPages, maxDepth, c');
        LastAfterStep(site, maxDepth, c);
      }
    }
  }

  /**
   Exactly when truncation is reported: if more pages are reachable than the budget allows; and
   if just as many are, when the last item that a crawl without a budget handles is not a page
   mentioned for the first time. In that case nothing is left out.
   */
  lemma TruncationExact(site: Site, maxPages: nat, maxDepth: nat)
    ensures var n := |ReachablePages(site, maxDepth)|;
      && (Truncated(site, maxPages, maxDepth) <==>
            || n > maxPages
            || (n == maxPages && |Roots(site)| > 0 && !LastIsNew(site, {}, AllHandled(site, maxDepth))))
      && (n <= maxPages ==> PagePaths(End(site, maxPages, maxDepth).pages) == ReachablePages(site, maxDepth))
  {
    var c := End(site, maxPages, maxDepth);
    CrawlExplores(site, maxPages, maxDepth);
    PagesReachable(site, maxPages, maxDepth, c);
    SubsetSize(PagePaths(c.pages), ReachablePages(site, maxDepth));
    if |ReachablePages(site, maxDepth)| == maxPages {
      OneMorePageAllowed(site, maxPages, maxDepth);
      TruncatedAtBudget(site, maxPages, maxDepth, Crawl([], {}, RootItems(site)));
    }
  }

  /** With room for one more page the crawl comes to its own end. */
  lemma OneMorePageAllowed(site: Site, maxPages: nat, maxDepth: nat)
    requires |ReachablePages(site, maxDepth)| == maxPages
    ensures var c := End(site, maxPages + 1, maxDepth); |c.queue| == 0 && |c.pages| == maxPages
  {
    var c := End(site, maxPages + 1, maxDepth);
    CrawlExplores(site, maxPages + 1, maxDepth);
    PagesReachable(site, maxPages + 1, maxDepth, c);
    SubsetSize(PagePaths(c.pages), ReachablePages(site, maxDepth));
  }

  lemma SubsetSize(a: set<Str>, b: set<Str>)
    requires a <= b
    ensures |a| <= |b| && (|a| == |b| ==> a == b)
  {
    assert b == a + (b - a);
  }

  // ---- truncated with nothing left out

  const INDEX_A: Str := [0x61]
  const INDEX_B: Str := [0x62]
  const SHARED: Str := [0x78]

  /** Two index files that both link to one page. */
  function SharedSite(): Site {
    Site([INDEX_A, INDEX_B, SHARED], p => p != SHARED, _ => false, _ => true, p => if p != SHARED then [SHARED] else [])
  }

  function PageA(): Page {
    Page(INDEX_A, None, 0)
  }

  function PageB(): Page {
    Page(INDEX_B, None, 0)
  }

  function SharedFrom(index: Str): Item {
    Item(SHARED, 1, Some(index))
  }

  lemma FilterStep(x: Str, rest: seq<Str>, keep: Str -> bool)
    ensures Filter([x] + rest, keep) == if keep(x) then [x] + Filter(rest, keep) else Filter(rest, keep)
  {
    assert ([x] + rest)[1..] == rest;
  }

  lemma FilterThree(x: Str, y: Str, z: Str, keep: Str -> bool)
    requires keep(x) && keep(y) && !keep(z)
    ensures Filter([x, y, z], keep) == [x, y]
  {
    assert [x, y, z] == [x] + ([y] + ([z] + []));
    FilterStep(x, [y] + ([z] + []), keep);
    FilterStep(y, [z] + [], keep);
    FilterStep(z, [], keep);
  }

  lemma FilterTwo(x: Str, y: Str, keep: Str -> bool, all: bool)
    requires keep(x) == keep(y) == all
    ensures Filter([x, y], keep) == if all then [x, y] else []
  {
    assert [x, y] == [x] + ([y] + []);
    FilterStep(x, [y] + [], keep);
    FilterStep(y, [], keep);
  }

  lemma TwoRoots(site: Site, x: Str, y: Str, z: Str)
    requires site.entries == [x, y, z] && site.isRootIndex(x) && site.isRootIndex(y) && !site.isRootIndex(z)
    requires !site.isAgents(x) && !site.isAgents(y)
    ensures Roots(site) == [x, y]
  {
    FilterThree(x, y, z, site.isRootIndex);
    FilterTwo(x, y, site.isAgents, false);
    FilterTwo(x, y, p => !site.isAgents(p), true);
  }

  lemma SharedRoots()
    ensures RootItems(SharedSite()) == [Item(INDEX_A, 0, None), Item(INDEX_B, 0, None)]
  {
    TwoRoots(SharedSite(), INDEX_A, INDEX_B, SHARED);
  }

  lemma SharedLinks(index: Str, visited: set<Str>)
    requires (index == INDEX_A || index == INDEX_B) && SHARED !in visited
    ensures NewItems(SharedSite(), Page(index, None, 0), SharedSite().links(index), visited) == [SharedFrom(index)]
  {
    var links := SharedSite().links(index);
    assert links == [SHARED] && |links[1..]| == 0;
  }

  function AfterA(): Crawl {
    Crawl([PageA()], {INDEX_A}, [Item(INDEX_B, 0, None), SharedFrom(INDEX_A)])
  }

  function AfterB(): Crawl {
    Crawl([PageA(), PageB()], {INDEX_A, INDEX_B}, [SharedFrom(INDEX_A), SharedFrom(INDEX_B)])
  }

  function AfterShared(): Crawl {
    Crawl([PageA(), PageB(), Page(SHARED, Some(INDEX_A), 1)], {INDEX_A, INDEX_B, SHARED}, [SharedFrom(INDEX_B)])
  }

  lemma FirstStep()
    ensures Advance(SharedSite(), 3, Crawl([], {}, [Item(INDEX_A, 0, None), Item(INDEX_B, 0, None)])) == AfterA()
  {
    SharedLinks(INDEX_A, {INDEX_A});
    assert {} + {INDEX_A} == {INDEX_A};
    assert SharedSite().entries[0] == INDEX_A;
  }

  lemma SecondStep()
    ensures Advance(SharedSite(), 3, AfterA()) == AfterB()
  {
    SharedLinks(INDEX_B, {INDEX_A, INDEX_B});
    assert {INDEX_A} + {INDEX_B} == {INDEX_A, INDEX_B};
    assert SharedSite().entries[1] == INDEX_B;
  }

  lemma ThirdStep()
    ensures Advance(SharedSite(), 3, AfterB()) == AfterShared()
  {
    var page := Page(SHARED, Some(INDEX_A), 1);
    assert NewItems(SharedSite(), page, [], {INDEX_A, INDEX_B, SHARED}) == [];
    assert {INDEX_A, INDEX_B} + {SHARED} == {INDEX_A, INDEX_B, SHARED};
    assert SharedSite().entries[2] == SHARED;
  }

  lemma SharedEnd()
    ensures End(SharedSite(), 3, 3) == AfterShared()
  {
    var site := SharedSite();
    SharedRoots();
    FirstStep();
    SecondStep();
    ThirdStep();
    FinishStep(site, 3, 3, Crawl([], {}, RootItems(site)));
    FinishStep(site, 3, 3, AfterA());
    FinishStep(site, 3, 3, AfterB());
  }

  lemma SharedListed()
    ensures PagePaths(AfterShared().pages) <= ReachablePages(SharedSite(), 3)
  {
    SharedEnd();
    ListedReachable(SharedSite(), 3, 3);
  }

  lemma SharedAll()
    ensures PagePaths(AfterShared().pages) == {INDEX_A, INDEX_B, SHARED}
    ensures ReachablePages(SharedSite(), 3) <= {INDEX_A, INDEX_B, SHARED}
  {
    var pages := AfterShared().pages;
    assert pages[0].path == INDEX_A && pages[1].path == INDEX_B && pages[2].path == SHARED;
  }

  lemma SharedReachable()
    ensures ReachablePages(SharedSite(), 3) == PagePaths(AfterShared().pages)
  {
    SharedListed();
    SharedAll();
  }

  /**
   With a budget of three, everything reachable is listed, and truncation is reported all the
   same: the shared page is still waiting a second time.
   */
  lemma TruncatedWithNothingLeftOut(c: Crawl)
    requires c == End(SharedSite(), 3, 3)
    ensures PagePaths(c.pages) == ReachablePages(SharedSite(), 3) && c.queue == [SharedFrom(INDEX_B)]
  {
    SharedEnd();
    SharedReachable();
  }
}
