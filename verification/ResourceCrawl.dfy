/**
 `crawlResourceGraph` of `src/resource-graph.ts`: a worklist that downloads its pages in concurrent batches, and the
 plain first-in-first-out traversal it always computes, whatever the batch size and the order in which requests complete.
 */
module ResourceCrawl {
  import opened Base
  import opened Sorting

  type Url = string

  /** What handling one URL yields: a stored file, or an error. Only text files are searched for references. */
  datatype Fetched = File(status: int, size: nat, text: bool, links: seq<Url>) | Broken(error: string)

  /** The part of the world the crawl does not control; `before` is the collation order of the reports. */
  datatype Web = Web(host: Url -> string, allowed: set<string>, fetch: Url -> Fetched, before: (Url, Url) -> bool)
  {
    predicate Allows(url: Url) {
      host(url) in allowed
    }

    function Links(url: Url): seq<Url> {
      if Allows(url) && fetch(url).File? && fetch(url).text then fetch(url).links else []
    }
  }

  /** A page that may be fetched, and whose file is a text, has a reference to a URL. */
  ghost predicate RefersTo(web: Web, page: Url, url: Url) {
    && web.host(page) in web.allowed && web.fetch(page).File? && web.fetch(page).text
    && url in web.fetch(page).links
  }

  datatype Origin = Entry | From(url: Url)
  datatype Item = Item(url: Url, from: Origin)
  datatype Stored = Stored(url: Url, status: int, size: nat, from: Origin)
  datatype Failed = Failed(url: Url, error: string, from: Origin)

  const HOST_NOT_ALLOWED := "host is not in the allow list"

  function Entries(urls: seq<Url>): seq<Item> {
    seq(|urls|, i requires 0 <= i < |urls| => Item(urls[i], Entry))
  }

  function Found(web: Web, page: Url): seq<Item> {
    seq(|web.Links(page)|, i requires 0 <= i < |web.Links(page)| => Item(web.Links(page)[i], From(page)))
  }

  // ----- the traversal -----

  /** The URLs form a finite graph: everything in the queue and everything linked from a page is one of `all`. */
  ghost predicate Closed(web: Web, all: set<Url>, queue: seq<Item>) {
    && (forall item | item in queue :: item.url in all)
    && (forall page, u | page in all && RefersTo(web, page, u) :: u in all)
  }

  /** One page at a time, first in first out, each URL once. */
  ghost function Visit(web: Web, all: set<Url>, queue: seq<Item>, seen: set<Url>): seq<Item>
    requires Closed(web, all, queue)
    decreases all - seen, |queue|
  {
    if queue == [] then []
    else if queue[0].url in seen then Visit(web, all, queue[1..], seen)
    else [queue[0]] + Visit(web, all, queue[1..] + Found(web, queue[0].url), seen + {queue[0].url})
  }

  ghost function Order(web: Web, all: set<Url>, entries: seq<Url>): seq<Item>
    requires Closed(web, all, Entries(entries))
  {
    Visit(web, all, Entries(entries), {})
  }

  /** Everything the pages of a batch refer to, in batch order. */
  function FoundBy(web: Web, batch: seq<Item>): seq<Item> {
    if batch == [] then [] else FoundBy(web, batch[..|batch| - 1]) + Found(web, batch[|batch| - 1].url)
  }

  function Unseen(items: seq<Item>, seen: set<Url>): seq<Item> {
    if items == [] then []
    else (if items[0].url in seen then [] else [items[0]]) + Unseen(items[1..], seen)
  }

  lemma {:induction false} VisitSkipsOne(web: Web, all: set<Url>, a: seq<Item>, x: Item, b: seq<Item>, seen: set<Url>)
    requires Closed(web, all, a + [x] + b) && x.url in seen
    ensures Closed(web, all, a + b)
    ensures Visit(web, all, a + [x] + b, seen) == Visit(web, all, a + b, seen)
    decreases all - seen, |a|
  {
    if a == [] {
      assert a + [x] + b == [x] + b && ([x] + b)[1..] == b == a + b;
    } else {
      assert (a + [x] + b)[1..] == a[1..] + [x] + b && (a + b)[1..] == a[1..] + b;
      if a[0].url in seen {
        VisitSkipsOne(web, all, a[1..], x, b, seen);
      } else {
        var found := Found(web, a[0].url);
        assert a[1..] + [x] + b + found == a[1..] + [x] + (b + found) && a[1..] + b + found == a[1..] + (b + found);
        VisitSkipsOne(web, all, a[1..], x, b + found, seen + {a[0].url});
      }
    }
  }

  /** Leaving out what was seen before queueing it, as the crawl does, changes nothing. */
  lemma {:induction false} VisitSkips(web: Web, all: set<Url>, a: seq<Item>, b: seq<Item>, seen: set<Url>)
    requires Closed(web, all, a + b)
    ensures Closed(web, all, a + Unseen(b, seen))
    ensures Visit(web, all, a + Unseen(b, seen), seen) == Visit(web, all, a + b, seen)
    decreases b
  {
    hide Visit, Closed;
    if b == [] {
      assert a + Unseen(b, seen) == a + b;
    } else {
      var x, rest := b[0], b[1..];
      TakesFirst(a, b);
      if x.url in seen {
        VisitSkipsOne(web, all, a, x, rest, seen);
        VisitSkips(web, all, a, rest, seen);
        assert Unseen(b, seen) == [] + Unseen(rest, seen) == Unseen(rest, seen);
      } else {
        VisitSkips(web, all, a + [x], rest, seen);
        Associates(a, [x], Unseen(rest, seen));
      }
    }
  }

  lemma TakesFirst<T>(a: seq<T>, b: seq<T>)
    requires b != []
    ensures a + b == a + [b[0]] + b[1..]
  {
  }

  // ----- what the traversal is -----

  /** The first occurrence of every URL in a stream of references. */
  function Firsts(stream: seq<Item>, seen: set<Url>): seq<Item> {
    if stream == [] then []
    else if stream[0].url in seen then Firsts(stream[1..], seen)
    else [stream[0]] + Firsts(stream[1..], seen + {stream[0].url})
  }

  lemma {:induction false} FoundByFirst(web: Web, item: Item, rest: seq<Item>)
    ensures FoundBy(web, [item] + rest) == Found(web, item.url) + FoundBy(web, rest)
    decreases rest
  {
    var whole := [item] + rest;
    if rest == [] {
      assert whole[..0] == [];
    } else {
      var front := rest[..|rest| - 1];
      assert whole[..|whole| - 1] == [item] + front;
      FoundByFirst(web, item, front);
    }
  }

  lemma FirstsHead(item: Item, rest: seq<Item>, seen: set<Url>)
    ensures Firsts([item] + rest, seen)
         == if item.url in seen then Firsts(rest, seen) else [item] + Firsts(rest, seen + {item.url})
  {
    assert ([item] + rest)[1..] == rest;
  }

  lemma Regroup(queue: seq<Item>, found: seq<Item>, more: seq<Item>)
    requires queue != []
    ensures queue + (found + more) == [queue[0]] + (queue[1..] + found + more)
  {
  }

  /** The traversal is the first occurrences in what it started from followed by everything its own pages refer to. */
  lemma {:induction false} VisitIsFirsts(web: Web, all: set<Url>, queue: seq<Item>, seen: set<Url>)
    requires Closed(web, all, queue)
    ensures var v := Visit(web, all, queue, seen); v == Firsts(queue + FoundBy(web, v), seen)
    decreases all - seen, |queue|
  {
    var v := Visit(web, all, queue, seen);
    if queue == [] {
    } else if queue[0].url in seen {
      VisitIsFirsts(web, all, queue[1..], seen);
      FirstsHead(queue[0], queue[1..] + FoundBy(web, v), seen);
      Regroup(queue, [], FoundBy(web, v));
      assert queue[1..] + [] == queue[1..] && [] + FoundBy(web, v) == FoundBy(web, v);
    } else {
      var found := Found(web, queue[0].url);
      var rest := Visit(web, all, queue[1..] + found, seen + {queue[0].url});
      VisitIsFirsts(web, all, queue[1..] + found, seen + {queue[0].url});
      FoundByFirst(web, queue[0], rest);
      FirstsHead(queue[0], queue[1..] + found + FoundBy(web, rest), seen);
      Regroup(queue, found, FoundBy(web, rest));
    }
  }

  lemma {:induction false} FirstsExact(stream: seq<Item>, seen: set<Url>, item: Item)
    ensures item in Firsts(stream, seen) <==>
      && item.url !in seen
      && exists k :: 0 <= k < |stream| && stream[k] == item && forall l | 0 <= l < k :: stream[l].url != item.url
    decreases stream
  {
    if stream == [] {
    } else {
      var rest := stream[1..];
      FirstsExact(rest, if stream[0].url in seen then seen else seen + {stream[0].url}, item);
      if item.url !in seen && stream[0].url != item.url {
        if k :| 0 <= k < |rest| && rest[k] == item && forall l | 0 <= l < k :: rest[l].url != item.url {
          assert stream[k + 1] == item && forall l | 0 <= l < k + 1 :: stream[l].url != item.url;
        }
        if k :| 0 <= k < |stream| && stream[k] == item && forall l | 0 <= l < k :: stream[l].url != item.url {
          assert rest[k - 1] == item && forall l | 0 <= l < k - 1 :: rest[l].url == stream[l + 1].url;
        }
      }
    }
  }

  lemma {:induction false} FirstsDistinct(stream: seq<Item>, seen: set<Url>)
    ensures forall x | x in Firsts(stream, seen) :: x.url !in seen
    ensures forall i, j | 0 <= i < j < |Firsts(stream, seen)| :: Firsts(stream, seen)[i].url != Firsts(stream, seen)[j].url
    decreases stream
  {
    if stream == [] {
    } else if stream[0].url in seen {
      FirstsDistinct(stream[1..], seen);
    } else {
      var rest := Firsts(stream[1..], seen + {stream[0].url});
      FirstsDistinct(stream[1..], seen + {stream[0].url});
      forall i, j | 0 <= i < j < 1 + |rest| ensures ([stream[0]] + rest)[i].url != ([stream[0]] + rest)[j].url {
        assert rest[j - 1] in rest;
      }
    }
  }

  // ----- reachability -----

  ghost predicate Path(web: Web, path: seq<Url>) {
    path != [] && forall i | 0 < i < |path| :: RefersTo(web, path[i - 1], path[i])
  }

  ghost predicate Reaches(web: Web, entries: seq<Url>, path: seq<Url>, url: Url) {
    Path(web, path) && path[0] in entries && path[|path| - 1] == url
  }

  ghost predicate Reachable(web: Web, entries: seq<Url>, url: Url) {
    exists path :: Reaches(web, entries, path, url)
  }

  ghost predicate Visited(order: seq<Item>, url: Url) {
    exists i :: 0 <= i < |order| && order[i].url == url
  }

  lemma {:induction false} FoundByMembers(web: Web, batch: seq<Item>, item: Item)
    ensures item in FoundBy(web, batch) <==>
      exists j :: 0 <= j < |batch| && RefersTo(web, batch[j].url, item.url) && item.from == From(batch[j].url)
    decreases batch
  {
    if batch != [] {
      var n := |batch| - 1;
      FoundByMembers(web, batch[..n], item);
      var page := batch[n].url;
      if RefersTo(web, page, item.url) && item.from == From(page) {
        var k :| 0 <= k < |web.Links(page)| && web.Links(page)[k] == item.url;
        assert Found(web, page)[k] == item;
      }
    }
  }

  lemma {:induction false} FirstsUrls(stream: seq<Item>, seen: set<Url>, url: Url)
    ensures Visited(Firsts(stream, seen), url) <==> url !in seen && Visited(stream, url)
    decreases stream
  {
    if stream != [] {
      var head, rest := stream[0], stream[1..];
      assert stream == [head] + rest;
      VisitedSplit([head], rest, url);
      if head.url in seen {
        FirstsUrls(rest, seen, url);
      } else {
        FirstsUrls(rest, seen + {head.url}, url);
        VisitedSplit([head], Firsts(rest, seen + {head.url}), url);
      }
      assert Visited([head], url) <==> head.url == url by { assert [head][0] == head; }
    }
  }

  lemma VisitedSplit(a: seq<Item>, b: seq<Item>, url: Url)
    ensures Visited(a + b, url) <==> Visited(a, url) || Visited(b, url)
  {
    if i :| 0 <= i < |a| && a[i].url == url { assert (a + b)[i].url == url; }
    if i :| 0 <= i < |b| && b[i].url == url { assert (a + b)[|a| + i].url == url; }
  }

  lemma ClosedNext(web: Web, all: set<Url>, queue: seq<Item>)
    requires Closed(web, all, queue) && queue != []
    ensures queue[0].url in all
    ensures Closed(web, all, queue[1..]) && Closed(web, all, queue[1..] + Found(web, queue[0].url))
  {
  }

  /** A page found through a reference is handled after the page that refers to it. */
  lemma {:induction false} ParentsFirst(web: Web, all: set<Url>, queue: seq<Item>, seen: set<Url>, i: nat)
    requires Closed(web, all, queue) && i < |Visit(web, all, queue, seen)|
    ensures var v := Visit(web, all, queue, seen);
            v[i] in queue || exists j | 0 <= j < i :: v[i] in Found(web, v[j].url)
    decreases all - seen, |queue|
  {
    hide Closed;
    ClosedNext(web, all, queue);
    if queue[0].url in seen {
      ParentsFirst(web, all, queue[1..], seen, i);
    } else if i > 0 {
      var v := Visit(web, all, queue, seen);
      var found := Found(web, queue[0].url);
      var rest := Visit(web, all, queue[1..] + found, seen + {queue[0].url});
      ParentsFirst(web, all, queue[1..] + found, seen + {queue[0].url}, i - 1);
      if j :| 0 <= j < i - 1 && rest[i - 1] in Found(web, rest[j].url) {
        assert v[j + 1] == rest[j];
      } else if v[i] in found {
        assert v[0] == queue[0];
      }
    }
  }

  lemma {:induction false} FirstFinder(web: Web, batch: seq<Item>, k: nat)
    requires k < |FoundBy(web, batch)|
    requires forall l | 0 <= l < k :: FoundBy(web, batch)[l].url != FoundBy(web, batch)[k].url
    ensures exists j :: 0 <= j < |batch| && Finds(web, batch, j, FoundBy(web, batch)[k])
    decreases batch
  {
    var n := |batch| - 1;
    var front, item := FoundBy(web, batch[..n]), FoundBy(web, batch)[k];
    assert FoundBy(web, batch) == front + Found(web, batch[n].url);
    assert forall l | 0 <= l < |front| :: front[l] == FoundBy(web, batch)[l];
    if k < |front| {
      FirstFinder(web, batch[..n], k);
      var j :| 0 <= j < n && Finds(web, batch[..n], j, front[k]);
      assert Finds(web, batch, j, item);
    } else {
      assert forall other | other in front :: other.url != item.url;
      forall l | 0 <= l < n ensures !RefersTo(web, batch[l].url, item.url) {
        if RefersTo(web, batch[l].url, item.url) {
          FoundByMembers(web, batch[..n], Item(item.url, From(batch[..n][l].url)));
        }
      }
      assert item == Found(web, batch[n].url)[k - |front|];
      assert Finds(web, batch, n, item);
    }
  }

  /** `item` is a reference of the `j`-th page, and no page before it has one to the same URL. */
  ghost predicate Finds(web: Web, order: seq<Item>, j: nat, item: Item)
    requires j < |order|
  {
    && item.from == From(order[j].url) && RefersTo(web, order[j].url, item.url)
    && forall l | 0 <= l < j :: !RefersTo(web, order[l].url, item.url)
  }

  lemma EntryOrigin(web: Web, all: set<Url>, entries: seq<Url>, item: Item)
    requires Closed(web, all, Entries(entries)) && item in Order(web, all, entries) && item.url in entries
    ensures item.from == Entry
  {
    var order, start := Order(web, all, entries), Entries(entries);
    VisitIsFirsts(web, all, start, {});
    FirstsExact(start + FoundBy(web, order), {}, item);
    var e :| 0 <= e < |entries| && entries[e] == item.url;
    assert (start + FoundBy(web, order))[e] == start[e];
  }

  lemma FinderOrigin(web: Web, all: set<Url>, entries: seq<Url>, item: Item)
    requires Closed(web, all, Entries(entries)) && item in Order(web, all, entries) && item.url !in entries
    ensures exists j :: 0 <= j < |Order(web, all, entries)| && Finds(web, Order(web, all, entries), j, item)
  {
    hide Visit, Firsts, FoundBy, Closed;
    var order, start := Order(web, all, entries), Entries(entries);
    var found := FoundBy(web, order);
    var stream := start + found;
    VisitIsFirsts(web, all, start, {});
    FirstsExact(stream, {}, item);
    assert forall e | 0 <= e < |start| :: start[e].url in entries;
    var k :| 0 <= k < |stream| && stream[k] == item && forall l | 0 <= l < k :: stream[l].url != item.url;
    assert k >= |start|;
    forall l | 0 <= l < k - |start| ensures found[l].url != item.url {
      assert stream[|start| + l] == found[l];
    }
    FirstFinder(web, order, k - |start|);
  }

  lemma OrderDistinct(web: Web, all: set<Url>, entries: seq<Url>)
    requires Closed(web, all, Entries(entries))
    ensures forall i, j | 0 <= i < j < |Order(web, all, entries)| ::
              Order(web, all, entries)[i].url != Order(web, all, entries)[j].url
  {
    var order := Order(web, all, entries);
    VisitIsFirsts(web, all, Entries(entries), {});
    FirstsDistinct(Entries(entries) + FoundBy(web, order), {});
  }

  /** Every page is attributed to the first page handled that refers to it, and that page is handled before it. */
  lemma Discoverer(web: Web, all: set<Url>, entries: seq<Url>, i: nat)
    requires Closed(web, all, Entries(entries)) && i < |Order(web, all, entries)|
    ensures var order := Order(web, all, entries);
            if order[i].url in entries then order[i].from == Entry
            else exists j | 0 <= j < i :: Finds(web, order, j, order[i])
  {
    hide Visit, Closed;
    var order := Order(web, all, entries);
    if order[i].url in entries {
      EntryOrigin(web, all, entries, order[i]);
    } else {
      FinderOrigin(web, all, entries, order[i]);
      var j :| 0 <= j < |order| && Finds(web, order, j, order[i]);
      ParentsFirst(web, all, Entries(entries), {}, i);
      OrderDistinct(web, all, entries);
    }
  }

  // ----- the closure -----

  lemma {:induction false} VisitedAreReachable(web: Web, all: set<Url>, entries: seq<Url>, i: nat)
    requires Closed(web, all, Entries(entries)) && i < |Order(web, all, entries)|
    ensures Reachable(web, entries, Order(web, all, entries)[i].url)
    decreases i
  {
    hide Visit, Closed, Reaches;
    var order := Order(web, all, entries);
    var url := order[i].url;
    ParentsFirst(web, all, Entries(entries), {}, i);
    if order[i] in Entries(entries) {
      EntryReached(web, entries, url);
    } else {
      var j :| 0 <= j < i && order[i] in Found(web, order[j].url);
      VisitedAreReachable(web, all, entries, j);
      var path :| Reaches(web, entries, path, order[j].url);
      ReachesOn(web, entries, path, order[j].url, url);
    }
  }

  lemma EntryReached(web: Web, entries: seq<Url>, url: Url)
    requires url in entries
    ensures Reaches(web, entries, [url], url)
  {
  }

  lemma ReachesOn(web: Web, entries: seq<Url>, path: seq<Url>, page: Url, url: Url)
    requires Reaches(web, entries, path, page) && RefersTo(web, page, url)
    ensures Reaches(web, entries, path + [url], url)
  {
  }

  lemma {:induction false} ReachableAreVisited(web: Web, all: set<Url>, entries: seq<Url>, path: seq<Url>, url: Url)
    requires Closed(web, all, Entries(entries)) && Reaches(web, entries, path, url)
    ensures Visited(Order(web, all, entries), url)
    decreases path
  {
    var order := Order(web, all, entries);
    var stream := Entries(entries) + FoundBy(web, order);
    VisitIsFirsts(web, all, Entries(entries), {});
    FirstsUrls(stream, {}, url);
    VisitedSplit(Entries(entries), FoundBy(web, order), url);
    if |path| == 1 {
      var e :| 0 <= e < |entries| && entries[e] == url;
      assert Entries(entries)[e].url == url;
    } else {
      var front := path[..|path| - 1];
      var page := front[|front| - 1];
      assert Reaches(web, entries, front, page) && RefersTo(web, page, url);
      ReachableAreVisited(web, all, entries, front, page);
      var j :| 0 <= j < |order| && order[j].url == page;
      FoundByMembers(web, order, Item(url, From(page)));
      var k :| 0 <= k < |FoundBy(web, order)| && FoundBy(web, order)[k] == Item(url, From(page));
    }
  }

  /** The pages handled are exactly those reachable from the entries, each of them once. */
  lemma OrderIsClosure(web: Web, all: set<Url>, entries: seq<Url>, url: Url)
    requires Closed(web, all, Entries(entries))
    ensures Visited(Order(web, all, entries), url) <==> Reachable(web, entries, url)
    ensures forall i, j | 0 <= i < j < |Order(web, all, entries)| ::
              Order(web, all, entries)[i].url != Order(web, all, entries)[j].url
  {
    var order := Order(web, all, entries);
    OrderDistinct(web, all, entries);
    if i :| 0 <= i < |order| && order[i].url == url { VisitedAreReachable(web, all, entries, i); }
    if path :| Reaches(web, entries, path, url) { ReachableAreVisited(web, all, entries, path, url); }
  }

  // ----- the reports -----

  function StoredAt(web: Web): Item -> seq<Stored> {
    (item: Item) =>
      if web.Allows(item.url) && web.fetch(item.url).File? then
        [Stored(item.url, web.fetch(item.url).status, web.fetch(item.url).size, item.from)]
      else []
  }

  /** A URL on a foreign host is a failure only when it was asked for; a foreign reference is just not followed. */
  function FailedAt(web: Web): Item -> seq<Failed> {
    (item: Item) =>
      if !web.Allows(item.url) then (if item.from == Entry then [Failed(item.url, HOST_NOT_ALLOWED, item.from)] else [])
      else if web.fetch(item.url).Broken? then [Failed(item.url, web.fetch(item.url).error, item.from)]
      else []
  }

  function Gather<T>(items: seq<Item>, report: Item -> seq<T>): seq<T> {
    if items == [] then [] else Gather(items[..|items| - 1], report) + report(items[|items| - 1])
  }

  function StoredOrder(web: Web): (Stored, Stored) -> bool {
    (x: Stored, y: Stored) => !web.before(y.url, x.url)
  }

  function FailedOrder(web: Web): (Failed, Failed) -> bool {
    (x: Failed, y: Failed) => !web.before(y.url, x.url)
  }

  // ----- the crawl -----

  /** The reports of the requests of a batch that have completed. */
  ghost function Completed<T>(batch: seq<Item>, pending: set<nat>, report: Item -> seq<T>): multiset<T> {
    if batch == [] then multiset{}
    else
      var n := |batch| - 1;
      Completed(batch[..n], pending, report) + if n in pending then multiset{} else multiset(report(batch[n]))
  }

  lemma {:induction false} CompletedNone<T>(batch: seq<Item>, pending: set<nat>, report: Item -> seq<T>)
    requires forall i | 0 <= i < |batch| :: i in pending
    ensures Completed(batch, pending, report) == multiset{}
  {
    if batch != [] { CompletedNone(batch[..|batch| - 1], pending, report); }
  }

  lemma {:induction false} CompletedAll<T>(batch: seq<Item>, report: Item -> seq<T>)
    ensures Completed(batch, {}, report) == multiset(Gather(batch, report))
  {
    if batch != [] { CompletedAll(batch[..|batch| - 1], report); }
  }

  lemma {:induction false} CompletedOne<T>(batch: seq<Item>, pending: set<nat>, i: nat, report: Item -> seq<T>)
    requires i < |batch| && i in pending
    ensures Completed(batch, pending - {i}, report) == Completed(batch, pending, report) + multiset(report(batch[i]))
  {
    var n := |batch| - 1;
    if i < n {
      CompletedOne(batch[..n], pending, i, report);
    } else {
      CompletedOther(batch[..n], pending, n, report);
    }
  }

  lemma {:induction false} CompletedOther<T>(batch: seq<Item>, pending: set<nat>, i: nat, report: Item -> seq<T>)
    requires |batch| <= i
    ensures Completed(batch, pending - {i}, report) == Completed(batch, pending, report)
  {
    if batch != [] { CompletedOther(batch[..|batch| - 1], pending, i, report); }
  }

  lemma {:induction false} GatherAppend<T>(a: seq<Item>, b: seq<Item>, report: Item -> seq<T>)
    ensures Gather(a + b, report) == Gather(a, report) + Gather(b, report)
    decreases b
  {
    if b == [] {
      assert a + b == a;
    } else {
      assert (a + b)[..|a + b| - 1] == a + b[..|b| - 1];
      GatherAppend(a, b[..|b| - 1], report);
    }
  }

  /** Handle one URL, adding to whatever the other requests of the batch have already reported. */
  method ProcessOne(web: Web, item: Item, files: seq<Stored>, failed: seq<Failed>)
    returns (files': seq<Stored>, failed': seq<Failed>, links: seq<Url>)
    ensures files' == files + StoredAt(web)(item) && failed' == failed + FailedAt(web)(item)
    ensures links == web.Links(item.url)
  {
    files', failed', links := files, failed, [];
    if !web.Allows(item.url) {
      if item.from == Entry { failed' := failed' + [Failed(item.url, HOST_NOT_ALLOWED, item.from)]; }
      return;
    }
    match web.fetch(item.url) {
      case File(status, size, text, found) =>
        files' := files' + [Stored(item.url, status, size, item.from)];
        if text { links := found; }
      case Broken(error) =>
        failed' := failed' + [Failed(item.url, error, item.from)];
    }
  }

  function Below(n: nat): (s: set<nat>)
    ensures forall i: nat :: i in s <==> i < n
  {
    if n == 0 then {} else Below(n - 1) + {n - 1}
  }

  /** All requests of a batch run at once and complete in any order; their references are kept by position. */
  method RunBatch(web: Web, batch: seq<Item>, files: seq<Stored>, failed: seq<Failed>)
    returns (files': seq<Stored>, failed': seq<Failed>, discovered: seq<seq<Url>>)
    ensures multiset(files') == multiset(files) + multiset(Gather(batch, StoredAt(web)))
    ensures multiset(failed') == multiset(failed) + multiset(Gather(batch, FailedAt(web)))
    ensures |discovered| == |batch| && forall i | 0 <= i < |batch| :: discovered[i] == web.Links(batch[i].url)
  {
    hide StoredAt, FailedAt, Gather, Completed;
    files', failed' := files, failed;
    var pending := Below(|batch|);
    var results: seq<seq<Url>> := seq(|batch|, _ => []);
    CompletedNone(batch, pending, StoredAt(web));
    CompletedNone(batch, pending, FailedAt(web));
    while pending != {}
      invariant forall i | i in pending :: i < |batch|
      invariant |results| == |batch|
      invariant forall i: nat | i < |batch| && i !in pending :: results[i] == web.Links(batch[i].url)
      invariant multiset(files') == multiset(files) + Completed(batch, pending, StoredAt(web))
      invariant multiset(failed') == multiset(failed) + Completed(batch, pending, FailedAt(web))
      decreases pending
    {
      var i :| i in pending;
      var links;
      CompletedOne(batch, pending, i, StoredAt(web));
      CompletedOne(batch, pending, i, FailedAt(web));
      files', failed', links := ProcessOne(web, batch[i], files', failed');
      results := results[i := links];
      pending := pending - {i};
    }
    CompletedAll(batch, StoredAt(web));
    CompletedAll(batch, FailedAt(web));
    discovered := results;
  }

  /** Queue what one page referred to, unless it was already taken up. */
  method EnqueuePage(web: Web, queue: seq<Item>, page: Url, links: seq<Url>, seen: set<Url>) returns (queue': seq<Item>)
    requires links == web.Links(page)
    ensures queue' == queue + Unseen(Found(web, page), seen)
  {
    queue' := queue;
    var found, j := Found(web, page), 0;
    while j < |links|
      invariant 0 <= j <= |links|
      invariant queue' == queue + Unseen(found[..j], seen)
    {
      assert found[..j + 1] == found[..j] + [Item(links[j], From(page))];
      UnseenAppend(found[..j], [Item(links[j], From(page))], seen);
      if links[j] !in seen { queue' := queue' + [Item(links[j], From(page))]; }
      j := j + 1;
    }
    assert found[..j] == found;
  }

  /** Queue what a batch referred to, page by page in the order of the batch. */
  method Enqueue(web: Web, queue: seq<Item>, batch: seq<Item>, discovered: seq<seq<Url>>, seen: set<Url>)
    returns (queue': seq<Item>)
    requires |discovered| == |batch| && forall i | 0 <= i < |batch| :: discovered[i] == web.Links(batch[i].url)
    ensures queue' == queue + Unseen(FoundBy(web, batch), seen)
  {
    hide Found, Unseen;
    queue' := queue;
    var i := 0;
    assert batch[..0] == [];
    NothingFound(web, seen);
    while i < |batch|
      invariant 0 <= i <= |batch|
      invariant queue' == queue + Unseen(FoundBy(web, batch[..i]), seen)
    {
      FoundByNext(web, batch[..i], batch[i]);
      assert batch[..i] + [batch[i]] == batch[..i + 1];
      UnseenAppend(FoundBy(web, batch[..i]), Found(web, batch[i].url), seen);
      queue' := EnqueuePage(web, queue', batch[i].url, discovered[i], seen);
      i := i + 1;
    }
    assert batch[..i] == batch;
  }

  lemma NothingFound(web: Web, seen: set<Url>)
    ensures FoundBy(web, []) == [] && Unseen([], seen) == []
  {
  }

  lemma FoundByNext(web: Web, batch: seq<Item>, item: Item)
    ensures FoundBy(web, batch + [item]) == FoundBy(web, batch) + Found(web, item.url)
  {
    assert (batch + [item])[..|batch|] == batch;
  }

  lemma PassOver(web: Web, all: set<Url>, queue: seq<Item>, due: seq<Item>, seen: set<Url>)
    requires queue != [] && Closed(web, all, queue + due) && queue[0].url in seen
    ensures Closed(web, all, queue[1..] + due)
    ensures Visit(web, all, queue + due, seen) == Visit(web, all, queue[1..] + due, seen)
  {
    assert (queue + due)[1..] == queue[1..] + due;
  }

  lemma ClosedUp(web: Web, all: set<Url>, item: Item, rest: seq<Item>)
    requires Closed(web, all, [item] + rest)
    ensures item.url in all && Closed(web, all, rest + Found(web, item.url))
  {
    assert ([item] + rest)[0] == item;
    assert forall x | x in Found(web, item.url) :: x.url in web.Links(item.url);
  }

  lemma TakeUp(web: Web, all: set<Url>, queue: seq<Item>, due: seq<Item>, seen: set<Url>)
    requires queue != [] && Closed(web, all, queue + due) && queue[0].url !in seen
    ensures queue[0].url in all && Closed(web, all, queue[1..] + (due + Found(web, queue[0].url)))
    ensures Visit(web, all, queue + due, seen)
      == [queue[0]] + Visit(web, all, queue[1..] + (due + Found(web, queue[0].url)), seen + {queue[0].url})
  {
    hide Closed, Found;
    var item, rest := queue[0], queue[1..] + due;
    assert queue + due == [item] + rest;
    ClosedUp(web, all, item, rest);
    assert ([item] + rest)[1..] == rest;
    assert rest + Found(web, item.url) == queue[1..] + (due + Found(web, item.url));
  }

  /** Take up to `size` unseen URLs off the front of the queue; their references are still to come. */
  method NextBatch(web: Web, ghost all: set<Url>, queue: seq<Item>, seen: set<Url>, size: nat)
    returns (batch: seq<Item>, queue': seq<Item>, seen': set<Url>)
    requires Closed(web, all, queue) && size >= 1
    ensures Closed(web, all, queue' + FoundBy(web, batch))
    ensures Visit(web, all, queue, seen) == batch + Visit(web, all, queue' + FoundBy(web, batch), seen')
    ensures |batch| <= size
    ensures seen <= seen' <= seen + all && (batch == [] ==> queue' == []) && (batch == [] <==> seen' == seen)
  {
    hide Visit, Closed, FoundBy, Found;
    batch, queue', seen' := [], queue, seen;
    NothingFound(web, seen);
    assert queue' + [] == queue;
    while queue' != [] && |batch| < size
      invariant Closed(web, all, queue' + FoundBy(web, batch))
      invariant Visit(web, all, queue, seen) == batch + Visit(web, all, queue' + FoundBy(web, batch), seen')
      invariant |batch| <= size && seen <= seen' <= seen + all && (batch == [] <==> seen' == seen)
      decreases |queue'|
    {
      var item := queue'[0];
      if item.url in seen' {
        PassOver(web, all, queue', FoundBy(web, batch), seen');
        queue' := queue'[1..];
        continue;
      }
      TakeUp(web, all, queue', FoundBy(web, batch), seen');
      FoundByNext(web, batch, item);
      queue' := queue'[1..];
      seen' := seen' + {item.url};
      assert batch + ([item] + Visit(web, all, queue' + FoundBy(web, batch + [item]), seen'))
          == batch + [item] + Visit(web, all, queue' + FoundBy(web, batch + [item]), seen');
      batch := batch + [item];
    }
  }

  /**
   The crawl reports exactly what the one-at-a-time traversal finds, for every batch size and completion order. No more
   requests run at once than asked for, and never more than 32.
   */
  method Crawl(web: Web, entries: seq<Url>, concurrency: int, ghost all: set<Url>)
    returns (files: seq<Stored>, failed: seq<Failed>, ghost batches: seq<nat>)
    requires Closed(web, all, Entries(entries)) && StrictTotal(web.before)
    ensures files == FilesOf(web, all, entries)
    ensures failed == FailuresOf(web, all, entries)
    ensures forall i | 0 <= i < |batches| :: batches[i] <= 32 && (concurrency > 0 ==> batches[i] <= concurrency)
    ensures forall i | 0 <= i < |batches| && concurrency <= 0 :: batches[i] <= 1
  {
    hide Visit, Gather, Closed, FoundBy, Found, StoredOrder, FailedOrder, StrictTotal, TotalPreorder;
    var size := Max(1, Min(32, if concurrency == 0 then 1 else concurrency));
    files, failed, batches := [], [], [];
    var queue, seen: set<Url> := Entries(entries), {};
    ghost var handled: seq<Item> := [];
    GatherNothing(StoredAt(web));
    GatherNothing(FailedAt(web));
    while queue != []
      invariant Closed(web, all, queue) && seen <= all
      invariant Order(web, all, entries) == handled + Visit(web, all, queue, seen)
      invariant multiset(files) == multiset(Gather(handled, StoredAt(web)))
      invariant multiset(failed) == multiset(Gather(handled, FailedAt(web)))
      invariant forall i | 0 <= i < |batches| :: batches[i] <= size
      decreases all - seen, |queue|
    {
      NothingFound(web, seen);
      var batch, rest, taken := NextBatch(web, all, queue, seen, size);
      var discovered;
      files, failed, discovered := RunBatch(web, batch, files, failed);
      GatherAppend(handled, batch, StoredAt(web));
      GatherAppend(handled, batch, FailedAt(web));
      VisitSkips(web, all, rest, FoundBy(web, batch), taken);
      handled, batches := handled + batch, batches + [|batch|];
      queue := Enqueue(web, rest, batch, discovered, taken);
      seen := taken;
    }
    assert handled == Order(web, all, entries) by { VisitNothing(web, all, seen); }
    ReportsDiffer(web, all, entries);
    ReportOrders(web);
    SortedAlike(files, Gather(handled, StoredAt(web)), StoredOrder(web));
    SortedAlike(failed, Gather(handled, FailedAt(web)), FailedOrder(web));
    files, failed := Sort(files, StoredOrder(web)), Sort(failed, FailedOrder(web));
  }

  lemma {:induction false} GatherMembers<T>(items: seq<Item>, report: Item -> seq<T>, x: T)
    ensures x in Gather(items, report) <==> exists i :: 0 <= i < |items| && x in report(items[i])
  {
    if items != [] { GatherMembers(items[..|items| - 1], report, x); }
  }

  /** No URL is reported twice. */
  lemma ReportsDiffer(web: Web, all: set<Url>, entries: seq<Url>)
    requires Closed(web, all, Entries(entries)) && StrictTotal(web.before)
    ensures forall x, y | x in Gather(Order(web, all, entries), StoredAt(web))
                          && y in Gather(Order(web, all, entries), StoredAt(web))
                          && StoredOrder(web)(x, y) && StoredOrder(web)(y, x) :: x == y
    ensures forall x, y | x in Gather(Order(web, all, entries), FailedAt(web))
                          && y in Gather(Order(web, all, entries), FailedAt(web))
                          && FailedOrder(web)(x, y) && FailedOrder(web)(y, x) :: x == y
  {
    hide Visit;
    var order := Order(web, all, entries);
    OrderDistinct(web, all, entries);
    forall x, y | x in Gather(order, StoredAt(web)) && y in Gather(order, StoredAt(web))
                  && StoredOrder(web)(x, y) && StoredOrder(web)(y, x)
      ensures x == y
    {
      GatherMembers(order, StoredAt(web), x);
      GatherMembers(order, StoredAt(web), y);
    }
    forall x, y | x in Gather(order, FailedAt(web)) && y in Gather(order, FailedAt(web))
                  && FailedOrder(web)(x, y) && FailedOrder(web)(y, x)
      ensures x == y
    {
      GatherMembers(order, FailedAt(web), x);
      GatherMembers(order, FailedAt(web), y);
    }
  }

  lemma ReportOrders(web: Web)
    requires StrictTotal(web.before)
    ensures TotalPreorder(StoredOrder(web)) && TotalPreorder(FailedOrder(web))
  {
    ByKey(StoredOrder(web), (x: Stored) => x.url, web.before);
    ByKey(FailedOrder(web), (x: Failed) => x.url, web.before);
  }

  lemma VisitNothing(web: Web, all: set<Url>, seen: set<Url>)
    requires Closed(web, all, [])
    ensures Visit(web, all, [], seen) == []
  {
  }

  lemma GatherNothing<T>(report: Item -> seq<T>)
    ensures Gather([], report) == []
  {
  }

  lemma {:induction false} UnseenAppend(a: seq<Item>, b: seq<Item>, seen: set<Url>)
    ensures Unseen(a + b, seen) == Unseen(a, seen) + Unseen(b, seen)
    decreases a
  {
    if a == [] {
      assert a + b == b;
    } else {
      assert (a + b)[1..] == a[1..] + b;
      UnseenAppend(a[1..], b, seen);
    }
  }

  // ----- what the reports say -----

  ghost function FilesOf(web: Web, all: set<Url>, entries: seq<Url>): seq<Stored>
    requires Closed(web, all, Entries(entries))
  {
    Sort(Gather(Order(web, all, entries), StoredAt(web)), StoredOrder(web))
  }

  ghost function FailuresOf(web: Web, all: set<Url>, entries: seq<Url>): seq<Failed>
    requires Closed(web, all, Entries(entries))
  {
    Sort(Gather(Order(web, all, entries), FailedAt(web)), FailedOrder(web))
  }

  /** Where a report says its page came from: the request, or the first page handled that refers to it. */
  ghost predicate CameFrom(web: Web, all: set<Url>, entries: seq<Url>, url: Url, from: Origin)
    requires Closed(web, all, Entries(entries))
  {
    var order := Order(web, all, entries);
    if url in entries then from == Entry
    else exists j :: 0 <= j < |order| && Finds(web, order, j, Item(url, from))
  }

  /** The stored files are exactly the allowed pages reachable from the entries that could be fetched. */
  lemma FilesExact(web: Web, all: set<Url>, entries: seq<Url>, url: Url)
    requires Closed(web, all, Entries(entries))
    ensures (exists f | f in FilesOf(web, all, entries) :: f.url == url)
       <==> Reachable(web, entries, url) && web.host(url) in web.allowed && web.fetch(url).File?
    ensures forall f | f in FilesOf(web, all, entries) && f.url == url ::
              && web.fetch(url).File? && f.status == web.fetch(url).status && f.size == web.fetch(url).size
              && CameFrom(web, all, entries, url, f.from)
  {
    hide Visit, Sort, Closed, Gather;
    var order := Order(web, all, entries);
    OrderIsClosure(web, all, entries, url);
    forall f | f in FilesOf(web, all, entries) && f.url == url
      ensures Visited(order, url) && web.Allows(url) && web.fetch(url).File?
      ensures f.status == web.fetch(url).status && f.size == web.fetch(url).size && CameFrom(web, all, entries, url, f.from)
    {
      SortMembers(Gather(order, StoredAt(web)), StoredOrder(web), f);
      GatherMembers(order, StoredAt(web), f);
      var i :| 0 <= i < |order| && f in StoredAt(web)(order[i]);
      Discoverer(web, all, entries, i);
    }
    if Visited(order, url) && web.Allows(url) && web.fetch(url).File? {
      var i :| 0 <= i < |order| && order[i].url == url;
      var f := StoredAt(web)(order[i])[0];
      GatherMembers(order, StoredAt(web), f);
      SortMembers(Gather(order, StoredAt(web)), StoredOrder(web), f);
      assert f in FilesOf(web, all, entries);
    }
  }

  /** The failures are exactly the reachable allowed pages that could not be fetched and the entries on foreign hosts. */
  lemma FailuresExact(web: Web, all: set<Url>, entries: seq<Url>, url: Url)
    requires Closed(web, all, Entries(entries))
    ensures (exists f | f in FailuresOf(web, all, entries) :: f.url == url)
       <==> if web.host(url) in web.allowed then Reachable(web, entries, url) && web.fetch(url).Broken? else url in entries
    ensures forall f | f in FailuresOf(web, all, entries) && f.url == url ::
              && (if web.host(url) in web.allowed then web.fetch(url) == Broken(f.error)
                  else f.error == "host is not in the allow list")
              && CameFrom(web, all, entries, url, f.from)
  {
    hide Visit, Sort, Closed, Gather;
    var order := Order(web, all, entries);
    OrderIsClosure(web, all, entries, url);
    if url in entries { assert Reaches(web, entries, [url], url); }
    forall f | f in FailuresOf(web, all, entries) && f.url == url
      ensures Visited(order, url)
      ensures if web.Allows(url) then web.fetch(url) == Broken(f.error) else url in entries && f.error == HOST_NOT_ALLOWED
      ensures CameFrom(web, all, entries, url, f.from)
    {
      SortMembers(Gather(order, FailedAt(web)), FailedOrder(web), f);
      GatherMembers(order, FailedAt(web), f);
      var i :| 0 <= i < |order| && f in FailedAt(web)(order[i]);
      Discoverer(web, all, entries, i);
    }
    if Visited(order, url) && if web.Allows(url) then web.fetch(url).Broken? else url in entries {
      var i :| 0 <= i < |order| && order[i].url == url;
      Discoverer(web, all, entries, i);
      var f := FailedAt(web)(order[i])[0];
      GatherMembers(order, FailedAt(web), f);
      SortMembers(Gather(order, FailedAt(web)), FailedOrder(web), f);
      assert f in FailuresOf(web, all, entries);
    }
  }

  lemma {:induction false} OneEach<T>(items: seq<Item>, report: Item -> seq<T>, key: T -> Url)
    requires forall i, j | 0 <= i < j < |items| :: items[i].url != items[j].url
    requires forall item :: |report(item)| <= 1 && forall x | x in report(item) :: key(x) == item.url
    ensures forall i, j | 0 <= i < j < |Gather(items, report)| ::
              key(Gather(items, report)[i]) != key(Gather(items, report)[j])
    decreases items
  {
    if items != [] {
      var n := |items| - 1;
      var front := Gather(items[..n], report);
      OneEach(items[..n], report, key);
      forall i | 0 <= i < |front| ensures key(front[i]) != items[n].url { GatherMembers(items[..n], report, front[i]); }
      assert forall x | x in report(items[n]) :: key(x) == items[n].url;
    }
  }

  lemma InOrder<T(!new)>(xs: seq<T>, leq: (T, T) -> bool, key: T -> Url, before: (Url, Url) -> bool)
    requires StrictTotal(before) && forall x, y :: leq(x, y) <==> !before(key(y), key(x))
    requires forall i, j | 0 <= i < j < |xs| :: key(xs[i]) != key(xs[j])
    ensures forall i, j | 0 <= i < j < |Sort(xs, leq)| :: before(key(Sort(xs, leq)[i]), key(Sort(xs, leq)[j]))
  {
    hide Sort, Sorted;
    ByKey(leq, key, before);
    SortSorts(xs, leq);
    SortKeepsDistinct(xs, leq, key);
    forall i, j | 0 <= i < j < |Sort(xs, leq)| ensures before(key(Sort(xs, leq)[i]), key(Sort(xs, leq)[j])) {
      SortedPairs(Sort(xs, leq), leq, i, j);
    }
  }

  /** Both reports are in the order of their URLs, each of them once. */
  lemma ReportsOrdered(web: Web, all: set<Url>, entries: seq<Url>)
    requires Closed(web, all, Entries(entries)) && StrictTotal(web.before)
    ensures var files := FilesOf(web, all, entries);
      forall i, j | 0 <= i < j < |files| :: web.before(files[i].url, files[j].url)
    ensures var failures := FailuresOf(web, all, entries);
      forall i, j | 0 <= i < j < |failures| :: web.before(failures[i].url, failures[j].url)
  {
    hide Visit, Sort, Closed, StrictTotal, Gather;
    var order := Order(web, all, entries);
    OrderDistinct(web, all, entries);
    OneEach(order, StoredAt(web), (f: Stored) => f.url);
    OneEach(order, FailedAt(web), (f: Failed) => f.url);
    InOrder(Gather(order, StoredAt(web)), StoredOrder(web), (f: Stored) => f.url, web.before);
    InOrder(Gather(order, FailedAt(web)), FailedOrder(web), (f: Failed) => f.url, web.before);
  }
}
