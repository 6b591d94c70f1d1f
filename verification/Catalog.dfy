/**
 `syncCatalog` of `src/catalog.ts`: merge the official list of games into the registry, keeping what is known and giving
 every new game the first free number.
 */
module Catalog {
  import opened Base
  import opened Sorting

  const FIRST_GAME_ID := 32601
  const LAST_GAME_ID := 32720

  /** Release date and picture addresses, which are simply taken from the official list. */
  type Assets = string

  datatype Official = Official(provider: string, hasPage: bool, name: string, title: string, assets: Assets)

  datatype Game = Game(gameId: int, slug: string, title: string, active: bool, assets: Assets, dbName: string,
                       validator: string, discovery: Option<string>)

  /** The official list, with the trimming of names left open. */
  datatype Remote = Remote(list: seq<Official>, trim: string -> string)
  {
    function Slug(o: Official): string {
      trim(o.name)
    }

    predicate Counts(o: Official) {
      o.provider == "3oaks" && o.hasPage && Slug(o) != ""
    }

    /** An entry of this provider with a page of its own, whose name trims to `slug`. */
    ghost predicate Names(o: Official, slug: string) {
      o.provider == "3oaks" && o.hasPage && trim(o.name) == slug && slug != ""
    }

    ghost predicate Lists(slug: string) {
      exists i | 0 <= i < |list| :: Names(list[i], slug)
    }

    function Rest(): Remote
      requires list != []
    {
      Remote(list[1..], trim)
    }
  }

  // ----- one entry -----

  /** The first of two texts that is not empty. */
  function Or(a: string, b: string): string {
    if a != "" then a else b
  }

  function Updated(prior: Game, o: Official): Game {
    prior.(title := Or(o.title, Or(prior.title, prior.slug)), active := true, assets := o.assets,
           validator := if prior.slug == "sun_of_egypt" then "sun-of-egypt" else prior.validator)
  }

  /** What a new game starts from. */
  function Blank(slug: string, id: int): Game {
    Game(id, slug, "", false, "", "oaks_" + slug, "common", None)
  }

  function Inactive(games: seq<Game>): seq<Game> {
    seq(|games|, i requires 0 <= i < |games| => games[i].(active := false))
  }

  ghost function Ids(games: seq<Game>): set<int> {
    set g | g in games :: g.gameId
  }

  ghost predicate Has(games: seq<Game>, slug: string) {
    exists i | 0 <= i < |games| :: games[i].slug == slug
  }

  ghost predicate DistinctSlugs(games: seq<Game>) {
    forall i, j | 0 <= i < j < |games| :: games[i].slug != games[j].slug
  }

  ghost predicate DistinctIds(games: seq<Game>) {
    forall i, j | 0 <= i < j < |games| :: games[i].gameId != games[j].gameId
  }

  ghost function FirstFree(used: set<int>, from: int): Option<int>
    decreases LAST_GAME_ID + 1 - from
  {
    if from > LAST_GAME_ID then None else if from in used then FirstFree(used, from + 1) else Some(from)
  }

  /** The last game of that name; a registry that is in order has only one. */
  ghost function Place(games: seq<Game>, slug: string): (p: nat)
    requires Has(games, slug)
    ensures p < |games| && games[p].slug == slug && forall j | p < j < |games| :: games[j].slug != slug
  {
    var n := |games| - 1;
    if games[n].slug == slug then n
    else
      var i :| 0 <= i < |games| && games[i].slug == slug;
      assert games[..n][i].slug == slug;
      Place(games[..n], slug)
  }

  /** Entry by entry: update the game of that name, or add one under the first free number. */
  ghost function Merge(games: seq<Game>, remote: Remote): Option<seq<Game>>
    decreases remote.list
  {
    if remote.list == [] then Some(games)
    else
      var o := remote.list[0];
      if !remote.Counts(o) then Merge(games, remote.Rest())
      else if Has(games, remote.Slug(o)) then
        var p := Place(games, remote.Slug(o));
        Merge(games[p := Updated(games[p], o)], remote.Rest())
      else
        var id := FirstFree(Ids(games), FIRST_GAME_ID);
        if id.None? then None else Merge(games + [Updated(Blank(remote.Slug(o), id.value), o)], remote.Rest())
  }

  function ById(x: Game, y: Game): bool {
    x.gameId <= y.gameId
  }

  ghost function Synced(existing: seq<Game>, remote: Remote): Option<seq<Game>> {
    var merged := Merge(Inactive(existing), remote);
    if merged.None? then None else Some(Sort(merged.value, ById))
  }

  // ----- the program -----

  /** The number for a new game; everything below `next` is known to be taken. */
  method Allocate(used: set<int>, next: int) returns (id: Option<int>, next': int)
    requires FIRST_GAME_ID <= next && forall i | FIRST_GAME_ID <= i < next :: i in used
    ensures id == FirstFree(used, FIRST_GAME_ID)
    ensures next <= next' && forall i | FIRST_GAME_ID <= i < next' :: i in used || id == Some(i)
  {
    TakenBelow(used, FIRST_GAME_ID, next);
    next' := next;
    while next' in used && next' <= LAST_GAME_ID
      invariant next <= next' && FirstFree(used, next) == FirstFree(used, next')
      invariant forall i | FIRST_GAME_ID <= i < next' :: i in used
      decreases LAST_GAME_ID + 1 - next'
    {
      next' := next' + 1;
    }
    if next' > LAST_GAME_ID { return None, next'; }
    return Some(next'), next' + 1;
  }

  lemma {:induction false} TakenBelow(used: set<int>, from: int, next: int)
    requires from <= next && forall i | from <= i < next :: i in used
    ensures FirstFree(used, from) == FirstFree(used, next)
    decreases next - from
  {
    if from < next && from <= LAST_GAME_ID { TakenBelow(used, from + 1, next); }
  }

  ghost predicate IndexesSlugs(bySlug: map<string, nat>, games: seq<Game>) {
    && (forall s | s in bySlug :: bySlug[s] < |games| && games[bySlug[s]].slug == s)
    && (forall s, j | s in bySlug && bySlug[s] < j < |games| :: games[j].slug != s)
    && (forall i | 0 <= i < |games| :: games[i].slug in bySlug)
  }

  method IndexBySlug(games: seq<Game>) returns (bySlug: map<string, nat>)
    ensures IndexesSlugs(bySlug, games)
  {
    bySlug := map[];
    for i := 0 to |games|
      invariant forall s | s in bySlug :: bySlug[s] < i && games[bySlug[s]].slug == s
      invariant forall s, j | s in bySlug && bySlug[s] < j < i :: games[j].slug != s
      invariant forall j | 0 <= j < i :: games[j].slug in bySlug
    {
      bySlug := bySlug[games[i].slug := i];
    }
  }

  lemma IdsAre(games: seq<Game>)
    ensures Ids(games) == set g | g in games :: g.gameId
  {
  }

  lemma IndexFinds(bySlug: map<string, nat>, games: seq<Game>, slug: string)
    requires IndexesSlugs(bySlug, games)
    ensures slug in bySlug <==> Has(games, slug)
    ensures slug in bySlug ==> Place(games, slug) == bySlug[slug] < |games| && games[bySlug[slug]].slug == slug
  {
    if slug in bySlug { assert games[bySlug[slug]].slug == slug; }
  }

  lemma IndexKept(bySlug: map<string, nat>, games: seq<Game>, p: nat, g: Game)
    requires IndexesSlugs(bySlug, games) && p < |games| && g.slug == games[p].slug
    ensures IndexesSlugs(bySlug, games[p := g])
  {
  }

  lemma IndexMore(bySlug: map<string, nat>, games: seq<Game>, g: Game)
    requires IndexesSlugs(bySlug, games) && g.slug !in bySlug
    ensures IndexesSlugs(bySlug[g.slug := |games|], games + [g])
  {
  }

  method SyncCatalog(existing: seq<Game>, remote: Remote) returns (synced: Option<seq<Game>>)
    ensures synced == Synced(existing, remote)
  {
    hide IndexesSlugs, FirstFree, Ids, Has, Place;
    var games := Inactive(existing);
    var bySlug: map<string, nat> := IndexBySlug(games);
    var used := set g | g in games :: g.gameId;
    assert used == Ids(games) by { IdsAre(games); }
    var next, i := FIRST_GAME_ID, 0;
    assert remote.list[0..] == remote.list;
    while i < |remote.list|
      invariant 0 <= i <= |remote.list| && FIRST_GAME_ID <= next
      invariant IndexesSlugs(bySlug, games) && used == Ids(games)
      invariant forall id | FIRST_GAME_ID <= id < next :: id in used
      invariant Merge(Inactive(existing), remote) == Merge(games, Remote(remote.list[i..], remote.trim))
    {
      var official := remote.list[i];
      ghost var due := Remote(remote.list[i..], remote.trim);
      assert remote.list[i..][1..] == remote.list[i + 1..];
      assert due.list[0] == official && due.Rest() == Remote(remote.list[i + 1..], remote.trim);
      i := i + 1;
      var slug := remote.Slug(official);
      if !remote.Counts(official) { continue; }
      IndexFinds(bySlug, games, slug);
      if slug in bySlug {
        var p := bySlug[slug];
        SameIds(games, p, Updated(games[p], official));
        IndexKept(bySlug, games, p, Updated(games[p], official));
        games := games[p := Updated(games[p], official)];
      } else {
        var id;
        id, next := Allocate(used, next);
        if id.None? { return None; }
        used := used + {id.value};
        MoreIds(games, Updated(Blank(slug, id.value), official));
        IndexMore(bySlug, games, Updated(Blank(slug, id.value), official));
        bySlug := bySlug[slug := |games|];
        games := games + [Updated(Blank(slug, id.value), official)];
      }
    }
    return Some(Sort(games, ById));
  }

  lemma SameIds(games: seq<Game>, p: nat, g: Game)
    requires p < |games| && g.gameId == games[p].gameId
    ensures Ids(games[p := g]) == Ids(games)
  {
    var games' := games[p := g];
    forall id ensures id in Ids(games') <==> id in Ids(games) {
      if id in Ids(games) {
        var i :| 0 <= i < |games| && games[i].gameId == id;
        assert games'[i].gameId == id;
      }
    }
  }

  lemma MoreIds(games: seq<Game>, g: Game)
    ensures Ids(games + [g]) == Ids(games) + {g.gameId}
  {
    forall id ensures id in Ids(games + [g]) <==> id in Ids(games) || id == g.gameId {
      if id == g.gameId { assert (games + [g])[|games|] == g; }
      if id in Ids(games) {
        var i :| 0 <= i < |games| && games[i].gameId == id;
        assert (games + [g])[i] == games[i];
      }
    }
  }

  // ----- what a merge amounts to, game by game -----

  /** Everything the list says about one game. */
  ghost function Touch(g: Game, remote: Remote): Game
    decreases remote.list
  {
    if remote.list == [] then g
    else Touch(if remote.Names(remote.list[0], g.slug) then Updated(g, remote.list[0]) else g, remote.Rest())
  }

  lemma {:induction false} TouchKeeps(g: Game, remote: Remote)
    ensures var h := Touch(g, remote);
      h.gameId == g.gameId && h.slug == g.slug && h.dbName == g.dbName && h.discovery == g.discovery
    decreases remote.list
  {
    if remote.list != [] {
      TouchKeeps(if remote.Names(remote.list[0], g.slug) then Updated(g, remote.list[0]) else g, remote.Rest());
    }
  }

  lemma ListsFirst(remote: Remote, slug: string)
    requires remote.list != []
    ensures remote.Lists(slug) <==> remote.Names(remote.list[0], slug) || remote.Rest().Lists(slug)
  {
    if i :| 0 <= i < |remote.list| && remote.Names(remote.list[i], slug) {
      if i > 0 { assert remote.Rest().list[i - 1] == remote.list[i]; }
    }
    if j :| 0 <= j < |remote.Rest().list| && remote.Rest().Names(remote.Rest().list[j], slug) {
      assert remote.list[j + 1] == remote.Rest().list[j];
    }
  }

  lemma {:induction false} TouchActive(g: Game, remote: Remote)
    ensures Touch(g, remote).active <==> g.active || remote.Lists(g.slug)
    decreases remote.list
  {
    if remote.list != [] {
      ListsFirst(remote, g.slug);
      TouchActive(if remote.Names(remote.list[0], g.slug) then Updated(g, remote.list[0]) else g, remote.Rest());
    }
  }

  lemma {:induction false} MergeKeepsSlugs(games: seq<Game>, remote: Remote)
    requires DistinctSlugs(games) && Merge(games, remote).Some?
    ensures var r := Merge(games, remote).value;
      DistinctSlugs(r) && |r| >= |games| && forall i | 0 <= i < |games| :: r[i].slug == games[i].slug
    decreases remote.list
  {
    if remote.list != [] {
      var o := remote.list[0];
      if !remote.Counts(o) {
        MergeKeepsSlugs(games, remote.Rest());
      } else if Has(games, remote.Slug(o)) {
        var p := Place(games, remote.Slug(o));
        MergeKeepsSlugs(games[p := Updated(games[p], o)], remote.Rest());
      } else {
        var id := FirstFree(Ids(games), FIRST_GAME_ID);
        MergeKeepsSlugs(games + [Updated(Blank(remote.Slug(o), id.value), o)], remote.Rest());
      }
    }
  }

  /** A known game ends as the list makes it; a new one as the list makes a blank entry under its number. */
  lemma {:induction false} MergeTouches(games: seq<Game>, remote: Remote, i: nat)
    requires DistinctSlugs(games) && Merge(games, remote).Some? && i < |Merge(games, remote).value|
    ensures |games| <= |Merge(games, remote).value|
    ensures var g := Merge(games, remote).value[i];
      g == Touch(if i < |games| then games[i] else Blank(g.slug, g.gameId), remote)
    decreases remote.list
  {
    MergeKeepsSlugs(games, remote);
    if remote.list != [] {
      var o, r := remote.list[0], Merge(games, remote).value;
      if !remote.Counts(o) {
        MergeTouches(games, remote.Rest(), i);
      } else if Has(games, remote.Slug(o)) {
        var p := Place(games, remote.Slug(o));
        assert r[p].slug == remote.Slug(o) && (i != p ==> r[i].slug != r[p].slug);
        MergeTouches(games[p := Updated(games[p], o)], remote.Rest(), i);
      } else {
        var blank := Blank(remote.Slug(o), FirstFree(Ids(games), FIRST_GAME_ID).value);
        var games' := games + [Updated(blank, o)];
        MergeKeepsSlugs(games', remote.Rest());
        assert r[|games|].slug == games'[|games|].slug == remote.Slug(o) && (i != |games| ==> r[i].slug != r[|games|].slug);
        MergeTouches(games', remote.Rest(), i);
        TouchKeeps(Updated(blank, o), remote.Rest());
      }
    }
  }

  lemma {:induction false} FirstFreeExact(used: set<int>, from: int)
    ensures var id := FirstFree(used, from);
      if id.Some? then from <= id.value <= LAST_GAME_ID && id.value !in used && forall i | from <= i < id.value :: i in used
      else forall i | from <= i <= LAST_GAME_ID :: i in used
    decreases LAST_GAME_ID + 1 - from
  {
    if from <= LAST_GAME_ID && from in used { FirstFreeExact(used, from + 1); }
  }

  lemma {:induction false} MergeKeepsIds(games: seq<Game>, remote: Remote)
    requires DistinctIds(games) && Merge(games, remote).Some?
    ensures var r := Merge(games, remote).value;
      DistinctIds(r) && |r| >= |games| && forall i | 0 <= i < |games| :: r[i].gameId == games[i].gameId
    decreases remote.list
  {
    if remote.list != [] {
      var o := remote.list[0];
      if !remote.Counts(o) {
        MergeKeepsIds(games, remote.Rest());
      } else if Has(games, remote.Slug(o)) {
        var p := Place(games, remote.Slug(o));
        MergeKeepsIds(games[p := Updated(games[p], o)], remote.Rest());
      } else {
        var id := FirstFree(Ids(games), FIRST_GAME_ID);
        FirstFreeExact(Ids(games), FIRST_GAME_ID);
        MergeKeepsIds(games + [Updated(Blank(remote.Slug(o), id.value), o)], remote.Rest());
      }
    }
  }

  /** A new game gets the first number that no game before it holds, within the range set aside. */
  lemma {:induction false} MergeNumbers(games: seq<Game>, remote: Remote, i: nat)
    requires DistinctIds(games) && Merge(games, remote).Some? && |games| <= i < |Merge(games, remote).value|
    ensures var r := Merge(games, remote).value;
      && 32601 <= r[i].gameId <= 32720
      && forall id | 32601 <= id < r[i].gameId :: id in Ids(r[..i])
    decreases remote.list
  {
    if remote.list != [] {
      var o, r := remote.list[0], Merge(games, remote).value;
      if !remote.Counts(o) {
        MergeNumbers(games, remote.Rest(), i);
      } else if Has(games, remote.Slug(o)) {
        var p := Place(games, remote.Slug(o));
        MergeNumbers(games[p := Updated(games[p], o)], remote.Rest(), i);
      } else {
        var id := FirstFree(Ids(games), FIRST_GAME_ID);
        FirstFreeExact(Ids(games), FIRST_GAME_ID);
        var games' := games + [Updated(Blank(remote.Slug(o), id.value), o)];
        MergeKeepsIds(games', remote.Rest());
        if i == |games| {
          SameNumbers(games, r[..i]);
        } else {
          MergeNumbers(games', remote.Rest(), i);
        }
      }
    }
  }

  lemma SameNumbers(a: seq<Game>, b: seq<Game>)
    requires |a| == |b| && forall i | 0 <= i < |a| :: a[i].gameId == b[i].gameId
    ensures Ids(a) == Ids(b)
  {
    forall id ensures id in Ids(a) <==> id in Ids(b) {
      if id in Ids(a) {
        var i :| 0 <= i < |a| && a[i].gameId == id;
        assert b[i].gameId == id;
      }
      if id in Ids(b) {
        var i :| 0 <= i < |b| && b[i].gameId == id;
        assert a[i].gameId == id;
      }
    }
  }

  // ----- when the numbers run out -----

  ghost function NewSlugs(games: seq<Game>, remote: Remote): set<string> {
    set i | 0 <= i < |remote.list| && remote.Counts(remote.list[i]) && !Has(games, remote.Slug(remote.list[i])) ::
      remote.Slug(remote.list[i])
  }

  ghost function Free(games: seq<Game>): set<int> {
    set id | 32601 <= id <= 32720 && id !in Ids(games)
  }

  lemma NewSlugsExact(games: seq<Game>, remote: Remote, slug: string)
    ensures slug in NewSlugs(games, remote) <==> remote.Lists(slug) && !Has(games, slug)
  {
    if remote.Lists(slug) && !Has(games, slug) {
      var i :| 0 <= i < |remote.list| && remote.Names(remote.list[i], slug);
      assert remote.Slug(remote.list[i]) == slug;
    }
    if slug in NewSlugs(games, remote) {
      var i :| 0 <= i < |remote.list| && remote.Counts(remote.list[i]) && remote.Slug(remote.list[i]) == slug;
      assert remote.Names(remote.list[i], slug);
    }
  }

  lemma NewSlugsNext(games: seq<Game>, games': seq<Game>, remote: Remote)
    requires remote.list != []
    requires var o := remote.list[0];
      forall slug :: Has(games', slug) <==> Has(games, slug) || remote.Names(o, slug)
    ensures var o := remote.list[0];
      NewSlugs(games', remote.Rest())
      == NewSlugs(games, remote) - if remote.Counts(o) then {remote.Slug(o)} else {}
  {
    var o := remote.list[0];
    forall slug
      ensures slug in NewSlugs(games', remote.Rest()) <==>
        slug in NewSlugs(games, remote) && !(remote.Counts(o) && slug == remote.Slug(o))
    {
      NewSlugsExact(games', remote.Rest(), slug);
      NewSlugsExact(games, remote, slug);
      ListsFirst(remote, slug);
    }
  }

  /** A merge fails exactly when the list names more new games than there are numbers left. */
  lemma {:induction false} MergeFailsIff(games: seq<Game>, remote: Remote)
    ensures Merge(games, remote).None? <==> |NewSlugs(games, remote)| > |Free(games)|
    decreases remote.list
  {
    if remote.list != [] {
      var o := remote.list[0];
      var slug := remote.Slug(o);
      if !remote.Counts(o) {
        NewSlugsNext(games, games, remote);
        MergeFailsIff(games, remote.Rest());
      } else if Has(games, slug) {
        var p := Place(games, slug);
        var games' := games[p := Updated(games[p], o)];
        SameIds(games, p, Updated(games[p], o));
        SameSlugs(games, p, Updated(games[p], o));
        NewSlugsNext(games, games', remote);
        NewSlugsExact(games, remote, slug);
        MergeFailsIff(games', remote.Rest());
      } else {
        FirstFreeExact(Ids(games), FIRST_GAME_ID);
        NewSlugsExact(games, remote, slug);
        assert remote.Names(remote.list[0], slug);
        var id := FirstFree(Ids(games), FIRST_GAME_ID);
        if id.None? {
          assert Free(games) == {};
        } else {
          var g := Updated(Blank(slug, id.value), o);
          MoreIds(games, g);
          MoreSlugs(games, g);
          NewSlugsNext(games, games + [g], remote);
          assert Free(games + [g]) == Free(games) - {id.value};
          MergeFailsIff(games + [g], remote.Rest());
        }
      }
    } else {
      assert NewSlugs(games, remote) == {};
    }
  }

  lemma SameSlugs(games: seq<Game>, p: nat, g: Game)
    requires p < |games| && g.slug == games[p].slug
    ensures forall slug :: Has(games[p := g], slug) <==> Has(games, slug)
  {
    forall slug ensures Has(games[p := g], slug) <==> Has(games, slug) {
      if i :| 0 <= i < |games| && games[i].slug == slug { assert games[p := g][i].slug == slug; }
    }
  }

  lemma MoreSlugs(games: seq<Game>, g: Game)
    ensures forall slug :: Has(games + [g], slug) <==> Has(games, slug) || g.slug == slug
  {
    forall slug ensures Has(games + [g], slug) <==> Has(games, slug) || g.slug == slug {
      if i :| 0 <= i < |games| && games[i].slug == slug { assert (games + [g])[i].slug == slug; }
      assert (games + [g])[|games|] == g;
    }
  }

  // ----- the synced registry -----

  lemma {:induction false} MergeHasListed(games: seq<Game>, remote: Remote, slug: string)
    requires Merge(games, remote).Some?
    ensures Has(Merge(games, remote).value, slug) <==> Has(games, slug) || remote.Lists(slug)
    decreases remote.list
  {
    if remote.list != [] {
      var o := remote.list[0];
      ListsFirst(remote, slug);
      if !remote.Counts(o) {
        MergeHasListed(games, remote.Rest(), slug);
      } else if Has(games, remote.Slug(o)) {
        var p := Place(games, remote.Slug(o));
        SameSlugs(games, p, Updated(games[p], o));
        MergeHasListed(games[p := Updated(games[p], o)], remote.Rest(), slug);
      } else {
        var g := Updated(Blank(remote.Slug(o), FirstFree(Ids(games), FIRST_GAME_ID).value), o);
        MoreSlugs(games, g);
        MergeHasListed(games + [g], remote.Rest(), slug);
      }
    }
  }

  lemma SortedHas(games: seq<Game>, slug: string)
    ensures Has(Sort(games, ById), slug) <==> Has(games, slug)
  {
    hide Sort;
    var sorted := Sort(games, ById);
    if i :| 0 <= i < |games| && games[i].slug == slug {
      SortMembers(games, ById, games[i]);
      assert games[i] in sorted;
    }
    if i :| 0 <= i < |sorted| && sorted[i].slug == slug {
      SortMembers(games, ById, sorted[i]);
      assert sorted[i] in games;
    }
  }

  /** The last entry for a game, and the last that has a title. */
  ghost predicate LastNaming(remote: Remote, slug: string, k: int) {
    && 0 <= k < |remote.list| && remote.Names(remote.list[k], slug)
    && forall l | k < l < |remote.list| :: !remote.Names(remote.list[l], slug)
  }

  ghost predicate LastTitled(remote: Remote, slug: string, k: int) {
    && 0 <= k < |remote.list| && remote.Names(remote.list[k], slug) && remote.list[k].title != ""
    && forall l | k < l < |remote.list| :: !remote.Names(remote.list[l], slug) || remote.list[l].title == ""
  }

  /**
   A game as the list makes it: active, with the pictures of its last entry and the last title that is not empty, or the
   title it had, or its name.
   */
  ghost predicate AsListed(prior: Game, h: Game, remote: Remote) {
    && h.active
    && (exists k :: 0 <= k < |remote.list| && LastNaming(remote, prior.slug, k) && h.assets == remote.list[k].assets)
    && ((exists k :: 0 <= k < |remote.list| && LastTitled(remote, prior.slug, k) && h.title == remote.list[k].title)
        || ((forall k :: !LastTitled(remote, prior.slug, k))
            && h.title == if prior.title != "" then prior.title else prior.slug))
    && h.validator == (if prior.slug == "sun_of_egypt" then "sun-of-egypt" else prior.validator)
    && h.gameId == prior.gameId && h.slug == prior.slug && h.dbName == prior.dbName && h.discovery == prior.discovery
  }

  lemma LastNext(remote: Remote, slug: string, k: int)
    requires remote.list != [] && (k >= 0 || LastNaming(remote.Rest(), slug, k) || LastTitled(remote.Rest(), slug, k))
    ensures 0 <= k < |remote.Rest().list| ==> remote.Rest().list[k] == remote.list[k + 1]
    ensures LastNaming(remote.Rest(), slug, k) || LastTitled(remote.Rest(), slug, k) ==> 0 <= k < |remote.Rest().list|
    ensures LastNaming(remote.Rest(), slug, k) <==> LastNaming(remote, slug, k + 1)
    ensures LastTitled(remote.Rest(), slug, k) <==> LastTitled(remote, slug, k + 1)
  {
    var list, rest := remote.list, remote.Rest().list;
    assert forall l | 0 <= l < |rest| :: rest[l] == list[l + 1];
    assert forall l | 1 <= l < |list| :: list[l] == rest[l - 1];
  }

  lemma LastNamingListed(remote: Remote, slug: string, k: int)
    requires LastNaming(remote, slug, k) || LastTitled(remote, slug, k)
    ensures remote.Lists(slug)
  {
  }

  lemma {:induction false} TouchIs(g: Game, remote: Remote)
    ensures if remote.Lists(g.slug) then AsListed(g, Touch(g, remote), remote) else Touch(g, remote) == g
    decreases remote.list
  {
    if remote.list != [] {
      var o, rest := remote.list[0], remote.Rest();
      var next := if remote.Names(o, g.slug) then Updated(g, o) else g;
      ListsFirst(remote, g.slug);
      TouchIs(next, rest);
      if remote.Lists(g.slug) { TouchStep(g, next, Touch(g, remote), remote); }
    }
  }

  lemma TouchStep(g: Game, next: Game, h: Game, remote: Remote)
    requires remote.list != [] && remote.Lists(g.slug)
    requires next == if remote.Names(remote.list[0], g.slug) then Updated(g, remote.list[0]) else g
    requires if remote.Rest().Lists(g.slug) then AsListed(next, h, remote.Rest()) else h == next
    ensures AsListed(g, h, remote)
  {
    hide LastNaming, LastTitled;
    var o, rest, slug := remote.list[0], remote.Rest(), g.slug;
    ListsFirst(remote, slug);
    LastOfNone(remote, slug);
    if rest.Lists(slug) {
      var k :| 0 <= k < |rest.list| && LastNaming(rest, slug, k) && h.assets == rest.list[k].assets;
      LastNext(remote, slug, k);
      assert LastNaming(remote, slug, k + 1) && h.assets == remote.list[k + 1].assets;
    } else {
      forall k ensures !LastTitled(rest, slug, k) {
        if LastTitled(rest, slug, k) { LastNamingListed(rest, slug, k); }
      }
      assert LastNaming(remote, slug, 0);
    }
    if k :| 0 <= k < |rest.list| && LastTitled(rest, slug, k) && h.title == rest.list[k].title {
      LastNext(remote, slug, k);
      assert LastTitled(remote, slug, k + 1) && h.title == remote.list[k + 1].title;
    } else if remote.Names(o, slug) && o.title != "" {
      assert LastTitled(remote, slug, 0);
    } else {
      forall k ensures !LastTitled(remote, slug, k) {
        if LastTitled(remote, slug, k) {
          LastInRange(remote, slug, k);
          if k > 0 { LastNext(remote, slug, k - 1); }
        }
      }
    }
  }

  lemma LastInRange(remote: Remote, slug: string, k: int)
    requires LastNaming(remote, slug, k) || LastTitled(remote, slug, k)
    ensures 0 <= k < |remote.list|
  {
  }

  lemma {:induction false} TitledHasLast(remote: Remote, slug: string, l: nat)
    requires l < |remote.list| && remote.Names(remote.list[l], slug) && remote.list[l].title != ""
    ensures exists k :: LastTitled(remote, slug, k)
    decreases |remote.list| - l
  {
    if !LastTitled(remote, slug, l) {
      var m :| l < m < |remote.list| && remote.Names(remote.list[m], slug) && remote.list[m].title != "";
      TitledHasLast(remote, slug, m);
    }
  }

  lemma LastOfNone(remote: Remote, slug: string)
    requires remote.list != []
    ensures LastNaming(remote, slug, 0) <==> remote.Names(remote.list[0], slug) && !remote.Rest().Lists(slug)
    ensures LastTitled(remote, slug, 0) <==>
      && remote.Names(remote.list[0], slug) && remote.list[0].title != "" && forall k :: !LastTitled(remote.Rest(), slug, k)
  {
    var list, rest := remote.list, remote.Rest();
    assert forall l | 0 <= l < |rest.list| ::
      rest.list[l] == list[l + 1] && (rest.Names(rest.list[l], slug) <==> remote.Names(list[l + 1], slug));
    assert forall l | 1 <= l < |list| :: list[l] == rest.list[l - 1];
    if l :| 0 <= l < |rest.list| && rest.Names(rest.list[l], slug) && rest.list[l].title != "" {
      TitledHasLast(rest, slug, l);
    }
  }

  /**
   Every known game keeps its number, its database and its discovery record; one that the list does not name is only made
   inactive, and one that it names is as the list makes it.
   */
  lemma SyncKeepsGames(existing: seq<Game>, remote: Remote, i: nat)
    requires DistinctSlugs(existing) && Synced(existing, remote).Some? && i < |existing|
    ensures exists h | h in Synced(existing, remote).value ::
      && h.slug == existing[i].slug && h.gameId == existing[i].gameId && h.dbName == existing[i].dbName
      && h.discovery == existing[i].discovery
      && if remote.Lists(h.slug) then AsListed(existing[i], h, remote) else h == existing[i].(active := false)
  {
    hide Sort;
    var start := Inactive(existing);
    var merged := Merge(start, remote).value;
    MergeKeepsSlugs(start, remote);
    MergeTouches(start, remote, i);
    TouchIs(start[i], remote);
    SortMembers(merged, ById, merged[i]);
  }

  /** Every new game is one the list names; it starts from an entry with nothing but a number, a database and a validator. */
  lemma SyncAddsGames(existing: seq<Game>, remote: Remote, h: Game)
    requires DistinctSlugs(existing) && DistinctIds(existing) && Synced(existing, remote).Some?
    requires h in Synced(existing, remote).value && !Has(existing, h.slug)
    ensures remote.Lists(h.slug) && 32601 <= h.gameId <= 32720
    ensures AsListed(Game(h.gameId, h.slug, "", false, "", "oaks_" + h.slug, "common", None), h, remote)
  {
    hide Sort;
    var start := Inactive(existing);
    var merged := Merge(start, remote).value;
    SortMembers(merged, ById, h);
    var i :| 0 <= i < |merged| && merged[i] == h;
    MergeKeepsSlugs(start, remote);
    forall j | 0 <= j < |start| ensures start[j].slug != h.slug { assert start[j].slug == existing[j].slug; }
    assert i >= |start|;
    MergeTouches(start, remote, i);
    MergeNumbers(start, remote, i);
    TouchIs(Blank(h.slug, h.gameId), remote);
    MergeHasListed(start, remote, h.slug);
    assert Has(merged, h.slug);
  }

  /** A synced registry is ordered by number, has no number or name twice, and is active exactly where listed. */
  lemma SyncedIsSound(existing: seq<Game>, remote: Remote)
    requires DistinctSlugs(existing) && DistinctIds(existing) && Synced(existing, remote).Some?
    ensures var r := Synced(existing, remote).value;
      && (forall i, j | 0 <= i < j < |r| :: r[i].gameId < r[j].gameId) && DistinctSlugs(r)
      && (forall h | h in r :: h.active <==> remote.Lists(h.slug))
      && forall slug :: Has(r, slug) <==> Has(existing, slug) || remote.Lists(slug)
  {
    hide Sort;
    var start := Inactive(existing);
    var merged := Merge(start, remote).value;
    MergeKeepsSlugs(start, remote);
    MergeKeepsIds(start, remote);
    SortSorts(merged, ById);
    SortKeepsDistinct(merged, ById, (g: Game) => g.slug);
    SortKeepsDistinct(merged, ById, (g: Game) => g.gameId);
    var r := Sort(merged, ById);
    forall i, j | 0 <= i < j < |r| ensures r[i].gameId < r[j].gameId { SortedPairs(r, ById, i, j); }
    forall h | h in Sort(merged, ById) ensures h.active <==> remote.Lists(h.slug) {
      SortMembers(merged, ById, h);
      var i :| 0 <= i < |merged| && merged[i] == h;
      MergeTouches(start, remote, i);
      var g := if i < |start| then start[i] else Blank(h.slug, h.gameId);
      TouchKeeps(g, remote);
      TouchActive(g, remote);
    }
    forall slug ensures Has(Sort(merged, ById), slug) <==> Has(existing, slug) || remote.Lists(slug) {
      MergeHasListed(start, remote, slug);
      SortedHas(merged, slug);
      if i :| 0 <= i < |existing| && existing[i].slug == slug { assert start[i].slug == slug; }
    }
  }

  /** A sync fails exactly when the list names more new games than there are numbers left. */
  lemma SyncFailsIff(existing: seq<Game>, remote: Remote)
    ensures Synced(existing, remote).None? <==> |NewSlugs(existing, remote)| > |Free(existing)|
  {
    var start := Inactive(existing);
    MergeFailsIff(start, remote);
    SameNumbers(existing, start);
    forall slug ensures slug in NewSlugs(start, remote) <==> slug in NewSlugs(existing, remote) {
      NewSlugsExact(start, remote, slug);
      NewSlugsExact(existing, remote, slug);
      if i :| 0 <= i < |existing| && existing[i].slug == slug { assert start[i].slug == slug; }
    }
    assert NewSlugs(start, remote) == NewSlugs(existing, remote);
  }

  // ----- syncing twice -----

  /** Two versions of a game the list makes alike, up to what it leaves to them. */
  lemma {:induction false} TouchPair(g: Game, h: Game, remote: Remote)
    requires g.slug == h.slug && g.gameId == h.gameId && g.dbName == h.dbName && g.discovery == h.discovery
    ensures var x, y := Touch(g, remote), Touch(h, remote);
      if !remote.Lists(g.slug) then x == g && y == h
      else
        && x.assets == y.assets && x.active && y.active && g.slug != ""
        && (x.title == y.title || (x.title == Or(g.title, g.slug) && y.title == Or(h.title, h.slug)))
        && x.validator == (if g.slug == "sun_of_egypt" then "sun-of-egypt" else g.validator)
        && y.validator == (if h.slug == "sun_of_egypt" then "sun-of-egypt" else h.validator)
    decreases remote.list
  {
    if remote.list != [] {
      var o := remote.list[0];
      ListsFirst(remote, g.slug);
      if remote.Names(o, g.slug) {
        TouchPair(Updated(g, o), Updated(h, o), remote.Rest());
      } else {
        TouchPair(g, h, remote.Rest());
      }
    }
  }

  lemma TouchAgain(g: Game, remote: Remote)
    requires !g.active
    ensures Touch(Touch(g, remote).(active := false), remote) == Touch(g, remote)
  {
    TouchKeeps(g, remote);
    var again := Touch(g, remote).(active := false);
    TouchKeeps(again, remote);
    TouchPair(again, g, remote);
  }

  lemma {:induction false} MergeNoNew(games: seq<Game>, remote: Remote)
    requires forall slug | remote.Lists(slug) :: Has(games, slug)
    ensures Merge(games, remote).Some? && |Merge(games, remote).value| == |games|
    decreases remote.list
  {
    if remote.list != [] {
      var o := remote.list[0];
      forall slug | remote.Rest().Lists(slug) ensures Has(games, slug) { ListsFirst(remote, slug); }
      if !remote.Counts(o) {
        MergeNoNew(games, remote.Rest());
      } else {
        assert remote.Names(o, remote.Slug(o));
        ListsFirst(remote, remote.Slug(o));
        var p := Place(games, remote.Slug(o));
        SameSlugs(games, p, Updated(games[p], o));
        MergeNoNew(games[p := Updated(games[p], o)], remote.Rest());
      }
    }
  }

  /** Syncing with the same list again changes nothing. */
  lemma SyncIdempotent(existing: seq<Game>, remote: Remote)
    requires DistinctSlugs(existing) && DistinctIds(existing) && Synced(existing, remote).Some?
    ensures Synced(Synced(existing, remote).value, remote) == Synced(existing, remote)
  {
    hide Sort, Merge;
    var r := Synced(existing, remote).value;
    SyncedIsSound(existing, remote);
    var start := Inactive(r);
    forall slug | remote.Lists(slug) ensures Has(start, slug) {
      var i :| 0 <= i < |r| && r[i].slug == slug;
      assert start[i].slug == slug;
    }
    MergeNoNew(start, remote);
    var again := Merge(start, remote).value;
    forall i | 0 <= i < |r| ensures again[i] == r[i] {
      MergeTouches(start, remote, i);
      SyncedIsTouched(existing, remote, i);
    }
    assert again == r;
    SortSorts(Merge(Inactive(existing), remote).value, ById);
    SortedStays(r);
  }

  lemma SyncedIsTouched(existing: seq<Game>, remote: Remote, i: nat)
    requires DistinctSlugs(existing) && Synced(existing, remote).Some? && i < |Synced(existing, remote).value|
    ensures var g := Synced(existing, remote).value[i];
      Touch(g.(active := false), remote) == g
  {
    hide Sort;
    var start := Inactive(existing);
    var merged, g := Merge(start, remote).value, Synced(existing, remote).value[i];
    SortMembers(merged, ById, g);
    var j :| 0 <= j < |merged| && merged[j] == g;
    MergeTouches(start, remote, j);
    TouchAgain(if j < |start| then start[j] else Blank(g.slug, g.gameId), remote);
  }

  lemma SortedStays(games: seq<Game>)
    requires Sorted(games, ById) && DistinctIds(games)
    ensures Sort(games, ById) == games
  {
    hide Sort;
    SortBag(games, ById);
    SortSorts(games, ById);
    SortedUnique(games, Sort(games, ById), ById);
  }
}
