/** The client state of the Stremio API (resources/lib/apis/StremioAPI.py):
    which add-ons serve a request, the catalogue classes, the type menus,
    the library data store and the merged metadata cache. HTTP requests
    and threads are replaced by fetch functions passed in and by
    index-aligned maps. */
module StremioApi {
  import opened Wrappers
  import opened Text
  import opened Seqs
  import opened StremioAddon
  import opened StremioLibrary
  import StremioMeta
  import Utils
  import Bitfield
  import Bits

  // ---------------------------------------------------------------------
  // Add-on routing
  // ---------------------------------------------------------------------

  /** The type test: no media type given, or the type is listed. */
  predicate TypeMatches(mediaType: Option<string>, types: seq<string>) {
    mediaType.None? || mediaType.value in types
  }

  /** The id-prefix test: no prefix list, no id, or the id starts with a
      listed prefix (so an empty list with an id never matches). */
  predicate PrefixMatches(prefixes: Option<seq<string>>, id: Option<string>) {
    prefixes.None? || id.None?
    || exists k :: 0 <= k < |prefixes.value| && StartsWith(id.value, prefixes.value[k])
  }

  /** The add-on lists the resource by its bare name, and its manifest's
      types and prefixes admit the request. */
  predicate ShorthandMatch(m: Manifest, addonType: string, mediaType: Option<string>, id: Option<string>) {
    Shorthand(addonType) in m.resources && TypeMatches(mediaType, m.types) && PrefixMatches(m.idPrefixes, id)
  }

  /** A structured resource that admits the request. */
  predicate ResourceMatch(d: ResourceDecl, addonType: string, mediaType: Option<string>, id: Option<string>) {
    d.Structured? && d.resource.name == addonType
    && TypeMatches(mediaType, d.resource.types) && PrefixMatches(d.resource.idPrefixes, id)
  }

  /** How many structured resources admit the request. */
  function MatchCount(rs: seq<ResourceDecl>, addonType: string, mediaType: Option<string>, id: Option<string>): (r: nat)
    ensures r <= |rs|
  {
    if rs == [] then 0
    else
      MatchCount(rs[..|rs| - 1], addonType, mediaType, id)
      + (if ResourceMatch(rs[|rs| - 1], addonType, mediaType, id) then 1 else 0)
  }

  function Repeat(a: Addon, n: nat): (r: seq<Addon>)
    ensures |r| == n && forall k :: 0 <= k < n ==> r[k] == a
  {
    seq(n, _ => a)
  }

  /** What one add-on adds to the result: itself once for a shorthand
      match, otherwise itself once per matching structured resource. */
  function Contribution(a: Addon, addonType: string, mediaType: Option<string>, id: Option<string>): seq<Addon> {
    if ShorthandMatch(a.manifest, addonType, mediaType, id) then [a]
    else Repeat(a, MatchCount(a.manifest.resources, addonType, mediaType, id))
  }

  /** `_filter_addons` over add-ons in registration order. */
  function MatchingAddons(addons: seq<Addon>, addonType: string, mediaType: Option<string>, id: Option<string>): seq<Addon> {
    if addons == [] then []
    else
      MatchingAddons(addons[..|addons| - 1], addonType, mediaType, id)
      + Contribution(addons[|addons| - 1], addonType, mediaType, id)
  }

  /** The result keeps the registration order: the matches of a list are
      the matches of its front followed by those of its back. */
  lemma {:induction false} MatchingAddonsAppend(xs: seq<Addon>, ys: seq<Addon>, addonType: string,
                                               mediaType: Option<string>, id: Option<string>)
    ensures MatchingAddons(xs + ys, addonType, mediaType, id)
            == MatchingAddons(xs, addonType, mediaType, id) + MatchingAddons(ys, addonType, mediaType, id)
    decreases |ys|
  {
    if ys != [] {
      var init := ys[..|ys| - 1];
      assert (xs + ys)[..|xs + ys| - 1] == xs + init;
      assert (xs + ys)[|xs + ys| - 1] == ys[|ys| - 1];
      MatchingAddonsAppend(xs, init, addonType, mediaType, id);
    } else {
      assert xs + ys == xs;
    }
  }

  /** An add-on is in the result exactly when it is installed and admits
      the request by shorthand or by at least one structured resource. */
  lemma {:induction false} MatchingAddonsMembership(addons: seq<Addon>, a: Addon, addonType: string,
                                                   mediaType: Option<string>, id: Option<string>)
    ensures a in MatchingAddons(addons, addonType, mediaType, id) <==>
              a in addons && (ShorthandMatch(a.manifest, addonType, mediaType, id)
                              || MatchCount(a.manifest.resources, addonType, mediaType, id) > 0)
    decreases |addons|
  {
    if addons != [] {
      var init := addons[..|addons| - 1];
      MatchingAddonsMembership(init, a, addonType, mediaType, id);
      assert addons == init + [addons[|addons| - 1]];
      var c := Contribution(addons[|addons| - 1], addonType, mediaType, id);
      if c != [] {
        assert c[0] == addons[|addons| - 1];
      }
    }
  }

  /** A shorthand match adds the add-on exactly once, whatever its
      structured resources say. */
  lemma ShorthandOnce(a: Addon, addonType: string, mediaType: Option<string>, id: Option<string>)
    requires ShorthandMatch(a.manifest, addonType, mediaType, id)
    ensures MatchingAddons([a], addonType, mediaType, id) == [a]
  {
    assert [a][..0] == [];
  }

  /** Without a shorthand match, an add-on with two matching structured
      resources appears twice. */
  lemma StructuredRepeats(a: Addon, r1: Resource, r2: Resource, addonType: string,
                          mediaType: Option<string>, id: Option<string>)
    requires a.manifest.resources == [Structured(r1), Structured(r2)]
    requires ResourceMatch(Structured(r1), addonType, mediaType, id)
    requires ResourceMatch(Structured(r2), addonType, mediaType, id)
    ensures MatchingAddons([a], addonType, mediaType, id) == [a, a]
  {
    var rs := a.manifest.resources;
    assert rs[..1][..0] == [];
    assert rs[..|rs| - 1] == [Structured(r1)];
    assert MatchCount(rs, addonType, mediaType, id) == 2;
    assert [a][..0] == [];
  }

  /** `list(chain(*[a.manifest.catalogs for a in addons]))`. */
  function AllCatalogs(addons: seq<Addon>): (r: seq<Catalog>)
  {
    Flatten(seq(|addons|, k requires 0 <= k < |addons| => addons[k].manifest.catalogs))
  }

  lemma AllCatalogsMembership(addons: seq<Addon>, c: Catalog)
    ensures c in AllCatalogs(addons) <==> exists a :: a in addons && c in a.manifest.catalogs
  {
    var lists := seq(|addons|, k requires 0 <= k < |addons| => addons[k].manifest.catalogs);
    FlattenMembership(lists, c);
    if c in AllCatalogs(addons) {
      var k :| 0 <= k < |lists| && c in lists[k];
      assert addons[k] in addons;
    }
    if exists a :: a in addons && c in a.manifest.catalogs {
      var a :| a in addons && c in a.manifest.catalogs;
      var k :| 0 <= k < |addons| && addons[k] == a;
      assert c in lists[k];
    }
  }

  // ---------------------------------------------------------------------
  // Catalogue classes
  // ---------------------------------------------------------------------

  /** The catalogue accepts the extra: it is declared in `extra` or listed
      in `extraSupported`. */
  predicate Supports(c: Catalog, extra: string) {
    (exists e :: e in c.extra && e.name == extra) || extra in c.extraSupported
  }

  /** Every required extra is this one. */
  predicate RequiresOnly(c: Catalog, extra: string) {
    forall e :: e in c.extraRequired ==> e == extra
  }

  /** A home catalogue can be listed without any extra. */
  predicate IsHome(c: Catalog) {
    !(exists e :: e in c.extra && e.isRequired) && |c.extraRequired| == 0
  }

  predicate IsDiscover(c: Catalog) {
    Supports(c, "genre") && RequiresOnly(c, "genre")
  }

  predicate IsSearch(c: Catalog) {
    Supports(c, "search") && RequiresOnly(c, "search")
  }

  predicate IsNotification(c: Catalog) {
    Supports(c, "lastVideosIds") && RequiresOnly(c, "lastVideosIds")
  }

  function HomeCatalogs(cs: seq<Catalog>): seq<Catalog> {
    Filter(cs, c => IsHome(c))
  }

  function DiscoverCatalogs(cs: seq<Catalog>): seq<Catalog> {
    Filter(cs, c => IsDiscover(c))
  }

  function SearchCatalogs(cs: seq<Catalog>): seq<Catalog> {
    Filter(cs, c => IsSearch(c))
  }

  function NotificationCatalogs(cs: seq<Catalog>): seq<Catalog> {
    Filter(cs, c => IsNotification(c))
  }

  function DiscoverCatalogsByType(cs: seq<Catalog>, catalogType: string): seq<Catalog> {
    Filter(DiscoverCatalogs(cs), (c: Catalog) => c.catalogType == catalogType)
  }

  /** Each list holds exactly the loaded catalogues of its class. */
  lemma ClassMembership(cs: seq<Catalog>, c: Catalog)
    ensures c in HomeCatalogs(cs) <==> c in cs && IsHome(c)
    ensures c in DiscoverCatalogs(cs) <==> c in cs && IsDiscover(c)
    ensures c in SearchCatalogs(cs) <==> c in cs && IsSearch(c)
    ensures c in NotificationCatalogs(cs) <==> c in cs && IsNotification(c)
    ensures c in DiscoverCatalogsByType(cs, c.catalogType) <==> c in cs && IsDiscover(c)
  {
    FilterMembership(cs, c => IsHome(c), c);
    FilterMembership(cs, c => IsDiscover(c), c);
    FilterMembership(cs, c => IsSearch(c), c);
    FilterMembership(cs, c => IsNotification(c), c);
    FilterMembership(DiscoverCatalogs(cs), (d: Catalog) => d.catalogType == c.catalogType, c);
  }

  /** A home catalogue needs no extra, so one that supports genre, search
      or notification ids is also in that class. */
  lemma HomeSupportsClasses(c: Catalog)
    requires IsHome(c)
    ensures Supports(c, "genre") ==> IsDiscover(c)
    ensures Supports(c, "search") ==> IsSearch(c)
    ensures Supports(c, "lastVideosIds") ==> IsNotification(c)
  {
    assert forall e :: e !in c.extraRequired;
  }

  /** A catalogue that requires an extra is not a home catalogue, and it
      is never both a search and a discover catalogue. */
  lemma RequiredExtraExclusive(c: Catalog)
    requires |c.extraRequired| > 0
    ensures !IsHome(c)
    ensures !(IsDiscover(c) && IsSearch(c))
  {
    assert c.extraRequired[0] in c.extraRequired;
  }

  // ---------------------------------------------------------------------
  // Type menus
  // ---------------------------------------------------------------------

  /** The type sort key `(0 if movie, 1 if series, else 2; then name)`. */
  function TypeRank(t: string): (r: nat)
    ensures r <= 2
  {
    if t == "movie" then 0 else if t == "series" then 1 else 2
  }

  predicate TypeLess(a: string, b: string) {
    TypeRank(a) < TypeRank(b) || (TypeRank(a) == TypeRank(b) && StrLess(a, b))
  }

  lemma TypeLessTransitive(a: string, b: string, c: string)
    ensures TypeLess(a, b) && TypeLess(b, c) ==> TypeLess(a, c)
  {
    if TypeLess(a, b) && TypeLess(b, c) && TypeRank(a) == TypeRank(b) == TypeRank(c) {
      StrLessTransitive(a, b, c);
    }
  }

  lemma TypeLessTotal(a: string, b: string)
    ensures a == b || TypeLess(a, b) || TypeLess(b, a)
  {
    if a != b && TypeRank(a) == TypeRank(b) {
      StrLessTotal(a, b);
    }
  }

  predicate StrictlyOrdered(ts: seq<string>) {
    forall i, j :: 0 <= i < j < |ts| ==> TypeLess(ts[i], ts[j])
  }

  /** The distinct entries in order of first appearance (the
      `if t not in types: types.append(t)` loops). */
  function Dedup(xs: seq<string>): (r: seq<string>)
    ensures Distinct(r)
    ensures forall x :: x in r <==> x in xs
  {
    if xs == [] then []
    else
      var d := Dedup(xs[..|xs| - 1]);
      assert xs == xs[..|xs| - 1] + [xs[|xs| - 1]];
      if xs[|xs| - 1] in d then d else d + [xs[|xs| - 1]]
  }

  /** A sequence without repeats is its own `Dedup`. */
  lemma {:induction false} DedupDistinct(xs: seq<string>)
    requires Distinct(xs)
    ensures Dedup(xs) == xs
  {
    if xs != [] {
      var init := xs[..|xs| - 1];
      assert Distinct(init) by {
        forall i, j | 0 <= i < j < |init| ensures init[i] != init[j] {
          assert init[i] == xs[i] && init[j] == xs[j];
        }
      }
      DedupDistinct(init);
      assert xs[|xs| - 1] !in init by {
        forall i | 0 <= i < |init| ensures init[i] != xs[|xs| - 1] {
          assert init[i] == xs[i];
        }
      }
      assert xs == init + [xs[|xs| - 1]];
    }
  }

  /** `Dedup` of a longer sequence: the new entry goes last unless seen. */
  lemma DedupSnoc(xs: seq<string>, x: string)
    ensures Dedup(xs + [x]) == if x in xs then Dedup(xs) else Dedup(xs) + [x]
  {
    assert (xs + [x])[..|xs + [x]| - 1] == xs;
  }

  /** One insertion of the type sort. */
  function InsertType(ts: seq<string>, t: string): (r: seq<string>)
    ensures multiset(r) == multiset(ts) + multiset{t}
  {
    if ts == [] then [t]
    else if TypeLess(t, ts[0]) then [t] + ts
    else
      assert ts == [ts[0]] + ts[1..];
      [ts[0]] + InsertType(ts[1..], t)
  }

  lemma {:induction false} InsertTypeOrdered(ts: seq<string>, t: string)
    requires StrictlyOrdered(ts) && t !in ts
    ensures StrictlyOrdered(InsertType(ts, t))
    decreases |ts|
  {
    if ts != [] && !TypeLess(t, ts[0]) {
      var rest := ts[1..];
      assert StrictlyOrdered(rest) by {
        forall i, j | 0 <= i < j < |rest| ensures TypeLess(rest[i], rest[j]) {
          assert rest[i] == ts[i + 1] && rest[j] == ts[j + 1];
        }
      }
      InsertTypeOrdered(rest, t);
      var tail := InsertType(rest, t);
      TypeLessTotal(t, ts[0]);
      var r := [ts[0]] + tail;
      forall i, j | 0 <= i < j < |r| ensures TypeLess(r[i], r[j]) {
        if i == 0 {
          var x := tail[j - 1];
          assert x in multiset(tail);
          if x != t {
            assert x in multiset(rest);
            var k :| 0 <= k < |rest| && rest[k] == x;
            assert ts[k + 1] == x;
          }
        } else {
          assert r[i] == tail[i - 1] && r[j] == tail[j - 1];
        }
      }
    } else if ts != [] {
      var r := [t] + ts;
      forall i, j | 0 <= i < j < |r| ensures TypeLess(r[i], r[j]) {
        if i == 0 && j > 1 {
          TypeLessTransitive(t, ts[0], ts[j - 1]);
        }
      }
    }
  }

  /** `types.sort(key=...)`. */
  function SortTypes(ts: seq<string>): (r: seq<string>)
    ensures multiset(r) == multiset(ts)
  {
    if ts == [] then []
    else
      assert ts == ts[..|ts| - 1] + [ts[|ts| - 1]];
      InsertType(SortTypes(ts[..|ts| - 1]), ts[|ts| - 1])
  }

  /** Sorting distinct types orders them strictly: movie, series, then
      the others by name. */
  lemma {:induction false} SortTypesOrdered(ts: seq<string>)
    requires Distinct(ts)
    ensures StrictlyOrdered(SortTypes(ts))
    decreases |ts|
  {
    if ts != [] {
      var init := ts[..|ts| - 1];
      var last := ts[|ts| - 1];
      assert Distinct(init) by {
        forall i, j | 0 <= i < j < |init| ensures init[i] != init[j] {
          assert init[i] == ts[i] && init[j] == ts[j];
        }
      }
      SortTypesOrdered(init);
      assert last !in init by {
        forall i | 0 <= i < |init| ensures init[i] != last {
          assert init[i] == ts[i];
        }
      }
      assert last !in multiset(SortTypes(init));
      InsertTypeOrdered(SortTypes(init), last);
    }
  }

  /** The type menu of a list of types: distinct, ordered, same members. */
  lemma TypeMenu(ts: seq<string>)
    ensures StrictlyOrdered(SortTypes(Dedup(ts)))
    ensures forall t :: t in SortTypes(Dedup(ts)) <==> t in ts
  {
    SortTypesOrdered(Dedup(ts));
    forall t ensures t in SortTypes(Dedup(ts)) <==> t in ts {
      assert t in SortTypes(Dedup(ts)) <==> t in multiset(SortTypes(Dedup(ts)));
      assert t in Dedup(ts) <==> t in multiset(Dedup(ts));
    }
  }

  /** Movies come first and series second whenever they are present. */
  lemma MovieFirst(ts: seq<string>)
    requires StrictlyOrdered(ts) && "movie" in ts
    ensures ts[0] == "movie"
  {
    var k :| 0 <= k < |ts| && ts[k] == "movie";
    if k > 0 {
      assert TypeLess(ts[0], ts[k]);
    }
  }

  function CatalogTypes(cs: seq<Catalog>): (r: seq<string>)
    ensures |r| == |cs| && forall k :: 0 <= k < |cs| ==> r[k] == cs[k].catalogType
  {
    seq(|cs|, k requires 0 <= k < |cs| => cs[k].catalogType)
  }

  // ---------------------------------------------------------------------
  // Data store
  // ---------------------------------------------------------------------

  /** An item of the library store that is in the library proper. */
  predicate Listed(i: LibraryItem)
    reads i
  {
    !(i.removed || i.temp)
  }

  /** The types of the listed items, in store order. */
  function ListedTypes(items: seq<LibraryItem>): (r: seq<string>)
    reads set i | i in items
    ensures forall t :: t in r <==> exists i :: i in items && Listed(i) && i.itemType == t
  {
    if items == [] then []
    else
      var last := items[|items| - 1];
      var init := items[..|items| - 1];
      assert items == init + [last];
      ListedTypes(init) + if Listed(last) then [last.itemType] else []
  }

  /** A fresh default item for a record the store does not know: no
      progress, and both `removed` and `temp` set. */
  predicate IsDefaultItem(i: LibraryItem, id: string, itemType: string)
    reads i, i.state
  {
    i.id == id && i.itemType == itemType && i.removed && i.temp && i.ctime == "" && i.mtime == ""
    && i.state.Counters() == Progress("", 0, 0, 0, 0, 0, 0) && i.state.watched == ""
    && i.state.lastWatched == "" && !i.state.noNotif && i.state.watchedBitfield == null
  }

  /** `i` is the default item made for the record with id `k` among `metas`. */
  predicate DefaultFor(i: LibraryItem, k: string, metas: seq<StremioMeta.Meta>)
    reads i, i.state
  {
    exists m :: m in metas && m.id == k && IsDefaultItem(i, k, m.metaType)
  }

  /** What `get_library` reads of a stored item. */
  datatype Shelf = Shelf(id: string, itemType: string, removed: bool, lastWatched: string)

  function ShelfOf(i: LibraryItem): Shelf
    reads i, i.state
  {
    Shelf(i.id, i.itemType, i.removed, i.state.lastWatched)
  }

  function ShelfList(items: seq<LibraryItem>): (r: seq<Shelf>)
    reads set i | i in items, set i | i in items :: i.state
    ensures |r| == |items| && forall n :: 0 <= n < |items| ==> r[n] == ShelfOf(items[n])
  {
    if items == [] then [] else [ShelfOf(items[0])] + ShelfList(items[1..])
  }

  /** Latest first under the string order of the stored timestamps. */
  predicate LatestFirst(ss: seq<Shelf>) {
    forall i, j :: 0 <= i < j < |ss| ==> !StrLess(ss[i].lastWatched, ss[j].lastWatched)
  }

  /** Place `x` before the first shelf whose timestamp is not later. */
  function InsertByLastWatched(x: Shelf, sorted: seq<Shelf>): (r: seq<Shelf>)
    ensures multiset(r) == multiset(sorted) + multiset{x}
    decreases |sorted|
  {
    if sorted == [] || !StrLess(x.lastWatched, sorted[0].lastWatched) then [x] + sorted
    else
      assert sorted == [sorted[0]] + sorted[1..];
      [sorted[0]] + InsertByLastWatched(x, sorted[1..])
  }

  /** Prepending a shelf watched no earlier than any other keeps the order. */
  lemma ConsLatestFirst(a: Shelf, tail: seq<Shelf>)
    requires LatestFirst(tail)
    requires forall j :: 0 <= j < |tail| ==> !StrLess(a.lastWatched, tail[j].lastWatched)
    ensures LatestFirst([a] + tail)
  {
    var r := [a] + tail;
    forall i, j | 0 <= i < j < |r| ensures !StrLess(r[i].lastWatched, r[j].lastWatched) {
      assert r[j] == tail[j - 1];
      if i > 0 {
        assert r[i] == tail[i - 1];
      }
    }
  }

  lemma {:induction false} InsertByLastWatchedSorted(x: Shelf, sorted: seq<Shelf>)
    requires LatestFirst(sorted)
    ensures LatestFirst(InsertByLastWatched(x, sorted))
    decreases |sorted|
  {
    if sorted != [] && StrLess(x.lastWatched, sorted[0].lastWatched) {
      var rest := sorted[1..];
      InsertByLastWatchedSorted(x, rest);
      var tail := InsertByLastWatched(x, rest);
      forall j | 0 <= j < |tail| ensures !StrLess(sorted[0].lastWatched, tail[j].lastWatched) {
        var y := tail[j];
        assert y in multiset(tail);
        if y == x {
          StrLessAsymmetric(x.lastWatched, sorted[0].lastWatched);
        } else {
          assert y in multiset(rest);
          var k :| 0 <= k < |rest| && rest[k] == y;
          assert sorted[k + 1] == y;
        }
      }
      ConsLatestFirst(sorted[0], tail);
    } else if sorted != [] {
      forall j | 0 <= j < |sorted| ensures !StrLess(x.lastWatched, sorted[j].lastWatched) {
        StrNotLessTransitive(x.lastWatched, sorted[0].lastWatched, sorted[j].lastWatched);
      }
      ConsLatestFirst(x, sorted);
    }
  }

  /** `sorted(..., key=lastWatched, reverse=True)` on the raw strings. */
  function SortByLastWatched(ss: seq<Shelf>): (r: seq<Shelf>)
    ensures multiset(r) == multiset(ss)
    decreases |ss|
  {
    if ss == [] then []
    else
      assert ss == [ss[0]] + ss[1..];
      InsertByLastWatched(ss[0], SortByLastWatched(ss[1..]))
  }

  lemma {:induction false} SortByLastWatchedSorted(ss: seq<Shelf>)
    ensures LatestFirst(SortByLastWatched(ss))
    decreases |ss|
  {
    if ss != [] {
      SortByLastWatchedSorted(ss[1..]);
      InsertByLastWatchedSorted(ss[0], SortByLastWatched(ss[1..]));
    }
  }

  predicate Kept(s: Shelf) {
    !s.removed
  }

  predicate TypeSelected(s: Shelf, typeFilter: Option<string>) {
    typeFilter.None? || s.itemType == typeFilter.value
  }

  /** The entries `get_library` fetches metadata for, in order: the items
      not removed, latest watched first, of the requested type. */
  function LibraryOrder(shelves: seq<Shelf>, typeFilter: Option<string>): seq<Shelf> {
    Filter(SortByLastWatched(Filter(shelves, Kept)), s => TypeSelected(s, typeFilter))
  }

  /** The library lists exactly the kept items of the requested type,
      latest watched first. */
  lemma LibraryOrderSpec(shelves: seq<Shelf>, typeFilter: Option<string>)
    ensures LatestFirst(LibraryOrder(shelves, typeFilter))
    ensures forall s :: s in LibraryOrder(shelves, typeFilter) <==>
              s in shelves && !s.removed && TypeSelected(s, typeFilter)
  {
    var kept := Filter(shelves, Kept);
    var sorted := SortByLastWatched(kept);
    SortByLastWatchedSorted(kept);
    FilterOrdered(sorted, s => TypeSelected(s, typeFilter),
                  (a: Shelf, b: Shelf) => !StrLess(a.lastWatched, b.lastWatched));
    forall s
      ensures s in LibraryOrder(shelves, typeFilter) <==> s in shelves && !s.removed && TypeSelected(s, typeFilter)
    {
      FilterMembership(sorted, s => TypeSelected(s, typeFilter), s);
      assert s in sorted <==> s in multiset(kept);
      FilterMembership(shelves, Kept, s);
    }
  }

  /** `[m.id for m in metas if m.id not in store or refresh]`. */
  function Uncached(ids: seq<string>, store: set<string>, refresh: bool): (r: seq<string>)
    ensures forall x :: x in r <==> x in ids && (x !in store || refresh)
  {
    if ids == [] then []
    else
      var init := ids[..|ids| - 1];
      var last := ids[|ids| - 1];
      assert ids == init + [last];
      Uncached(init, store, refresh) + if last !in store || refresh then [last] else []
  }

  /** The merged record: each key takes its value from the first response
      that has it (`reduce(lambda a, b: {**b, **a}, responses)`). */
  function Merge(responses: seq<map<string, Utils.Json>>): (r: Result<map<string, Utils.Json>>)
    ensures r.Failure? <==> responses == []
    ensures r.Failure? ==> r.error == EmptyReduce
  {
    if responses == [] then Failure(EmptyReduce) else Success(MergeFrom(responses[0], responses[1..]))
  }

  function MergeFrom(acc: map<string, Utils.Json>, rest: seq<map<string, Utils.Json>>): map<string, Utils.Json>
    decreases |rest|
  {
    if rest == [] then acc else MergeFrom(rest[0] + acc, rest[1..])
  }

  /** `acc` wins over every later response; a key missing from `acc`
      comes from the first later response that has it. */
  lemma {:induction false} MergeFromFirst(acc: map<string, Utils.Json>, rest: seq<map<string, Utils.Json>>, key: string)
    ensures key in MergeFrom(acc, rest) <==> key in acc || exists j :: 0 <= j < |rest| && key in rest[j]
    ensures key in acc ==> MergeFrom(acc, rest)[key] == acc[key]
    ensures forall j :: (0 <= j < |rest| && key !in acc && key in rest[j]
                         && forall i :: 0 <= i < j ==> key !in rest[i])
                        ==> MergeFrom(acc, rest)[key] == rest[j][key]
    decreases |rest|
  {
    if rest != [] {
      MergeFromFirst(rest[0] + acc, rest[1..], key);
      if exists j :: 0 <= j < |rest| && key in rest[j] {
        var j :| 0 <= j < |rest| && key in rest[j];
        if j > 0 {
          assert key in rest[1..][j - 1];
        }
      }
      forall j | 0 <= j < |rest| && key !in acc && key in rest[j] && (forall i :: 0 <= i < j ==> key !in rest[i])
        ensures MergeFrom(acc, rest)[key] == rest[j][key]
      {
        if j > 0 {
          assert key !in rest[0];
          assert rest[1..][j - 1] == rest[j];
          assert forall i :: 0 <= i < j - 1 ==> rest[1..][i] == rest[i + 1];
        }
      }
    }
  }

  /** The merge is left-biased: a key has the value of the first response
      that holds it, and the keys are those of all responses. */
  lemma MergeLeftBiased(responses: seq<map<string, Utils.Json>>, key: string, j: nat)
    requires j < |responses| && key in responses[j]
    requires forall i :: 0 <= i < j ==> key !in responses[i]
    ensures Merge(responses).Success?
    ensures key in Merge(responses).value && Merge(responses).value[key] == responses[j][key]
  {
    var rest := responses[1..];
    MergeFromFirst(responses[0], rest, key);
    if j > 0 {
      assert key in rest[j - 1];
      assert forall i :: 0 <= i < j - 1 ==> rest[i] == responses[i + 1];
    }
  }

  lemma MergeKeys(responses: seq<map<string, Utils.Json>>, key: string)
    requires responses != []
    ensures key in Merge(responses).value <==> exists j :: 0 <= j < |responses| && key in responses[j]
  {
    var rest := responses[1..];
    MergeFromFirst(responses[0], rest, key);
    if exists j :: 0 <= j < |responses| && key in responses[j] {
      var j :| 0 <= j < |responses| && key in responses[j];
      if j > 0 {
        assert key in rest[j - 1];
      }
    }
    if exists j :: 0 <= j < |rest| && key in rest[j] {
      var j :| 0 <= j < |rest| && key in rest[j];
      assert key in responses[j + 1];
    }
  }

  // ---------------------------------------------------------------------
  // Request shaping
  // ---------------------------------------------------------------------

  /** `_post`'s body: the auth key is added when a token is set. */
  function PostBody(token: string, data: map<string, Utils.Json>): (r: map<string, Utils.Json>)
    ensures token != "" ==> "authKey" in r && r["authKey"] == Utils.JStr(token)
    ensures token == "" ==> r == data
    ensures forall k :: k != "authKey" ==> (k in r <==> k in data) && (k in r ==> r[k] == data[k])
  {
    if token != "" then data["authKey" := Utils.JStr(token)] else data
  }

  /** `_get`'s URL: every "/manifest.json" removed. */
  function GetUrl(url: string): (r: string)
    ensures r == url <==> Find(url, ManifestPath).None?
  {
    RemoveShortens(url, ManifestPath);
    if Find(url, ManifestPath).None? then
      RemoveAbsent(url, ManifestPath);
      RemoveAll(url, ManifestPath)
    else
      RemoveAll(url, ManifestPath)
  }

  /** Removing the manifest path from `base + "/manifest.json"` leaves
      `base` when the path does not occur in `base`. */
  lemma {:induction false} RemoveManifestSuffix(base: string)
    requires Find(base, ManifestPath).None?
    ensures RemoveAll(base + ManifestPath, ManifestPath) == base
    decreases |base|
  {
    var s := base + ManifestPath;
    if base == [] {
      assert s == ManifestPath && OccursAt(s, ManifestPath, 0);
      assert s[|ManifestPath|..] == [];
    } else {
      if |base| >= |ManifestPath| {
        assert !OccursAt(base, ManifestPath, 0);
        assert s[..|ManifestPath|] == base[..|ManifestPath|];
      } else {
        NoStraddle(base, 0);
      }
      assert !OccursAt(s, ManifestPath, 0);
      NoOccurrenceInSuffix(base, ManifestPath);
      RemoveManifestSuffix(base[1..]);
      assert s[1..] == base[1..] + ManifestPath;
      assert base == [base[0]] + base[1..];
    }
  }

  /** The URL of an add-on installed from its manifest loses exactly the
      manifest path, which gives its base URL. */
  lemma GetUrlOfManifest(base: string)
    requires Find(base, ManifestPath).None?
    ensures GetUrl(base + ManifestPath) == base
  {
    RemoveManifestSuffix(base);
  }

  /** The path of `get_catalog`: the set, non-empty segments joined by '/'. */
  function CatalogQuery(baseUrl: string, catalog: Catalog, genre: Option<string>,
                        search: Option<string>, notificationIds: Option<string>): (r: string)
  {
    Join(PresentSegments([Some(baseUrl), Some("catalog"), Some(catalog.catalogType), Some(catalog.id),
                          genre, search, notificationIds]), '/')
  }

  /** `filter(None, segments)`. */
  function PresentSegments(segments: seq<Option<string>>): seq<string>
  {
    if segments == [] then []
    else
      var init := segments[..|segments| - 1];
      var last := segments[|segments| - 1];
      PresentSegments(init) + if Truthy(last) then [last.value] else []
  }

  /** `filter(None, ...)` keeps exactly the set, non-empty segments. */
  lemma {:induction false} PresentSegmentsExact(segments: seq<Option<string>>)
    ensures forall k :: 0 <= k < |PresentSegments(segments)| ==> PresentSegments(segments)[k] != ""
    ensures forall x :: x in PresentSegments(segments) <==> Some(x) in segments && x != ""
  {
    if segments != [] {
      var init := segments[..|segments| - 1];
      var last := segments[|segments| - 1];
      assert segments == init + [last];
      PresentSegmentsExact(init);
    }
  }

  /** A segment as it appears after the first: "/" and the text, or
      nothing when `filter(None, ...)` drops it. */
  function Slash(s: Option<string>): string {
    if Truthy(s) then "/" + s.value else ""
  }

  /** A further segment adds its `Slash` to the joined path. */
  lemma PresentSnoc(segs: seq<Option<string>>, x: Option<string>)
    requires PresentSegments(segs) != []
    ensures PresentSegments(segs + [x]) != []
    ensures Join(PresentSegments(segs + [x]), '/') == Join(PresentSegments(segs), '/') + Slash(x)
  {
    var ps := PresentSegments(segs);
    assert PresentSegments(segs + [x]) == ps + if Truthy(x) then [x.value] else [] by {
      assert (segs + [x])[..|segs + [x]| - 1] == segs;
    }
    if Truthy(x) {
      JoinSnoc(ps, x.value, '/');
      assert Slash(x) == ['/'] + x.value;
    } else {
      assert ps + [] == ps && Slash(x) == "";
    }
  }

  /** The first two segments: the base URL and "/" unless it is empty, then "catalog". */
  lemma CatalogPrefix(baseUrl: string)
    ensures PresentSegments([Some(baseUrl), Some("catalog")]) != []
    ensures Join(PresentSegments([Some(baseUrl), Some("catalog")]), '/')
              == (if baseUrl == "" then "" else baseUrl + "/") + "catalog"
  {
    var s2 := [Some(baseUrl), Some("catalog")];
    assert s2[..1] == [Some(baseUrl)] && [Some(baseUrl)][..0] == [];
    assert PresentSegments([Some(baseUrl)]) == if baseUrl == "" then [] else [baseUrl];
    assert PresentSegments(s2) == PresentSegments([Some(baseUrl)]) + ["catalog"];
    if baseUrl != "" {
      JoinSnoc([baseUrl], "catalog", '/');
    }
  }

  /** The path of `get_catalog` written out: the base URL and "/" unless the
      base is empty, then "catalog", then "/" and each of the type, the id
      and the extras that are set and non-empty, in that order. */
  lemma CatalogQueryShape(baseUrl: string, catalog: Catalog, genre: Option<string>,
                          search: Option<string>, notificationIds: Option<string>)
    ensures CatalogQuery(baseUrl, catalog, genre, search, notificationIds) ==
              (if baseUrl == "" then "" else baseUrl + "/") + "catalog"
              + Slash(Some(catalog.catalogType)) + Slash(Some(catalog.id))
              + Slash(genre) + Slash(search) + Slash(notificationIds)
  {
    var a, b, c, d := Some(baseUrl), Some("catalog"), Some(catalog.catalogType), Some(catalog.id);
    CatalogPrefix(baseUrl);
    PresentSnoc([a, b], c);
    assert [a, b] + [c] == [a, b, c];
    PresentSnoc([a, b, c], d);
    assert [a, b, c] + [d] == [a, b, c, d];
    PresentSnoc([a, b, c, d], genre);
    assert [a, b, c, d] + [genre] == [a, b, c, d, genre];
    PresentSnoc([a, b, c, d, genre], search);
    assert [a, b, c, d, genre] + [search] == [a, b, c, d, genre, search];
    PresentSnoc([a, b, c, d, genre, search], notificationIds);
    assert [a, b, c, d, genre, search] + [notificationIds] == [a, b, c, d, genre, search, notificationIds];
  }

  /** The segments of the query after the base URL. */
  function PathSegments(catalog: Catalog, genre: Option<string>, search: Option<string>,
                        notificationIds: Option<string>): seq<Option<string>>
  {
    [Some("catalog"), Some(catalog.catalogType), Some(catalog.id), genre, search, notificationIds]
  }

  /** The path after the base URL, written out as in `CatalogQueryShape`. */
  lemma PathShape(catalog: Catalog, genre: Option<string>, search: Option<string>,
                  notificationIds: Option<string>)
    ensures Join(PresentSegments(PathSegments(catalog, genre, search, notificationIds)), '/') ==
              "catalog" + Slash(Some(catalog.catalogType)) + Slash(Some(catalog.id))
              + Slash(genre) + Slash(search) + Slash(notificationIds)
  {
    var b, c, d := Some("catalog"), Some(catalog.catalogType), Some(catalog.id);
    assert [b][..0] == [];
    assert PresentSegments([b]) == ["catalog"];
    PresentSnoc([b], c);
    assert [b] + [c] == [b, c];
    PresentSnoc([b, c], d);
    assert [b, c] + [d] == [b, c, d];
    PresentSnoc([b, c, d], genre);
    assert [b, c, d] + [genre] == [b, c, d, genre];
    PresentSnoc([b, c, d, genre], search);
    assert [b, c, d, genre] + [search] == [b, c, d, genre, search];
    PresentSnoc([b, c, d, genre, search], notificationIds);
    assert [b, c, d, genre, search] + [notificationIds] == PathSegments(catalog, genre, search, notificationIds);
  }

  /** The query is the base URL (and "/" unless it is empty) followed by the
      path after it. */
  lemma CatalogQueryPath(baseUrl: string, catalog: Catalog, genre: Option<string>,
                         search: Option<string>, notificationIds: Option<string>)
    ensures CatalogQuery(baseUrl, catalog, genre, search, notificationIds)
              == (if baseUrl == "" then "" else baseUrl + "/")
                 + Join(PresentSegments(PathSegments(catalog, genre, search, notificationIds)), '/')
  {
    CatalogQueryShape(baseUrl, catalog, genre, search, notificationIds);
    PathShape(catalog, genre, search, notificationIds);
    var pre := if baseUrl == "" then "" else baseUrl + "/";
    var s1, s2, s3 := Slash(Some(catalog.catalogType)), Slash(Some(catalog.id)), Slash(genre);
    var s4, s5 := Slash(search), Slash(notificationIds);
    var p1 := "catalog" + s1;
    var p2 := p1 + s2;
    var p3 := p2 + s3;
    var p4 := p3 + s4;
    assert pre + "catalog" + s1 == pre + p1;
    assert pre + p1 + s2 == pre + p2;
    assert pre + p2 + s3 == pre + p3;
    assert pre + p3 + s4 == pre + p4;
    assert pre + p4 + s5 == pre + (p4 + s5);
  }

  /** Segments without '/' give parts without '/'. */
  lemma PresentSlashFree(segs: seq<Option<string>>)
    requires forall k :: 0 <= k < |segs| && segs[k].Some? ==> '/' !in segs[k].value
    ensures forall k :: 0 <= k < |PresentSegments(segs)| ==> '/' !in PresentSegments(segs)[k]
  {
    var parts := PresentSegments(segs);
    PresentSegmentsExact(segs);
    forall k | 0 <= k < |parts| ensures '/' !in parts[k] {
      assert parts[k] in parts;
      var i :| 0 <= i < |segs| && segs[i] == Some(parts[k]);
    }
  }

  /** The query is the base URL (and "/" unless it is empty) followed by the
      path; when the type, the id and the extras hold no '/', splitting that
      path on '/' gives back exactly its set, non-empty segments, whatever
      the base URL holds. */
  lemma CatalogQuerySegments(baseUrl: string, catalog: Catalog, genre: Option<string>,
                             search: Option<string>, notificationIds: Option<string>)
    requires '/' !in catalog.catalogType && '/' !in catalog.id
    requires genre.Some? ==> '/' !in genre.value
    requires search.Some? ==> '/' !in search.value
    requires notificationIds.Some? ==> '/' !in notificationIds.value
    ensures var path := Join(PresentSegments(PathSegments(catalog, genre, search, notificationIds)), '/');
            CatalogQuery(baseUrl, catalog, genre, search, notificationIds)
              == (if baseUrl == "" then "" else baseUrl + "/") + path
            && Split(path, '/') == PresentSegments(PathSegments(catalog, genre, search, notificationIds))
  {
    var segs := PathSegments(catalog, genre, search, notificationIds);
    CatalogQueryPath(baseUrl, catalog, genre, search, notificationIds);
    PresentSlashFree(segs);
    PresentSegmentsExact(segs);
    assert segs[0] == Some("catalog");
    assert "catalog" in PresentSegments(segs);
    SplitJoin(PresentSegments(segs), '/');
  }

  /** `f"{base_url}/meta/{type}/{id}.json"`. */
  function MetaUrl(a: Addon, mediaType: string, id: string): string {
    a.BaseUrl() + "/meta/" + mediaType + "/" + id + ".json"
  }

  /** For an add-on installed from `<base>/manifest.json`, the metadata
      request goes to `<base>/meta/<type>/<id>.json`, unless the type or id
      itself brings in a "/manifest.json" for `_get` to strip. */
  lemma MetaUrlOfManifestAddon(a: Addon, base: string, mediaType: string, id: string)
    requires a.transportUrl == base + ManifestPath && Find(base, ManifestPath).None?
    requires Find(base + "/meta/" + mediaType + "/" + id + ".json", ManifestPath).None?
    ensures GetUrl(MetaUrl(a, mediaType, id)) == base + "/meta/" + mediaType + "/" + id + ".json"
  {
    StremioAddon.ManifestUrlBase(a, base);
  }

  // ---------------------------------------------------------------------
  // The client
  // ---------------------------------------------------------------------

  class Api {
    var token: string
    var addons: seq<Addon>
    var catalogs: seq<Catalog>
    /** The merged metadata record per id. */
    var metadata: map<string, map<string, Utils.Json>>
    /** The data store, a dictionary: its keys in insertion order and its
        entries. */
    var storeKeys: seq<string>
    var store: map<string, LibraryItem>

    /** The store is a dictionary keyed by item id. */
    predicate Valid()
      reads this
    {
      Distinct(storeKeys) && store.Keys == (set k | k in storeKeys)
      && forall k :: k in store ==> store[k].id == k
    }

    /** The store's items in insertion order. */
    function StoreItems(): (r: seq<LibraryItem>)
      reads this
      requires Valid()
      ensures |r| == |storeKeys| && forall k :: 0 <= k < |r| ==> r[k] == store[storeKeys[k]]
    {
      seq(|storeKeys|, k requires 0 <= k < |storeKeys| && Valid() reads this => store[storeKeys[k]])
    }

    /** `get_library`'s entries: the stored items in store order, kept,
        sorted and filtered by `LibraryOrder`. Fetching each entry's
        metadata is `GetMetadataById`. */
    function Library(typeFilter: Option<string>): (r: seq<Shelf>)
      reads this, set k | k in store :: store[k], set k | k in store :: store[k].state
      requires Valid()
      ensures LatestFirst(r)
      ensures forall s :: s in r <==> s in ShelfList(StoreItems()) && !s.removed && TypeSelected(s, typeFilter)
    {
      var items := StoreItems();
      assert forall i :: i in items ==> exists k :: k in store && store[k] == i;
      LibraryOrderSpec(ShelfList(items), typeFilter);
      LibraryOrder(ShelfList(items), typeFilter)
    }

    /** `StremioAPI()`: the token from the settings, then the add-on list
        and the data store as first fetched. */
    constructor (token: string, addonResponse: seq<Addon>, storeResponse: seq<LibraryItem>)
      ensures Valid() && this.token == token && addons == addonResponse
      ensures catalogs == [] && metadata == map[]
      ensures forall i :: i in storeResponse ==> i.id in store
      ensures forall k :: k in store ==> store[k] in storeResponse
      ensures store == StoreAfter(map[], storeResponse)
      ensures storeKeys == Dedup(ItemIds(storeResponse))
    {
      this.token := token;
      addons := addonResponse;
      catalogs := [];
      metadata := map[];
      storeKeys := [];
      store := map[];
      new;
      PutAll(storeResponse);
      KeysFromEmpty(storeResponse);
    }

    /** The dictionary assignment `store[item.id] = item`: a new key goes
        last, an existing key keeps its place. */
    method Put(item: LibraryItem)
      requires Valid()
      modifies this`storeKeys, this`store
      ensures Valid()
      ensures store == old(store)[item.id := item]
      ensures storeKeys == if item.id in old(store) then old(storeKeys) else old(storeKeys) + [item.id]
    {
      if item.id !in store {
        storeKeys := storeKeys + [item.id];
      }
      store := store[item.id := item];
    }

    /** Stores every item of a response in order; a later item with the
        same id replaces an earlier one. */
    method PutAll(items: seq<LibraryItem>)
      requires Valid()
      modifies this`storeKeys, this`store
      ensures Valid()
      ensures forall i :: i in items ==> i.id in store
      ensures forall k :: k in store ==> (k in old(store) && store[k] == old(store)[k]) || store[k] in items
      ensures forall k :: k in old(store) ==> k in store
      ensures forall k :: k in old(store) && (forall i :: i in items ==> i.id != k) ==> store[k] == old(store)[k]
      ensures forall k :: k in old(storeKeys) ==> k in storeKeys
      ensures store == StoreAfter(old(store), items)
      ensures storeKeys == KeysAfter(old(storeKeys), items)
    {
      for n := 0 to |items|
        invariant StoreAfter(old(store), items) == StoreAfter(store, items[n..])
        invariant KeysAfter(old(storeKeys), items) == KeysAfter(storeKeys, items[n..])
        invariant Valid()
      {
        Put(items[n]);
        assert items[n..][1..] == items[n + 1..];
      }
      StoreAfterCovers(old(store), items);
      forall k | k in old(store) && (forall i :: i in items ==> i.id != k)
        ensures store[k] == old(store)[k]
      {
        StoreAfterUntouched(old(store), items, k);
      }
      KeysAfterKeeps(old(storeKeys), items);
    }

    /** `get_data_store`: the whole store is fetched when it is empty or a
        refresh is asked for. */
    method GetDataStore(refresh: bool, response: seq<LibraryItem>)
      requires Valid()
      modifies this`storeKeys, this`store
      ensures Valid()
      ensures old(store) == map[] || refresh ==>
                (forall i :: i in response ==> i.id in store)
                && forall k :: k in store ==> store[k] in response
      ensures old(store) == map[] || refresh ==>
                store == StoreAfter(map[], response) && storeKeys == Dedup(ItemIds(response))
      ensures !(old(store) == map[] || refresh) ==> store == old(store) && storeKeys == old(storeKeys)
    {
      if store == map[] || refresh {
        storeKeys := [];
        store := map[];
        PutAll(response);
        KeysFromEmpty(response);
      }
    }

    /** `get_addons`: fetched when empty or on refresh. */
    method GetAddons(refresh: bool, response: seq<Addon>) returns (r: seq<Addon>)
      modifies this`addons
      ensures addons == (if old(addons) == [] || refresh then response else old(addons)) && r == addons
    {
      if addons == [] || refresh {
        addons := response;
      }
      r := addons;
    }

    /** `get_catalogs`: the catalogues of all add-ons, in add-on order,
        rebuilt when empty or on refresh. */
    method GetCatalogs(refresh: bool, response: seq<Addon>) returns (r: seq<Catalog>)
      modifies this`addons, this`catalogs
      ensures old(catalogs) == [] || refresh ==>
                addons == (if old(addons) == [] || refresh then response else old(addons))
                && catalogs == AllCatalogs(addons)
      ensures !(old(catalogs) == [] || refresh) ==> catalogs == old(catalogs) && addons == old(addons)
      ensures r == catalogs
    {
      if catalogs == [] || refresh {
        var loaded := GetAddons(refresh, response);
        catalogs := AllCatalogs(loaded);
      }
      r := catalogs;
    }

    /** `_filter_addons` over the loaded add-ons: a shorthand match appends
        the add-on and skips its structured resources; otherwise it is
        appended once per matching structured resource. */
    method FilterAddons(addonType: string, mediaType: Option<string>, id: Option<string>) returns (matching: seq<Addon>)
      ensures matching == MatchingAddons(addons, addonType, mediaType, id)
    {
      matching := [];
      for k := 0 to |addons|
        invariant matching == MatchingAddons(addons[..k], addonType, mediaType, id)
      {
        var a := addons[k];
        assert addons[..k + 1][..k] == addons[..k];
        if ShorthandMatch(a.manifest, addonType, mediaType, id) {
          matching := matching + [a];
        } else {
          var perResource := ResourceMatches(a, addonType, mediaType, id);
          matching := matching + perResource;
        }
      }
      assert addons[..|addons|] == addons;
    }

    /** `get_library_types`: "all", then the distinct types of the listed
        items, movie first, series second, the rest by name. */
    method GetLibraryTypes() returns (types: seq<string>)
      requires Valid()
      ensures types == ["all"] + SortTypes(Dedup(ListedTypes(StoreItems())))
    {
      var items := StoreItems();
      var found: seq<string> := [];
      for n := 0 to |items|
        invariant found == Dedup(ListedTypes(items[..n]))
      {
        var v := items[n];
        assert items[..n + 1] == items[..n] + [v];
        assert items[..n + 1][..n] == items[..n];
        ghost var listed := ListedTypes(items[..n + 1]);
        assert listed == ListedTypes(items[..n]) + if Listed(v) then [v.itemType] else [];
        if Listed(v) {
          assert listed[..|listed| - 1] == ListedTypes(items[..n]);
        } else {
          assert listed == ListedTypes(items[..n]);
        }
        if v.itemType !in found && !(v.removed || v.temp) {
          found := found + [v.itemType];
        }
      }
      assert items[..|items|] == items;
      types := ["all"] + SortTypes(found);
    }

    /** `get_discover_types`: the distinct types of the discover
        catalogues in the same order, without "all". */
    method GetDiscoverTypes() returns (types: seq<string>)
      ensures types == SortTypes(Dedup(CatalogTypes(DiscoverCatalogs(catalogs))))
    {
      var cs := DiscoverCatalogs(catalogs);
      var found: seq<string> := [];
      for n := 0 to |cs|
        invariant found == Dedup(CatalogTypes(cs[..n]))
      {
        assert CatalogTypes(cs[..n + 1]) == CatalogTypes(cs[..n]) + [cs[n].catalogType];
        assert CatalogTypes(cs[..n + 1])[..n] == CatalogTypes(cs[..n]);
        if cs[n].catalogType !in found {
          found := found + [cs[n].catalogType];
        }
      }
      assert cs[..|cs|] == cs;
      types := SortTypes(found);
    }

    /** `set_data`: the item replaces the stored one under its id (the push
        to the server is not modelled). */
    method SetData(item: LibraryItem)
      requires Valid()
      modifies this`storeKeys, this`store
      ensures Valid() && store == old(store)[item.id := item]
      ensures storeKeys == if item.id in old(store) then old(storeKeys) else old(storeKeys) + [item.id]
    {
      Put(item);
    }

    /** The first half of `get_data_by_metas`: request the uncached ids (all
        of them on refresh) and store what comes back; then give every id
        still missing a default item. */
    method LoadItems(metas: seq<StremioMeta.Meta>, refresh: bool, response: seq<LibraryItem>)
      returns (requested: seq<string>)
      requires Valid()
      modifies this`storeKeys, this`store
      ensures Valid()
      ensures requested == Uncached(MetaIds(metas), old(store).Keys, refresh)
      ensures forall m :: m in metas ==> m.id in store
      ensures forall k :: k in old(store) ==> k in store
      ensures forall k :: k in store ==>
                (k in old(store) && store[k] == old(store)[k])
                || (requested != [] && store[k] in response)
                || (fresh(store[k]) && fresh(store[k].state)
                    && DefaultFor(store[k], k, metas))
      ensures forall k :: k in old(store) && (requested == [] || forall i :: i in response ==> i.id != k)
                ==> store[k] == old(store)[k]
    {
      requested := Uncached(MetaIds(metas), store.Keys, refresh);
      if requested != [] {
        PutAll(response);
      }
      var missing := MissingMetas(metas, store.Keys);
      AddDefaults(missing);
    }

    /** The default-record loop of `get_data_by_metas`. */
    method AddDefaults(missing: seq<StremioMeta.Meta>)
      requires Valid()
      requires forall m :: m in missing ==> m.id !in store
      modifies this`storeKeys, this`store
      ensures Valid()
      ensures forall m :: m in missing ==> m.id in store
      ensures forall k :: k in old(store) ==> k in store && store[k] == old(store)[k]
      ensures forall k :: k in store ==>
                (k in old(store) && store[k] == old(store)[k])
                || (fresh(store[k]) && fresh(store[k].state)
                    && DefaultFor(store[k], k, missing))
    {
      for n := 0 to |missing|
        invariant Valid()
        invariant forall m :: m in missing[..n] ==> m.id in store
        invariant forall k :: k in old(store) ==> k in store && store[k] == old(store)[k]
        invariant forall k :: k in store ==>
                    (k in old(store) && store[k] == old(store)[k])
                    || (fresh(store[k]) && fresh(store[k].state)
                        && DefaultFor(store[k], k, missing))
      {
        AddDefault(missing[n], missing);
        assert missing[..n + 1] == missing[..n] + [missing[n]];
      }
      assert missing[..|missing|] == missing;
    }

    /** One pass of that loop: a fresh default item for `m`, stored under its id. */
    method AddDefault(m: StremioMeta.Meta, ghost missing: seq<StremioMeta.Meta>)
      requires Valid() && m in missing
      modifies this`storeKeys, this`store
      ensures Valid() && m.id in store
      ensures store == old(store)[m.id := store[m.id]]
      ensures fresh(store[m.id]) && fresh(store[m.id].state) && DefaultFor(store[m.id], m.id, missing)
    {
      var state := new WatchState("", Progress("", 0, 0, 0, 0, 0, 0), "", false);
      var item := new LibraryItem(m.id, m.metaType, state, "", "", true, true);
      Put(item);
      assert IsDefaultItem(item, m.id, m.metaType);
    }

    /** `get_data_by_metas`: the items for the records, index-aligned; an
        item without a bitfield gets one over its record's episodes. */
    method GetDataByMetas(metas: seq<StremioMeta.Meta>, refresh: bool, response: seq<LibraryItem>)
      returns (requested: seq<string>, items: seq<LibraryItem>, r: Result<()>, ghost loaded: seq<Bitfield.WatchedBitfield?>)
      requires Valid()
      requires forall k :: k in store ==> store[k].Valid()
      requires forall i :: i in response ==> i.Valid()
      modifies this`storeKeys, this`store
      modifies StoreStates(store), StatesOf(response)
      ensures Valid()
      ensures requested == Uncached(MetaIds(metas), old(store).Keys, refresh)
      ensures |items| == |metas|
      ensures forall n :: 0 <= n < |metas| ==> metas[n].id in store && items[n] == store[metas[n].id]
      ensures forall n :: 0 <= n < |metas| ==> items[n].id == metas[n].id
      ensures forall n :: 0 <= n < |metas| && fresh(items[n]) ==> fresh(items[n].state)
      ensures forall n :: 0 <= n < |metas| && fresh(items[n]) ==> items[n].removed && items[n].temp
      ensures forall n :: 0 <= n < |metas| && fresh(items[n]) ==>
                TypedByRecord(items[n], metas)
      ensures forall n :: 0 <= n < |metas| && fresh(items[n]) ==>
                items[n].state.watched == "" && items[n].state.Counters() == Progress("", 0, 0, 0, 0, 0, 0)
      ensures forall n :: 0 <= n < |metas| && !fresh(items[n]) ==>
                items[n].state.watched == old(items[n].state.watched)
                && items[n].state.Counters() == old(items[n].state.Counters())
      ensures r.Success? ==> forall n :: 0 <= n < |metas| && metas[n].videos != [] ==>
                items[n].state.watchedBitfield != null
      ensures |loaded| == |metas|
      ensures forall n :: 0 <= n < |metas| ==>
                loaded[n] == if fresh(items[n]) then null else old(items[n].state.watchedBitfield)
      ensures r.Success? ==>
                forall n :: 0 <= n < |metas| && metas[n].videos != [] && UntouchedBefore(VideoIds(metas), items, n, n)
                  && loaded[n] == null
                  ==> CreatedOver(items[n].state, StremioMeta.Ids(metas[n].videos))
      ensures forall n :: 0 <= n < |metas| && loaded[n] != null ==> items[n].state.watchedBitfield == loaded[n]
      ensures forall n :: 0 <= n < |metas| && UntouchedBefore(VideoIds(metas), items, n, |metas|) ==>
                items[n].state.watchedBitfield == loaded[n]
      ensures r.Failure? ==>
                exists n :: 0 <= n < |metas| && metas[n].videos != [] &&
                  CreatedFrom(items[n].state.watched, StremioMeta.Ids(metas[n].videos)) == Failure(r.error)
    {
      requested, items := CollectItems(metas, refresh, response);
      loaded := BitfieldsOf(items);
      r := EnsureBitfields(metas, items);
    }

    /** The first half of `get_data_by_metas`: load the items and look up
        the one for each record. Every item found is well formed, and its
        watch state is one the caller already had or a fresh one. */
    method CollectItems(metas: seq<StremioMeta.Meta>, refresh: bool, response: seq<LibraryItem>)
      returns (requested: seq<string>, items: seq<LibraryItem>)
      requires Valid()
      requires forall k :: k in store ==> store[k].Valid()
      requires forall i :: i in response ==> i.Valid()
      modifies this`storeKeys, this`store
      ensures Valid()
      ensures requested == Uncached(MetaIds(metas), old(store).Keys, refresh)
      ensures |items| == |metas|
      ensures forall n :: 0 <= n < |metas| ==> metas[n].id in store && items[n] == store[metas[n].id]
      ensures forall n :: 0 <= n < |metas| ==> items[n].id == metas[n].id && items[n].Valid()
      ensures forall s :: s in StatesOf(items) ==> s in old(StoreStates(store)) || s in StatesOf(response) || fresh(s)
      ensures forall n :: 0 <= n < |metas| && fresh(items[n]) ==>
                fresh(items[n].state) && items[n].removed && items[n].temp
                && items[n].state.watched == "" && items[n].state.Counters() == Progress("", 0, 0, 0, 0, 0, 0)
                && items[n].state.watchedBitfield == null
                && TypedByRecord(items[n], metas)
    {
      requested := LoadItems(metas, refresh, response);
      items := seq(|metas|, n requires 0 <= n < |metas| && forall m :: m in metas ==> m.id in store
                   reads this => store[metas[n].id]);
      forall n | 0 <= n < |metas|
        ensures items[n].Valid()
        ensures items[n].state in old(StoreStates(store)) || items[n].state in StatesOf(response) || fresh(items[n].state)
        ensures fresh(items[n]) ==>
                  fresh(items[n].state) && items[n].removed && items[n].temp
                  && items[n].state.watched == "" && items[n].state.Counters() == Progress("", 0, 0, 0, 0, 0, 0)
                  && items[n].state.watchedBitfield == null
                  && TypedByRecord(items[n], metas)
      {
        var k := metas[n].id;
        assert k in store;
        if fresh(items[n]) {
          var m :| m in metas && m.id == k && IsDefaultItem(store[k], k, m.metaType);
        }
      }
    }

    /** `get_data_by_meta`: the same for a single record. */
    method GetDataByMeta(meta: StremioMeta.Meta, refresh: bool, response: seq<LibraryItem>)
      returns (item: LibraryItem, r: Result<()>)
      requires Valid()
      requires forall k :: k in store ==> store[k].Valid()
      requires forall i :: i in response ==> i.Valid()
      modifies this`storeKeys, this`store
      modifies StoreStates(store), StatesOf(response)
      ensures Valid() && meta.id in store && item == store[meta.id] && item.id == meta.id
      ensures fresh(item) ==>
                fresh(item.state) && item.itemType == meta.metaType && item.removed && item.temp
                && item.state.watched == "" && item.state.Counters() == Progress("", 0, 0, 0, 0, 0, 0)
      ensures !fresh(item) ==>
                item.state.watched == old(item.state.watched) && item.state.Counters() == old(item.state.Counters())
      ensures r.Success? && meta.videos != [] ==> item.state.watchedBitfield != null
      ensures r.Success? && meta.videos != [] && (fresh(item) || old(item.state.watchedBitfield) == null) ==>
                CreatedOver(item.state, StremioMeta.Ids(meta.videos))
      ensures r.Success? && meta.videos != [] && fresh(item) ==>
                var ids := StremioMeta.Ids(meta.videos);
                item.state.watchedBitfield.View() == Bits.Watched(Bits.NewBuffer(|ids|), ids)
      ensures !fresh(item) && (meta.videos == [] || old(item.state.watchedBitfield) != null) ==>
                item.state.watchedBitfield == old(item.state.watchedBitfield)
      ensures r.Failure? ==>
                meta.videos != [] && CreatedFrom(item.state.watched, StremioMeta.Ids(meta.videos)) == Failure(r.error)
    {
      var requested, items;
      ghost var loaded;
      requested, items, r, loaded := GetDataByMetas([meta], refresh, response);
      item := items[0];
      assert UntouchedBefore(VideoIds([meta]), items, 0, 0);
    }

    /** `get_metadata_by_id`: a cached record is returned as it is unless a
        refresh is asked for; otherwise the meta add-ons are asked in
        order and their answers merged, the first answer winning. */
    method GetMetadataById(id: string, mediaType: string, refresh: bool, fetch: string -> map<string, Utils.Json>)
      returns (r: Result<map<string, Utils.Json>>)
      modifies this`metadata
      ensures id in old(metadata) && !refresh ==> r == Success(old(metadata)[id]) && metadata == old(metadata)
      ensures !(id in old(metadata) && !refresh) ==>
                var sources := MatchingAddons(addons, "meta", Some(mediaType), Some(id));
                var responses := seq(|sources|, k requires 0 <= k < |sources| => fetch(GetUrl(MetaUrl(sources[k], mediaType, id))));
                r == Merge(responses)
                && metadata == if r.Success? then old(metadata)[id := r.value] else old(metadata)
    {
      if id !in metadata || refresh {
        var sources := FilterAddons("meta", Some(mediaType), Some(id));
        var responses := Utils.ThreadFunction(a => fetch(GetUrl(MetaUrl(a, mediaType, id))), sources);
        assert responses == seq(|sources|, k requires 0 <= k < |sources| => fetch(GetUrl(MetaUrl(sources[k], mediaType, id))));
        r := Merge(responses);
        if r.Failure? {
          return;
        }
        metadata := metadata[id := r.value];
      } else {
        r := Success(metadata[id]);
      }
    }
  }

  /** The dictionary after `store[i.id] = i` for each item in turn. */
  /** The ids of some items, in order. */
  function ItemIds(items: seq<LibraryItem>): (r: seq<string>)
    ensures |r| == |items| && forall n :: 0 <= n < |items| ==> r[n] == items[n].id
  {
    seq(|items|, n requires 0 <= n < |items| => items[n].id)
  }

  /** Loading a response into an empty store keys it by the response's ids
      in first-seen order. */
  lemma KeysFromEmpty(items: seq<LibraryItem>)
    ensures KeysAfter([], items) == Dedup(ItemIds(items))
  {
    KeysAfterDedup([], items);
    assert [] + ItemIds(items) == ItemIds(items);
  }

  /** The store's keys after `store[i.id] = i` for each item in turn. */
  function KeysAfter(keys: seq<string>, items: seq<LibraryItem>): seq<string>
    decreases |items|
  {
    if items == [] then keys
    else KeysAfter(if items[0].id in keys then keys else keys + [items[0].id], items[1..])
  }

  /** One more insertion: its id goes last unless already a key. */
  lemma {:induction false} KeysAfterSnoc(keys: seq<string>, items: seq<LibraryItem>, x: LibraryItem)
    ensures KeysAfter(keys, items + [x]) ==
              var k := KeysAfter(keys, items); if x.id in k then k else k + [x.id]
    decreases |items|
  {
    if items != [] {
      var next := if items[0].id in keys then keys else keys + [items[0].id];
      assert (items + [x])[1..] == items[1..] + [x];
      KeysAfterSnoc(next, items[1..], x);
    }
  }

  /** From distinct keys, the keys after the insertions are the distinct
      ids in order of first appearance: the keys of `{i.id: i for i in
      items}` when the store starts empty. */
  lemma {:induction false} KeysAfterDedup(keys: seq<string>, items: seq<LibraryItem>)
    requires Distinct(keys)
    ensures KeysAfter(keys, items) == Dedup(keys + ItemIds(items))
    decreases |items|
  {
    if items == [] {
      assert keys + ItemIds(items) == keys;
      DedupDistinct(keys);
    } else {
      var init := items[..|items| - 1];
      var x := items[|items| - 1];
      assert items == init + [x];
      KeysAfterDedup(keys, init);
      KeysAfterSnoc(keys, init, x);
      assert keys + ItemIds(items) == (keys + ItemIds(init)) + [x.id];
      DedupSnoc(keys + ItemIds(init), x.id);
    }
  }

  function StoreAfter(store: map<string, LibraryItem>, items: seq<LibraryItem>): map<string, LibraryItem>
    decreases |items|
  {
    if items == [] then store else StoreAfter(store[items[0].id := items[0]], items[1..])
  }

  /** The last item with a given id is the one stored under it; ids no
      item has keep their old entry. */
  lemma {:induction false} StoreAfterLastWins(store: map<string, LibraryItem>, items: seq<LibraryItem>, j: nat)
    requires j < |items| && forall l :: j < l < |items| ==> items[l].id != items[j].id
    ensures items[j].id in StoreAfter(store, items) && StoreAfter(store, items)[items[j].id] == items[j]
    decreases |items|
  {
    if j > 0 {
      StoreAfterLastWins(store[items[0].id := items[0]], items[1..], j - 1);
    } else {
      StoreAfterUntouched(store[items[0].id := items[0]], items[1..], items[0].id);
    }
  }

  /** Every item's id is stored, every stored entry is an old one or one
      of the items, and no old key is lost. */
  lemma {:induction false} StoreAfterCovers(store: map<string, LibraryItem>, items: seq<LibraryItem>)
    ensures forall i :: i in items ==> i.id in StoreAfter(store, items)
    ensures forall k :: k in StoreAfter(store, items) ==>
              (k in store && StoreAfter(store, items)[k] == store[k]) || StoreAfter(store, items)[k] in items
    ensures forall k :: k in store ==> k in StoreAfter(store, items)
    decreases |items|
  {
    if items != [] {
      var next := store[items[0].id := items[0]];
      StoreAfterCovers(next, items[1..]);
      assert items == [items[0]] + items[1..];
    }
  }

  /** Inserting never drops a key. */
  lemma {:induction false} KeysAfterKeeps(keys: seq<string>, items: seq<LibraryItem>)
    ensures forall k :: k in keys ==> k in KeysAfter(keys, items)
    decreases |items|
  {
    if items != [] {
      KeysAfterKeeps(if items[0].id in keys then keys else keys + [items[0].id], items[1..]);
    }
  }

  lemma {:induction false} StoreAfterUntouched(store: map<string, LibraryItem>, items: seq<LibraryItem>, k: string)
    requires k in store && forall l :: 0 <= l < |items| ==> items[l].id != k
    ensures k in StoreAfter(store, items) && StoreAfter(store, items)[k] == store[k]
    decreases |items|
  {
    if items != [] {
      StoreAfterUntouched(store[items[0].id := items[0]], items[1..], k);
    }
  }

  function MetaIds(metas: seq<StremioMeta.Meta>): (r: seq<string>)
    ensures |r| == |metas| && forall n :: 0 <= n < |metas| ==> r[n] == metas[n].id
  {
    seq(|metas|, n requires 0 <= n < |metas| => metas[n].id)
  }

  /** `[m for m in metas if m.id not in store]`. */
  function MissingMetas(metas: seq<StremioMeta.Meta>, store: set<string>): (r: seq<StremioMeta.Meta>)
    ensures forall m :: m in r ==> m in metas && m.id !in store
    ensures forall m :: m in metas && m.id !in store ==> m in r
  {
    if metas == [] then []
    else
      var init := metas[..|metas| - 1];
      var last := metas[|metas| - 1];
      assert metas == init + [last];
      MissingMetas(init, store) + if last.id !in store then [last] else []
  }

  /** The inner loop of `_filter_addons`: the add-on once per structured
      resource that admits the request. */
  method ResourceMatches(a: Addon, addonType: string, mediaType: Option<string>, id: Option<string>)
    returns (matching: seq<Addon>)
    ensures matching == Repeat(a, MatchCount(a.manifest.resources, addonType, mediaType, id))
  {
    var rs := a.manifest.resources;
    matching := [];
    for j := 0 to |rs|
      invariant matching == Repeat(a, MatchCount(rs[..j], addonType, mediaType, id))
    {
      assert rs[..j + 1][..j] == rs[..j];
      if rs[j].Structured? {
        var r := rs[j].resource;
        if r.name == addonType && TypeMatches(mediaType, r.types) && PrefixMatches(r.idPrefixes, id) {
          matching := matching + [a];
        }
      }
    }
    assert rs[..|rs|] == rs;
  }

  /** The bitfield loop of `get_data_by_metas`: an item that has no
      bitfield and whose record has episodes gets one over their ids. */
  /** The video ids of each record, as `create_bitfield` receives them. */
  function VideoIds(metas: seq<StremioMeta.Meta>): (r: seq<seq<string>>)
    reads set m | m in metas
    ensures |r| == |metas| && forall n :: 0 <= n < |metas| ==> r[n] == StremioMeta.Ids(metas[n].videos)
  {
    seq(|metas|, n requires 0 <= n < |metas| reads set m | m in metas => StremioMeta.Ids(metas[n].videos))
  }

  /** No record with videos among the first `n` shares item `k`'s state:
      the loop has not reached that state yet. */
  predicate UntouchedBefore(ids: seq<seq<string>>, items: seq<LibraryItem>, k: int, n: int)
  {
    0 <= k < |items| && forall j :: 0 <= j < n && j < |ids| && j < |items| && ids[j] != [] ==> items[j].state != items[k].state
  }

  /** The watch states of some items. */
  function StatesOf(items: seq<LibraryItem>): set<WatchState>
  {
    set i | i in items :: i.state
  }

  /** The watch states of the stored items. */
  function StoreStates(store: map<string, LibraryItem>): set<WatchState>
  {
    set k | k in store :: store[k].state
  }

  /** `cur` after the state `s` took the bitfield `wb`: every item sharing
      `s` now sees `wb`. */
  ghost function Rebound(items: seq<LibraryItem>, s: WatchState, wb: Bitfield.WatchedBitfield?,
                         cur: seq<Bitfield.WatchedBitfield?>): (r: seq<Bitfield.WatchedBitfield?>)
    requires |cur| == |items|
    ensures |r| == |items|
    ensures forall j :: 0 <= j < |items| ==> r[j] == if items[j].state == s then wb else cur[j]
  {
    seq(|items|, j requires 0 <= j < |items| => if items[j].state == s then wb else cur[j])
  }

  /** The bitfield of each item's state. */
  ghost function BitfieldsOf(items: seq<LibraryItem>): (r: seq<Bitfield.WatchedBitfield?>)
    reads set i | i in items :: i.state
    ensures |r| == |items| && forall j :: 0 <= j < |items| ==> r[j] == items[j].state.watchedBitfield
  {
    seq(|items|, j requires 0 <= j < |items| reads set i | i in items :: i.state => items[j].state.watchedBitfield)
  }

  /** The item's type is that of a record with its id. */
  predicate TypedByRecord(item: LibraryItem, metas: seq<StremioMeta.Meta>)
    reads item
  {
    exists m :: m in metas && m.id == item.id && item.itemType == m.metaType
  }

  /** The progress text of each item's state. */
  ghost function WatchedOf(items: seq<LibraryItem>): (r: seq<string>)
    reads set i | i in items :: i.state
    ensures |r| == |items| && forall j :: 0 <= j < |items| ==> r[j] == items[j].state.watched
  {
    seq(|items|, j requires 0 <= j < |items| reads set i | i in items :: i.state => items[j].state.watched)
  }

  /** The counters of each item's state. */
  ghost function CountersOf(items: seq<LibraryItem>): (r: seq<Progress>)
    reads set i | i in items :: i.state
    ensures |r| == |items| && forall j :: 0 <= j < |items| ==> r[j] == items[j].state.Counters()
  {
    seq(|items|, j requires 0 <= j < |items| reads set i | i in items :: i.state => items[j].state.Counters())
  }

  /** What `create_bitfield` gives for each progress text and id list. */
  ghost function CreatedAll(watched: seq<string>, ids: seq<seq<string>>): (r: seq<Result<Bits.Watched>>)
    requires |watched| == |ids|
    ensures |r| == |ids| && forall j :: 0 <= j < |ids| ==> r[j] == CreatedFrom(watched[j], ids[j])
  {
    seq(|ids|, j requires 0 <= j < |ids| => CreatedFrom(watched[j], ids[j]))
  }

  /** Whether each record is the first with videos to reach its item's state. */
  ghost function FirstToReach(ids: seq<seq<string>>, items: seq<LibraryItem>): (r: seq<bool>)
    requires |items| == |ids|
    ensures |r| == |items| && forall j :: 0 <= j < |items| ==> r[j] == UntouchedBefore(ids, items, j, j)
  {
    seq(|items|, j requires 0 <= j < |items| => UntouchedBefore(ids, items, j, j))
  }

  /** One step of the bitfield loop of `get_data_by_metas`, stated over
      snapshots taken before the loop: `ids` the records' video ids,
      `bitfields`, `watched` and `counters` the states as they were,
      `expected` what `create_bitfield` gives for each, `first` whether a
      record is the first with videos to reach its state, and `cur` the
      bitfield each item's state holds before this step. */
  method EnsureBitfield(items: seq<LibraryItem>, n: nat, videoIds: seq<string>,
                        ghost ids: seq<seq<string>>, ghost bitfields: seq<Bitfield.WatchedBitfield?>,
                        ghost watched: seq<string>, ghost counters: seq<Progress>,
                        ghost expected: seq<Result<Bits.Watched>>, ghost first: seq<bool>,
                        ghost cur: seq<Bitfield.WatchedBitfield?>)
    returns (r: Result<()>, ghost next: seq<Bitfield.WatchedBitfield?>)
    requires |items| == |ids| == |bitfields| == |watched| == |counters| == |expected| == |first| == |cur|
    requires n < |items| && videoIds == ids[n]
    requires forall j :: 0 <= j < |items| ==> expected[j] == CreatedFrom(watched[j], ids[j])
    requires first[n] == UntouchedBefore(ids, items, n, n)
    requires forall j :: 0 <= j < |items| ==> items[j].state.watchedBitfield == cur[j]
    requires forall j :: 0 <= j < |items| ==> items[j].Valid()
    requires forall j :: 0 <= j < |items| ==>
               items[j].state.watched == watched[j] && items[j].state.Counters() == counters[j]
    requires forall j :: 0 <= j < n && ids[j] != [] ==> cur[j] != null
    requires forall j :: 0 <= j < |items| && bitfields[j] != null ==> cur[j] == bitfields[j]
    requires forall j :: 0 <= j < n && ids[j] != [] && bitfields[j] == null && first[j]
               ==> cur[j] != null && expected[j] == Success(cur[j].View())
    requires forall j :: 0 <= j < |items| && UntouchedBefore(ids, items, j, n) ==> cur[j] == bitfields[j]
    modifies items[n].state
    ensures |next| == |items|
    ensures forall j :: 0 <= j < |items| ==> items[j].state.watchedBitfield == next[j]
    ensures forall j :: 0 <= j < |items| ==> items[j].Valid()
    ensures forall j :: 0 <= j < |items| ==>
              items[j].state.watched == watched[j] && items[j].state.Counters() == counters[j]
    ensures forall j :: 0 <= j < |items| && bitfields[j] != null ==> next[j] == bitfields[j]
    ensures r.Success? ==> forall j :: 0 <= j < n + 1 && ids[j] != [] ==> next[j] != null
    ensures r.Success? ==>
              forall j :: 0 <= j < n + 1 && ids[j] != [] && bitfields[j] == null && first[j] ==>
                next[j] != null && expected[j] == Success(next[j].View())
    ensures r.Success? ==> forall j :: 0 <= j < |items| && UntouchedBefore(ids, items, j, n + 1) ==> next[j] == bitfields[j]
    ensures r.Failure? ==> next == cur && ids[n] != [] && CreatedFrom(items[n].state.watched, ids[n]) == Failure(r.error)
  {
    next := cur;
    var state := items[n].state;
    if state.watchedBitfield == null && videoIds != [] {
      assert first[n];
      r := state.CreateBitfield(videoIds);
      if r.Failure? {
        return;
      }
      assert expected[n] == Success(state.watchedBitfield.View());
      next := Rebound(items, state, state.watchedBitfield, cur);
    } else {
      r := Success(());
    }
  }

  /** The loop of `EnsureBitfields` over the snapshots `EnsureBitfield`
      describes; on failure it stops at the first decode error. */
  method EnsureBitfieldsLoop(metas: seq<StremioMeta.Meta>, items: seq<LibraryItem>,
                             ghost ids: seq<seq<string>>, ghost bitfields: seq<Bitfield.WatchedBitfield?>,
                             ghost watched: seq<string>, ghost counters: seq<Progress>,
                             ghost expected: seq<Result<Bits.Watched>>, ghost first: seq<bool>)
    returns (r: Result<()>)
    requires |items| == |metas| == |ids| == |bitfields| == |watched| == |counters| == |expected| == |first|
    requires forall j :: 0 <= j < |items| ==> ids[j] == StremioMeta.Ids(metas[j].videos)
    requires forall j :: 0 <= j < |items| ==> expected[j] == CreatedFrom(watched[j], ids[j])
    requires forall j :: 0 <= j < |items| ==> first[j] == UntouchedBefore(ids, items, j, j)
    requires forall j :: 0 <= j < |items| ==> items[j].state.watchedBitfield == bitfields[j]
    requires forall j :: 0 <= j < |items| ==> items[j].Valid()
    requires forall j :: 0 <= j < |items| ==>
               items[j].state.watched == watched[j] && items[j].state.Counters() == counters[j]
    modifies StatesOf(items)
    ensures forall j :: 0 <= j < |items| ==> items[j].Valid()
    ensures forall j :: 0 <= j < |items| ==>
              items[j].state.watched == watched[j] && items[j].state.Counters() == counters[j]
    ensures forall j :: 0 <= j < |items| && bitfields[j] != null ==> items[j].state.watchedBitfield == bitfields[j]
    ensures r.Success? ==> forall j :: 0 <= j < |items| && ids[j] != [] ==> items[j].state.watchedBitfield != null
    ensures r.Success? ==>
              forall j :: 0 <= j < |items| && ids[j] != [] && bitfields[j] == null && first[j] ==>
                items[j].state.watchedBitfield != null && expected[j] == Success(items[j].state.watchedBitfield.View())
    ensures forall j :: 0 <= j < |items| && UntouchedBefore(ids, items, j, |items|) ==>
              items[j].state.watchedBitfield == bitfields[j]
    ensures r.Failure? ==>
              exists n :: 0 <= n < |items| && metas[n].videos != [] &&
                CreatedFrom(items[n].state.watched, StremioMeta.Ids(metas[n].videos)) == Failure(r.error)
  {
    ghost var cur := bitfields;
    r := Success(());
    for n := 0 to |items|
      invariant r.Success?
      invariant |cur| == |items|
      invariant forall j :: 0 <= j < |items| ==> items[j].state.watchedBitfield == cur[j]
      invariant forall j :: 0 <= j < |items| ==> items[j].Valid()
      invariant forall j :: 0 <= j < |items| ==>
                  items[j].state.watched == watched[j] && items[j].state.Counters() == counters[j]
      invariant forall j :: 0 <= j < n && ids[j] != [] ==> cur[j] != null
      invariant forall j :: 0 <= j < |items| && bitfields[j] != null ==> cur[j] == bitfields[j]
      invariant forall j :: 0 <= j < n && ids[j] != [] && bitfields[j] == null && first[j]
                  ==> cur[j] != null && expected[j] == Success(cur[j].View())
      invariant forall j :: 0 <= j < |items| && UntouchedBefore(ids, items, j, n) ==> cur[j] == bitfields[j]
    {
      var videoIds := StremioMeta.Ids(metas[n].videos);
      r, cur := EnsureBitfield(items, n, videoIds, ids, bitfields, watched, counters, expected, first, cur);
      if r.Failure? {
        assert metas[n].videos != [];
        return;
      }
    }
  }

  /** The bitfield loop of `get_data_by_metas`: each item still without a
      bitfield whose record has videos gets `create_bitfield` over the
      record's video ids; the first decode error stops the loop. Items may
      share a state (a record id given twice); the first record with videos
      that reaches a state decides its bitfield, and a state no record with
      videos reaches keeps its bitfield. */
  method EnsureBitfields(metas: seq<StremioMeta.Meta>, items: seq<LibraryItem>) returns (r: Result<()>)
    requires |items| == |metas|
    requires forall n :: 0 <= n < |items| ==> items[n].Valid()
    modifies StatesOf(items)
    ensures forall n :: 0 <= n < |items| ==> items[n].Valid()
    ensures r.Success? ==> forall n :: 0 <= n < |metas| && metas[n].videos != [] ==>
              items[n].state.watchedBitfield != null
    ensures forall n :: 0 <= n < |items| && old(items[n].state.watchedBitfield) != null ==>
              items[n].state.watchedBitfield == old(items[n].state.watchedBitfield)
    ensures r.Success? ==>
              forall n :: 0 <= n < |items| && metas[n].videos != [] && old(items[n].state.watchedBitfield) == null
                && UntouchedBefore(VideoIds(metas), items, n, n)
                ==> CreatedOver(items[n].state, StremioMeta.Ids(metas[n].videos))
    ensures forall n :: 0 <= n < |items| && UntouchedBefore(VideoIds(metas), items, n, |items|) ==>
              items[n].state.watchedBitfield == old(items[n].state.watchedBitfield)
    ensures forall n :: 0 <= n < |items| ==>
              items[n].state.watched == old(items[n].state.watched)
              && items[n].state.Counters() == old(items[n].state.Counters())
    ensures forall n :: 0 <= n < |items| ==> items[n].removed == old(items[n].removed) && items[n].temp == old(items[n].temp)
    ensures r.Failure? ==>
              exists n :: 0 <= n < |items| && metas[n].videos != [] &&
                CreatedFrom(items[n].state.watched, StremioMeta.Ids(metas[n].videos)) == Failure(r.error)
  {
    ghost var ids := VideoIds(metas);
    ghost var bitfields := BitfieldsOf(items);
    ghost var watched := WatchedOf(items);
    ghost var counters := CountersOf(items);
    ghost var expected := CreatedAll(watched, ids);
    ghost var first := FirstToReach(ids, items);
    r := EnsureBitfieldsLoop(metas, items, ids, bitfields, watched, counters, expected, first);
    assert VideoIds(metas) == ids;
    if r.Success? {
      forall n | 0 <= n < |items| && ids[n] != [] && bitfields[n] == null && UntouchedBefore(ids, items, n, n)
        ensures CreatedOver(items[n].state, ids[n])
      {
        assert first[n];
        assert expected[n] == CreatedFrom(items[n].state.watched, ids[n]);
      }
    }
  }


}
