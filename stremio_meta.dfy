/** Metadata records (resources/lib/classes/StremioMeta.py): episodes and
    their order, the migration of legacy list fields into links, seasons,
    the watched flag and the decoder's choice of record class. */
module StremioMeta {
  import opened Wrappers
  import opened Text
  import opened Seqs
  import opened StremioLibrary
  import Bitfield
  import Bits

  /** A `Link`: a named entry in a category, with an optional url. */
  datatype Link = Link(name: string, category: string, url: Option<string>)

  /** The fields of a `Video` that take part in dataclass equality
      (everything except the back-reference to the parent). */
  datatype VideoRecord = VideoRecord(
    id: string, title: Option<string>, name: Option<string>, released: Option<string>,
    number: Option<int>, firstAired: Option<string>, tvdbId: Option<int>,
    rating: Option<string>, overview: Option<string>, thumbnail: Option<string>,
    episode: Option<int>, description: Option<string>, season: Option<int>)

  /** Python's `a or b` on optional strings. */
  function Or(a: Option<string>, b: Option<string>): (r: Option<string>)
    ensures Truthy(a) ==> r == a
    ensures !Truthy(a) ==> r == b
  {
    if Truthy(a) then a else b
  }

  // ---------------------------------------------------------------------
  // Video
  // ---------------------------------------------------------------------

  class Video {
    const id: string
    const title: Option<string>
    const name: Option<string>
    const released: Option<string>
    const number: Option<int>
    const firstAired: Option<string>
    const tvdbId: Option<int>
    const rating: Option<string>
    const overview: Option<string>
    const thumbnail: Option<string>
    const episode: Option<int>
    const description: Option<string>
    const season: Option<int>
    var parent: Meta?

    /** Construction with `__post_init__`: the name falls back from the
        title, the description from the overview. */
    constructor (id: string, title: Option<string>, name: Option<string>, released: Option<string>,
                 number: Option<int>, firstAired: Option<string>, tvdbId: Option<int>,
                 rating: Option<string>, overview: Option<string>, thumbnail: Option<string>,
                 episode: Option<int>, description: Option<string>, season: Option<int>)
      ensures this.name == Or(title, name) && this.description == Or(description, overview)
      ensures this.id == id && this.title == title && this.released == released
      ensures this.number == number && this.firstAired == firstAired && this.tvdbId == tvdbId
      ensures this.rating == rating && this.overview == overview && this.thumbnail == thumbnail
      ensures this.episode == episode && this.season == season
      ensures parent == null
    {
      this.id := id;
      this.title := title;
      this.name := Or(title, name);
      this.released := released;
      this.number := number;
      this.firstAired := firstAired;
      this.tvdbId := tvdbId;
      this.rating := rating;
      this.overview := overview;
      this.thumbnail := thumbnail;
      this.episode := episode;
      this.description := Or(description, overview);
      this.season := season;
      this.parent := null;
    }

    function Record(): VideoRecord {
      VideoRecord(id, title, name, released, number, firstAired, tvdbId,
                  rating, overview, thumbnail, episode, description, season)
    }

    /** The `watched` property: the parent's bitfield entry for this id;
        a missing parent, library item or bitfield reads as unwatched. */
    function Watched(): (r: bool)
      reads ParentFrame()
    {
      parent != null && parent.VideoWatched(id)
    }

    /** The objects read to reach the parent's bitfield. */
    function ParentFrame(): set<object?>
      reads this, parent
      reads if parent == null then {} else {parent.library}
      reads if parent == null || parent.library == null then {} else {parent.library.state}
      reads if parent == null || parent.library == null || parent.library.state.watchedBitfield == null then {}
            else {parent.library.state.watchedBitfield.bitfield}
    {
      {this} + if parent == null then {} else {parent} + parent.LibraryFrame()
    }

    /** `idx`: the first position in the parent's list holding a video
        equal to this one. */
    function Idx(): (r: nat)
      reads this, parent
      requires parent != null && Record() in Records(parent.videos)
      ensures r < |parent.videos| && parent.videos[r].Record() == Record()
      ensures forall j :: 0 <= j < r ==> parent.videos[j].Record() != Record()
    {
      IndexOf(Records(parent.videos), Record())
    }

    /** `next_episode`: the video after this one, or none when this one
        equals the last video. */
    function NextEpisode(): (r: Option<Video>)
      reads this, parent
      requires parent != null && Record() in Records(parent.videos)
      ensures r.None? <==> parent.videos[|parent.videos| - 1].Record() == Record()
      ensures r.Some? ==> Idx() + 1 < |parent.videos| && r.value == parent.videos[Idx() + 1]
    {
      var vs := parent.videos;
      if vs[|vs| - 1].Record() != Record() then
        var i := Idx();
        assert i != |vs| - 1;
        Some(vs[i + 1])
      else None
    }
  }

  function Records(vs: seq<Video>): (r: seq<VideoRecord>)
    ensures |r| == |vs| && forall i :: 0 <= i < |vs| ==> r[i] == vs[i].Record()
  {
    seq(|vs|, i requires 0 <= i < |vs| => vs[i].Record())
  }

  function Ids(vs: seq<Video>): (r: seq<string>)
    ensures |r| == |vs| && forall i :: 0 <= i < |vs| ==> r[i] == vs[i].id
  {
    seq(|vs|, i requires 0 <= i < |vs| => vs[i].id)
  }

  /** With pairwise different records, the next episode of the video at
      position `i` is the one at `i + 1`, and the last one has none. */
  lemma NextEpisodeOfDistinct(m: Meta, i: nat)
    requires i < |m.videos| && m.videos[i].parent == m
    requires Distinct(Records(m.videos))
    ensures m.videos[i].Record() in Records(m.videos)
    ensures m.videos[i].NextEpisode() == if i + 1 < |m.videos| then Some(m.videos[i + 1]) else None
  {
    var rs := Records(m.videos);
    assert rs[i] == m.videos[i].Record();
    IndexOfDistinct(rs, i);
    if i + 1 < |m.videos| {
      assert rs[|rs| - 1] != rs[i];
    }
  }

  // ---------------------------------------------------------------------
  // The episode order
  // ---------------------------------------------------------------------

  /** The sort key `(season, episode, released)`. */
  datatype VideoKey = VideoKey(season: Option<int>, episode: Option<int>, released: Option<string>)

  function Key(v: Video): VideoKey {
    VideoKey(v.season, v.episode, v.released)
  }

  /** `<` on one key component. Python raises when it has to order `None`
      against a value; here `None` comes first, which only matters for
      lists the sort would reject (see VideosComparable). */
  predicate IntLess(a: Option<int>, b: Option<int>) {
    (a.None? && b.Some?) || (a.Some? && b.Some? && a.value < b.value)
  }

  predicate StrOptLess(a: Option<string>, b: Option<string>) {
    (a.None? && b.Some?) || (a.Some? && b.Some? && StrLess(a.value, b.value))
  }

  /** Tuple comparison: the first component that differs decides. */
  predicate KeyLess(a: VideoKey, b: VideoKey) {
    IntLess(a.season, b.season)
    || (a.season == b.season && IntLess(a.episode, b.episode))
    || (a.season == b.season && a.episode == b.episode && StrOptLess(a.released, b.released))
  }

  lemma KeyLessIrreflexive(a: VideoKey)
    ensures !KeyLess(a, a)
  {
    if a.released.Some? {
      StrLessIrreflexive(a.released.value);
    }
  }

  lemma KeyLessTransitive(a: VideoKey, b: VideoKey, c: VideoKey)
    ensures KeyLess(a, b) && KeyLess(b, c) ==> KeyLess(a, c)
  {
    if KeyLess(a, b) && KeyLess(b, c) && a.season == b.season == c.season && a.episode == b.episode == c.episode
       && a.released.Some? && b.released.Some? && c.released.Some? {
      StrLessTransitive(a.released.value, b.released.value, c.released.value);
    }
  }

  lemma KeyLessTotal(a: VideoKey, b: VideoKey)
    ensures a == b || KeyLess(a, b) || KeyLess(b, a)
  {
    if a.season == b.season && a.episode == b.episode && a.released.Some? && b.released.Some?
       && a.released != b.released {
      StrLessTotal(a.released.value, b.released.value);
    }
  }

  /** No video is ordered before one that precedes it. */
  predicate VideosSorted(vs: seq<Video>) {
    forall i, j :: 0 <= i < j < |vs| ==> !KeyLess(Key(vs[j]), Key(vs[i]))
  }

  /** The sort compares every key component without a TypeError: each
      component is set in all videos or in none. */
  predicate VideosComparable(vs: seq<Video>) {
    ((forall v :: v in vs ==> v.season.Some?) || (forall v :: v in vs ==> v.season.None?))
    && ((forall v :: v in vs ==> v.episode.Some?) || (forall v :: v in vs ==> v.episode.None?))
    && ((forall v :: v in vs ==> v.released.Some?) || (forall v :: v in vs ==> v.released.None?))
  }

  /** One step of the stable sort: `v` goes after every video whose key
      is not greater than its own. */
  function InsertVideo(sorted: seq<Video>, v: Video): (r: seq<Video>)
    ensures multiset(r) == multiset(sorted) + multiset{v}
  {
    if sorted == [] then [v]
    else if KeyLess(Key(v), Key(sorted[0])) then [v] + sorted
    else
      assert sorted == [sorted[0]] + sorted[1..];
      [sorted[0]] + InsertVideo(sorted[1..], v)
  }

  lemma {:induction false} InsertVideoSorted(sorted: seq<Video>, v: Video)
    requires VideosSorted(sorted)
    ensures VideosSorted(InsertVideo(sorted, v))
    decreases |sorted|
  {
    if sorted == [] {
    } else if KeyLess(Key(v), Key(sorted[0])) {
      var r := [v] + sorted;
      forall i, j | 0 <= i < j < |r|
        ensures !KeyLess(Key(r[j]), Key(r[i]))
      {
        if i == 0 {
          KeyLessIrreflexive(Key(v));
          KeyLessTransitive(Key(v), Key(sorted[0]), Key(v));
          KeyLessTransitive(Key(r[j]), Key(v), Key(sorted[0]));
          if j > 1 {
            assert !KeyLess(Key(sorted[j - 1]), Key(sorted[0]));
          }
        } else {
          assert r[i] == sorted[i - 1] && r[j] == sorted[j - 1];
        }
      }
    } else {
      var s0 := sorted[0];
      var rest := sorted[1..];
      assert VideosSorted(rest) by {
        forall i, j | 0 <= i < j < |rest| ensures !KeyLess(Key(rest[j]), Key(rest[i])) {
          assert rest[i] == sorted[i + 1] && rest[j] == sorted[j + 1];
        }
      }
      InsertVideoSorted(rest, v);
      var tail := InsertVideo(rest, v);
      var r := [s0] + tail;
      forall i, j | 0 <= i < j < |r|
        ensures !KeyLess(Key(r[j]), Key(r[i]))
      {
        if i == 0 {
          var x := tail[j - 1];
          assert x in multiset(tail);
          assert x in multiset(rest) || x == v;
          if x != v {
            var k :| 0 <= k < |rest| && rest[k] == x;
            assert sorted[k + 1] == x;
          }
        } else {
          assert r[i] == tail[i - 1] && r[j] == tail[j - 1];
        }
      }
    }
  }

  /** `videos.sort(key=...)`: a stable sort by (season, episode, released). */
  function SortVideos(vs: seq<Video>): (r: seq<Video>)
    ensures multiset(r) == multiset(vs)
  {
    if vs == [] then []
    else
      assert vs == vs[..|vs| - 1] + [vs[|vs| - 1]];
      InsertVideo(SortVideos(vs[..|vs| - 1]), vs[|vs| - 1])
  }

  /** The sort orders the videos by their key. */
  lemma {:induction false} SortVideosSorted(vs: seq<Video>)
    ensures VideosSorted(SortVideos(vs))
    decreases |vs|
  {
    if vs != [] {
      SortVideosSorted(vs[..|vs| - 1]);
      InsertVideoSorted(SortVideos(vs[..|vs| - 1]), vs[|vs| - 1]);
    }
  }

  // ---------------------------------------------------------------------
  // Seasons
  // ---------------------------------------------------------------------

  /** The order of the `seasons` sort key `(k == 0, k)`: season 0 (the
      specials) last, the others ascending. */
  predicate SeasonBefore(a: int, b: int) {
    a != 0 && (b == 0 || a < b)
  }

  predicate SeasonsOrdered(s: seq<int>) {
    forall i, j :: 0 <= i < j < |s| ==> SeasonBefore(s[i], s[j])
  }

  /** Adds one season number to an ordered list without duplicates. */
  function InsertSeason(s: seq<int>, k: int): (r: seq<int>)
    requires SeasonsOrdered(s)
    ensures SeasonsOrdered(r)
    ensures forall x :: x in r <==> x in s || x == k
  {
    if s == [] then [k]
    else if s[0] == k then s
    else if SeasonBefore(k, s[0]) then
      assert forall j :: 0 < j < |s| ==> SeasonBefore(s[0], s[j]);
      [k] + s
    else
      var tail := InsertSeason(s[1..], k);
      assert forall x :: x in tail ==> x in s[1..] || x == k;
      assert SeasonBefore(s[0], k);
      assert forall x :: x in s[1..] ==> SeasonBefore(s[0], x);
      var r := [s[0]] + tail;
      assert forall j :: 0 < j < |r| ==> r[j] == tail[j - 1] && tail[j - 1] in tail;
      r
  }

  /** The distinct season numbers of the videos, in the `seasons` order. */
  function SeasonNumbers(vs: seq<Video>): (r: seq<int>)
    requires forall v :: v in vs ==> v.season.Some?
    ensures SeasonsOrdered(r)
    ensures forall x :: x in r <==> exists v :: v in vs && v.season == Some(x)
  {
    if vs == [] then []
    else
      var last := vs[|vs| - 1];
      var init := vs[..|vs| - 1];
      assert vs == init + [last];
      InsertSeason(SeasonNumbers(init), last.season.value)
  }

  /** An ordered list has no duplicates and is fixed by its elements. */
  lemma {:induction false} SeasonsOrderedUnique(a: seq<int>, b: seq<int>)
    requires SeasonsOrdered(a) && SeasonsOrdered(b)
    requires forall x :: x in a <==> x in b
    ensures a == b
    decreases |a| + |b|
  {
    if a != [] {
      assert a[0] in a;
    }
    if b != [] {
      assert b[0] in b;
    }
    if a != [] && b != [] {
      var i :| 0 <= i < |b| && b[i] == a[0];
      var j :| 0 <= j < |a| && a[j] == b[0];
      assert i > 0 ==> SeasonBefore(b[0], a[0]);
      assert j > 0 ==> SeasonBefore(a[0], b[0]);
      assert a[0] == b[0];
      assert a == [a[0]] + a[1..] && b == [b[0]] + b[1..];
      forall x ensures x in a[1..] <==> x in b[1..] {
        if x in a[1..] {
          var k :| 1 <= k < |a| && a[k] == x;
          assert SeasonBefore(a[0], x) && x in a && x in b && x != b[0];
        }
        if x in b[1..] {
          var k :| 1 <= k < |b| && b[k] == x;
          assert SeasonBefore(b[0], x) && x in b && x in a && x != a[0];
        }
      }
      assert SeasonsOrdered(a[1..]) by {
        forall i, j | 0 <= i < j < |a[1..]| ensures SeasonBefore(a[1..][i], a[1..][j]) {
          assert a[1..][i] == a[i + 1] && a[1..][j] == a[j + 1];
        }
      }
      assert SeasonsOrdered(b[1..]) by {
        forall i, j | 0 <= i < j < |b[1..]| ensures SeasonBefore(b[1..][i], b[1..][j]) {
          assert b[1..][i] == b[i + 1] && b[1..][j] == b[j + 1];
        }
      }
      SeasonsOrderedUnique(a[1..], b[1..]);
    }
  }

  /** The seasons do not depend on the order of the videos. */
  lemma SeasonNumbersPermutation(vs: seq<Video>, ws: seq<Video>)
    requires forall v :: v in vs ==> v.season.Some?
    requires multiset(vs) == multiset(ws)
    ensures forall v :: v in ws ==> v.season.Some?
    ensures SeasonNumbers(vs) == SeasonNumbers(ws)
  {
    assert forall v :: v in vs <==> v in ws by {
      forall v ensures v in vs <==> v in ws {
        assert v in vs <==> v in multiset(vs);
        assert v in ws <==> v in multiset(ws);
      }
    }
    SeasonsOrderedUnique(SeasonNumbers(vs), SeasonNumbers(ws));
  }

  // ---------------------------------------------------------------------
  // The record
  // ---------------------------------------------------------------------

  /** Whether a link with this name and category is already present. */
  predicate HasLink(links: seq<Link>, name: string, category: string) {
    exists i :: 0 <= i < |links| && links[i].name == name && links[i].category == category
  }

  /** `_consolidate_links`: each legacy name becomes a url-less link of the
      category unless that pair is present, counting links the same call
      has just added. */
  function Consolidate(links: seq<Link>, category: string, legacy: seq<string>): seq<Link>
    decreases |legacy|
  {
    if legacy == [] then links
    else
      var next := if HasLink(links, legacy[0], category) then links
                  else links + [Link(legacy[0], category, None)];
      Consolidate(next, category, legacy[1..])
  }

  /** No two links of the category share a name. */
  predicate UniqueIn(links: seq<Link>, category: string) {
    forall i, j :: 0 <= i < j < |links| && links[i].category == category && links[j].category == category
      ==> links[i].name != links[j].name
  }

  /** The old links stay in front; every added link is a url-less link of
      the category named in the legacy list. */
  lemma {:induction false} ConsolidateExtends(links: seq<Link>, category: string, legacy: seq<string>)
    ensures var r := Consolidate(links, category, legacy);
      |links| <= |r| <= |links| + |legacy| && r[..|links|] == links
      && forall k :: |links| <= k < |r| ==> r[k].category == category && r[k].url == None && r[k].name in legacy
    decreases |legacy|
  {
    if legacy != [] {
      var next := if HasLink(links, legacy[0], category) then links
                  else links + [Link(legacy[0], category, None)];
      ConsolidateExtends(next, category, legacy[1..]);
      var r := Consolidate(next, category, legacy[1..]);
      assert r[..|links|] == r[..|next|][..|links|];
      forall k | |links| <= k < |r|
        ensures r[k].name in legacy
      {
        if k >= |next| {
          assert r[k].name in legacy[1..];
        }
      }
    }
  }

  /** Every legacy name has a link of the category afterwards. */
  lemma {:induction false} ConsolidateCovers(links: seq<Link>, category: string, legacy: seq<string>)
    ensures forall li :: li in legacy ==> HasLink(Consolidate(links, category, legacy), li, category)
    decreases |legacy|
  {
    if legacy != [] {
      var next := if HasLink(links, legacy[0], category) then links
                  else links + [Link(legacy[0], category, None)];
      assert HasLink(next, legacy[0], category) by {
        if !HasLink(links, legacy[0], category) {
          assert next[|links|].name == legacy[0];
        }
      }
      ConsolidateCovers(next, category, legacy[1..]);
      ConsolidateExtends(next, category, legacy[1..]);
      var r := Consolidate(next, category, legacy[1..]);
      var i :| 0 <= i < |next| && next[i].name == legacy[0] && next[i].category == category;
      assert r[i] == next[i];
    }
  }

  /** Consolidating never creates a duplicate name within the category. */
  lemma {:induction false} ConsolidateUnique(links: seq<Link>, category: string, legacy: seq<string>)
    requires UniqueIn(links, category)
    ensures UniqueIn(Consolidate(links, category, legacy), category)
    decreases |legacy|
  {
    if legacy != [] {
      var next := if HasLink(links, legacy[0], category) then links
                  else links + [Link(legacy[0], category, None)];
      ConsolidateUnique(next, category, legacy[1..]);
    }
  }

  /** When every legacy name is already linked nothing changes; so a
      second consolidation of the same list is a no-op. */
  lemma {:induction false} ConsolidatePresent(links: seq<Link>, category: string, legacy: seq<string>)
    requires forall li :: li in legacy ==> HasLink(links, li, category)
    ensures Consolidate(links, category, legacy) == links
    decreases |legacy|
  {
    if legacy != [] {
      ConsolidatePresent(links, category, legacy[1..]);
    }
  }

  lemma ConsolidateIdempotent(links: seq<Link>, category: string, legacy: seq<string>)
    ensures var r := Consolidate(links, category, legacy);
      Consolidate(r, category, legacy) == r
  {
    ConsolidateCovers(links, category, legacy);
    ConsolidatePresent(Consolidate(links, category, legacy), category, legacy);
  }

  /** The migration of the legacy `genre` list: it replaces an empty
      `genres` and is then cleared. */
  function MigrateGenre(genres: seq<string>, genre: Option<seq<string>>): (r: (seq<string>, Option<seq<string>>))
    ensures genre.Some? && genre.value != [] && genres == [] ==> r == (genre.value, None)
    ensures !(genre.Some? && genre.value != [] && genres == []) ==> r == (genres, genre)
  {
    if genre.Some? && genre.value != [] && genres == [] then (genre.value, None) else (genres, genre)
  }

  /** The four legacy fields, in the order they are migrated. */
  function ConsolidateAll(links: seq<Link>, genres: seq<string>, cast: seq<string>,
                          writer: seq<string>, director: seq<string>): seq<Link>
  {
    var l1 := Consolidate(links, "Genres", genres);
    var l2 := Consolidate(l1, "Cast", cast);
    var l3 := Consolidate(l2, "Writers", writer);
    Consolidate(l3, "Directors", director)
  }

  class Meta {
    const id: string
    const metaType: string
    const name: string
    const defaultVideoId: Option<string>
    const cast: seq<string>
    const writer: seq<string>
    const director: seq<string>
    var genres: seq<string>
    var genre: Option<seq<string>>
    var links: seq<Link>
    var videos: seq<Video>
    var library: LibraryItem?

    /** Construction with the first half of `__post_init__`: the genre
        migration and the four link consolidations. */
    constructor (id: string, metaType: string, name: string, defaultVideoId: Option<string>,
                 videos: seq<Video>, links: seq<Link>, genres: seq<string>, genre: Option<seq<string>>,
                 cast: seq<string>, writer: seq<string>, director: seq<string>)
      ensures this.id == id && this.metaType == metaType && this.name == name
      ensures this.defaultVideoId == defaultVideoId && this.videos == videos
      ensures this.cast == cast && this.writer == writer && this.director == director
      ensures (this.genres, this.genre) == MigrateGenre(genres, genre)
      ensures this.links == ConsolidateAll(links, this.genres, cast, writer, director)
      ensures library == null
    {
      this.id := id;
      this.metaType := metaType;
      this.name := name;
      this.defaultVideoId := defaultVideoId;
      this.cast := cast;
      this.writer := writer;
      this.director := director;
      this.videos := videos;
      this.links := links;
      this.library := null;
      var migrated := MigrateGenre(genres, genre);
      this.genres := migrated.0;
      this.genre := migrated.1;
      new;
      ConsolidateLinks("Genres", this.genres);
      ConsolidateLinks("Cast", cast);
      ConsolidateLinks("Writers", writer);
      ConsolidateLinks("Directors", director);
    }

    /** `_consolidate_links`, scanning the growing list for each name. */
    method ConsolidateLinks(category: string, legacy: seq<string>)
      modifies this`links
      ensures links == Consolidate(old(links), category, legacy)
    {
      if legacy == [] {
        return;
      }
      var k := 0;
      while k < |legacy|
        invariant 0 <= k <= |legacy|
        invariant Consolidate(old(links), category, legacy) == Consolidate(links, category, legacy[k..])
      {
        var li := legacy[k];
        var found := false;
        var j := 0;
        while j < |links| && !found
          invariant 0 <= j <= |links|
          invariant found <==> exists i :: 0 <= i < j && links[i].name == li && links[i].category == category
        {
          found := links[j].name == li && links[j].category == category;
          j := j + 1;
        }
        assert found <==> HasLink(links, li, category);
        assert legacy[k..][1..] == legacy[k + 1..];
        if !found {
          links := links + [Link(li, category, None)];
        }
        k := k + 1;
      }
    }

    /** The rest of `__post_init__`: attach the library item, sort the
        videos, rebuild the item's bitfield over the sorted ids and point
        every video back at this record. A failing bitfield decode stops
        before the videos are attached. */
    method AttachLibrary(lib: LibraryItem) returns (r: Result<()>)
      requires lib.Valid()
      requires VideosComparable(videos)
      modifies this, lib.state, set v | v in videos
      ensures library == lib && lib.Valid()
      ensures multiset(videos) == multiset(old(videos)) && VideosSorted(videos)
      ensures old(videos) == [] ==> r.Success? && lib.state.watchedBitfield == old(lib.state.watchedBitfield)
      ensures old(videos) != [] && lib.state.watched == "" ==>
                r.Success? && lib.state.watchedBitfield != null
                && lib.state.watchedBitfield.View() == Bits.Watched(Bits.NewBuffer(|videos|), Ids(videos))
      ensures old(videos) != [] && lib.state.watched != "" ==>
                match Bits.ConstructAndResize(lib.state.watched, Ids(videos))
                case Success(w) => r.Success? && lib.state.watchedBitfield != null && lib.state.watchedBitfield.View() == w
                case Failure(e) => r == Failure(e)
      ensures r.Success? ==> forall v :: v in videos ==> v.parent == this
      ensures lib.state.Counters() == old(lib.state.Counters()) && lib.state.watched == old(lib.state.watched)
      ensures genres == old(genres) && genre == old(genre) && links == old(links)
    {
      r := SortAndDecode(lib);
      if r.Success? {
        assert forall v :: v in videos ==> v in old(videos) by {
          forall v | v in videos ensures v in old(videos) {
            assert v in multiset(videos);
          }
        }
        AdoptVideos();
      }
    }

    /** The middle of `__post_init__`: attach the library item, sort the
        videos and rebuild the item's bitfield over the sorted ids. */
    method SortAndDecode(lib: LibraryItem) returns (r: Result<()>)
      requires lib.Valid()
      requires VideosComparable(videos)
      modifies this`library, this`videos, lib.state
      ensures library == lib && lib.Valid()
      ensures multiset(videos) == multiset(old(videos)) && VideosSorted(videos)
      ensures old(videos) == [] ==> r.Success? && lib.state.watchedBitfield == old(lib.state.watchedBitfield)
      ensures old(videos) != [] && lib.state.watched == "" ==>
                r.Success? && lib.state.watchedBitfield != null
                && lib.state.watchedBitfield.View() == Bits.Watched(Bits.NewBuffer(|videos|), Ids(videos))
      ensures old(videos) != [] && lib.state.watched != "" ==>
                match Bits.ConstructAndResize(lib.state.watched, Ids(videos))
                case Success(w) => r.Success? && lib.state.watchedBitfield != null && lib.state.watchedBitfield.View() == w
                case Failure(e) => r == Failure(e)
      ensures lib.state.Counters() == old(lib.state.Counters()) && lib.state.watched == old(lib.state.watched)
    {
      library := lib;
      if videos != [] {
        videos := SortVideos(videos);
        SortVideosSorted(old(videos));
        r := lib.state.CreateBitfield(Ids(videos));
      } else {
        r := Success(());
      }
    }

    /** The last loop of `__post_init__`: every video points back here. */
    method AdoptVideos()
      modifies set v | v in videos
      ensures forall v :: v in videos ==> v.parent == this
    {
      for k := 0 to |videos|
        invariant forall j :: 0 <= j < k ==> videos[j].parent == this
      {
        videos[k].parent := this;
      }
    }

    /** The objects read to find the bitfield. */
    function LibraryFrame(): set<object?>
      reads this, library
      reads if library == null then {} else {library.state}
      reads if library == null || library.state.watchedBitfield == null then {} else {library.state.watchedBitfield.bitfield}
    {
      if library == null then {}
      else if library.state.watchedBitfield == null then {library, library.state}
      else {library, library.state, library.state.watchedBitfield, library.state.watchedBitfield.bitfield,
            library.state.watchedBitfield.bitfield.values}
    }

    /** The bitfield entry of one video id; false without a library item
        or a bitfield. */
    function VideoWatched(videoId: string): (r: bool)
      reads this, LibraryFrame()
      ensures r <==> library != null && library.state.watchedBitfield != null
                     && library.state.watchedBitfield.GetVideo(videoId)
    {
      library != null && library.state.watchedBitfield != null
      && library.state.watchedBitfield.GetVideo(videoId)
    }

    /** `seasons`: the distinct season numbers, ordered with season 0
        last; with no season set anywhere it is the single unset season. */
    function Seasons(): (r: seq<Option<int>>)
      reads this
      requires (forall v :: v in videos ==> v.season.Some?) || (forall v :: v in videos ==> v.season.None?)
      ensures forall s :: s in r <==> exists v :: v in videos && v.season == s
      ensures forall i, j :: 0 <= i < j < |r| ==> r[i].Some? && r[j].Some? && SeasonBefore(r[i].value, r[j].value)
    {
      if videos == [] then []
      else if videos[0].season.None? then
        assert forall v :: v in videos ==> v.season == None;
        [None]
      else
        var ns := SeasonNumbers(videos);
        var r := seq(|ns|, i requires 0 <= i < |ns| => Some(ns[i]));
        assert forall s :: s in r ==> s.Some? && s.value in ns;
        assert forall x :: x in ns ==> Some(x) in r by {
          forall x | x in ns ensures Some(x) in r {
            var i :| 0 <= i < |ns| && ns[i] == x;
            assert r[i] == Some(x);
          }
        }
        r
    }

    /** `watched`: a series is watched when it has videos and every one
        outside season 0 is watched; anything else when its item has been
        watched at least once. */
    function Watched(): (r: bool)
      reads this, LibraryFrame(), set v | v in videos, set v, o | v in videos && o in v.ParentFrame() :: o
      requires metaType != "series" ==> library != null
      ensures metaType == "series" ==>
                (r <==> videos != [] && forall v :: v in videos && v.season != Some(0) ==> v.Watched())
      ensures metaType != "series" ==> (r <==> library.state.timesWatched > 0)
    {
      if metaType == "series" then videos != [] && AllWatched(videos)
      else library.state.timesWatched > 0
    }

    /** `kodi_type`. */
    function KodiType(): (r: string)
      ensures metaType == "series" ==> r == "tvshow"
      ensures metaType == "movie" ==> r == "movie"
      ensures metaType != "series" && metaType != "movie" ==> r == "video"
    {
      match metaType
      case "series" => "tvshow"
      case "movie" => "movie"
      case _ => "video"
    }
  }

  /** `not any(not v.watched for v in videos if v.season != 0)`. */
  function AllWatched(vs: seq<Video>): (r: bool)
    reads set v | v in vs, set v, o | v in vs && o in v.ParentFrame() :: o
    ensures r <==> forall v :: v in vs && v.season != Some(0) ==> v.Watched()
  {
    if vs == [] then true
    else
      assert vs == [vs[0]] + vs[1..];
      (vs[0].season == Some(0) || vs[0].Watched()) && AllWatched(vs[1..])
  }

  // ---------------------------------------------------------------------
  // Decoding
  // ---------------------------------------------------------------------

  /** The record class the decoder's `object_hook` builds from a JSON
      object with the given keys. */
  datatype RecordKind = AsMeta | AsVideo | AsTrailer | AsTrailerStream | AsLink
                   | AsBehaviorHints | AsPopularities | NoRecord

  /** The keys that select one of the first five record classes. */
  predicate ContentKeys(keys: set<string>) {
    "id" in keys || "source" in keys || ("title" in keys && "ytId" in keys)
    || ("name" in keys && "category" in keys && "url" in keys)
  }

  /** Any of the keys a behaviour-hints object carries. */
  predicate HintKeys(keys: set<string>) {
    "defaultVideoId" in keys || "hasScheduledVideos" in keys
  }

  /** Any of the keys a popularities object carries. */
  predicate PopularityKeys(keys: set<string>) {
    "trakt" in keys || "stremio" in keys || "stremio_lib" in keys || "moviedb" in keys
  }

  function ObjectHook(keys: set<string>): (r: RecordKind)
    ensures r == AsMeta <==> "id" in keys && "type" in keys
    ensures r == AsVideo <==> "id" in keys && "type" !in keys
    ensures r == AsTrailer <==> "id" !in keys && "source" in keys
    ensures r == AsTrailerStream <==> "id" !in keys && "source" !in keys && "title" in keys && "ytId" in keys
    ensures r == AsLink <==> "id" !in keys && "source" !in keys && !("title" in keys && "ytId" in keys)
                             && "name" in keys && "category" in keys && "url" in keys
    ensures r == AsBehaviorHints <==> !ContentKeys(keys) && HintKeys(keys)
    ensures r == AsPopularities <==> !ContentKeys(keys) && !HintKeys(keys) && PopularityKeys(keys)
    ensures r == NoRecord <==> !ContentKeys(keys) && !HintKeys(keys) && !PopularityKeys(keys)
  {
    if "id" in keys && "type" in keys then AsMeta
    else if "id" in keys then AsVideo
    else if "source" in keys then AsTrailer
    else if "title" in keys && "ytId" in keys then AsTrailerStream
    else if "name" in keys && "category" in keys && "url" in keys then AsLink
    else if "defaultVideoId" in keys || "hasScheduledVideos" in keys then AsBehaviorHints
    else if "trakt" in keys || "stremio" in keys || "stremio_lib" in keys || "moviedb" in keys then AsPopularities
    else NoRecord
  }

  /** The keys `dataclass_to_dict` writes for each record kind: every
      compared field, present even when its value is None. */
  const TrailerKeys: set<string> := {"source", "type"}
  const TrailerStreamKeys: set<string> := {"title", "ytId"}
  const LinkKeys: set<string> := {"name", "category", "url"}
  const BehaviorHintsKeys: set<string> := {"defaultVideoId", "hasScheduledVideos"}
  const PopularitiesKeys: set<string> := {"trakt", "stremio", "stremio_lib", "moviedb"}
  const VideoKeys: set<string> :=
    {"id", "title", "name", "released", "number", "firstAired", "tvdb_id", "rating",
     "overview", "thumbnail", "episode", "description", "season"}
  const MetaKeys: set<string> :=
    {"id", "type", "name", "imdb_id", "kitsu_id", "poster", "background", "logo",
     "description", "releaseInfo", "year", "runtime", "status", "animeType", "slug",
     "country", "awards", "dvdRelease", "imdbRating", "moviedb_id", "tvdb_id",
     "popularities", "popularity", "released", "trailers", "trailerStreams", "videos",
     "links", "aliases", "genres", "genre", "cast", "director", "writer", "behaviorHints"}

  /** Each record kind, written out, reads back as that kind: the hook's
      key tests tell the seven dataclasses apart. */
  lemma ObjectHookReadsBack()
    ensures ObjectHook(MetaKeys) == AsMeta
    ensures ObjectHook(VideoKeys) == AsVideo
    ensures ObjectHook(TrailerKeys) == AsTrailer
    ensures ObjectHook(TrailerStreamKeys) == AsTrailerStream
    ensures ObjectHook(LinkKeys) == AsLink
    ensures ObjectHook(BehaviorHintsKeys) == AsBehaviorHints
    ensures ObjectHook(PopularitiesKeys) == AsPopularities
  {
  }
}
