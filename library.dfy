/** The library actions (resources/lib/modules/library.py): the
    continue-watching selection over the data store and the order in which
    a player report drives a library item. Instants are parsed timestamps,
    written as integers; an empty timestamp is `None`, and the current
    time is a parameter. */
module Library {
  import opened Wrappers
  import opened Seqs
  import opened StremioLibrary
  import opened StremioMeta

  // ---------------------------------------------------------------------------
  // Continue watching

  /** One episode as the release check sees it. */
  datatype Episode = Episode(season: Option<int>, released: Option<int>)

  /** What the selection reads of one data-store item and of the metadata
      record built from it. */
  datatype Entry = Entry(
    id: string,
    itemType: string,
    removed: bool,
    temp: bool,
    timeOffset: int,
    noNotif: bool,
    lastWatched: Option<int>,
    modified: int,
    hasDefaultVideo: bool,
    videos: seq<Episode>)

  /** An item with playback progress: not of type "other", temporary or
      still in the library, and with a positive time offset. */
  predicate Candidate(e: Entry) {
    e.itemType != "other" && (e.temp || !e.removed) && e.timeOffset > 0
  }

  /** An item that may carry new-episode notifications: notifications are
      on, it is a series-like type, it is in the library for good, and it
      is not already a progress candidate. */
  predicate NotifCandidate(e: Entry) {
    !e.noNotif && e.itemType != "other" && e.itemType != "movie"
    && !e.removed && !e.temp && !Candidate(e)
  }

  /** The data store keys its items by their ids. */
  predicate UniqueIds(entries: seq<Entry>) {
    forall i, j :: 0 <= i < j < |entries| ==> entries[i].id != entries[j].id
  }

  function Candidates(entries: seq<Entry>): seq<Entry> {
    Filter(entries, Candidate)
  }

  function NotifCandidates(entries: seq<Entry>): seq<Entry> {
    Filter(entries, NotifCandidate)
  }

  /** For an item in the library, "not already a candidate" comes down to
      "no playback progress". */
  lemma NotifCandidateWithoutProgress(e: Entry)
    ensures NotifCandidate(e) <==>
              !e.noNotif && e.itemType != "other" && e.itemType != "movie"
              && !e.removed && !e.temp && e.timeOffset <= 0
  {
  }

  /** No id is both a progress candidate and a notification candidate. */
  lemma CandidatesDisjoint(entries: seq<Entry>)
    requires UniqueIds(entries)
    ensures forall c, n :: c in Candidates(entries) && n in NotifCandidates(entries) ==> c.id != n.id
  {
    forall c, n | c in Candidates(entries) && n in NotifCandidates(entries)
      ensures c.id != n.id
    {
      FilterMembership(entries, Candidate, c);
      FilterMembership(entries, NotifCandidate, n);
      var i :| 0 <= i < |entries| && entries[i] == c;
      var j :| 0 <= j < |entries| && entries[j] == n;
      assert i != j;
    }
  }

  /** `_check_date_time`: no release date means no; no last-watched time
      means yes; otherwise the release falls after the last watch and
      before now. */
  predicate CheckDateTime(lastWatched: Option<int>, released: Option<int>, now: int) {
    match released
    case None => false
    case Some(r) => lastWatched.None? || lastWatched.value < r < now
  }

  /** An episode with a (truthy) season released since the last watch. */
  predicate Fresh(v: Episode, lastWatched: Option<int>, now: int) {
    v.season.Some? && v.season.value != 0 && CheckDateTime(lastWatched, v.released, now)
  }

  /** `any(_check_date_time(...) for v in videos if v.season)`. */
  function AnyFresh(vs: seq<Episode>, lastWatched: Option<int>, now: int): (r: bool)
    ensures r <==> exists i :: 0 <= i < |vs| && Fresh(vs[i], lastWatched, now)
    decreases |vs|
  {
    if vs == [] then false
    else
      var rest := AnyFresh(vs[1..], lastWatched, now);
      assert rest ==> exists i :: 1 <= i < |vs| && Fresh(vs[i], lastWatched, now) by {
        if rest {
          var i :| 0 <= i < |vs[1..]| && Fresh(vs[1..][i], lastWatched, now);
          assert vs[i + 1] == vs[1..][i];
        }
      }
      assert (exists i :: 1 <= i < |vs| && Fresh(vs[i], lastWatched, now)) ==> rest by {
        if exists i :: 1 <= i < |vs| && Fresh(vs[i], lastWatched, now) {
          var i :| 1 <= i < |vs| && Fresh(vs[i], lastWatched, now);
          assert vs[1..][i - 1] == vs[i];
        }
      }
      Fresh(vs[0], lastWatched, now) || rest
  }

  /** Once the last-watched time is now, no episode counts as new. */
  lemma {:induction false} NothingFreshAtNow(vs: seq<Episode>, now: int)
    ensures !AnyFresh(vs, Some(now), now)
  {
    forall i | 0 <= i < |vs|
      ensures !Fresh(vs[i], Some(now), now)
    {
      if vs[i].released.Some? {
        assert !(now < vs[i].released.value < now);
      }
    }
  }

  /** The final filter: a notification item stays only without a default
      video and with some new episode. */
  predicate Keep(e: Entry, notifIds: set<string>, now: int) {
    !(e.id in notifIds && e.hasDefaultVideo)
    && !(e.id in notifIds && !AnyFresh(e.videos, e.lastWatched, now))
  }

  predicate NewestFirst(es: seq<Entry>) {
    forall i, j :: 0 <= i < j < |es| ==> es[i].modified >= es[j].modified
  }

  /** Place `x` before the first entry not newer than it. */
  function InsertByModified(x: Entry, sorted: seq<Entry>): (r: seq<Entry>)
    ensures multiset(r) == multiset(sorted) + multiset{x}
    decreases |sorted|
  {
    if sorted == [] || x.modified >= sorted[0].modified then [x] + sorted
    else
      assert sorted == [sorted[0]] + sorted[1..];
      [sorted[0]] + InsertByModified(x, sorted[1..])
  }

  /** Prepending an entry no older than any other keeps the order. */
  lemma ConsNewestFirst(a: Entry, tail: seq<Entry>)
    requires NewestFirst(tail)
    requires forall j :: 0 <= j < |tail| ==> a.modified >= tail[j].modified
    ensures NewestFirst([a] + tail)
  {
    var r := [a] + tail;
    forall i, j | 0 <= i < j < |r| ensures r[i].modified >= r[j].modified {
      assert r[j] == tail[j - 1];
      if i > 0 {
        assert r[i] == tail[i - 1];
      }
    }
  }

  lemma {:induction false} InsertByModifiedSorted(x: Entry, sorted: seq<Entry>)
    requires NewestFirst(sorted)
    ensures NewestFirst(InsertByModified(x, sorted))
    decreases |sorted|
  {
    if sorted != [] && x.modified < sorted[0].modified {
      var rest := sorted[1..];
      InsertByModifiedSorted(x, rest);
      var tail := InsertByModified(x, rest);
      forall j | 0 <= j < |tail| ensures sorted[0].modified >= tail[j].modified {
        var y := tail[j];
        assert y in multiset(tail);
        if y != x {
          assert y in multiset(rest);
          var k :| 0 <= k < |rest| && rest[k] == y;
          assert sorted[k + 1] == y;
        }
      }
      ConsNewestFirst(sorted[0], tail);
    } else if sorted != [] {
      ConsNewestFirst(x, sorted);
    }
  }

  /** `sorted(..., key=modified_time, reverse=True)`: newest first. */
  function SortByModified(es: seq<Entry>): (r: seq<Entry>)
    ensures multiset(r) == multiset(es)
    decreases |es|
  {
    if es == [] then []
    else
      assert es == [es[0]] + es[1..];
      InsertByModified(es[0], SortByModified(es[1..]))
  }

  lemma {:induction false} SortByModifiedSorted(es: seq<Entry>)
    ensures NewestFirst(SortByModified(es))
    decreases |es|
  {
    if es != [] {
      SortByModifiedSorted(es[1..]);
      InsertByModifiedSorted(es[0], SortByModified(es[1..]));
    }
  }

  function NotifIds(entries: seq<Entry>): set<string> {
    set e | e in NotifCandidates(entries) :: e.id
  }

  /** `get_continue_watching`: the progress candidates followed by what the
      notification service returns for the notification candidates, newest
      first, without the notification items that have nothing new. The
      notification service is the parameter `notifications`. */
  function ContinueWatching(entries: seq<Entry>, notifications: seq<Entry>, now: int): seq<Entry> {
    var notifIds := NotifIds(entries);
    Filter(SortByModified(Candidates(entries) + notifications), e => Keep(e, notifIds, now))
  }

  /** The selection is ordered newest first. */
  lemma ContinueWatchingNewestFirst(entries: seq<Entry>, notifications: seq<Entry>, now: int)
    ensures NewestFirst(ContinueWatching(entries, notifications, now))
  {
    var notifIds := NotifIds(entries);
    var sorted := SortByModified(Candidates(entries) + notifications);
    SortByModifiedSorted(Candidates(entries) + notifications);
    FilterOrdered(sorted, e => Keep(e, notifIds, now), (a: Entry, b: Entry) => a.modified >= b.modified);
  }

  /** What the selection holds: a progress candidate or a notification,
      unless it is a notification item with a default video or with no
      new episode. */
  lemma ContinueWatchingMembership(entries: seq<Entry>, notifications: seq<Entry>, now: int, e: Entry)
    ensures e in ContinueWatching(entries, notifications, now) <==>
              (e in Candidates(entries) || e in notifications)
              && !(e.id in NotifIds(entries) && e.hasDefaultVideo)
              && !(e.id in NotifIds(entries) && !AnyFresh(e.videos, e.lastWatched, now))
  {
    var notifIds := NotifIds(entries);
    var all := Candidates(entries) + notifications;
    FilterMembership(SortByModified(all), e => Keep(e, notifIds, now), e);
    assert e in SortByModified(all) <==> e in multiset(all);
  }

  /** Progress candidates are never dropped. */
  lemma CandidatesKept(entries: seq<Entry>, notifications: seq<Entry>, now: int)
    requires UniqueIds(entries)
    ensures forall e :: e in Candidates(entries) ==> e in ContinueWatching(entries, notifications, now)
  {
    CandidatesDisjoint(entries);
    forall e | e in Candidates(entries)
      ensures e in ContinueWatching(entries, notifications, now)
    {
      ContinueWatchingMembership(entries, notifications, now, e);
      assert e.id !in NotifIds(entries);
    }
  }

  // ---------------------------------------------------------------------------
  // Player reports

  /** The "traktPlaying"/"traktPaused" event sent after a report. */
  datatype TraktEvent = TraktEvent(
    eventName: string,
    hasTrakt: bool,
    libItemID: string,
    libItemName: string,
    libItemTimeDuration: int,
    libItemTimeOffset: int,
    libItemType: string,
    libItemVideoID: string)

  /** The objects a player report may change: the library item, its state
      and its bitfield's buffer. */
  function ReportFrame(lib: LibraryItem): set<object>
    reads lib, lib.state, lib.state.watchedBitfield
    reads if lib.state.watchedBitfield == null then {} else {lib.state.watchedBitfield.bitfield}
  {
    {lib, lib.state} + lib.state.BitsRepr()
  }

  /** The reported id names the record itself or one of its videos. */
  predicate Known(meta: Meta, videoId: string)
    reads meta
  {
    videoId == meta.id || videoId in Ids(meta.videos)
  }

  /** The id of the video after the reported one, when the report names an
      episode: `episode.next_episode.id`. */
  function FollowingId(meta: Meta, videoId: string): (r: Option<string>)
    reads meta, set i | 0 <= i < |meta.videos| :: meta.videos[i]
    requires forall i :: 0 <= i < |meta.videos| ==> meta.videos[i].parent == meta
    ensures r.Some? ==> videoId != meta.id && videoId in Ids(meta.videos)
  {
    if videoId == meta.id then None
    else
      var k := IndexOf(Ids(meta.videos), videoId);
      if k < 0 then None
      else
        var v := meta.videos[k];
        assert Records(meta.videos)[k] == v.Record();
        match v.NextEpisode()
        case None => None
        case Some(n) => Some(n.id)
  }

  /** The item's side of a report: account the progress, run the
      start/stop rules with the successor `next` when asked, then stamp the
      item. Serialising a bitfield without episodes fails after the
      counters changed, and nothing after it runs. */
  method Report(lib: LibraryItem, videoId: string, currTime: int, totalTime: int,
                startStop: bool, next: Option<string>, now: string) returns (r: Result<()>)
    requires lib.Valid()
    modifies ReportFrame(lib)
    ensures lib.Valid() && lib.state.watchedBitfield == old(lib.state.watchedBitfield)
    ensures var q := Step(old(lib.state.Counters()), currTime, totalTime, videoId);
            lib.state.Counters() == (if startStop && r.Success? then StartStopStep(q, next) else q)
    ensures lib.mtime == now && lib.state.lastWatched == now
    ensures lib.ctime == if old(lib.ctime) == "" then now else old(lib.ctime)
    ensures lib.state.noNotif == old(lib.state.noNotif)
    ensures Flagged(lib.state.watchedBitfield, old(BitsOf(lib.state.watchedBitfield)),
                    Fires(Track(old(lib.state.Counters()), currTime, totalTime, videoId)),
                    videoId, lib.state.watched, old(lib.state.watched), r)
    ensures r.Success? ==>
              var q := Step(old(lib.state.Counters()), currTime, totalTime, videoId);
              lib.removed == (old(lib.removed) || (old(lib.temp) && q.timesWatched == 0))
              && lib.temp == (old(lib.temp) || lib.removed)
    ensures r.Failure? ==> lib.removed == old(lib.removed) && lib.temp == old(lib.temp)
    ensures r.Failure? <==>
              Fires(Track(old(lib.state.Counters()), currTime, totalTime, videoId))
              && old(lib.state.watchedBitfield) != null
              && |old(lib.state.watchedBitfield).videoIds| == 0
  {
    r := lib.UpdateProgress(currTime, totalTime, videoId, now);
    if r.Failure? {
      return;
    }
    if startStop {
      lib.StartStop(next);
    }
    lib.Push(now);
  }

  /** `player_update`: an episode report first looks the episode up (a
      missing one raises StopIteration before anything changes); then the
      item is driven by `Report` with the episode's successor; the event
      names the item and the report. */
  method PlayerUpdate(meta: Meta, videoId: string, currTime: int, totalTime: int,
                      playing: bool, startStop: bool, now: string) returns (r: Result<TraktEvent>)
    requires meta.library != null && meta.library.Valid()
    requires forall i :: 0 <= i < |meta.videos| ==> meta.videos[i].parent == meta
    modifies ReportFrame(meta.library)
    ensures meta.library.Valid()
    ensures !old(Known(meta, videoId)) ==> r == Failure(NotFound) && unchanged(meta.library, meta.library.state)
    ensures old(Known(meta, videoId)) ==>
              var lib := meta.library;
              var q := Step(old(lib.state.Counters()), currTime, totalTime, videoId);
              lib.state.Counters() == (if startStop && r.Success? then StartStopStep(q, old(FollowingId(meta, videoId))) else q)
              && lib.mtime == now && lib.state.lastWatched == now
              && lib.ctime == (if old(lib.ctime) == "" then now else old(lib.ctime))
              && lib.state.noNotif == old(lib.state.noNotif)
              && lib.state.watchedBitfield == old(lib.state.watchedBitfield)
    ensures old(Known(meta, videoId)) ==>
              Flagged(meta.library.state.watchedBitfield, old(BitsOf(meta.library.state.watchedBitfield)),
                      Fires(Track(old(meta.library.state.Counters()), currTime, totalTime, videoId)),
                      videoId, meta.library.state.watched, old(meta.library.state.watched), r)
    ensures r.Success? ==>
              var q := Step(old(meta.library.state.Counters()), currTime, totalTime, videoId);
              meta.library.removed == (old(meta.library.removed) || (old(meta.library.temp) && q.timesWatched == 0))
              && meta.library.temp == (old(meta.library.temp) || meta.library.removed)
    ensures r.Failure? ==> meta.library.removed == old(meta.library.removed) && meta.library.temp == old(meta.library.temp)
    ensures r.Success? ==>
              r.value == TraktEvent(if playing then "traktPlaying" else "traktPaused", true, meta.id,
                                    meta.name, totalTime, currTime, meta.metaType, videoId)
    ensures r.Failure? <==>
              !old(Known(meta, videoId))
              || (Fires(Track(old(meta.library.state.Counters()), currTime, totalTime, videoId))
                  && old(meta.library.state.watchedBitfield) != null
                  && |old(meta.library.state.watchedBitfield).videoIds| == 0)
  {
    var lib := meta.library;
    if !Known(meta, videoId) {
      return Failure(NotFound);
    }
    var next := FollowingId(meta, videoId);
    var u := Report(lib, videoId, currTime, totalTime, startStop, next, now);
    if u.Failure? {
      return Failure(u.error);
    }
    r := Success(TraktEvent(if playing then "traktPlaying" else "traktPaused", true, meta.id,
                            meta.name, totalTime, currTime, meta.metaType, videoId));
  }
}
