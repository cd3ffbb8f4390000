/** A Stremio library item and its watch state
    (resources/lib/classes/StremioLibrary.py): progress accounting, the
    watched flag, the removed/temp flags and the timestamps. Timestamps are
    the strings the source stores ("" for unset); the current time is a
    parameter. */
module StremioLibrary {
  import opened Wrappers
  import opened Bitfield
  import Bits
  import Seqs
  import Packing

  // ---------------------------------------------------------------------------
  // Progress accounting as values

  /** The counters of a WatchState that playback reports change. */
  datatype Progress = Progress(
    videoId: string,
    timeWatched: int,
    timeOffset: int,
    overallTimeWatched: int,
    timesWatched: int,
    flaggedWatched: int,
    duration: int)

  /** `timeWatched > duration * STREMIO_WATCHED_COEFFICIENT` (0.7), exactly. */
  predicate PastWatchedMark(timeWatched: int, duration: int) {
    10 * timeWatched > 7 * duration
  }

  /** `timeOffset > duration * STREMIO_CREDITS_COEFFICIENT` (0.9), exactly. */
  predicate PastCredits(timeOffset: int, duration: int) {
    10 * timeOffset > 9 * duration
  }

  /** The first part of `update_progress`: a new video moves the time watched
      into the overall total and restarts; the same video adds the forward
      progress since the last report to both totals. */
  function Track(p: Progress, progress: int, duration: int, videoId: string): Progress {
    if p.videoId != videoId then
      p.(videoId := videoId,
         overallTimeWatched := p.overallTimeWatched + p.timeWatched,
         timeWatched := 0,
         flaggedWatched := 0,
         timeOffset := progress,
         duration := duration)
    else
      var diff := if progress - p.timeOffset > 0 then progress - p.timeOffset else 0;
      p.(timeWatched := p.timeWatched + diff,
         overallTimeWatched := p.overallTimeWatched + diff,
         timeOffset := progress,
         duration := duration)
  }

  /** Whether the watched flag fires after tracking. */
  predicate Fires(q: Progress) {
    q.flaggedWatched == 0 && PastWatchedMark(q.timeWatched, q.duration)
  }

  /** The counters after one `update_progress` call. */
  function Step(p: Progress, progress: int, duration: int, videoId: string): Progress {
    var q := Track(p, progress, duration, videoId);
    if Fires(q) then q.(flaggedWatched := 1, timesWatched := q.timesWatched + 1) else q
  }

  /** One report: `(progress, duration, videoId)`. */
  datatype Report = Report(progress: int, duration: int, videoId: string)

  function Run(p: Progress, reports: seq<Report>): Progress
    decreases |reports|
  {
    if reports == [] then p
    else Run(Step(p, reports[0].progress, reports[0].duration, reports[0].videoId), reports[1..])
  }

  /** How often the watched flag fires over a run of reports. */
  function Firings(p: Progress, reports: seq<Report>): nat
    decreases |reports|
  {
    if reports == [] then 0
    else
      var r := reports[0];
      (if Fires(Track(p, r.progress, r.duration, r.videoId)) then 1 else 0)
        + Firings(Step(p, r.progress, r.duration, r.videoId), reports[1..])
  }

  /** The time watched never exceeds the overall time watched, neither goes
      negative, and the overall total never shrinks. */
  lemma StepBounds(p: Progress, progress: int, duration: int, videoId: string)
    requires 0 <= p.timeWatched <= p.overallTimeWatched
    ensures var q := Step(p, progress, duration, videoId);
            0 <= q.timeWatched <= q.overallTimeWatched
            && p.overallTimeWatched <= q.overallTimeWatched
            && p.timesWatched <= q.timesWatched <= p.timesWatched + 1
  {
  }

  /** Once the time watched is past the mark, the video is flagged. */
  lemma StepFlags(p: Progress, progress: int, duration: int, videoId: string)
    ensures var q := Step(p, progress, duration, videoId);
            PastWatchedMark(q.timeWatched, q.duration) ==> q.flaggedWatched != 0
  {
  }

  /** Reports that all concern a video already flagged never fire. */
  lemma {:induction false} FlaggedStaysSilent(p: Progress, reports: seq<Report>)
    requires p.flaggedWatched != 0
    requires forall k :: 0 <= k < |reports| ==> reports[k].videoId == p.videoId
    ensures Firings(p, reports) == 0
    ensures Run(p, reports).timesWatched == p.timesWatched
    decreases |reports|
  {
    if reports != [] {
      var r := reports[0];
      FlaggedStaysSilent(Step(p, r.progress, r.duration, r.videoId), reports[1..]);
    }
  }

  /** However many progress reports arrive for one video, `timesWatched`
      grows by at most one. */
  lemma {:induction false} FiresAtMostOncePerVideo(p: Progress, reports: seq<Report>, v: string)
    requires forall k :: 0 <= k < |reports| ==> reports[k].videoId == v
    ensures Firings(p, reports) <= 1
    ensures p.timesWatched <= Run(p, reports).timesWatched <= p.timesWatched + 1
    decreases |reports|
  {
    if reports != [] {
      var r := reports[0];
      var q := Step(p, r.progress, r.duration, r.videoId);
      if Fires(Track(p, r.progress, r.duration, r.videoId)) {
        FlaggedStaysSilent(q, reports[1..]);
      } else {
        FiresAtMostOncePerVideo(q, reports[1..], v);
      }
    }
  }

  /** `start_stop` on the counters: past the credits the offset restarts,
      and with a next episode the state moves on to it. */
  function StartStopStep(p: Progress, nextEpisodeId: Option<string>): Progress {
    if PastCredits(p.timeOffset, p.duration) then
      match nextEpisodeId
      case None => p.(timeOffset := 0)
      case Some(next) =>
        p.(videoId := next,
           overallTimeWatched := p.overallTimeWatched + p.timeWatched,
           timeWatched := 0,
           flaggedWatched := 0,
           timeOffset := 1)
    else p
  }

  /** Moving on to the next episode is accounted exactly as a first progress
      report of 1 on that episode would be. */
  lemma StartStopIsSwitch(p: Progress, next: string)
    requires PastCredits(p.timeOffset, p.duration) && next != p.videoId
    ensures StartStopStep(p, Some(next)) == Track(p, 1, p.duration, next)
  {
  }

  /** The bytes of an optional bitfield; none without one. */
  function BitsOf(wb: WatchedBitfield?): seq<Packing.byte>
    reads if wb == null then {} else {wb.bitfield, wb.bitfield.values}
  {
    if wb == null then [] else wb.bitfield.values[..]
  }

  /** What flagging a video does to the bitfield and the stored string,
      given the bytes `oldBits` before it and whether the watched mark
      `fired`. When it fires and a bitfield exists, the video's bit is set
      (an unknown id sets nothing) and the string becomes the new
      serialisation, or the call fails as `serialize` does over an empty
      episode list; otherwise neither changes. */
  predicate Flagged<T>(wb: WatchedBitfield?, oldBits: seq<Packing.byte>, fired: bool, videoId: string,
                       watched: string, oldWatched: string, r: Result<T>)
    reads if wb == null then {} else {wb, wb.bitfield, wb.bitfield.values}
  {
    if fired && wb != null then
      (if videoId in wb.videoIds then
         var k := Seqs.IndexOf(wb.videoIds, videoId);
         k / 8 < |oldBits| && wb.bitfield.values[..] == Bits.WithBit(oldBits, k, true)
       else wb.bitfield.values[..] == oldBits)
      && (if |wb.videoIds| == 0 then r.Failure? && r.error == NotFound
          else r.Success? && wb.Valid() && watched == Bits.Serialize(wb.View()))
    else r.Success? && watched == oldWatched && (wb != null ==> wb.bitfield.values[..] == oldBits)
  }

  /** What `create_bitfield(ids)` builds from the stored string: an
      all-clear bitfield over the ids when nothing is stored, otherwise
      `construct_and_resize` of the string (which may fail). */
  function CreatedFrom(watched: string, ids: seq<string>): (r: Result<Bits.Watched>)
    ensures r.Success? ==> Bits.WellFormed(r.value) && r.value.videoIds == ids
  {
    if watched == "" then Success(Bits.Watched(Bits.NewBuffer(|ids|), ids))
    else Bits.ConstructAndResize(watched, ids)
  }

  /** The state holds the bitfield `create_bitfield(ids)` builds from its
      stored string. */
  predicate CreatedOver(s: WatchState, ids: seq<string>)
    reads s, s.watchedBitfield
    reads if s.watchedBitfield == null then {} else {s.watchedBitfield.bitfield, s.watchedBitfield.bitfield.values}
  {
    s.watchedBitfield != null && CreatedFrom(s.watched, ids) == Success(s.watchedBitfield.View())
  }

  // ---------------------------------------------------------------------------
  // The classes

  /** `WatchState`: server fields plus the decoded watched bitfield. */
  class WatchState {
    var lastWatched: string
    var timeWatched: int
    var timeOffset: int
    var overallTimeWatched: int
    var timesWatched: int
    var flaggedWatched: int
    var duration: int
    var videoId: string
    var watched: string
    var noNotif: bool
    var watchedBitfield: WatchedBitfield?

    constructor (lastWatched: string, p: Progress, watched: string, noNotif: bool)
      ensures this.lastWatched == lastWatched && Counters() == p
      ensures this.watched == watched && this.noNotif == noNotif
      ensures watchedBitfield == null
    {
      this.lastWatched := lastWatched;
      this.videoId := p.videoId;
      this.timeWatched := p.timeWatched;
      this.timeOffset := p.timeOffset;
      this.overallTimeWatched := p.overallTimeWatched;
      this.timesWatched := p.timesWatched;
      this.flaggedWatched := p.flaggedWatched;
      this.duration := p.duration;
      this.watched := watched;
      this.noNotif := noNotif;
      this.watchedBitfield := null;
    }

    function Counters(): Progress
      reads this
    {
      Progress(videoId, timeWatched, timeOffset, overallTimeWatched, timesWatched, flaggedWatched, duration)
    }

    /** The objects behind the bitfield that marking a video changes. */
    function BitsRepr(): set<object>
      reads this, watchedBitfield, if watchedBitfield == null then {} else {watchedBitfield.bitfield}
    {
      if watchedBitfield == null then {} else {watchedBitfield.bitfield.values}
    }

    predicate Valid()
      reads this, watchedBitfield, if watchedBitfield == null then {} else {watchedBitfield.bitfield}, BitsRepr()
    {
      watchedBitfield != null ==> watchedBitfield.Valid()
    }

    /** The accounting half of `update_progress`. */
    method TrackProgress(progress: int, duration: int, videoId: string)
      modifies this
      ensures Counters() == Track(old(Counters()), progress, duration, videoId)
      ensures lastWatched == old(lastWatched) && watched == old(watched)
      ensures watchedBitfield == old(watchedBitfield) && noNotif == old(noNotif)
    {
      if this.videoId != videoId {
        this.videoId := videoId;
        overallTimeWatched := overallTimeWatched + timeWatched;
        timeWatched := 0;
        flaggedWatched := 0;
      } else {
        var timeDiff := if progress - timeOffset > 0 then progress - timeOffset else 0;
        timeWatched := timeWatched + timeDiff;
        overallTimeWatched := overallTimeWatched + timeDiff;
      }
      timeOffset := progress;
      this.duration := duration;
    }

    /** The flagging half of `update_progress`: the first time the mark is
        passed, count a watch and mark the video in the bitfield. */
    method FlagWatched(videoId: string) returns (r: Result<()>)
      requires Valid()
      modifies this, BitsRepr()
      ensures Valid() && watchedBitfield == old(watchedBitfield)
      ensures Counters() == if Fires(old(Counters()))
                            then old(Counters()).(flaggedWatched := 1, timesWatched := old(timesWatched) + 1)
                            else old(Counters())
      ensures lastWatched == old(lastWatched) && noNotif == old(noNotif)
      ensures Flagged(watchedBitfield, old(BitsOf(watchedBitfield)), Fires(old(Counters())), videoId, watched, old(watched), r)
    {
      r := Success(());
      if flaggedWatched == 0 && PastWatchedMark(timeWatched, duration) {
        flaggedWatched := 1;
        timesWatched := timesWatched + 1;
        var wb := watchedBitfield;
        if wb != null {
          wb.SetVideo(videoId, true);
          if |wb.videoIds| == 0 {
            return Failure(NotFound);
          }
          watched := wb.Serialize();
        }
      }
    }

    /** The state part of `update_progress`: account the report, then flag
        the video when the accounting passes the mark. */
    method RecordProgress(progress: int, duration: int, videoId: string) returns (r: Result<()>)
      requires Valid()
      modifies this, BitsRepr()
      ensures Valid() && watchedBitfield == old(watchedBitfield)
      ensures Counters() == Step(old(Counters()), progress, duration, videoId)
      ensures lastWatched == old(lastWatched) && noNotif == old(noNotif)
      ensures Flagged(watchedBitfield, old(BitsOf(watchedBitfield)), Fires(Track(old(Counters()), progress, duration, videoId)),
                      videoId, watched, old(watched), r)
    {
      TrackProgress(progress, duration, videoId);
      r := FlagWatched(videoId);
    }

    /** `create_bitfield`: decode the stored string against the episode
        list, or start from an all-clear bitfield when nothing is stored. */
    method CreateBitfield(ids: seq<string>) returns (r: Result<()>)
      requires Valid()
      modifies this
      ensures watched == "" ==>
                r.Success? && watchedBitfield != null
                && watchedBitfield.View() == Bits.Watched(Bits.NewBuffer(|ids|), ids)
      ensures watched != "" ==> match Bits.ConstructAndResize(watched, ids)
                case Success(w) => r.Success? && watchedBitfield != null && watchedBitfield.View() == w
                case Failure(e) => r == Failure(e) && watchedBitfield == old(watchedBitfield)
      ensures r.Success? ==> CreatedOver(this, ids)
      ensures r.Failure? ==> CreatedFrom(watched, ids) == Failure(r.error)
      ensures Valid() && fresh(BitsRepr() - old(BitsRepr()))
      ensures Counters() == old(Counters()) && watched == old(watched) && lastWatched == old(lastWatched)
      ensures noNotif == old(noNotif)
    {
      if watched != "" {
        var decoded := WatchedBitfield.ConstructAndResize(watched, ids);
        if decoded.Failure? {
          return Failure(decoded.error);
        }
        watchedBitfield := decoded.value;
      } else {
        var w := WatchedBitfield.ConstructFromArray([], ids);
        assert Bits.FromArray([], |ids|, 0) == Bits.NewBuffer(|ids|).bytes;
        watchedBitfield := w;
      }
      r := Success(());
    }
  }

  /** `StremioLibrary`: one item of the user's library. */
  class LibraryItem {
    const id: string
    const itemType: string
    const state: WatchState
    var ctime: string
    var mtime: string
    var removed: bool
    var temp: bool

    constructor (id: string, itemType: string, state: WatchState, ctime: string, mtime: string, removed: bool, temp: bool)
      ensures this.id == id && this.itemType == itemType && this.state == state
      ensures this.ctime == ctime && this.mtime == mtime && this.removed == removed && this.temp == temp
    {
      this.id := id;
      this.itemType := itemType;
      this.state := state;
      this.ctime := ctime;
      this.mtime := mtime;
      this.removed := removed;
      this.temp := temp;
    }

    predicate Valid()
      reads this, state, state.watchedBitfield
      reads if state.watchedBitfield == null then {} else {state.watchedBitfield.bitfield}, state.BitsRepr()
    {
      state.Valid()
    }

    /** `_set_time`: the modified time is now; the created time is set once;
        the last-watched time is set when asked or when it is still unset. */
    method SetTime(setLastWatched: bool, now: string)
      modifies this, state
      ensures mtime == now
      ensures ctime == if old(ctime) == "" then now else old(ctime)
      ensures state.lastWatched == if setLastWatched || old(state.lastWatched) == "" then now else old(state.lastWatched)
      ensures removed == old(removed) && temp == old(temp)
      ensures state.Counters() == old(state.Counters()) && state.watched == old(state.watched)
      ensures state.watchedBitfield == old(state.watchedBitfield) && state.noNotif == old(state.noNotif)
    {
      mtime := now;
      if ctime == "" {
        ctime := now;
      }
      if setLastWatched || state.lastWatched == "" {
        state.lastWatched := now;
      }
    }

    /** `update_progress`: account the report, flag the video once it is
        past 70% of its duration (marking its bit and re-serialising the
        bitfield), then restore the flag rules "temp and never watched means
        removed" and "removed means temp". Serialising a bitfield over an
        empty episode list raises IndexError after the counters changed. */
    method UpdateProgress(progress: int, duration: int, videoId: string, now: string) returns (r: Result<()>)
      requires Valid()
      modifies this, state, state.BitsRepr()
      ensures Valid() && state.watchedBitfield == old(state.watchedBitfield)
      ensures state.Counters() == Step(old(state.Counters()), progress, duration, videoId)
      ensures mtime == now && state.lastWatched == now
      ensures ctime == if old(ctime) == "" then now else old(ctime)
      ensures Flagged(state.watchedBitfield, old(BitsOf(state.watchedBitfield)),
                      Fires(Track(old(state.Counters()), progress, duration, videoId)),
                      videoId, state.watched, old(state.watched), r)
      ensures state.noNotif == old(state.noNotif)
      ensures r.Success? ==>
                removed == (old(removed) || (old(temp) && state.timesWatched == 0))
                && temp == (old(temp) || removed)
                && (removed ==> temp)
      ensures r.Failure? ==> removed == old(removed) && temp == old(temp)
    {
      SetTime(true, now);
      r := state.RecordProgress(progress, duration, videoId);
      if r.Failure? {
        return;
      }
      KeepFlagRules();
    }

    /** The flag rules `update_progress` restores: an item that is
        temporary and never watched is removed, and a removed item is
        temporary. */
    method KeepFlagRules()
      modifies this`removed, this`temp
      ensures removed == (old(removed) || (old(temp) && state.timesWatched == 0))
      ensures temp == (old(temp) || removed)
    {
      if temp && state.timesWatched == 0 {
        removed := true;
      }
      if removed {
        temp := true;
      }
    }

    /** The state part of `start_stop`: past the credits the offset restarts
        and, with a next episode, the state moves on to it. The subtitle
        request and the relaunch of playback are left out. */
    method StartStop(nextEpisodeId: Option<string>)
      modifies state
      ensures state.Counters() == StartStopStep(old(state.Counters()), nextEpisodeId)
      ensures state.lastWatched == old(state.lastWatched) && state.watched == old(state.watched)
      ensures state.watchedBitfield == old(state.watchedBitfield) && state.noNotif == old(state.noNotif)
    {
      if PastCredits(state.timeOffset, state.duration) {
        state.timeOffset := 0;
        if nextEpisodeId.Some? {
          state.videoId := nextEpisodeId.value;
          state.overallTimeWatched := state.overallTimeWatched + state.timeWatched;
          state.timeWatched := 0;
          state.flaggedWatched := 0;
          state.timeOffset := 1;
        }
      }
    }

    /** The local part of `push`: stamp the modified time. Storing the item
        in the API's data store is `StremioApi.Api.SetData`. */
    method Push(now: string)
      modifies this, state
      ensures mtime == now && ctime == if old(ctime) == "" then now else old(ctime)
      ensures state.lastWatched == if old(state.lastWatched) == "" then now else old(state.lastWatched)
      ensures removed == old(removed) && temp == old(temp)
      ensures state.Counters() == old(state.Counters()) && state.watched == old(state.watched)
      ensures state.watchedBitfield == old(state.watchedBitfield) && state.noNotif == old(state.noNotif)
    {
      SetTime(false, now);
    }

    /** `set_library_status`: adding keeps the item, removing marks it
        removed, and either way it stops being temporary. */
    method SetLibraryStatus(status: bool, now: string)
      modifies this, state
      ensures removed == !status && !temp
      ensures mtime == now && ctime == if old(ctime) == "" then now else old(ctime)
      ensures state.Counters() == old(state.Counters()) && state.watched == old(state.watched)
      ensures state.lastWatched == if old(state.lastWatched) == "" then now else old(state.lastWatched)
      ensures state.watchedBitfield == old(state.watchedBitfield) && state.noNotif == old(state.noNotif)
    {
      removed := !status;
      temp := false;
      Push(now);
    }

    /** `clear_progress`: the time offset restarts, which takes the item
        out of the progress candidates; then the item is stamped. */
    method ClearProgress(now: string)
      modifies this, state
      ensures state.Counters() == old(state.Counters()).(timeOffset := 0)
      ensures mtime == now && ctime == if old(ctime) == "" then now else old(ctime)
      ensures state.lastWatched == if old(state.lastWatched) == "" then now else old(state.lastWatched)
      ensures removed == old(removed) && temp == old(temp)
      ensures state.watched == old(state.watched) && state.watchedBitfield == old(state.watchedBitfield)
      ensures state.noNotif == old(state.noNotif)
    {
      state.timeOffset := 0;
      Push(now);
    }

    /** `dismiss_notification`: the last-watched time becomes now, so no
        earlier release counts as new; then the item is stamped. */
    method DismissNotification(now: string)
      modifies this, state
      ensures state.lastWatched == now && mtime == now
      ensures ctime == if old(ctime) == "" then now else old(ctime)
      ensures removed == old(removed) && temp == old(temp)
      ensures state.Counters() == old(state.Counters()) && state.watched == old(state.watched)
      ensures state.watchedBitfield == old(state.watchedBitfield) && state.noNotif == old(state.noNotif)
    {
      SetTime(true, now);
      Push(now);
    }

    /** `mark_watched`: set the episode's bit, re-serialise the bitfield and
        stamp the item. Without a bitfield the call raises AttributeError,
        and over an empty episode list serialising raises IndexError after
        the bit was set; neither stamps the item. */
    method MarkWatched(videoId: string, status: bool, now: string) returns (r: Result<()>)
      requires Valid()
      modifies this, state, state.BitsRepr()
      ensures Valid() && state.watchedBitfield == old(state.watchedBitfield)
      ensures state.Counters() == old(state.Counters())
      ensures removed == old(removed) && temp == old(temp) && state.noNotif == old(state.noNotif)
      ensures var wb := state.watchedBitfield;
              if wb == null then r == Failure(NotFound) && unchanged(this, state)
              else
                (videoId in wb.videoIds ==>
                   wb.bitfield.values[..] == Bits.WithBit(old(wb.bitfield.values[..]), Seqs.IndexOf(wb.videoIds, videoId), status)
                   && wb.GetVideo(videoId) == status)
                && (videoId !in wb.videoIds ==> wb.bitfield.values[..] == old(wb.bitfield.values[..]))
                && (if |wb.videoIds| == 0 then r == Failure(NotFound) && unchanged(this, state)
                    else r.Success? && state.watched == Bits.Serialize(wb.View()) && mtime == now
                         && ctime == (if old(ctime) == "" then now else old(ctime))
                         && state.lastWatched == (if old(state.lastWatched) == "" then now else old(state.lastWatched)))
    {
      var wb := state.watchedBitfield;
      if wb == null {
        return Failure(NotFound);
      }
      wb.SetVideo(videoId, status);
      if |wb.videoIds| == 0 {
        return Failure(NotFound);
      }
      var s := wb.Serialize();
      state.watched := s;
      Push(now);
      r := Success(());
    }
  }

  /** What the JSON `object_hook` builds from an object with these keys. */
  datatype Decoded = AsLibraryItem | AsWatchState | Unrecognised

  /** `object_hook`: an `_id` makes a library item even when
      `lastWatched` is present too; `lastWatched` alone makes a watch
      state; anything else is left as None. */
  function ObjectHook(keys: set<string>): (r: Decoded)
    ensures r == AsLibraryItem <==> "_id" in keys
    ensures r == AsWatchState <==> "_id" !in keys && "lastWatched" in keys
    ensures r == Unrecognised <==> "_id" !in keys && "lastWatched" !in keys
  {
    if "_id" in keys then AsLibraryItem
    else if "lastWatched" in keys then AsWatchState
    else Unrecognised
  }

  /** The keys `dataclass_to_dict` writes for a watch state: its compared
      fields, which leave out the decoded bitfield. */
  const WatchStateKeys: set<string> :=
    {"lastWatched", "timeWatched", "timeOffset", "overallTimeWatched", "timesWatched",
     "flaggedWatched", "duration", "video_id", "watched", "noNotif"}

  /** The keys written for a library item, its state nested under "state". */
  const LibraryItemKeys: set<string> :=
    {"_id", "type", "state", "_ctime", "_mtime", "name", "poster", "background",
     "logo", "year", "removed", "temp", "posterShape"}

  /** What is written reads back as the same kind: the nested state
      dictionary, which has no "_id", becomes a watch state, and the outer
      dictionary a library item. */
  lemma ObjectHookReadsBack()
    ensures ObjectHook(WatchStateKeys) == AsWatchState
    ensures ObjectHook(LibraryItemKeys) == AsLibraryItem
  {
  }
}
