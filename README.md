# plugin.video.nas core, modelled in Dafny

plugin.video.nas is a Kodi video add-on that talks to Stremio. It fetches
the user's add-ons, catalogues, metadata and library from the Stremio API,
and it keeps the user's library items and watch progress in sync. This
project models the add-on's core logic and proves properties of it:

- **Watched-episode bitfield** (`bits.dfy`, `bitfield.dfy`, `packing.dfy`).
  - `BitField8` is a bit vector over a byte buffer. `WatchedBitfield` pairs it with the ordered episode ids.
  - The wire string is `anchorId:anchorLength:payload`.
  - `construct_and_resize` realigns a stored bitfield against a changed episode list using one anchor offset.
  - The byte-level classes are proved to compute the value-level functions of module `Bits`. The round trip and the realignment rules are proved about those functions.
- **Library items** (`stremio_library.dfy`).
  - Progress accounting in `update_progress`, with the watched flag firing at most once per video.
  - The `removed`/`temp` rules and the timestamps.
  - `start_stop`, `set_library_status`, `clear_progress`, `dismiss_notification` and `mark_watched`.
  - The key dispatch of the library decoder.
- **API client state** (`stremio_api.dfy`).
  - Add-on routing (`_filter_addons`).
  - The home/discover/search/notification catalogue classes.
  - The type menus, ordered movie, series, then the rest by name.
  - The library data store as an insertion-ordered dictionary, `get_data_by_metas` and `set_data`.
  - The `get_library` ordering.
  - The left-biased merge of per-add-on metadata and its memoisation.
  - The shaping of request URLs and bodies.
- **Metadata records** (`stremio_meta.dfy`).
  - Episode defaults, `idx`/`next_episode` and the season list with specials last.
  - The series-watched rule and `kodi_type`.
  - Legacy-link consolidation and the genre migration.
  - The stable episode sort with back-links, and the decoder's dispatch.
- **Add-ons and streams** (`stremio_addon.dfy`, `stremio_stream.dfy`): catalogue titles, `base_url`/`legacy`, the catalogue back-references and stream validation.
- **Library actions** (`library.dfy`).
  - The continue-watching selection: progress candidates, notification candidates, the release check, newest-first order and the final filter.
  - The order in which a player report drives a library item.
- **Helpers** (`utils.dfy`, `kodi_utils.dfy`, `text.dfy`, `seqs.dfy`): `parse_string`, `remove_keys`, `filter_dict`, `thread_function` and `timestamp_zone_format_switcher`, plus the few `str`/`list` operations they rely on.

How the model stands in for what it cannot run:

- Objects the source updates in place are Dafny classes. Examples are the bitfield buffer, the watch state, the library item, metadata records with their videos, and the API client.
- Pure computations are functions, proved by lemmas.
- HTTP responses, the notification service, the clock and the float parser are parameters.
- Threads are index-aligned sequential maps.

## Model

Some reference definitions have no contract of their own and no row. The lemmas that state their properties do have rows:
- `StremioApi.MatchingAddons` (`_filter_addons`, resources/lib/apis/StremioAPI.py:89-116): `MatchingAddonsAppend`, `MatchingAddonsMembership`.
- `StremioApi.CatalogQuery` (`get_catalog`'s URL, resources/lib/apis/StremioAPI.py:367-380): `CatalogQueryShape`, `CatalogQueryPath`, `CatalogQuerySegments`.
- `StremioApi.MetaUrl` (resources/lib/apis/StremioAPI.py:249): `MetaUrlOfManifestAddon`.
- `Library.ContinueWatching` (resources/lib/modules/library.py:46-106): `ContinueWatchingNewestFirst`, `ContinueWatchingMembership`, `CandidatesKept`.
- `Library.CheckDateTime` (`_check_date_time`, resources/lib/modules/library.py:47): `AnyFresh`, `NothingFreshAtNow`.
- `Bits.Serialize` (resources/lib/classes/StremioLibrary.py:151-155): `SerializeParses`, `SerializeRoundTrip`.
- `Bits.ParseWire` (resources/lib/classes/StremioLibrary.py:96-102): `ParseComposed`, `TooFewComponents`.
- `StremioAddon.Addon.Legacy` (resources/lib/classes/StremioAddon.py:91-97): `ManifestUrlBase`, `ManifestSuffixNotLegacy`.
- `StremioMeta.Consolidate` (`_consolidate_links`, resources/lib/classes/StremioMeta.py:233-243): `ConsolidateExtends`, `ConsolidateCovers`, `ConsolidateUnique`, `ConsolidatePresent`, `ConsolidateIdempotent`.

| member | source | states |
|---|---|---|
| Bits.NewBuffer | resources/lib/classes/StremioLibrary.py:33-36 | `BitField8(n)` has length `n`, `ceil(n/8)` bytes, and every bit clear |
| Bits.FromPacked | resources/lib/classes/StremioLibrary.py:39-50 | the length is the given int, else 8 times the payload size; the payload stays as a prefix and is zero-extended to `ceil(length/8)` bytes when shorter |
| Bits.WithBitAt | resources/lib/classes/StremioLibrary.py:52-66 | after `set(i, v)`, `get(i)` is `v` and every other bit is unchanged |
| Bits.MaskBits | resources/lib/classes/StremioLibrary.py:59-66 | or-ing or and-not-ing a one-bit mask changes exactly that bit of the byte |
| Bits.WithBit | resources/lib/classes/StremioLibrary.py:59-66 | `set` keeps the buffer's size |
| Bits.ZerosAt | resources/lib/classes/StremioLibrary.py:34-36 | a zero buffer reads false everywhere, past its end included |
| Bits.ZeroExtendAt | resources/lib/classes/StremioLibrary.py:45-49 | zero-extension changes no bit |
| Bits.LastIndex | resources/lib/classes/StremioLibrary.py:68-72 | `last_index_of(v)` is -1 or an index below the length holding `v`, and no later index below the length holds `v` |
| Bits.FromArrayAt | resources/lib/classes/StremioLibrary.py:84-90 | after `construct_from_array`, bit `j` is `arr[j]` for `j < len(arr)` and false elsewhere |
| Bits.AnchorIndex | resources/lib/classes/StremioLibrary.py:153 | the anchor is the last set bit, or 0 when nothing is set |
| Bits.ShiftedAt | resources/lib/classes/StremioLibrary.py:121-124 | the copy loop sets new bit `k` from old bit `k + offset` when that is inside the old length, and leaves it clear otherwise |
| Bits.Shifted | resources/lib/classes/StremioLibrary.py:121-125 | the realigned buffer has `ceil(len(ids)/8)` bytes |
| Bits.Realign | resources/lib/classes/StremioLibrary.py:103-129 | a realigned bitfield has the length of the new id list, covered by its buffer, and is paired with that list |
| Bits.ConstructAndResize | resources/lib/classes/StremioLibrary.py:93-129 | a successful parse yields a well-formed bitfield over exactly the given ids |
| Bits.SplitCount | resources/lib/classes/StremioLibrary.py:96 | splitting on ':' gives one more part than there are colons |
| Bits.TooFewComponents | resources/lib/classes/StremioLibrary.py:96-98 | fewer than two ':' (fewer than three components) is rejected with a format error |
| Bits.ParseComposed | resources/lib/classes/StremioLibrary.py:96-102 | the payload is the last part and the length the one before it; the anchor id is everything before, rejoined with ':' and colons included |
| Bits.SerializeParses | resources/lib/classes/StremioLibrary.py:151-155 | `serialize` writes `video_ids[k]:k+1:payload` for the anchor `k`, and that string parses back to those three fields |
| Bits.SerializeRoundTrip | resources/lib/classes/StremioLibrary.py:93-155 | with distinct episode ids, `construct_and_resize(serialize(w), w.video_ids)` gives `w` back |
| Bits.MissingAnchor | resources/lib/classes/StremioLibrary.py:103-116 | an anchor id missing from the list yields an all-clear bitfield over the list |
| Bits.ShiftedPayloadAt | resources/lib/classes/StremioLibrary.py:118-124 | on the shifting path the new bits are read from the decoded, zero-extended payload |
| Bits.ShiftedBits | resources/lib/classes/StremioLibrary.py:107-125 | with a non-zero offset `(anchorLen-1) - anchorIdx`, new bit `i` is bit `i + offset` of the decoded payload when `0 <= i + offset < anchorLen`, and clear otherwise |
| Bits.InsertedIndex | resources/lib/classes/StremioLibrary.py:103-107 | inserting an id at or before position `k` moves the id at `k` up by one |
| Bits.InsertedIndexAfter | resources/lib/classes/StremioLibrary.py:103-107 | inserting an id after position `k` leaves the id at `k` where it is |
| Bits.InsertBeforeAnchorAt | resources/lib/classes/StremioLibrary.py:107-125 | an episode inserted at or before the anchor shifts every stored bit up by one place |
| Bits.InsertBeforeAnchor | resources/lib/classes/StremioLibrary.py:107-125 | after such an insertion, episodes at or after the insertion point keep their flags, the first episode reads unwatched, and those before the point take their predecessor's flag |
| Bits.InsertAfterAnchor | resources/lib/classes/StremioLibrary.py:127-129 | an episode inserted after the anchor leaves every stored flag where it was |
| Packing.Pack | resources/lib/classes/StremioLibrary.py:152-153 | the encoded payload never contains the ':' field separator |
| Packing.UnpackPack | resources/lib/classes/StremioLibrary.py:74-75 | decoding an encoded buffer gives the buffer back |
| Bitfield.BitField8.constructor | resources/lib/classes/StremioLibrary.py:33-36 | a fresh buffer equal to `Bits.NewBuffer(n)` |
| Bitfield.BitField8.FromPacked | resources/lib/classes/StremioLibrary.py:39-50 | the zero-extending copy loop builds exactly `Bits.FromPacked` |
| Bitfield.BitField8.Get | resources/lib/classes/StremioLibrary.py:52-57 | reads the bit that `Bits.BitAt` defines, false past the end |
| Bitfield.BitField8.Set | resources/lib/classes/StremioLibrary.py:59-66 | the buffer becomes `Bits.WithBit` of the old buffer |
| Bitfield.BitField8.LastIndexOf | resources/lib/classes/StremioLibrary.py:68-72 | the downward scan returns `Bits.LastIndex` |
| Bitfield.BitField8.Packed | resources/lib/classes/StremioLibrary.py:74-75 | the packed text decodes to the buffer and has no ':' |
| Bitfield.WatchedBitfield.constructor | resources/lib/classes/StremioLibrary.py:78-81 | pairs the given buffer with the given ids |
| Bitfield.WatchedBitfield.ConstructFromArray | resources/lib/classes/StremioLibrary.py:84-90 | the flags of `arr`, in order, in a fresh `BitField8(len(ids))`; the result is well formed |
| Bitfield.WatchedBitfield.ConstructAndResize | resources/lib/classes/StremioLibrary.py:93-129 | fails exactly when `Bits.ConstructAndResize` fails, with the same error; otherwise returns fresh objects whose view is its value |
| Bitfield.WatchedBitfield.Resize | resources/lib/classes/StremioLibrary.py:121-125 | the copy loop builds `Bits.Shifted` over a fresh buffer of the new length |
| Bitfield.WatchedBitfield.Get | resources/lib/classes/StremioLibrary.py:131-132 | the flag at an index |
| Bitfield.WatchedBitfield.Set | resources/lib/classes/StremioLibrary.py:134-135 | sets the bit at an index, ids unchanged |
| Bitfield.WatchedBitfield.SetVideo | resources/lib/classes/StremioLibrary.py:137-142 | a known id gets its bit set to `v` and reads back as `v`; an unknown id changes nothing |
| Bitfield.WatchedBitfield.GetVideo | resources/lib/classes/StremioLibrary.py:144-149 | true exactly when the id is listed and its bit is set |
| Bitfield.WatchedBitfield.Serialize | resources/lib/classes/StremioLibrary.py:151-155 | returns `Bits.Serialize` of the bitfield; needs a non-empty id list |
| StremioLibrary.StepBounds | resources/lib/classes/StremioLibrary.py:233-251 | an update keeps `0 <= timeWatched <= overallTimeWatched`, never lowers the overall total, and raises `timesWatched` by at most one |
| StremioLibrary.StepFlags | resources/lib/classes/StremioLibrary.py:247-251 | after an update past 70% of the duration the video is flagged |
| StremioLibrary.FlaggedStaysSilent | resources/lib/classes/StremioLibrary.py:247-251 | reports about an already flagged video never fire again |
| StremioLibrary.FiresAtMostOncePerVideo | resources/lib/classes/StremioLibrary.py:247-251 | any run of reports for one video fires at most once and raises `timesWatched` by at most one |
| StremioLibrary.StartStopIsSwitch | resources/lib/classes/StremioLibrary.py:268-279 | moving on to the next episode after the credits is accounted like a first report at offset 1 on that episode |
| StremioLibrary.WatchState.constructor | resources/lib/classes/StremioLibrary.py:158-175 | the given fields, with no bitfield yet |
| StremioLibrary.WatchState.TrackProgress | resources/lib/classes/StremioLibrary.py:233-245 | a new video rolls `timeWatched` into the overall total and zeroes it and the flag; the same video adds `max(progress - timeOffset, 0)` to both totals; offset and duration are set |
| StremioLibrary.WatchState.FlagWatched | resources/lib/classes/StremioLibrary.py:247-254 | the first time past the mark: count a watch, set the video's bit and re-serialise; an empty id list fails as IndexError does |
| StremioLibrary.WatchState.CreateBitfield | resources/lib/classes/StremioLibrary.py:181-186 | no stored string gives an all-clear bitfield over the ids; otherwise the stored string is decoded against the ids, or the decode error is returned with the old bitfield kept; counters, the stored string, `lastWatched` and `noNotif` are untouched |
| StremioLibrary.LibraryItem.constructor | resources/lib/classes/StremioLibrary.py:189-202 | the given fields |
| StremioLibrary.LibraryItem.SetTime | resources/lib/classes/StremioLibrary.py:315-324 | the modified time is now; the created time is set once; the last-watched time is set when asked or when unset |
| StremioLibrary.LibraryItem.UpdateProgress | resources/lib/classes/StremioLibrary.py:225-260 | the item is stamped with `lastWatched` forced to now and `ctime` set once; the counters become `Step` of the old ones; when the flag fires the video's bit is set and `watched` re-serialised; on success `temp` with no watch forces `removed` and `removed` forces `temp`; `noNotif` is untouched |
| StremioLibrary.LibraryItem.KeepFlagRules | resources/lib/classes/StremioLibrary.py:256-260 | `temp` with no completed watch sets `removed`, and then `removed` sets `temp`; both flags only ever go from false to true |
| StremioLibrary.WatchState.RecordProgress | resources/lib/classes/StremioLibrary.py:234-254 | the counters become `Step` of the old ones; when the flag fires the video's bit is set and the string re-serialised (an empty id list fails); otherwise the bits and the string are unchanged |
| StremioLibrary.LibraryItem.StartStop | resources/lib/classes/StremioLibrary.py:262-279 | the counters become `StartStopStep`: past 90% the offset restarts, and with a next episode the state moves to it at offset 1; `lastWatched`, `watched`, the bitfield and `noNotif` are untouched |
| StremioLibrary.LibraryItem.Push | resources/lib/classes/StremioLibrary.py:308-313 | stamps the item: `mtime` is now, `ctime` and `lastWatched` are set only when empty; flags, counters, `watched`, the bitfield and `noNotif` are untouched |
| StremioLibrary.LibraryItem.SetLibraryStatus | resources/lib/classes/StremioLibrary.py:290-293 | `removed` is `not status` and `temp` is false; then the item is stamped (`lastWatched` only when empty, `ctime` once); counters, `watched`, the bitfield and `noNotif` are untouched |
| StremioLibrary.LibraryItem.ClearProgress | resources/lib/classes/StremioLibrary.py:295-297 | only the time offset changes, to 0; then the item is stamped (`lastWatched` only when empty, `ctime` once); flags, `watched`, the bitfield and `noNotif` are untouched |
| StremioLibrary.LibraryItem.DismissNotification | resources/lib/classes/StremioLibrary.py:299-301 | `lastWatched` and `mtime` become now and `ctime` is set once; flags, counters, `watched`, the bitfield and `noNotif` are untouched |
| StremioLibrary.LibraryItem.MarkWatched | resources/lib/classes/StremioLibrary.py:303-306 | sets the episode's bit to `status` (an unknown id changes no bit), re-serialises it into `watched` and stamps the item (`ctime` once, `lastWatched` only when empty); no bitfield, or no episodes, fails with nothing stamped; counters, flags and `noNotif` are untouched |
| StremioLibrary.ObjectHook | resources/lib/classes/StremioLibrary.py:327-337 | `_id` makes a library item, else `lastWatched` makes a watch state, else nothing; both directions of each case |
| StremioLibrary.ObjectHookReadsBack | resources/lib/classes/StremioLibrary.py:158-202 | the keys written for a watch state (no "_id", has "lastWatched") read back as a watch state, and those written for a library item read back as a library item |
| Utils.ParseString | resources/lib/modules/utils.py:38-56 | non-strings pass through; "none"/"null" in any case give None; "true"/"false" give booleans; other text becomes an int when `int()` accepts it, else a float when the float parser does, else stays as given |
| Utils.ParseStringIdempotent | resources/lib/modules/utils.py:38-56 | parsing a parsed value changes nothing |
| Utils.ParseStringOfNat | resources/lib/modules/utils.py:49-51 | the decimal text of a natural number parses to that number |
| Utils.ParseStringLiterals | resources/lib/modules/utils.py:42-48 | any capitalisation of "true" parses to True |
| Utils.Dict.constructor | resources/lib/modules/utils.py:73-76 | a dictionary with the given keys, in order, and entries |
| Utils.Dict.Pop | resources/lib/modules/utils.py:75 | `pop(k, None)` removes the key if present, keeps the other keys in order and tolerates a missing key |
| Utils.Dict.RemoveKeys | resources/lib/modules/utils.py:73-76 | exactly the listed keys are gone; every other entry keeps its value and place; the same dictionary is returned |
| Utils.FilterTwice | resources/lib/modules/utils.py:73-76 | removing keys one after another is removing them all at once |
| Utils.FilterNothing | resources/lib/modules/utils.py:73-76 | removing no keys keeps the key order |
| Utils.FilterDistinct | resources/lib/modules/utils.py:73-76 | removal keeps the keys distinct |
| Utils.FilterMembershipAll | resources/lib/modules/utils.py:73-76 | a key survives removal exactly when it was present and not listed |
| Utils.FilterDict | resources/lib/modules/utils.py:176-178 | keeps exactly the keys that are fields, with their values |
| Utils.ThreadFunction | resources/lib/modules/utils.py:185-201 | one result per input, `results[i] == func(enumerable[i])` |
| KodiUtils.TimestampZoneFormatSwitcher | resources/lib/modules/kodi_utils.py:149-155 | a trailing "Z" becomes "+00:00"; a trailing "+00:00" becomes "Z"; anything else is unchanged |
| KodiUtils.SwitchTwice | resources/lib/modules/kodi_utils.py:149-155 | switching twice is the identity on timestamps ending in "Z" or "+00:00" |
| StremioAddon.Catalog.constructor | resources/lib/classes/StremioAddon.py:31-39 | the given fields, with no owning add-on yet |
| StremioAddon.Catalog.Title | resources/lib/classes/StremioAddon.py:41-43 | `name + " - "` followed by the type with its first character upper-cased and the rest unchanged |
| StremioAddon.Addon.constructor | resources/lib/classes/StremioAddon.py:99-103 | every manifest catalogue points back at the add-on; an empty catalogue name takes the manifest's name, and other names are kept |
| StremioAddon.Addon.BaseUrl | resources/lib/classes/StremioAddon.py:95-97 | the transport URL up to the first "/manifest.json", or all of it when absent |
| StremioAddon.BeforeFirst | resources/lib/classes/StremioAddon.py:97 | `s.split(p)[0]` is a prefix of `s`, ends at the first occurrence of `p`, and is all of `s` when `p` is absent |
| StremioAddon.NoStraddle | resources/lib/classes/StremioAddon.py:97 | "/manifest.json" cannot start inside the base and end inside the suffix |
| StremioAddon.ManifestUrlBase | resources/lib/classes/StremioAddon.py:91-97 | for `base + "/manifest.json"` the base URL is `base` and the add-on is not legacy |
| StremioAddon.ManifestSuffixNotLegacy | resources/lib/classes/StremioAddon.py:91-97 | a transport URL ending in "/manifest.json" is not legacy, and its base URL drops at least that suffix |
| StremioStream.TransformDict | resources/lib/classes/StremioStream.py:35-38 | with "title", `description` becomes the title; without it the dictionary is unchanged |
| StremioStream.NewStream | resources/lib/classes/StremioStream.py:40-42 | construction fails exactly when url, ytId, infoHash and externalUrl are all empty or missing |
| StremioMeta.Or | resources/lib/classes/StremioMeta.py:130-132 | Python's `a or b` on optional strings |
| StremioMeta.Video.constructor | resources/lib/classes/StremioMeta.py:130-132 | `name` becomes `title or name` and `description` becomes `description or overview` |
| StremioMeta.Video.Idx | resources/lib/classes/StremioMeta.py:75-77 | the first position of an equal video in the parent's list |
| StremioMeta.Video.NextEpisode | resources/lib/classes/StremioMeta.py:79-83 | None exactly when the last video equals this one; otherwise the video after `idx` |
| StremioMeta.NextEpisodeOfDistinct | resources/lib/classes/StremioMeta.py:79-83 | with pairwise different videos, the next episode of video `i` is video `i + 1`, and the last has none |
| StremioMeta.KeyLessIrreflexive | resources/lib/classes/StremioMeta.py:268-275 | the `(season, episode, released)` order is irreflexive |
| StremioMeta.KeyLessTransitive | resources/lib/classes/StremioMeta.py:268-275 | and transitive |
| StremioMeta.KeyLessTotal | resources/lib/classes/StremioMeta.py:268-275 | and total |
| StremioMeta.InsertVideo | resources/lib/classes/StremioMeta.py:268-275 | one insertion step keeps the multiset of videos plus the new one |
| StremioMeta.InsertVideoSorted | resources/lib/classes/StremioMeta.py:268-275 | inserting into a sorted list keeps it sorted |
| StremioMeta.SortVideos | resources/lib/classes/StremioMeta.py:268-275 | the sort is a permutation |
| StremioMeta.SortVideosSorted | resources/lib/classes/StremioMeta.py:268-275 | the sorted list is ordered by `(season, episode, released)` |
| StremioMeta.InsertSeason | resources/lib/classes/StremioMeta.py:201-203 | inserting a season keeps the list ordered with 0 last and holds the old seasons plus the new one |
| StremioMeta.SeasonNumbers | resources/lib/classes/StremioMeta.py:201-203 | distinct seasons ordered ascending with 0 last, holding exactly the videos' seasons |
| StremioMeta.SeasonsOrderedUnique | resources/lib/classes/StremioMeta.py:201-203 | two strictly ordered lists with the same members are equal, so the season list is determined by the set |
| StremioMeta.SeasonNumbersPermutation | resources/lib/classes/StremioMeta.py:201-203 | the season list does not depend on the order of the videos |
| StremioMeta.ConsolidateExtends | resources/lib/classes/StremioMeta.py:233-243 | existing links stay first, in order, and only new `(name, category)` links are appended |
| StremioMeta.ConsolidateCovers | resources/lib/classes/StremioMeta.py:233-243 | afterwards every legacy name has a link in the category |
| StremioMeta.ConsolidateUnique | resources/lib/classes/StremioMeta.py:233-243 | names unique within the category stay unique |
| StremioMeta.ConsolidatePresent | resources/lib/classes/StremioMeta.py:233-243 | when every legacy name already has a link, nothing changes |
| StremioMeta.ConsolidateIdempotent | resources/lib/classes/StremioMeta.py:233-243 | consolidating twice is consolidating once |
| StremioMeta.MigrateGenre | resources/lib/classes/StremioMeta.py:250-252 | a non-empty `genre` with empty `genres` moves over and `genre` becomes None; otherwise both stay |
| StremioMeta.Meta.constructor | resources/lib/classes/StremioMeta.py:249-262 | the genre migration followed by the four consolidations, Genres, Cast, Writers, Directors |
| StremioMeta.Meta.ConsolidateLinks | resources/lib/classes/StremioMeta.py:233-243 | the nested scan computes `Consolidate` |
| StremioMeta.Meta.AttachLibrary | resources/lib/classes/StremioMeta.py:264-280 | the videos end up sorted and permuted; with videos, the bitfield is rebuilt over the sorted ids (all clear, decoded, or the decode error); on success every video points back at the record |
| StremioMeta.Meta.SortAndDecode | resources/lib/classes/StremioMeta.py:265-275 | the library item is attached; the videos end up sorted and a permutation of the old ones; with videos, the bitfield is rebuilt over the sorted ids (all clear when nothing is stored, otherwise the decoded one or the decode error); counters and the stored string are untouched |
| StremioMeta.Meta.AdoptVideos | resources/lib/classes/StremioMeta.py:279-280 | every video's parent is this record |
| StremioMeta.Meta.VideoWatched | resources/lib/classes/StremioMeta.py:65-73 | a video's flag: its bitfield entry, or false without a library item or bitfield |
| StremioMeta.Meta.Seasons | resources/lib/classes/StremioMeta.py:201-203 | exactly the videos' seasons, each once, ascending with season 0 last |
| StremioMeta.Meta.Watched | resources/lib/classes/StremioMeta.py:205-213 | a series is watched iff it has videos and all outside season 0 are watched; anything else iff `timesWatched > 0` |
| StremioMeta.Meta.KodiType | resources/lib/classes/StremioMeta.py:215-223 | series gives tvshow, movie gives movie, anything else gives video |
| StremioMeta.AllWatched | resources/lib/classes/StremioMeta.py:208-211 | true iff every video outside season 0 is watched |
| StremioMeta.ObjectHook | resources/lib/classes/StremioMeta.py:394-412 | the dispatch by key shape in fixed priority, each case an if-and-only-if: meta (`id` and `type`), video (`id`), trailer, trailer stream, link, then behaviour hints when a hint key is present, popularities when a popularity key is present, and nothing otherwise |
| StremioMeta.ObjectHookReadsBack | resources/lib/classes/StremioMeta.py:15-174 | the keys written for each of the seven record dataclasses dispatch back to that same kind |
| StremioApi.MatchCount | resources/lib/apis/StremioAPI.py:106-115 | at most one match per declared resource |
| StremioApi.Repeat | resources/lib/apis/StremioAPI.py:106-115 | an add-on appended once per match |
| StremioApi.MatchingAddonsAppend | resources/lib/apis/StremioAPI.py:89-116 | the result for a concatenation is the concatenation of the results, so registration order is kept |
| StremioApi.MatchingAddonsMembership | resources/lib/apis/StremioAPI.py:89-116 | an add-on is returned iff it is registered and matches by shorthand or by some structured resource |
| StremioApi.ShorthandOnce | resources/lib/apis/StremioAPI.py:95-104 | a shorthand match appends the add-on once and skips its structured resources |
| StremioApi.StructuredRepeats | resources/lib/apis/StremioAPI.py:106-115 | two matching structured resources append the add-on twice |
| StremioApi.AllCatalogsMembership | resources/lib/apis/StremioAPI.py:145-149 | the catalogue list holds exactly the catalogues of the add-ons |
| StremioApi.ClassMembership | resources/lib/apis/StremioAPI.py:306-353 | each class list holds exactly the loaded catalogues satisfying its predicate |
| StremioApi.HomeSupportsClasses | resources/lib/apis/StremioAPI.py:306-353 | a home catalogue that supports an extra is in that extra's class |
| StremioApi.RequiredExtraExclusive | resources/lib/apis/StremioAPI.py:306-342 | a catalogue with a required extra is not on the home screen and is not both discover and search |
| StremioApi.TypeRank | resources/lib/apis/StremioAPI.py:197 | the sort key's first component: movie 0, series 1, others 2 |
| StremioApi.TypeLessTransitive | resources/lib/apis/StremioAPI.py:197 | the type order is transitive |
| StremioApi.TypeLessTotal | resources/lib/apis/StremioAPI.py:197 | and total |
| StremioApi.Dedup | resources/lib/apis/StremioAPI.py:192-196 | the `not in types` append loop keeps each type once and loses none |
| StremioApi.InsertType | resources/lib/apis/StremioAPI.py:197 | one insertion step keeps the types plus the new one |
| StremioApi.InsertTypeOrdered | resources/lib/apis/StremioAPI.py:197 | inserting a new type keeps the list strictly ordered |
| StremioApi.SortTypes | resources/lib/apis/StremioAPI.py:197 | the sort is a permutation |
| StremioApi.SortTypesOrdered | resources/lib/apis/StremioAPI.py:197 | distinct types come out strictly ordered |
| StremioApi.TypeMenu | resources/lib/apis/StremioAPI.py:192-199 | the menu is strictly ordered and lists exactly the types that occur |
| StremioApi.MovieFirst | resources/lib/apis/StremioAPI.py:197 | when "movie" occurs it comes first |
| StremioApi.CatalogTypes | resources/lib/apis/StremioAPI.py:325-327 | the types of the catalogues, index for index |
| StremioApi.ListedTypes | resources/lib/apis/StremioAPI.py:194-196 | a type is listed iff some item of that type is neither removed nor temp |
| StremioApi.InsertByLastWatched | resources/lib/apis/StremioAPI.py:208-213 | one insertion step keeps the entries plus the new one |
| StremioApi.InsertByLastWatchedSorted | resources/lib/apis/StremioAPI.py:208-213 | inserting into a latest-first list keeps it latest first |
| StremioApi.SortByLastWatched | resources/lib/apis/StremioAPI.py:208-213 | the sort is a permutation |
| StremioApi.SortByLastWatchedSorted | resources/lib/apis/StremioAPI.py:208-213 | the sorted list is latest watched first under string order |
| StremioApi.LibraryOrderSpec | resources/lib/apis/StremioAPI.py:207-215 | `get_library` lists exactly the items that are not removed and have the requested type, latest watched first |
| StremioApi.Api.Library | resources/lib/apis/StremioAPI.py:201-215 | the same, over the data store's items |
| StremioApi.Uncached | resources/lib/apis/StremioAPI.py:163 | exactly the ids not in the store, or all of them on refresh |
| StremioApi.Merge | resources/lib/apis/StremioAPI.py:262-264 | `reduce` over no responses fails (TypeError) and otherwise succeeds |
| StremioApi.MergeFromFirst | resources/lib/apis/StremioAPI.py:263 | during the fold a key is present iff some map has it, and it keeps its first value |
| StremioApi.MergeLeftBiased | resources/lib/apis/StremioAPI.py:263 | a key takes its value from the first response that has it, even when that value is empty |
| StremioApi.MergeKeys | resources/lib/apis/StremioAPI.py:263 | the merged keys are the union of the responses' keys |
| StremioApi.PostBody | resources/lib/apis/StremioAPI.py:75-76 | `authKey` is added only when a token is set; no other key changes |
| StremioApi.GetUrl | resources/lib/apis/StremioAPI.py:59 | the URL is returned unchanged exactly when it holds no "/manifest.json" |
| StremioApi.GetUrlOfManifest | resources/lib/apis/StremioAPI.py:59 | a manifest URL loses exactly its "/manifest.json" suffix |
| StremioApi.RemoveManifestSuffix | resources/lib/apis/StremioAPI.py:59 | `replace("/manifest.json", "")` on `base + "/manifest.json"` gives `base` back when `base` does not contain the path |
| StremioApi.PresentSegmentsExact | resources/lib/apis/StremioAPI.py:367-380 | `filter(None, ...)` keeps exactly the present, non-empty segments |
| StremioApi.PathShape | resources/lib/apis/StremioAPI.py:367-380 | the path after the base URL is "catalog" followed by "/" and each of type, id, genre, search and notification ids that is set and non-empty |
| StremioApi.CatalogQueryPath | resources/lib/apis/StremioAPI.py:367-380 | the query is the base URL and "/" (nothing for an empty base), followed by that path |
| StremioApi.CatalogQuerySegments | resources/lib/apis/StremioAPI.py:367-380 | for any base URL, when the type, id and extras hold no '/', the path after the base splits on '/' back into exactly its set, non-empty segments |
| StremioApi.CatalogQueryShape | resources/lib/apis/StremioAPI.py:367-380 | for any inputs, the query is the base URL and "/" (nothing for an empty base), then "catalog", then "/" and each of type, id, genre, search and notification ids that is set and non-empty, in that order |
| StremioApi.MetaUrlOfManifestAddon | resources/lib/apis/StremioAPI.py:249 | an add-on installed from `<base>/manifest.json` is asked at `<base>/meta/<type>/<id>.json` |
| StremioApi.Api.constructor | resources/lib/apis/StremioAPI.py:37-40 | the token, the first add-on list and the first data store, which `get_data_store` (lines 151-157) builds: the store is `StoreAfter` of the empty store and the fetched items, so the last item with an id wins, and the key order is each id's first appearance in the response |
| StremioApi.Api.Put | resources/lib/apis/StremioAPI.py:169 | `store[item.id] = item`: a new key goes last, an existing key keeps its place |
| StremioApi.Api.PutAll | resources/lib/apis/StremioAPI.py:168-169 | the store becomes `StoreAfter` of the old store and the items, and the key order becomes `KeysAfter`: old keys in place, new ids appended in first-seen order |
| StremioApi.KeysAfterDedup | resources/lib/apis/StremioAPI.py:156 | from distinct keys, the key order after inserting items is the old keys and the items' ids with repeats dropped, first occurrence kept |
| StremioApi.StoreAfterLastWins | resources/lib/apis/StremioAPI.py:168-169 | the last item with an id is the one stored under it |
| StremioApi.StoreAfterUntouched | resources/lib/apis/StremioAPI.py:168-169 | ids no item carries keep their old entry |
| StremioApi.StoreAfterCovers | resources/lib/apis/StremioAPI.py:168-169 | after storing the items, every item's id is a key, every entry is an old entry or one of the items, and no old key is lost |
| StremioApi.KeysAfterKeeps | resources/lib/apis/StremioAPI.py:168-169 | storing items never drops an existing key |
| StremioApi.KeysFromEmpty | resources/lib/apis/StremioAPI.py:156 | the keys of `{i.id: i for i in response}` are the response's ids with repeats dropped, in order of first appearance |
| StremioApi.Api.GetDataStore | resources/lib/apis/StremioAPI.py:151-157 | refetches only when the store is empty or a refresh is asked, and then the store is `{i.id: i for i in response}`: every response id is a key, the last item with an id is the one kept (`StoreAfter`), and the keys come in first-seen order; otherwise nothing changes |
| StremioApi.Api.GetAddons | resources/lib/apis/StremioAPI.py:139-143 | refetches only when empty or on refresh |
| StremioApi.Api.GetCatalogs | resources/lib/apis/StremioAPI.py:145-149 | refetches only when empty or on refresh, and then holds the add-ons' catalogues in order |
| StremioApi.Api.FilterAddons | resources/lib/apis/StremioAPI.py:89-116 | the loop computes `MatchingAddons` over the loaded add-ons |
| StremioApi.ResourceMatches | resources/lib/apis/StremioAPI.py:106-115 | the inner loop appends the add-on once per matching structured resource |
| StremioApi.Api.GetLibraryTypes | resources/lib/apis/StremioAPI.py:192-199 | "all" followed by the sorted distinct listed types |
| StremioApi.Api.GetDiscoverTypes | resources/lib/apis/StremioAPI.py:322-329 | the sorted distinct types of the discover catalogues |
| StremioApi.Api.SetData | resources/lib/apis/StremioAPI.py:187-190 | the item replaces the stored one under its id |
| StremioApi.MissingMetas | resources/lib/apis/StremioAPI.py:170 | exactly the records whose id the store lacks |
| StremioApi.Api.LoadItems | resources/lib/apis/StremioAPI.py:162-173 | requests the uncached ids, stores the answers, and gives every still-missing id a fresh default item |
| StremioApi.Api.AddDefaults | resources/lib/apis/StremioAPI.py:170-173 | each missing record gets a fresh default item (removed and temp, no progress); existing entries stay |
| StremioApi.Api.AddDefault | resources/lib/apis/StremioAPI.py:171-173 | one record: a fresh default item (`DefaultFor` the record) is stored under its id, and no other entry changes |
| StremioApi.EnsureBitfields | resources/lib/apis/StremioAPI.py:175-179 | items that already have a bitfield, or whose record has no videos, are untouched; on success every item with videos has a bitfield, and a newly built one is `create_bitfield` over the record's video ids (all clear when nothing is stored, else the decoded string); a failure is the decode error of some record with videos; counters, `watched` and the flags are untouched |
| StremioApi.EnsureBitfield | resources/lib/apis/StremioAPI.py:176-179 | one pass of the loop: the item is given `create_bitfield` over its record's ids when it has none and the record has videos, and is left alone otherwise; a failure is that item's decode error |
| StremioApi.EnsureBitfieldsLoop | resources/lib/apis/StremioAPI.py:175-179 | the loop keeps every earlier item either untouched or holding the bitfield built from its stored string, and stops at the first decode error |
| StremioApi.Api.GetDataByMetas | resources/lib/apis/StremioAPI.py:159-180 | the returned items are index-aligned with the records and are the stored items for their ids; an item made for a missing record is fresh, removed and temp, of the record's type, with no progress and no stored string; an existing item keeps its counters and `watched`; on success each item whose record has videos holds `create_bitfield` over the video ids when it had no bitfield, and items that had one keep it; a failure is the decode error of some record with videos |
| StremioApi.Api.CollectItems | resources/lib/apis/StremioAPI.py:162-174 | every record's id ends up in the store and the returned items are the stored items, index-aligned with the records; each is well formed and is an item the caller already had, one of the fetched ones, or a fresh default |
| StremioApi.Api.GetDataByMeta | resources/lib/apis/StremioAPI.py:182-185 | the single-record case: a new item is a fresh default of the record's type whose bitfield, with videos, is all clear over the video ids; an item without a bitfield gets the one decoded from its stored string, or the decode error; an item with one, or a record without videos, leaves it as it was |
| StremioApi.Api.GetMetadataById | resources/lib/apis/StremioAPI.py:243-265 | a cached record is returned as is unless refreshing; otherwise the matching meta add-ons are asked in order, their answers merged left-biased and the result memoised |
| Library.NotifCandidateWithoutProgress | resources/lib/modules/library.py:70-78 | for items in the library, "not already a candidate" means no playback offset |
| Library.CandidatesDisjoint | resources/lib/modules/library.py:64-78 | no id is both a progress candidate and a notification candidate |
| Library.AnyFresh | resources/lib/modules/library.py:100-104 | true iff some episode with a truthy season passes `_check_date_time` |
| Library.NothingFreshAtNow | resources/lib/modules/library.py:47-61 | once the last-watched time is now, no release counts as new |
| Library.InsertByModified | resources/lib/modules/library.py:85-92 | one insertion step keeps the entries plus the new one |
| Library.InsertByModifiedSorted | resources/lib/modules/library.py:85-92 | inserting into a newest-first list keeps it newest first |
| Library.SortByModified | resources/lib/modules/library.py:85-92 | the sort is a permutation |
| Library.SortByModifiedSorted | resources/lib/modules/library.py:85-92 | the sorted list is newest first |
| Library.ContinueWatchingNewestFirst | resources/lib/modules/library.py:85-106 | the selection is ordered by modified time, newest first |
| Library.ContinueWatchingMembership | resources/lib/modules/library.py:94-106 | an entry is selected iff it is a candidate or a returned notification, and not a notification item with a default video or with no new episode |
| Library.CandidatesKept | resources/lib/modules/library.py:64-106 | progress candidates are never dropped |
| Library.FollowingId | resources/lib/modules/library.py:21-27 | a successor id exists only for an episode report naming a listed video |
| Library.Report | resources/lib/modules/library.py:24-29 | the counters are `StartStopStep` of `Step` when asked, else `Step`; when the flag fires the bit is set and `watched` re-serialised; `lastWatched`/`mtime` are now and `ctime` is set once; on success the `temp`/`removed` rules hold, on failure the flags are untouched; `noNotif` is untouched; it fails exactly when the flag fires over an empty id list |
| Library.PlayerUpdate | resources/lib/modules/library.py:9-43 | an unknown video fails with nothing changed; otherwise the item is driven as `Report` says with the episode's successor (counters, bit set and re-serialised, stamps, `temp`/`removed`, `noNotif` kept), and the event names the item and the report; it fails exactly when the video is unknown or the flag fires over an empty id list |
| Text.JoinSplit | resources/lib/classes/StremioLibrary.py:96-102 | rejoining the parts of a split with the separator gives the string back |
| Text.SplitJoin | resources/lib/classes/StremioLibrary.py:96-102 | splitting the join of separator-free parts gives the parts back |
| Text.SplitAround | resources/lib/classes/StremioLibrary.py:96-102 | splitting `a + ":" + b` with no ':' in `b` is the split of `a` followed by `b` |
| Text.SplitWithoutSeparator | resources/lib/classes/StremioLibrary.py:96 | a string without the separator splits into itself |
| Text.JoinOfTwo | resources/lib/classes/StremioLibrary.py:102 | joining two parts puts the separator between them |
| Text.Split | resources/lib/classes/StremioLibrary.py:96 | `str.split` returns at least one part, and no part holds the separator |
| Text.ParseInt | resources/lib/classes/StremioLibrary.py:101 | `int()` accepts exactly an optionally signed, non-empty run of ASCII digits, and its value is the digits' decimal value, negated after "-" |
| Text.ParseSignedNatToString | resources/lib/classes/StremioLibrary.py:101 | `int("-" + str(n))` is `-n` and `int("+" + str(n))` is `n` |
| Text.NatToString | resources/lib/classes/StremioLibrary.py:154 | the decimal text of a number is non-empty digits without ':' |
| Text.ParseNatToString | resources/lib/classes/StremioLibrary.py:101 | `int(str(n))` is `n` |
| Text.UpperChar | resources/lib/classes/StremioAddon.py:43 | ASCII upper-casing of one character |
| Text.Lower | resources/lib/modules/utils.py:42 | ASCII lower-casing keeps the length and maps each character |
| Text.RemoveAll | resources/lib/apis/StremioAPI.py:59 | `replace(p, "")` never lengthens the text |
| Text.RemoveShortens | resources/lib/apis/StremioAPI.py:59 | `replace(p, "")` shortens the text exactly when `p` occurs in it |
| Text.RemoveAbsent | resources/lib/apis/StremioAPI.py:59 | replacing an absent pattern changes nothing |
| Text.StrLessIrreflexive | resources/lib/apis/StremioAPI.py:208-213 | Python string order is irreflexive |
| Text.StrLessTransitive | resources/lib/apis/StremioAPI.py:208-213 | and transitive |
| Text.StrLessAsymmetric | resources/lib/apis/StremioAPI.py:208-213 | and asymmetric |
| Text.StrLessTotal | resources/lib/apis/StremioAPI.py:208-213 | and total on different strings |
| Text.StrNotLessTransitive | resources/lib/apis/StremioAPI.py:208-213 | "not earlier than" is transitive |

## Left out

- zlib and base64 (resources/lib/classes/StremioLibrary.py:41,75,118,127,153) are foreign library calls. Module `Packing` stands in for the pair with a hexadecimal codec. It keeps what the bitfield code relies on: lossless, never containing ':', and able to fail on bad input. Payload texts therefore differ from the real ones.
- HTTP transport, the login and logout dialogs, and settings reads and writes are left out. The fetched responses are parameters.
- `send_events` and the trakt event's delivery are left out. `Library.PlayerUpdate` returns the event instead.
- `get_streams_by_id`, `get_subtitles_by_id`, `get_metadata_by_libraries` and `get_catalog`'s per-item fetch are HTTP plus threads. Their add-on selection is `Api.FilterAddons` and their query shaping is `CatalogQuery`/`MetaUrl`. The subtitle list's completion order is not modelled.
- Threads are modelled as sequential, index-aligned maps (`Utils.ThreadFunction`).
- The wall clock and datetime parsing are abstract. `now` is a parameter. Library items keep their timestamps as strings. The continue-watching selection sees parsed instants as integers, with `None` for an empty timestamp.
- The float coefficients 0.7 and 0.9 are exact ratios (`10*t > 7*d`, `10*t > 9*d`). Float rounding at the boundary is not modelled.
- `Utils.ParseString`: the float branch is a parser passed in, and lists and dictionaries are not accepted as inputs.
- `parse_string` and `remove_keys` in resources/lib/modules/kodi_utils.py:11-29,46-49 are line-for-line copies of the ones in resources/lib/modules/utils.py. They are modelled once, in `Utils`.
- `from_dict`/`object_hook` reflection builds objects from JSON. Only the dispatch by key shape is modelled (`StremioLibrary.ObjectHook`, `StremioMeta.ObjectHook`), as is `filter_dict`.
- `StremioApi.Api.GetMetadataById` memoises the merged dictionary, not the `StremioMeta` built from it. Building the record is `StremioMeta.Meta.constructor` followed by `AttachLibrary`.
- `StremioApi.Api.GetDataByMetas`, `Library`, `GetLibraryTypes` and `GetDiscoverTypes` work on the loaded store and catalogues. The source's calls to `get_data_store()`/`get_catalogs()` refetch when those are empty; that refetch is `GetDataStore`/`GetCatalogs`, called separately.
- `StremioLibrary.LibraryItem.Push` only stamps the item. Storing it in the API's data store is `StremioApi.Api.SetData`, which does not model the server push. `kodi_refresh` is left out.
- `StremioLibrary.LibraryItem.StartStop`: the subtitle ping and the relaunch of playback are left out.
- `StremioLibrary.LibraryItem.UpdateProgress`, `StremioLibrary.LibraryItem.MarkWatched`: serialising over an empty episode list raises IndexError in the source. Here it returns `Failure(NotFound)` after the same state changes.
- `StremioLibrary.LibraryItem.MarkWatched`: a missing bitfield raises AttributeError in `mark_watched` (resources/lib/classes/StremioLibrary.py:304). Here it returns `Failure(NotFound)` and changes nothing. `update_progress` checks for the bitfield first (resources/lib/classes/StremioLibrary.py:252) and skips the bit, and so does the model.
- `Bitfield.BitField8.Get`, `Bitfield.BitField8.Set`: Python's negative indexes are not modelled; indexes are natural numbers.
- The library.py wrappers `set_library_status`, `clear_progress`, `dismiss_notification` and `mark_watched` (resources/lib/modules/library.py:109-126) only fetch the record and delegate. What they do is the `LibraryItem` methods of the same names.
- `Library.PlayerUpdate` requires the record's library item and the videos' back-links. `get_metadata_by_id` always attaches both.
- `Library.ContinueWatchingMembership`: what the notification service returns is a parameter, since `get_notifications` is not defined in the repository. The entries carry the fields of the record built from each item: default video, episodes and parsed times.
- `StremioMeta.SortVideos`, `StremioMeta.Meta.AttachLibrary`: the sort requires each key field to be set on all videos or on none. Python's tuple comparison raises TypeError when it meets None against a value, and that error path is not modelled. Stability among equal keys is not proved, only that the list is sorted and a permutation.
- `StremioMeta.Meta.SortAndDecode` carries the same requirement as `AttachLibrary`: each key field is set on all videos or on none. The TypeError for a mix is not modelled, and the sort's stability is not proved.
- `StremioMeta.Meta.Seasons` requires every season set, or none. Python also accepts a mix of None and 0, which this contract excludes.
- `Library.SortByModified`, `StremioApi.SortByLastWatched`: stability among equal keys is not proved.
- `StremioApi.Api.PutAll` states the store as `StoreAfter` of the old one. The last-wins reading is proved separately, in `StoreAfterLastWins`/`StoreAfterUntouched`.
- `Text.ParseInt`, `Utils.ParseString`: Python's `int()` also strips surrounding whitespace, accepts '_' between digits and accepts non-ASCII decimal digits. The model accepts only an optional sign and ASCII digits, so such texts fall through to the float parser, or to the ValueError path in `construct_and_resize`.
- `StremioAddon.Catalog.Title`, `Text.UpperChar`: `str.upper()` is Unicode case mapping, which can also change non-ASCII letters and turn one character into several. The model upper-cases ASCII letters only.
- `StremioApi.Api.FilterAddons`, `StremioApi.Api.GetMetadataById`: `_filter_addons` starts with `get_addons()` (resources/lib/apis/StremioAPI.py:93), which refetches the add-on list when it is empty (resources/lib/apis/StremioAPI.py:139-143). The model scans the loaded list; the refetch is `Api.GetAddons`, called separately.
- `KodiUtils.TimestampZoneFormatSwitcher`: the log message written for a timestamp with neither suffix is left out, like the other Kodi effects. Only the returned value is modelled.
- Display code is left out: `build_list_item`, `runtime_seconds`, `first_year`, `get_links_by_category`, the indexers, windows, router, player and service.

## Documentation and code

Where the repository's description and the code differ, the model follows the code:

- Merging metadata keeps a key from the first add-on that has it, even when its value is empty (`StremioApi.MergeLeftBiased`).
- `set_library_status(False)` leaves `removed` set and `temp` clear. So "removed implies temp" holds after `update_progress`, not after every operation.
- The realignment uses a single anchor offset. An episode inserted before the anchor therefore shifts every flag up by one, including the flags of episodes before the insertion point (`Bits.InsertBeforeAnchor`). The flags of episodes at or after the insertion point are preserved.
