/** `timestamp_zone_format_switcher` of resources/lib/modules/kodi_utils.py:
    Stremio writes UTC timestamps with a trailing "Z", Python's
    `datetime.fromisoformat` wants "+00:00"; the switcher converts either
    way and leaves anything else alone. */
module KodiUtils {
  import opened Text

  function TimestampZoneFormatSwitcher(timestamp: string): (r: string)
    ensures EndsWith(timestamp, "Z") ==>
              EndsWith(r, "+00:00") && r[..|r| - 6] == timestamp[..|timestamp| - 1]
    ensures !EndsWith(timestamp, "Z") && EndsWith(timestamp, "+00:00") ==>
              EndsWith(r, "Z") && r[..|r| - 1] == timestamp[..|timestamp| - 6]
    ensures !EndsWith(timestamp, "Z") && !EndsWith(timestamp, "+00:00") ==> r == timestamp
  {
    if EndsWith(timestamp, "Z") then timestamp[..|timestamp| - 1] + "+00:00"
    else if EndsWith(timestamp, "+00:00") then timestamp[..|timestamp| - 6] + "Z"
    else timestamp
  }

  /** Switching twice gives back a timestamp in either UTC spelling. */
  lemma SwitchTwice(timestamp: string)
    requires EndsWith(timestamp, "Z") || EndsWith(timestamp, "+00:00")
    ensures TimestampZoneFormatSwitcher(TimestampZoneFormatSwitcher(timestamp)) == timestamp
  {
    var r := TimestampZoneFormatSwitcher(timestamp);
    if EndsWith(timestamp, "Z") {
      assert r[|r| - 1] == '0';
      assert !EndsWith(r, "Z");
      assert timestamp == timestamp[..|timestamp| - 1] + "Z";
    } else {
      assert timestamp == timestamp[..|timestamp| - 6] + "+00:00";
    }
  }
}
