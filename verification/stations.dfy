/**
 * `getActiveStations`: one report per live stream path, in the map's
 * iteration order, with the station name, the uptime, and the fixed audio
 * format the report advertises. The callback reads the clock (`new Date()`)
 * once per report, so a call sees one clock reading per key: `readings[i]`
 * is the reading taken while building the report for the i-th key.
 */
module Stations {
  import opened Wrappers
  import opened StreamPath
  import opened Registry

  /** The `format` object of every report. */
  datatype AudioFormat = AudioFormat(codec: string, bitrate: string, sampleRate: string, channels: int)

  const ReportedFormat: AudioFormat := AudioFormat("aac", "128k", "44.1kHz", 2)

  /**
   * `{station, uptime, streamPath, type, format}`; `station` is `None` where
   * JavaScript would give `undefined` (a key with fewer than three pieces).
   */
  datatype StationReport = StationReport(
    station: Option<string>,
    uptime: int,
    streamPath: string,
    streamType: string,
    format: AudioFormat)

  /**
   * The report for one key and its record, with the clock reading `now` taken
   * while it is built. For a key that passed the publish check, the station
   * is everything after the second separator.
   */
  function Report(path: string, rec: StreamRecord, now: int): (e: StationReport)
    ensures e.streamPath == path
    ensures IsValidPath(path) ==> e.station == Some(DropThroughSeparators(path, 2))
    ensures e.uptime >= 0 <==> rec.startTime <= now
  {
    var e := StationReport(Segment(path, 2), now - rec.startTime, path, AudioType, ReportedFormat);
    if IsValidPath(path) then StationIsRemainder(path); e else e
  }

  /** `keys.map(...)`: one report per key, in the order of `keys`, each with its own clock reading. */
  function Reports(keys: seq<string>, streams: map<string, StreamRecord>, readings: seq<int>): (r: seq<StationReport>)
    requires forall k :: k in keys ==> k in streams
    requires |readings| == |keys|
    ensures |r| == |keys|
    ensures forall i :: 0 <= i < |keys| ==> r[i] == Report(keys[i], streams[keys[i]], readings[i])
  {
    if keys == [] then []
    else [Report(keys[0], streams[keys[0]], readings[0])] + Reports(keys[1..], streams, readings[1..])
  }

  /**
   * The reports for a registry state: exactly one per key, in iteration order,
   * each naming its key, the station after the key's second separator, the
   * time since its publish began, type "audio" and the fixed AAC format.
   */
  function ActiveStations(s: Snapshot, readings: seq<int>): (r: seq<StationReport>)
    requires WellFormed(s) && |readings| == |s.order|
    ensures |r| == |s.order| == |s.streams|
    ensures forall i :: 0 <= i < |r| ==>
      && r[i].streamPath == s.order[i]
      && r[i].station == Some(DropThroughSeparators(s.order[i], 2))
      && r[i].uptime == readings[i] - s.streams[s.order[i]].startTime
      && r[i].streamType == "audio"
      && r[i].format == AudioFormat("aac", "128k", "44.1kHz", 2)
  {
    KeyCount(s);
    Reports(s.order, s.streams, readings)
  }

  /** While no clock reading is behind the start time of its key, no uptime is negative. */
  lemma UptimesNonNegative(s: Snapshot, readings: seq<int>)
    requires WellFormed(s) && |readings| == |s.order|
    requires forall i :: 0 <= i < |s.order| ==> s.order[i] in s.streams && s.streams[s.order[i]].startTime <= readings[i]
    ensures forall e :: e in ActiveStations(s, readings) ==> e.uptime >= 0
  {
    var r := ActiveStations(s, readings);
    forall e | e in r ensures e.uptime >= 0 {
      var i :| 0 <= i < |r| && r[i] == e;
      assert s.order[i] in s.streams;
    }
  }

  /** Every stream path in the report is live, and every live path is reported. */
  lemma ReportsCoverRegistry(s: Snapshot, readings: seq<int>)
    requires WellFormed(s) && |readings| == |s.order|
    ensures forall k :: k in s.streams <==> exists e :: e in ActiveStations(s, readings) && e.streamPath == k
  {
    var r := ActiveStations(s, readings);
    forall k | k in s.streams ensures exists e :: e in r && e.streamPath == k {
      var i :| 0 <= i < |s.order| && s.order[i] == k;
      assert r[i] in r;
    }
  }
}
