/**
 * The module-level `activeStreams` Map and the handlers that change it in
 * place: `prePublish` (check, then `Map.set`) and `donePublish`
 * (`Map.delete`), with `getActiveStations` reading it.
 */
module ActiveStreams {
  import opened Wrappers
  import opened StreamPath
  import opened Registry
  import opened Stations

  class StreamTable {
    /** Records by stream path. */
    var streams: map<string, StreamRecord>
    /** The keys of `streams` in the Map's iteration (insertion) order. */
    var order: seq<string>

    function View(): Snapshot
      reads this
    {
      Snapshot(streams, order)
    }

    ghost predicate Valid()
      reads this
    {
      WellFormed(View())
    }

    /** `new Map()`: no stream is live on start. */
    constructor ()
      ensures Valid() && View() == Empty
    {
      streams := map[];
      order := [];
    }

    /**
     * The `prePublish` handler at clock `now`: split the path, reject unless
     * it has three pieces with "live" in the middle, otherwise store the record.
     */
    method PrePublish(id: SessionId, path: string, args: Metadata, now: int) returns (d: Decision)
      requires Valid()
      modifies this
      ensures (d, View()) == Publish(old(View()), id, path, args, now)
      ensures Valid()
    {
      var parts := Split(path);
      if |parts| != 3 || parts[1] != LiveApp {
        return Reject;
      }
      if path !in streams {
        order := order + [path];
      }
      streams := streams[path := StreamRecord(id, now, args, AudioType)];
      d := Accept;
    }

    /** The `donePublish` handler: delete the path, whichever session `id` ends. */
    method DonePublish(id: SessionId, path: string)
      requires Valid()
      modifies this
      ensures View() == Done(old(View()), path)
      ensures Valid()
    {
      order := Without(order, path);
      streams := streams - {path};
    }

    /** `getActiveStations()`, with `readings[i]` the clock reading taken for the i-th key. */
    function GetActiveStations(readings: seq<int>): (r: seq<StationReport>)
      reads this
      requires Valid() && |readings| == |order|
      ensures r == ActiveStations(View(), readings)
    {
      Reports(order, streams, readings)
    }
  }

  /** A publish lifecycle for one station, read off the contracts alone. */
  method StationLifecycle(station: string, args: Metadata)
    requires Separator !in station
  {
    var live := "/live/" + station;
    var vod := "/vod/" + station;
    AppLiveStationIsValid("", station);
    assert "" + "/live/" + station == live;
    var vodParts := ["", "vod", station];
    assert Join(vodParts[2..]) == station;
    assert Join(vodParts[1..]) == "vod" + [Separator] + station;
    assert Join(vodParts) == vod;
    SplitJoin(vodParts);

    var table := new StreamTable();
    var d := table.PrePublish("s1", live, args, 1000);
    assert d == Accept && table.order == [live];

    d := table.PrePublish("s2", vod, args, 1500);
    assert d == Reject && table.order == [live];

    d := table.PrePublish("s3", live, args, 2000);
    assert d == Accept && table.order == [live];
    assert table.streams[live].id == "s3";

    var reports := table.GetActiveStations([2500]);
    assert |reports| == 1;
    assert reports[0].streamPath == live;
    assert reports[0].uptime == 500;
    assert reports[0].station == Some(station);

    table.DonePublish("s1", live);
    assert Without([live], live) == Without([], live);
    assert table.streams == map[] && table.order == [];
  }
}
