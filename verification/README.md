# Active-stream registry of the sodaend media server

The server wraps an RTMP media-server library. Its own logic is small. Three
event handlers and one helper keep an in-memory `Map` of live audio streams:

- `prePublish` checks the stream path. A bad path gets its session rejected.
  A good path gets a record `{id, startTime, metadata, type: 'audio'}`.
- `donePublish` deletes the path from the map.
- `getActiveStations` builds one report per live path. Each report holds the
  station name, the uptime, the path and a fixed audio format.

This project models that logic and proves properties of it in Dafny:

- `wrappers.dfy`: `Option`. Here `None` stands for JavaScript's `undefined`.
- `stream_path.dfy`: covers `String.prototype.split('/')` with JavaScript's
  rules, so empty pieces are kept. It also holds the publish-path check and
  the station piece. Lemmas give the round trips between split and join, and
  the shape of every path the check accepts.
- `registry.dfy`: the map as a value (`Snapshot`). This is the key-to-record
  map together with its keys in insertion order, which is the order a
  JavaScript `Map` iterates in. `Publish` and `Done` are the effects of the
  two handlers on that value. Lemmas state what each one keeps and what it
  changes.
- `stations.dfy`: the `getActiveStations` projection.
- `active_streams.dfy`: the class `StreamTable`. Its fields are the map and
  the key order, and its handler methods update them in place. Each method's
  contract ties the new state to `Publish` or `Done` of the old state. The
  client method `StationLifecycle` follows one station through publish,
  rejected publish, republish, report and done, using only the contracts.

The model follows the code, not a tidier rule:

- A path passes when `split('/')` gives exactly three pieces and the middle
  piece is `live`. The first piece is never checked, so `abc/live/x` passes.
- The station piece may be empty, so `/live/` passes.
- A second publish to a live path is accepted. It overwrites the record, and
  the path keeps its place in the iteration order.
- `donePublish` deletes by path and ignores the session id.

Time is an integer clock in milliseconds, passed to the handlers as a
parameter. It replaces `new Date()`. `prePublish` reads the clock once.
`getActiveStations` reads it once per report, inside the per-key callback.
So its model takes one reading per key, and two reports of the same call may
see different readings. Each uptime is its own reading minus `startTime`.

## Model

| member | source | states |
|---|---|---|
| `StreamPath.Split` | index.js:59 | `split('/')` gives one more piece than the path has separators, and no piece contains a separator |
| `StreamPath.JoinSplit` | index.js:59 | joining the pieces of a split with `/` gives back the original path |
| `StreamPath.SplitJoin` | index.js:59 | splitting a `/`-join of separator-free pieces gives back exactly those pieces |
| `StreamPath.IsValidPath` | index.js:59-60 | the publish check; it holds exactly when the path has two separators and its second piece is `live` |
| `StreamPath.Segment` | index.js:89 | `split('/')[i]` is defined exactly when the path has at least `i` separators, and it never contains a separator |
| `StreamPath.ValidPathShape` | index.js:59-60 | every accepted path is `<app>/live/<station>` with separator-free `app` and `station` (its first and third pieces) |
| `StreamPath.AppLiveStationIsValid` | index.js:59-60 | every `<app>/live/<station>` with separator-free parts passes, whatever `app` is and even when empty, and its third piece is `station` |
| `StreamPath.StationIsRemainder` | index.js:89 | for an accepted path, `split('/')[2]` is everything after the second separator |
| `StreamPath.ExampleStationPaths` | index.js:58-60 | `/live/station1` and `/live/station2` pass, with stations `station1` and `station2` |
| `StreamPath.ExampleAnyFirstPiece` | index.js:59-60 | `abc/live/x` passes with station `x`, because the first piece is not checked |
| `StreamPath.ExampleEmptyStation` | index.js:59-60 | `/live/` passes with the empty station |
| `StreamPath.ExampleOtherApp` | index.js:60 | `/vod/station1` is refused |
| `StreamPath.ExampleDeeperPath` | index.js:60 | `/live/a/b` is refused (four pieces) |
| `StreamPath.ExampleNoLeadingSeparator` | index.js:60 | `live/x` is refused (two pieces) |
| `Registry.Without` | index.js:83 | deleting a key from the iteration order keeps exactly the other keys |
| `Registry.WithoutSplice` | index.js:83 | deleting a key that occurs once closes its gap and keeps the other keys in order |
| `Registry.Publish` | index.js:55-73 | a publish keeps the registry well formed: keys listed once each in order, all of them accepted paths |
| `Registry.Done` | index.js:79-84 | a delete keeps the registry well formed |
| `Registry.KeyCount` | index.js:88 | in a well-formed registry the iteration order has one entry per key |
| `Registry.PublishRejected` | index.js:59-64 | a path that fails the check yields Reject and the same keys, records and order |
| `Registry.PublishAccepted` | index.js:66-72 | an accepted path yields Accept and maps the path to `{id, now, args, "audio"}`; every other key keeps its record |
| `Registry.RepublishOverwrites` | index.js:67 | publishing to a live path overwrites its record; key count and order are unchanged |
| `Registry.PublishNewAppends` | index.js:67 | publishing to a new path appends it at the end of the order and adds one key |
| `Registry.DoneRemoves` | index.js:83 | `donePublish` removes the path and its record, leaves every other record, and closes the gap in the order |
| `Registry.DoneAbsent` | index.js:83 | `donePublish` for a path that is not live changes nothing |
| `Registry.DoneIdempotent` | index.js:83 | `donePublish` twice on the same path is the same as once |
| `Registry.RejectedThenDone` | index.js:83 | `donePublish` after a rejected publish of the same path leaves the registry as before the publish |
| `Registry.PublishThenDone` | index.js:67-83 | publishing a new path and then ending it restores the registry |
| `Stations.Report` | index.js:89-102 | the report names its key; for an accepted key the station is the text after the second separator; the uptime is non-negative exactly when the start time is not after the clock reading |
| `Stations.Reports` | index.js:88-103 | one report per key, in the order of the keys, each built from that key, its record and its own clock reading |
| `Stations.ActiveStations` | index.js:87-104 | one report per registry key in iteration order; `streamPath` is the key, `station` is the text after its second separator, `uptime` is that report's clock reading minus `startTime`, `type` is `audio`, `format` is AAC 128k 44.1kHz 2 channels |
| `Stations.UptimesNonNegative` | index.js:93 | no uptime is negative while no clock reading is behind the start time of its key |
| `Stations.ReportsCoverRegistry` | index.js:88 | a path is reported exactly when it is live |
| `ActiveStreams.StreamTable.constructor` | index.js:53 | the map starts empty |
| `ActiveStreams.StreamTable.PrePublish` | index.js:55-73 | the decision and the new map and order are `Publish` of the old state; the table stays well formed |
| `ActiveStreams.StreamTable.DonePublish` | index.js:79-84 | the new map and order are `Done` of the old state; the table stays well formed |
| `ActiveStreams.StreamTable.GetActiveStations` | index.js:87-104 | the reports are `ActiveStations` of the current map and order, with one clock reading per key |

## Left out

- The server configuration, `new NodeMediaServer(config)` and `nms.run()` (index.js:1-50). These are settings for a library that is not part of this model.
- The transcoding task settings (index.js:23-46) and the ffmpeg process they start. That is an external program.
- `nms.getSession(id)` and `session.reject()` (index.js:61-62). These are library calls. Their effect is modelled only as the `Reject` decision.
- Logging: every `console.log`, and the `JSON.stringify` of `args` (index.js:56, 76, 80).
- The `postPublish` handler (index.js:75-77). It only logs.
- Wall-clock time. Each `new Date()` is an integer clock reading in milliseconds, passed as a parameter: one per `prePublish` call and one per report in `getActiveStations`. The readings are not constrained to be ordered. `Date` subtraction is integer subtraction.
- The publisher's `args` is an arbitrary JavaScript object. Here it is a `map<string, string>`, stored and never inspected.
- JavaScript strings are UTF-16 code-unit sequences. Here they are `seq<char>`. Only the character `/` matters to the logic.
- Concurrency. The handlers run one at a time on the Node event loop, so a sequential model is faithful.
- The reported `format` fields are constants (aac, 128k, 44.1kHz, 2 channels). They do not follow the transcoder settings (320k, 48000 Hz at index.js:32-34). The model reports the constants, as the code does.
- `getActiveStations` is never called within index.js. It is modelled as the helper it is.
