/**
 * The map of active streams as a value: what `prePublish` and `donePublish`
 * do to it. A JavaScript `Map` iterates its keys in insertion order, so the
 * state is the key-to-record map together with the keys in that order.
 */
module Registry {
  import opened StreamPath

  type SessionId = string

  /** The publisher's `args`, kept as given. */
  type Metadata = map<string, string>

  /** The value every record and every report carries in its `type` field. */
  const AudioType: string := "audio"

  /** The value stored under a stream path: `{id, startTime, metadata, type}`. */
  datatype StreamRecord = StreamRecord(id: SessionId, startTime: int, metadata: Metadata, streamType: string)

  /** What `prePublish` does with the session: keep it, or call `session.reject()`. */
  datatype Decision = Accept | Reject

  /** The keyed map and its keys in iteration order. */
  datatype Snapshot = Snapshot(streams: map<string, StreamRecord>, order: seq<string>)

  const Empty: Snapshot := Snapshot(map[], [])

  predicate Distinct(s: seq<string>) {
    forall i, j :: 0 <= i < j < |s| ==> s[i] != s[j]
  }

  /**
   * The order lists each key of the map exactly once, and only paths that
   * passed the check were ever stored.
   */
  ghost predicate WellFormed(s: Snapshot) {
    && Distinct(s.order)
    && (forall k :: k in s.order <==> k in s.streams)
    && (forall k :: k in s.streams ==> IsValidPath(k))
  }

  /** `s` with every occurrence of `x` taken out, the rest in the same order. */
  function Without(s: seq<string>, x: string): (r: seq<string>)
    ensures forall y :: y in r <==> y in s && y != x
  {
    if s == [] then []
    else if s[0] == x then Without(s[1..], x)
    else [s[0]] + Without(s[1..], x)
  }

  /**
   * `prePublish(id, path, args)` at clock `now`: a path that fails the check
   * is rejected and nothing is stored; otherwise `Map.set` stores the record,
   * appending a new key and leaving an existing key where it is.
   */
  function Publish(s: Snapshot, id: SessionId, path: string, args: Metadata, now: int): (out: (Decision, Snapshot))
    ensures WellFormed(s) ==> WellFormed(out.1)
  {
    if !IsValidPath(path) then (Reject, s)
    else
      var order := if path in s.streams then s.order else s.order + [path];
      (Accept, Snapshot(s.streams[path := StreamRecord(id, now, args, AudioType)], order))
  }

  /** `donePublish(id, path)`: `Map.delete(path)`, whatever the id. */
  function Done(s: Snapshot, path: string): (r: Snapshot)
    ensures WellFormed(s) ==> WellFormed(r)
  {
    WithoutDistinct(s.order, path);
    Snapshot(s.streams - {path}, Without(s.order, path))
  }

  /** Taking an element out of a sequence without repetitions leaves one without repetitions. */
  lemma {:induction false} WithoutDistinct(s: seq<string>, x: string)
    ensures Distinct(s) ==> Distinct(Without(s, x))
  {
    if s != [] && Distinct(s) {
      assert Distinct(s[1..]);
      WithoutDistinct(s[1..], x);
      if s[0] != x {
        var w := Without(s[1..], x);
        assert s[0] !in s[1..];
        assert s[0] !in w;
        forall i, j | 0 <= i < j < |[s[0]] + w| ensures ([s[0]] + w)[i] != ([s[0]] + w)[j] {
          if i > 0 {
            assert ([s[0]] + w)[i] == w[i - 1];
          }
          assert ([s[0]] + w)[j] == w[j - 1];
        }
      }
    }
  }

  /** Taking out an element that is absent changes nothing. */
  lemma {:induction false} WithoutAbsent(s: seq<string>, x: string)
    requires x !in s
    ensures Without(s, x) == s
  {
    if s != [] {
      WithoutAbsent(s[1..], x);
      assert [s[0]] + s[1..] == s;
    }
  }

  /** Taking out an element that occurs once closes the gap it leaves. */
  lemma {:induction false} WithoutSplice(a: seq<string>, x: string, b: seq<string>)
    requires x !in a && x !in b
    ensures Without(a + [x] + b, x) == a + b
  {
    if a == [] {
      assert ([x] + b)[1..] == b;
      WithoutAbsent(b, x);
    } else {
      WithoutSplice(a[1..], x, b);
      assert (a + [x] + b)[1..] == a[1..] + [x] + b;
      assert [a[0]] + (a[1..] + b) == a + b;
    }
  }

  /** A sequence without repetitions has as many elements as its set. */
  lemma {:induction false} DistinctCard(s: seq<string>)
    requires Distinct(s)
    ensures |set k | k in s| == |s|
  {
    if s != [] {
      var tail := s[1..];
      assert Distinct(tail);
      DistinctCard(tail);
      assert s[0] !in tail;
      assert (set k | k in s) == (set k | k in tail) + {s[0]};
    }
  }

  /** In a well-formed state there is one key in the order per key of the map. */
  lemma KeyCount(s: Snapshot)
    requires WellFormed(s)
    ensures |s.order| == |s.streams|
  {
    DistinctCard(s.order);
    assert (set k | k in s.order) == s.streams.Keys;
  }

  /** A rejected publish answers Reject and leaves keys, records and order as they were. */
  lemma PublishRejected(s: Snapshot, id: SessionId, path: string, args: Metadata, now: int)
    requires !IsValidPath(path)
    ensures Publish(s, id, path, args, now) == (Reject, s)
  {
  }

  /**
   * An accepted publish answers Accept, maps the path to a record holding the
   * handler's id and args, type "audio" and the current clock, and leaves
   * every other key with its record.
   */
  lemma PublishAccepted(s: Snapshot, id: SessionId, path: string, args: Metadata, now: int)
    requires IsValidPath(path)
    ensures var (d, t) := Publish(s, id, path, args, now);
      && d == Accept
      && path in t.streams
      && t.streams[path] == StreamRecord(id, now, args, "audio")
      && t.streams.Keys == s.streams.Keys + {path}
      && forall k :: k in s.streams && k != path ==> t.streams[k] == s.streams[k]
  {
  }

  /**
   * Publishing again to a live path overwrites its record (last writer wins):
   * the key count and the iteration order stay as they were.
   */
  lemma RepublishOverwrites(s: Snapshot, id: SessionId, path: string, args: Metadata, now: int)
    requires WellFormed(s) && IsValidPath(path) && path in s.streams
    ensures var t := Publish(s, id, path, args, now).1;
      && t.order == s.order
      && |t.streams| == |s.streams|
      && t.streams[path] == StreamRecord(id, now, args, AudioType)
  {
  }

  /** Publishing to a new path appends it at the end of the iteration order. */
  lemma PublishNewAppends(s: Snapshot, id: SessionId, path: string, args: Metadata, now: int)
    requires WellFormed(s) && IsValidPath(path) && path !in s.streams
    ensures var t := Publish(s, id, path, args, now).1;
      && t.order == s.order + [path]
      && |t.streams| == |s.streams| + 1
  {
  }

  /**
   * `donePublish` removes the path and its record, keeps every other key with
   * its record, and closes the gap in the iteration order.
   */
  lemma DoneRemoves(s: Snapshot, path: string)
    requires WellFormed(s)
    ensures var t := Done(s, path);
      && path !in t.streams && path !in t.order
      && t.streams.Keys == s.streams.Keys - {path}
      && (forall k :: k in t.streams ==> t.streams[k] == s.streams[k])
      && (forall i :: 0 <= i < |s.order| && s.order[i] == path ==>
            t.order == s.order[..i] + s.order[i + 1..])
  {
    forall i | 0 <= i < |s.order| && s.order[i] == path
      ensures Done(s, path).order == s.order[..i] + s.order[i + 1..]
    {
      assert s.order == s.order[..i] + [path] + s.order[i + 1..];
      assert path !in s.order[..i] by {
        forall j | 0 <= j < i ensures s.order[..i][j] != path { }
      }
      assert path !in s.order[i + 1..] by {
        var after := s.order[i + 1..];
        forall j | 0 <= j < |after| ensures after[j] != path {
          assert after[j] == s.order[i + 1 + j];
        }
      }
      WithoutSplice(s.order[..i], path, s.order[i + 1..]);
    }
  }

  /** `donePublish` for a path that is not live (never published, or rejected) changes nothing. */
  lemma DoneAbsent(s: Snapshot, path: string)
    requires WellFormed(s) && path !in s.streams
    ensures Done(s, path) == s
  {
    WithoutAbsent(s.order, path);
    assert s.streams - {path} == s.streams;
  }

  /** `donePublish` is idempotent. */
  lemma DoneIdempotent(s: Snapshot, path: string)
    requires WellFormed(s)
    ensures Done(Done(s, path), path) == Done(s, path)
  {
    DoneAbsent(Done(s, path), path);
  }

  /** A rejected publish followed by `donePublish` for the same path leaves the state as it was. */
  lemma RejectedThenDone(s: Snapshot, id: SessionId, path: string, args: Metadata, now: int)
    requires WellFormed(s) && !IsValidPath(path)
    ensures Done(Publish(s, id, path, args, now).1, path) == s
  {
    DoneAbsent(s, path);
  }

  /** Publishing to a new path and then ending that publish restores the state. */
  lemma PublishThenDone(s: Snapshot, id: SessionId, path: string, args: Metadata, now: int)
    requires WellFormed(s) && IsValidPath(path) && path !in s.streams
    ensures Done(Publish(s, id, path, args, now).1, path) == s
  {
    WithoutSplice(s.order, path, []);
    assert s.order + [path] + [] == s.order + [path];
    assert s.order + [] == s.order;
    assert s.streams[path := StreamRecord(id, now, args, AudioType)] - {path} == s.streams;
  }
}
