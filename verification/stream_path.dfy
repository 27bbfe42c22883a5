/**
 * Stream paths such as "/live/station1": JavaScript's `String.prototype.split`
 * on the separator '/', the publish-path check of the `prePublish` handler,
 * and the station segment that the active-station report reads.
 */
module StreamPath {
  import opened Wrappers

  const Separator: char := '/'

  /** The only application name a publish path may carry in its second segment. */
  const LiveApp: string := "live"

  /** Number of separators in `s`. */
  function SeparatorCount(s: string): nat {
    if s == [] then 0
    else (if s[0] == Separator then 1 else 0) + SeparatorCount(s[1..])
  }

  /**
   * `s.split('/')` as JavaScript computes it: empty pieces are kept, so there
   * is always one more piece than there are separators, and no piece holds one.
   */
  function Split(s: string): (parts: seq<string>)
    ensures |parts| == SeparatorCount(s) + 1
    ensures forall i :: 0 <= i < |parts| ==> Separator !in parts[i]
  {
    if s == [] then [""]
    else
      var rest := Split(s[1..]);
      if s[0] == Separator then [""] + rest
      else [[s[0]] + rest[0]] + rest[1..]
  }

  /** `parts.join('/')`. */
  function Join(parts: seq<string>): string
    requires |parts| >= 1
  {
    if |parts| == 1 then parts[0]
    else parts[0] + [Separator] + Join(parts[1..])
  }

  /** `s.split('/')[i]`, which is `undefined` past the last piece. */
  function Segment(s: string, i: nat): (r: Option<string>)
    ensures r.Some? <==> i <= SeparatorCount(s)
    ensures r.Some? ==> Separator !in r.value
  {
    var parts := Split(s);
    if i < |parts| then Some(parts[i]) else None
  }

  /**
   * The check of `prePublish`: the path splits into exactly three pieces and
   * the middle one is "live". The first and the last piece are not checked.
   * It holds exactly when the path has two separators with "live" between them.
   */
  predicate IsValidPath(path: string): (b: bool)
    ensures b <==> SeparatorCount(path) == 2 && Segment(path, 1) == Some(LiveApp)
  {
    var parts := Split(path);
    |parts| == 3 && parts[1] == LiveApp
  }

  /** What is left of `s` after its first `n` separators (all of `s` when n == 0). */
  function DropThroughSeparators(s: string, n: nat): string
    decreases |s|
  {
    if n == 0 || s == [] then s
    else if s[0] == Separator then DropThroughSeparators(s[1..], n - 1)
    else DropThroughSeparators(s[1..], n)
  }

  /** Joining what split produced gives back the original string. */
  lemma {:induction false} JoinSplit(s: string)
    ensures Join(Split(s)) == s
  {
    if s != [] {
      var rest := Split(s[1..]);
      JoinSplit(s[1..]);
      if s[0] == Separator {
        assert Split(s) == [""] + rest;
        assert ([""] + rest)[1..] == rest;
      } else {
        var parts := [[s[0]] + rest[0]] + rest[1..];
        assert Split(s) == parts;
        if |rest| == 1 {
          assert Join(parts) == [s[0]] + rest[0];
        } else {
          assert parts[1..] == rest[1..];
          assert Join(rest) == rest[0] + [Separator] + Join(rest[1..]);
          assert Join(parts) == [s[0]] + Join(rest);
        }
      }
    }
  }

  /** A string without separators splits into itself alone. */
  lemma {:induction false} SplitWord(w: string)
    requires Separator !in w
    ensures Split(w) == [w]
  {
    if w != [] {
      assert Separator !in w[1..];
      SplitWord(w[1..]);
      assert [w[0]] + w[1..] == w;
    }
  }

  /** A leading separator-free word followed by a separator becomes the first piece. */
  lemma {:induction false} SplitWordThen(w: string, t: string)
    requires Separator !in w
    ensures Split(w + [Separator] + t) == [w] + Split(t)
  {
    var s := w + [Separator] + t;
    if w == [] {
      assert s == [Separator] + t;
      assert s[1..] == t;
    } else {
      assert Separator !in w[1..];
      SplitWordThen(w[1..], t);
      assert s[0] == w[0];
      assert s[1..] == w[1..] + [Separator] + t;
      assert [w[0]] + w[1..] == w;
    }
  }

  /** Splitting a join of separator-free pieces gives back the pieces. */
  lemma {:induction false} SplitJoin(parts: seq<string>)
    requires |parts| >= 1
    requires forall i :: 0 <= i < |parts| ==> Separator !in parts[i]
    ensures Split(Join(parts)) == parts
  {
    if |parts| == 1 {
      SplitWord(parts[0]);
    } else {
      SplitJoin(parts[1..]);
      SplitWordThen(parts[0], Join(parts[1..]));
      assert [parts[0]] + parts[1..] == parts;
    }
  }

  /** Every path of the shape `<app>/live/<station>` with separator-free `app` and `station` passes. */
  lemma AppLiveStationIsValid(app: string, station: string)
    requires Separator !in app && Separator !in station
    ensures Split(app + "/live/" + station) == [app, LiveApp, station]
    ensures IsValidPath(app + "/live/" + station)
    ensures Segment(app + "/live/" + station, 2) == Some(station)
  {
    var parts := [app, LiveApp, station];
    assert Join(parts[2..]) == station;
    assert Join(parts[1..]) == LiveApp + [Separator] + station;
    assert Join(parts) == app + "/live/" + station;
    SplitJoin(parts);
  }

  /** Every path that passes has the shape `<app>/live/<station>`, its first and third pieces. */
  lemma ValidPathShape(path: string)
    requires IsValidPath(path)
    ensures SeparatorCount(path) == 2
    ensures path == Split(path)[0] + "/live/" + Split(path)[2]
    ensures Separator !in Split(path)[0] && Separator !in Split(path)[2]
  {
    var parts := Split(path);
    JoinSplit(path);
    var tail := parts[1..];
    assert tail[1..] == [parts[2]];
    assert Join(tail) == LiveApp + [Separator] + parts[2];
    assert Join(parts) == parts[0] + [Separator] + Join(tail);
    assert parts[0] + [Separator] + (LiveApp + [Separator] + parts[2]) == parts[0] + "/live/" + parts[2];
  }

  /** Dropping through the separator that ends a separator-free word skips the word. */
  lemma {:induction false} DropWord(w: string, t: string, n: nat)
    requires Separator !in w
    ensures DropThroughSeparators(w + [Separator] + t, n + 1) == DropThroughSeparators(t, n)
  {
    var s := w + [Separator] + t;
    if w == [] {
      assert s[1..] == t;
    } else {
      assert Separator !in w[1..];
      assert s[0] == w[0];
      assert s[1..] == w[1..] + [Separator] + t;
      DropWord(w[1..], t, n);
    }
  }

  /**
   * For a path that passes the check, the station piece `split('/')[2]`
   * is everything after the second separator.
   */
  lemma StationIsRemainder(path: string)
    requires IsValidPath(path)
    ensures Segment(path, 2) == Some(DropThroughSeparators(path, 2))
  {
    ValidPathShape(path);
    var parts := Split(path);
    var rest := LiveApp + [Separator] + parts[2];
    assert path == parts[0] + [Separator] + rest;
    DropWord(parts[0], rest, 1);
    DropWord(LiveApp, parts[2], 0);
  }

  /** The shapes the handler's comment gives as examples pass, with their station. */
  lemma ExampleStationPaths()
    ensures IsValidPath("/live/station1") && Segment("/live/station1", 2) == Some("station1")
    ensures IsValidPath("/live/station2") && Segment("/live/station2", 2) == Some("station2")
  {
    AppLiveStationIsValid("", "station1");
    assert "" + "/live/" + "station1" == "/live/station1";
    AppLiveStationIsValid("", "station2");
    assert "" + "/live/" + "station2" == "/live/station2";
  }

  /** The first piece is not checked. */
  lemma ExampleAnyFirstPiece()
    ensures IsValidPath("abc/live/x") && Segment("abc/live/x", 2) == Some("x")
  {
    AppLiveStationIsValid("abc", "x");
    assert "abc" + "/live/" + "x" == "abc/live/x";
  }

  /** The station piece may be empty. */
  lemma ExampleEmptyStation()
    ensures IsValidPath("/live/") && Segment("/live/", 2) == Some("")
  {
    AppLiveStationIsValid("", "");
    assert "" + "/live/" + "" == "/live/";
  }

  /** Another application name is refused. */
  lemma ExampleOtherApp()
    ensures !IsValidPath("/vod/station1")
  {
    SplitJoin(["", "vod", "station1"]);
    assert Join(["", "vod", "station1"]) == "/vod/station1";
  }

  /** A deeper path is refused: it has four pieces. */
  lemma ExampleDeeperPath()
    ensures !IsValidPath("/live/a/b")
  {
    SplitJoin(["", "live", "a", "b"]);
    assert Join(["", "live", "a", "b"]) == "/live/a/b";
  }

  /** A path without its leading separator is refused: it has two pieces. */
  lemma ExampleNoLeadingSeparator()
    ensures !IsValidPath("live/x")
  {
    SplitJoin(["live", "x"]);
    assert Join(["live", "x"]) == "live/x";
  }
}
