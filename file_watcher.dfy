/**
 * The file-watch registry (src-tauri/src/file_watcher.rs): the set of watched paths, the time
 * of the last event delivered for each, and the callback that turns the poll watcher's events
 * into "file-changed" events for the editor. The clock, the OS watcher's answers and the
 * events it reports are inputs; delivered events are appended to a log.
 */
module FileWatcher {
  import opened Wrappers

  type Path = string

  /** The kinds of `notify::EventKind`. */
  datatype EventKind = Any | Access | Create | Modify | Remove | Other

  /** `FileChangeEvent`, the payload of a "file-changed" event. */
  datatype FileChangeEvent = FileChangeEvent(path: Path, changeType: string, detectedAt: nat)

  datatype WatchError =
    | NotInitialized        // "File watcher not initialized"
    | WatchFailed(path: Path)  // "Failed to watch file '…': …"
    | CreateFailed          // "Failed to create file watcher: …"

  const Deleted: string := "deleted"
  const Modified: string := "modified"

  /** Events closer than this many milliseconds to the last one for a path are duplicates. */
  const DebounceMs: nat := 100

  /** Times are `u64` milliseconds. */
  const U64Limit: nat := 0x1_0000_0000_0000_0000

  /** `now_ms - last_time` on `u64`, which wraps around in a release build. */
  function WrappingSub(a: nat, b: nat): (r: nat)
    requires a < U64Limit && b < U64Limit
    ensures r < U64Limit
    ensures b <= a ==> r == a - b
    ensures a < b ==> r == a - b + U64Limit
  {
    (a - b) % U64Limit
  }

  /** The change type an event kind is reported as; None for kinds the callback ignores. */
  function ChangeType(kind: EventKind): (r: Option<string>)
    ensures r == Some(Deleted) <==> kind == Remove
    ensures r == Some(Modified) <==> kind == Modify || kind == Create
    ensures r.None? <==> kind == Any || kind == Access || kind == Other
  {
    assert |Deleted| != |Modified|;
    match kind
    case Remove => Some(Deleted)
    case Modify => Some(Modified)
    case Create => Some(Modified)
    case _ => None
  }

  /** Whether an event of `change` for `path` at `now` is a duplicate to skip. */
  predicate Debounced(times: map<Path, nat>, change: string, path: Path, now: nat)
    requires now < U64Limit && forall p :: p in times ==> times[p] < U64Limit
  {
    change != Deleted && path in times && WrappingSub(now, times[path]) < DebounceMs
  }

  /** Times a `u64` clock can give. */
  predicate ClockTimes(times: map<Path, nat>) {
    forall p :: p in times ==> times[p] < U64Limit
  }

  /**
   * The callback's loop over the paths of one event: for each watched path that is not a
   * duplicate, record `now` as its last time and deliver an event. Returns the new times and
   * the events delivered, in path order.
   */
  function Deliver(watched: set<Path>, times: map<Path, nat>, change: string, paths: seq<Path>, now: nat)
    : (r: (map<Path, nat>, seq<FileChangeEvent>))
    requires now < U64Limit && ClockTimes(times)
    ensures ClockTimes(r.0)
    ensures forall k :: 0 <= k < |r.1| ==> r.1[k].path in watched && r.1[k].path in paths
    ensures forall k :: 0 <= k < |r.1| ==> r.1[k].changeType == change && r.1[k].detectedAt == now
    ensures r.0.Keys == times.Keys + (set e | e in r.1 :: e.path)
    decreases |paths|
  {
    if paths == [] then (times, [])
    else
      var (before, delivered) := Deliver(watched, times, change, paths[..|paths| - 1], now);
      var path := paths[|paths| - 1];
      if path !in watched || Debounced(before, change, path, now) then (before, delivered)
      else (before[path := now], delivered + [FileChangeEvent(path, change, now)])
  }

  /**
   * `FileWatcherManager`. `watched` and `lastEventTimes` are its two tables; `hasHandle` and
   * `hasWatcher` whether `initialize` stored the app handle and created the poll watcher;
   * `registered` the paths the poll watcher polls; `events` every event delivered.
   */
  class Manager {
    var watched: set<Path>
    var lastEventTimes: map<Path, nat>
    var hasHandle: bool
    var hasWatcher: bool
    var registered: set<Path>
    var events: seq<FileChangeEvent>

    predicate Valid()
      reads this
    {
      ClockTimes(lastEventTimes) && (hasWatcher ==> hasHandle)
    }

    /** `new`: nothing watched, not initialized. */
    constructor ()
      ensures Valid()
      ensures watched == {} && lastEventTimes == map[] && !hasHandle && !hasWatcher
      ensures registered == {} && events == []
    {
      watched := {};
      lastEventTimes := map[];
      hasHandle := false;
      hasWatcher := false;
      registered := {};
      events := [];
    }

    /**
     * `initialize`: a second call changes nothing and succeeds. The first stores the handle,
     * then creates the watcher; `created` is whether that succeeds. When it fails the handle
     * stays stored, so no later call creates a watcher.
     */
    method Initialize(created: bool) returns (r: Result<(), WatchError>)
      requires Valid()
      modifies this
      ensures Valid()
      ensures old(hasHandle) ==> r == Ok(()) && hasWatcher == old(hasWatcher)
      ensures !old(hasHandle) ==> hasWatcher == created && (r == if created then Ok(()) else Err(CreateFailed))
      ensures hasHandle
      ensures watched == old(watched) && lastEventTimes == old(lastEventTimes)
      ensures registered == old(registered) && events == old(events)
    {
      if hasHandle {
        return Ok(());
      }
      hasHandle := true;
      if !created {
        return Err(CreateFailed);
      }
      hasWatcher := true;
      return Ok(());
    }

    /**
     * `watch_file`: a watched path is left alone. A new path is added to the set first, then
     * handed to the watcher; `accepted` is whether the watcher takes it. Either failure leaves
     * the path in the set.
     */
    method WatchFile(path: Path, accepted: bool) returns (r: Result<(), WatchError>)
      requires Valid()
      modifies this
      ensures Valid()
      ensures path in old(watched) ==> r == Ok(()) && watched == old(watched) && registered == old(registered)
      ensures path !in old(watched) ==> watched == old(watched) + {path}
      ensures path !in old(watched) ==>
                r == (if !hasWatcher then Err(NotInitialized) else if !accepted then Err(WatchFailed(path)) else Ok(()))
      ensures path !in old(watched) ==>
                registered == if hasWatcher && accepted then old(registered) + {path} else old(registered)
      ensures lastEventTimes == old(lastEventTimes) && events == old(events)
      ensures hasHandle == old(hasHandle) && hasWatcher == old(hasWatcher)
    {
      if path in watched {
        return Ok(());
      }
      watched := watched + {path};
      if !hasWatcher {
        return Err(NotInitialized);
      }
      if !accepted {
        return Err(WatchFailed(path));
      }
      registered := registered + {path};
      return Ok(());
    }

    /**
     * `unwatch_file`: an unwatched path is left alone; otherwise the path leaves the set, its
     * last event time is forgotten and the watcher stops polling it.
     */
    method UnwatchFile(path: Path) returns (r: Result<(), WatchError>)
      requires Valid()
      modifies this
      ensures Valid()
      ensures r == Ok(())
      ensures watched == old(watched) - {path}
      ensures path !in old(watched) ==> lastEventTimes == old(lastEventTimes) && registered == old(registered)
      ensures path in old(watched) ==> lastEventTimes == old(lastEventTimes) - {path}
      ensures path in old(watched) ==> registered == if hasWatcher then old(registered) - {path} else old(registered)
      ensures events == old(events) && hasHandle == old(hasHandle) && hasWatcher == old(hasWatcher)
    {
      if path !in watched {
        return Ok(());
      }
      watched := watched - {path};
      lastEventTimes := lastEventTimes - {path};
      if hasWatcher {
        registered := registered - {path};
      }
      return Ok(());
    }

    /** `get_watched_files`: every watched path once, in the set's own order. */
    method GetWatchedFiles() returns (files: seq<Path>)
      ensures forall p :: p in files <==> p in watched
      ensures |files| == |watched|
      ensures forall i, j :: 0 <= i < j < |files| ==> files[i] != files[j]
    {
      files := [];
      var rest := watched;
      while rest != {}
        invariant rest <= watched
        invariant forall p :: p in files <==> p in watched && p !in rest
        invariant |files| + |rest| == |watched|
        invariant forall i, j :: 0 <= i < j < |files| ==> files[i] != files[j]
        decreases |rest|
      {
        var p :| p in rest;
        files := files + [p];
        rest := rest - {p};
      }
    }

    /**
     * The watcher's callback for one event of `kind` on `paths` at `now` (milliseconds):
     * ignored kinds do nothing; otherwise each watched path that is not a duplicate gets its
     * time recorded and an event delivered.
     */
    method OnEvent(kind: EventKind, paths: seq<Path>, now: nat)
      requires Valid() && hasWatcher && now < U64Limit
      modifies this
      ensures Valid()
      ensures ChangeType(kind).None? ==> lastEventTimes == old(lastEventTimes) && events == old(events)
      ensures ChangeType(kind).Some? ==>
                var (times, delivered) := Deliver(watched, old(lastEventTimes), ChangeType(kind).value, paths, now);
                lastEventTimes == times && events == old(events) + delivered
      ensures watched == old(watched) && registered == old(registered)
      ensures hasHandle == old(hasHandle) && hasWatcher == old(hasWatcher)
    {
      var change := ChangeType(kind);
      if change.None? {
        return;
      }
      var i := 0;
      while i < |paths|
        invariant i <= |paths| && ClockTimes(lastEventTimes)
        invariant var (times, delivered) := Deliver(watched, old(lastEventTimes), change.value, paths[..i], now);
                  lastEventTimes == times && events == old(events) + delivered
        invariant watched == old(watched) && registered == old(registered)
        invariant hasHandle == old(hasHandle) && hasWatcher == old(hasWatcher)
      {
        var path := paths[i];
        DeliverStep(watched, old(lastEventTimes), change.value, paths, i, now);
        if path in watched && !Debounced(lastEventTimes, change.value, path, now) {
          var event := FileChangeEvent(path, change.value, now);
          Regroup(old(events), Deliver(watched, old(lastEventTimes), change.value, paths[..i], now).1, event);
          lastEventTimes := lastEventTimes[path := now];
          events := events + [event];
        }
        i := i + 1;
      }
      assert paths[..i] == paths;
    }
  }

  lemma Regroup(a: seq<FileChangeEvent>, b: seq<FileChangeEvent>, e: FileChangeEvent)
    ensures a + b + [e] == a + (b + [e])
  {
  }

  /** Delivering for one more path: what delivering for the paths before it leaves, then that path. */
  lemma DeliverStep(watched: set<Path>, times: map<Path, nat>, change: string, paths: seq<Path>, i: nat, now: nat)
    requires now < U64Limit && ClockTimes(times) && i < |paths|
    ensures var (before, delivered) := Deliver(watched, times, change, paths[..i], now);
            var path := paths[i];
            Deliver(watched, times, change, paths[..i + 1], now)
            == if path !in watched || Debounced(before, change, path, now) then (before, delivered)
               else (before[path := now], delivered + [FileChangeEvent(path, change, now)])
  {
    assert paths[..i + 1][..i] == paths[..i];
  }

  /** The paths of `paths` that are watched, in order. */
  function WatchedIn(watched: set<Path>, paths: seq<Path>): (r: seq<Path>)
    ensures |r| <= |paths|
  {
    if paths == [] then []
    else WatchedIn(watched, paths[..|paths| - 1]) + (if paths[|paths| - 1] in watched then [paths[|paths| - 1]] else [])
  }

  /**
   * Deletes are never debounced: a delete event delivers one event for every watched path it
   * names, in order, whatever the recorded times.
   */
  lemma {:induction false} DeletesAreNeverDebounced(watched: set<Path>, times: map<Path, nat>, paths: seq<Path>, now: nat)
    requires now < U64Limit && ClockTimes(times)
    ensures var delivered := Deliver(watched, times, Deleted, paths, now).1;
            |delivered| == |WatchedIn(watched, paths)|
            && forall k :: 0 <= k < |delivered| ==> delivered[k] == FileChangeEvent(WatchedIn(watched, paths)[k], Deleted, now)
    decreases |paths|
  {
    if paths != [] {
      DeletesAreNeverDebounced(watched, times, paths[..|paths| - 1], now);
    }
  }

  /** Only watched paths produce events: an event naming no watched path delivers nothing. */
  lemma {:induction false} UnwatchedPathsAreIgnored(watched: set<Path>, times: map<Path, nat>, change: string, paths: seq<Path>, now: nat)
    requires now < U64Limit && ClockTimes(times)
    requires forall k :: 0 <= k < |paths| ==> paths[k] !in watched
    ensures Deliver(watched, times, change, paths, now) == (times, [])
    decreases |paths|
  {
    if paths != [] {
      UnwatchedPathsAreIgnored(watched, times, change, paths[..|paths| - 1], now);
    }
  }

  /**
   * A change to a watched path less than 100 ms after its last event is skipped and its time
   * is kept; otherwise it is delivered and `now` becomes its time.
   */
  lemma OnePathEvent(watched: set<Path>, times: map<Path, nat>, change: string, path: Path, now: nat)
    requires now < U64Limit && ClockTimes(times) && path in watched
    ensures change != Deleted && path in times && WrappingSub(now, times[path]) < DebounceMs
            ==> Deliver(watched, times, change, [path], now) == (times, [])
    ensures !(change != Deleted && path in times && WrappingSub(now, times[path]) < DebounceMs)
            ==> Deliver(watched, times, change, [path], now) == (times[path := now], [FileChangeEvent(path, change, now)])
  {
    assert [path][..0] == [];
    var r := Deliver(watched, times, change, [path], now);
    assert Deliver(watched, times, change, [], now) == (times, []);
    if Debounced(times, change, path, now) {
      assert r == (times, []);
    } else {
      var event := FileChangeEvent(path, change, now);
      assert [] + [event] == [event];
    }
  }

  /** Every event of `delivered` has `now` as its path's time in `times`. */
  predicate StampedAt(times: map<Path, nat>, delivered: seq<FileChangeEvent>, now: nat) {
    forall k :: 0 <= k < |delivered| ==> delivered[k].path in times && times[delivered[k].path] == now
  }

  /** Every delivered event leaves `now` as the recorded time of its path. */
  lemma {:induction false} DeliveredTimesAreNow(watched: set<Path>, times: map<Path, nat>, change: string, paths: seq<Path>, now: nat)
    requires now < U64Limit && ClockTimes(times)
    ensures var r := Deliver(watched, times, change, paths, now); StampedAt(r.0, r.1, now)
    decreases |paths|
  {
    if paths != [] {
      var prefix := paths[..|paths| - 1];
      DeliveredTimesAreNow(watched, times, change, prefix, now);
      var before := Deliver(watched, times, change, prefix, now);
      var path := paths[|paths| - 1];
      var r := Deliver(watched, times, change, paths, now);
      if path !in watched || Debounced(before.0, change, path, now) {
        assert r == before;
      } else {
        StampOne(before.0, before.1, path, now);
      }
    }
  }

  /** Recording `now` for one more delivered path keeps every earlier event stamped. */
  lemma StampOne(times: map<Path, nat>, delivered: seq<FileChangeEvent>, path: Path, now: nat)
    requires StampedAt(times, delivered, now)
    ensures forall change :: StampedAt(times[path := now], delivered + [FileChangeEvent(path, change, now)], now)
  {
    forall change, k | 0 <= k < |delivered| + 1
      ensures var all := delivered + [FileChangeEvent(path, change, now)];
              all[k].path in times[path := now] && times[path := now][all[k].path] == now
    {
      if k < |delivered| {
        assert (delivered + [FileChangeEvent(path, change, now)])[k] == delivered[k];
      }
    }
  }

  /**
   * A clock that went backwards is not debounced: `now_ms - last_time` wraps around to a huge
   * value, so the event is delivered (a debug build would panic on the subtraction instead).
   */
  lemma ClockBackwardsIsNotDebounced(times: map<Path, nat>, change: string, path: Path, now: nat)
    requires now < U64Limit && ClockTimes(times)
    requires path in times && now < times[path] && times[path] - now <= U64Limit - DebounceMs
    ensures !Debounced(times, change, path, now)
  {
  }
}
