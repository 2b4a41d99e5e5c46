/**
 * Choosing local TCP ports (src-tauri/src/port_utils.rs). A port is tried by binding a
 * listener to it; here that probe is the predicate `free`. The search covers the 100 ports
 * from the starting port on; the end of that range is computed in `u16`, so the starting
 * port must leave room for it.
 */
module PortUtils {
  import opened Wrappers

  /** How many ports a search tries. */
  const ScanWidth: nat := 100

  /** One more than the largest `u16`. */
  const PortLimit: nat := 0x1_0000

  type Port = p: int | 0 <= p < PortLimit

  /** `starting_port + 100` does not overflow a `u16`. */
  predicate ScanFits(start: int) {
    0 <= start && start + ScanWidth < PortLimit
  }

  /** The first free port of `[from, end)`, scanning upwards. */
  function FirstFree(free: Port -> bool, from: Port, end: Port): (r: Option<Port>)
    requires from <= end
    ensures r.Some? ==> from <= r.value < end && free(r.value)
    ensures r.Some? ==> forall p: Port :: from <= p < r.value ==> !free(p)
    ensures r.None? <==> forall p: Port :: from <= p < end ==> !free(p)
    decreases end - from
  {
    if from == end then None
    else if free(from) then Some(from)
    else FirstFree(free, from + 1, end)
  }

  /** `find_available_port`: the lowest free port of `[start, start + 100)`, if any. */
  function FindAvailablePort(free: Port -> bool, start: Port): Option<Port>
    requires ScanFits(start)
  {
    FirstFree(free, start, start + ScanWidth)
  }

  /** The free ports of `[from, end)`, in ascending order. */
  function FreeIn(free: Port -> bool, from: Port, end: Port): (r: seq<Port>)
    requires from <= end
    ensures forall i :: 0 <= i < |r| ==> from <= r[i] < end && free(r[i])
    ensures forall i, j :: 0 <= i < j < |r| ==> r[i] < r[j]
    ensures forall p: Port :: from <= p < end && free(p) ==> p in r
    decreases end - from
  {
    if from == end then []
    else FreeIn(free, from, end - 1) + (if free(end - 1) then [end - 1] else [])
  }

  /** The free ports a search from `start` can find. */
  function FreePorts(free: Port -> bool, start: Port): seq<Port>
    requires ScanFits(start)
  {
    FreeIn(free, start, start + ScanWidth)
  }

  /** Scanning less of the range finds a prefix of what scanning more finds. */
  lemma {:induction false} FreeInPrefix(free: Port -> bool, from: Port, mid: Port, end: Port)
    requires from <= mid <= end
    ensures FreeIn(free, from, mid) <= FreeIn(free, from, end)
    decreases end - mid
  {
    if mid < end {
      FreeInPrefix(free, from, mid, end - 1);
      var shorter := FreeIn(free, from, end - 1);
      var tail := if free(end - 1) then [end - 1] else [];
      assert FreeIn(free, from, end) == shorter + tail;
      assert shorter <= shorter + tail;
    }
  }

  /**
   * `find_available_ports`: the first `count` free ports of `[start, start + 100)` in scan
   * order, or None when the range holds fewer.
   */
  method FindAvailablePorts(free: Port -> bool, count: nat, start: Port) returns (r: Option<seq<Port>>)
    requires ScanFits(start)
    ensures r.Some? <==> count <= |FreePorts(free, start)|
    ensures r.Some? ==> r.value == FreePorts(free, start)[..count]
  {
    var ports: seq<Port> := [];
    var current: Port := start;
    while |ports| < count && current < start + ScanWidth
      invariant start <= current <= start + ScanWidth
      invariant ports == FreeIn(free, start, current)
      invariant |ports| <= count
      decreases start + ScanWidth - current
    {
      if free(current) {
        ports := ports + [current];
      }
      current := current + 1;
    }
    FreeInPrefix(free, start, current, start + ScanWidth);
    if |ports| == count {
      r := Some(ports);
    } else {
      r := None;
    }
  }

  /** Every port a multi-port search returns is free, in range, and distinct from the others. */
  lemma FoundPortsDistinct(free: Port -> bool, count: nat, start: Port)
    requires ScanFits(start) && count <= |FreePorts(free, start)|
    ensures var ports := FreePorts(free, start)[..count];
            && |ports| == count
            && (forall i :: 0 <= i < count ==> start <= ports[i] < start + ScanWidth && free(ports[i]))
            && (forall i, j :: 0 <= i < count && 0 <= j < count && i != j ==> ports[i] != ports[j])
  {
    var all := FreePorts(free, start);
    forall i, j | 0 <= i < count && 0 <= j < count && i != j
      ensures all[..count][i] != all[..count][j]
    {
      if i < j {
        assert all[i] < all[j];
      } else {
        assert all[j] < all[i];
      }
    }
  }

  /** A single-port search finds the first port a multi-port search would return. */
  lemma SinglePortIsFirstOfMany(free: Port -> bool, from: Port, end: Port)
    requires from <= end
    ensures FirstFree(free, from, end)
            == (if FreeIn(free, from, end) == [] then None else Some(FreeIn(free, from, end)[0]))
  {
    var all := FreeIn(free, from, end);
    var first := FirstFree(free, from, end);
    if all == [] {
      forall p: Port | from <= p < end
        ensures !free(p)
      {
        assert free(p) ==> p in all;
      }
    } else {
      var q := all[0];
      assert from <= q < end && free(q);
      HeadIsLeast(free, from, end, first.value);
    }
  }

  /** The first free port found by a multi-port search is at or below every free port of the range. */
  lemma HeadIsLeast(free: Port -> bool, from: Port, end: Port, p: Port)
    requires from <= p < end && free(p)
    ensures FreeIn(free, from, end) != [] && FreeIn(free, from, end)[0] <= p
  {
    var all := FreeIn(free, from, end);
    assert p in all;
    var i :| 0 <= i < |all| && all[i] == p;
    if i > 0 {
      assert all[0] < all[i];
    }
  }

  /** `find_available_port` is the head of the free ports of the range. */
  lemma FindAvailablePortIsHead(free: Port -> bool, start: Port)
    requires ScanFits(start)
    ensures FindAvailablePort(free, start)
            == (if FreePorts(free, start) == [] then None else Some(FreePorts(free, start)[0]))
  {
    SinglePortIsFirstOfMany(free, start, start + ScanWidth);
  }
}
