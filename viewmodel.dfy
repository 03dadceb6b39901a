/**
 * The network monitor's view model: two feeds folded from the device and
 * work event buses into maps from a device's human name to the line shown
 * for it, and the lines each kind of event renders to.
 */
module NetworkMonitor {
  import opened Wrappers
  import opened KotlinNum
  import opened Decimal
  import opened Assoc

  /** `UiEventDeviceStatus.WorkerStatusChanged`. */
  datatype DeviceEvent = WorkerStatusChanged(timestamp: Int64, humanName: string, online: bool)

  /** The four kinds of `UiEventWorkStatus`. */
  datatype WorkEvent =
    | TaskAssigned(timestamp: Int64, humanName: string, portions: seq<Int32>)
    | TaskNotAssigned(timestamp: Int64, humanName: string)
    | TaskCompleted(timestamp: Int64, humanName: string, portions: seq<Int32>, computationTime: Int64,
                    reassignedFrom: Option<string>)
    | Error(timestamp: Int64, humanName: string, message: string)

  const Online := "\U{2705} Online"
  const Offline := "\U{1F534} Offline"
  const Idle := "\U{1F634} is idle now"
  const CannotCompute := "\U{26A0}\U{FE0F}  Cannot Compute tasks (device is offline)"

  /** The device line: online or offline, and nothing else of the event. */
  function DevicePretty(e: DeviceEvent): (line: string)
    ensures line == Online <==> e.online
    ensures line == Offline <==> !e.online
  {
    assert Online[0] != Offline[0];
    if e.online then Online else Offline
  }

  /** `portions.joinToString(", ")`. */
  function JoinToString(portions: seq<Int32>): (s: string)
    ensures portions == [] <==> s == []
  {
    if portions == [] then ""
    else if |portions| == 1 then IntToString(portions[0])
    else JoinToString(portions[..|portions| - 1]) + ", " + IntToString(portions[|portions| - 1])
  }

  /** `Int.toString()`. */
  function IntToString(n: Int32): string
  {
    assert IsInt(n) && IntMin > LongMin && IntMax < LongMax;
    LongToString(n)
  }

  /** Joining one more portion appends a separator and that portion's digits. */
  lemma JoinAppend(portions: seq<Int32>, p: Int32)
    requires portions != []
    ensures JoinToString(portions + [p]) == JoinToString(portions) + ", " + IntToString(p)
  {
    assert (portions + [p])[..|portions|] == portions;
  }

  /** The work line of each kind of event. */
  function WorkPretty(e: WorkEvent): string
  {
    match e
    case TaskAssigned(_, _, portions) => "\U{27A1}\U{FE0F}  Assigned portions [" + JoinToString(portions) + "]"
    case TaskNotAssigned(_, _) => Idle
    case TaskCompleted(_, _, portions, time, _) =>
      "\U{2714}\U{FE0F} Computed portions [" + JoinToString(portions) + "] in " + LongToString(time) + "ms"
    case Error(_, _, _) => CannotCompute
  }

  /** The error line is the same for every error, whatever its device or message; so is the idle line. */
  lemma FixedLines(a: WorkEvent, b: WorkEvent)
    ensures a.Error? && b.Error? ==> WorkPretty(a) == WorkPretty(b) == CannotCompute
    ensures a.TaskNotAssigned? && b.TaskNotAssigned? ==> WorkPretty(a) == WorkPretty(b) == Idle
  {
  }

  /** `deviceLogFeed`: the `scan` from the empty map, each event putting its name's line. */
  function DeviceFeed(events: seq<DeviceEvent>): map<string, string>
  {
    if events == [] then map[]
    else DeviceFeed(events[..|events| - 1])[events[|events| - 1].humanName := DevicePretty(events[|events| - 1])]
  }

  /** `workLogFeed`: the same fold over work events, every kind keyed by its human name. */
  function WorkFeed(events: seq<WorkEvent>): map<string, string>
  {
    if events == [] then map[]
    else WorkFeed(events[..|events| - 1])[events[|events| - 1].humanName := WorkPretty(events[|events| - 1])]
  }

  function DevicePairs(events: seq<DeviceEvent>): (r: seq<(string, string)>)
    ensures |r| == |events| && forall i :: 0 <= i < |events| ==> r[i] == (events[i].humanName, DevicePretty(events[i]))
  {
    seq(|events|, i requires 0 <= i < |events| => (events[i].humanName, DevicePretty(events[i])))
  }

  function WorkPairs(events: seq<WorkEvent>): (r: seq<(string, string)>)
    ensures |r| == |events| && forall i :: 0 <= i < |events| ==> r[i] == (events[i].humanName, WorkPretty(events[i]))
  {
    seq(|events|, i requires 0 <= i < |events| => (events[i].humanName, WorkPretty(events[i])))
  }

  lemma {:induction false} DeviceFeedIsMap(events: seq<DeviceEvent>)
    ensures DeviceFeed(events) == MapOf(DevicePairs(events))
  {
    if events != [] {
      var n := |events| - 1;
      DeviceFeedIsMap(events[..n]);
      assert DevicePairs(events)[..n] == DevicePairs(events[..n]);
    }
  }

  lemma {:induction false} WorkFeedIsMap(events: seq<WorkEvent>)
    ensures WorkFeed(events) == MapOf(WorkPairs(events))
  {
    if events != [] {
      var n := |events| - 1;
      WorkFeedIsMap(events[..n]);
      assert WorkPairs(events)[..n] == WorkPairs(events[..n]);
    }
  }

  /**
   * The device feed names exactly the devices some event named, and shows
   * for each the status of the last event about it.
   */
  lemma DeviceFeedLastWins(events: seq<DeviceEvent>)
    ensures DeviceFeed([]) == map[]
    ensures forall name :: name in DeviceFeed(events) <==> exists i :: 0 <= i < |events| && events[i].humanName == name
    ensures forall i :: 0 <= i < |events| && (forall j :: i < j < |events| ==> events[j].humanName != events[i].humanName) ==>
      DeviceFeed(events)[events[i].humanName] == DevicePretty(events[i])
  {
    DeviceFeedKeys(events);
    DeviceFeedLast(events);
  }

  lemma DeviceFeedKeys(events: seq<DeviceEvent>)
    ensures forall name :: name in DeviceFeed(events) <==> exists i :: 0 <= i < |events| && events[i].humanName == name
  {
    DeviceFeedIsMap(events);
    var pairs := DevicePairs(events);
    MapOfKeys(pairs);
    forall name
      ensures name in DeviceFeed(events) <==> exists i :: 0 <= i < |events| && events[i].humanName == name
    {
      if name in DeviceFeed(events) {
        var i :| 0 <= i < |pairs| && pairs[i].0 == name;
        assert events[i].humanName == name;
      }
      if exists i :: 0 <= i < |events| && events[i].humanName == name {
        var i :| 0 <= i < |events| && events[i].humanName == name;
        assert pairs[i].0 == name;
      }
    }
  }

  lemma DeviceFeedLast(events: seq<DeviceEvent>)
    ensures forall i :: 0 <= i < |events| && (forall j :: i < j < |events| ==> events[j].humanName != events[i].humanName) ==>
      events[i].humanName in DeviceFeed(events) && DeviceFeed(events)[events[i].humanName] == DevicePretty(events[i])
  {
    DeviceFeedIsMap(events);
    var pairs := DevicePairs(events);
    forall i | 0 <= i < |events| && (forall j :: i < j < |events| ==> events[j].humanName != events[i].humanName)
      ensures events[i].humanName in DeviceFeed(events) && DeviceFeed(events)[events[i].humanName] == DevicePretty(events[i])
    {
      forall j | i < j < |pairs|
        ensures pairs[j].0 != pairs[i].0
      {
        assert pairs[j].0 == events[j].humanName;
      }
      MapOfLastWins(pairs, i);
    }
  }


  /** The work feed likewise: one line per named device, the line of its last event of any kind. */
  lemma WorkFeedLastWins(events: seq<WorkEvent>)
    ensures WorkFeed([]) == map[]
    ensures forall name :: name in WorkFeed(events) <==> exists i :: 0 <= i < |events| && events[i].humanName == name
    ensures forall i :: 0 <= i < |events| && (forall j :: i < j < |events| ==> events[j].humanName != events[i].humanName) ==>
      WorkFeed(events)[events[i].humanName] == WorkPretty(events[i])
  {
    WorkFeedKeys(events);
    WorkFeedLast(events);
  }

  lemma WorkFeedKeys(events: seq<WorkEvent>)
    ensures forall name :: name in WorkFeed(events) <==> exists i :: 0 <= i < |events| && events[i].humanName == name
  {
    WorkFeedIsMap(events);
    var pairs := WorkPairs(events);
    MapOfKeys(pairs);
    forall name
      ensures name in WorkFeed(events) <==> exists i :: 0 <= i < |events| && events[i].humanName == name
    {
      if name in WorkFeed(events) {
        var i :| 0 <= i < |pairs| && pairs[i].0 == name;
        assert events[i].humanName == name;
      }
      if exists i :: 0 <= i < |events| && events[i].humanName == name {
        var i :| 0 <= i < |events| && events[i].humanName == name;
        assert pairs[i].0 == name;
      }
    }
  }

  lemma WorkFeedLast(events: seq<WorkEvent>)
    ensures forall i :: 0 <= i < |events| && (forall j :: i < j < |events| ==> events[j].humanName != events[i].humanName) ==>
      events[i].humanName in WorkFeed(events) && WorkFeed(events)[events[i].humanName] == WorkPretty(events[i])
  {
    WorkFeedIsMap(events);
    var pairs := WorkPairs(events);
    forall i | 0 <= i < |events| && (forall j :: i < j < |events| ==> events[j].humanName != events[i].humanName)
      ensures events[i].humanName in WorkFeed(events) && WorkFeed(events)[events[i].humanName] == WorkPretty(events[i])
    {
      forall j | i < j < |pairs|
        ensures pairs[j].0 != pairs[i].0
      {
        assert pairs[j].0 == events[j].humanName;
      }
      MapOfLastWins(pairs, i);
    }
  }

}
