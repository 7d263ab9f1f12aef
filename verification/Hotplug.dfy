// USB hotplug by polling: the bus is scanned, the scan compared with the last one, and the
// differences queued and sent one per tick; a consumer gives every arrival a device id.

module Hotplug {
  import opened Common

  /** Events name devices by their opaque id (bus and address). */
  datatype UsbEvent = Arrived(dev: nat) | Left(dev: nat)

  // ----- replaying events -----

  /** The devices present after the events, provided each Arrived names an absent device and
      each Left a present one. */
  function Replay(present: set<nat>, events: seq<UsbEvent>): Option<set<nat>>
    decreases |events|
  {
    if events == [] then Some(present)
    else
      match events[0]
      case Arrived(d) => if d in present then None else Replay(present + {d}, events[1..])
      case Left(d) => if d !in present then None else Replay(present - {d}, events[1..])
  }

  lemma {:induction false} ReplayAppend(present: set<nat>, a: seq<UsbEvent>, b: seq<UsbEvent>)
    requires Replay(present, a).Some?
    ensures Replay(present, a + b) == Replay(Replay(present, a).value, b)
    decreases |a|
  {
    if a == [] {
      assert a + b == b;
    } else {
      assert (a + b)[1..] == a[1..] + b;
      ReplayAppend(if a[0].Arrived? then present + {a[0].dev} else present - {a[0].dev}, a[1..], b);
    }
  }

  /** One more event after a good history. */
  lemma ReplaySnoc(events: seq<UsbEvent>, e: UsbEvent, present: set<nat>)
    requires Replay({}, events) == Some(present)
    requires e.Arrived? <==> e.dev !in present
    ensures Replay({}, events + [e]) == Some(if e.Arrived? then present + {e.dev} else present - {e.dev})
  {
    ReplayAppend({}, events, [e]);
    assert [e][1..] == [];
    var after := if e.Arrived? then present + {e.dev} else present - {e.dev};
    assert Replay(after, []) == Some(after);
  }

  lemma {:induction false} ReplayPrefix(present: set<nat>, a: seq<UsbEvent>, b: seq<UsbEvent>)
    requires Replay(present, a + b).Some?
    ensures Replay(present, a).Some?
    decreases |a|
  {
    if a != [] {
      assert (a + b)[1..] == a[1..] + b;
      ReplayPrefix(if a[0].Arrived? then present + {a[0].dev} else present - {a[0].dev}, a[1..], b);
    }
  }

  // ----- the polling task -----

  class PollingTask {
    var known: set<nat>
    var pending: seq<UsbEvent>
    var sent: seq<UsbEvent>

    /** Replaying everything sent and everything still queued, from no devices at all, is well
        formed and gives the devices last seen. */
    ghost predicate Valid()
      reads this
    {
      Replay({}, sent + pending) == Some(known)
    }

    constructor ()
      ensures Valid() && known == {} && sent == [] && pending == []
    {
      known, pending, sent := {}, [], [];
    }

    /** One tick. `scan` is what the bus scan finds, if there is one and it succeeds. A queued
        event is sent instead of scanning. */
    method Tick(scan: Option<set<nat>>)
      requires Valid()
      modifies this
      ensures Valid()
      ensures old(pending) != [] ==>
                known == old(known) && sent == old(sent) + [old(pending)[0]] && pending == old(pending)[1..]
      ensures old(pending) == [] ==> sent == old(sent) && known == (if scan.Some? then scan.value else old(known))
      ensures old(pending) == [] && scan.Some? ==>
                |pending| == |scan.value - old(known)| + |old(known) - scan.value|
    {
      if pending != [] {
        assert sent + pending == (sent + [pending[0]]) + pending[1..];
        sent := sent + [pending[0]];
        pending := pending[1..];
        return;
      }
      if scan.None? {
        return;
      }
      var current := scan.value;
      QueueArrivals(current);
      QueueDepartures(current);
      known := current;
    }

    /** The scan's devices that were not known; the map is walked in any order. */
    method QueueArrivals(current: set<nat>)
      requires Valid() && pending == []
      modifies this`pending
      ensures Replay({}, sent + pending) == Some(known + current)
      ensures |pending| == |current - known|
    {
      var todo := current;
      assert known + (current - todo) == known && current - todo - known == {};
      while todo != {}
        invariant todo <= current
        invariant Replay({}, sent + pending) == Some(known + (current - todo))
        invariant |pending| == |current - todo - known|
      {
        var dev :| dev in todo;
        ArrivalSets(known, current, todo, dev);
        if dev !in known {
          Queue(Arrived(dev), known + (current - todo));
        }
        todo := todo - {dev};
      }
      assert current - {} == current;
    }

    /** The known devices the scan no longer finds. */
    method QueueDepartures(current: set<nat>)
      requires Replay({}, sent + pending) == Some(known + current)
      modifies this`pending
      ensures Replay({}, sent + pending) == Some(current)
      ensures |pending| == old(|pending|) + |known - current|
    {
      var todo := known;
      assert current + todo == known + current && known - todo - current == {};
      while todo != {}
        invariant todo <= known
        invariant Replay({}, sent + pending) == Some(current + todo)
        invariant |pending| == old(|pending|) + |known - todo - current|
      {
        var dev :| dev in todo;
        DepartureSets(known, current, todo, dev);
        if dev !in current {
          Queue(Left(dev), current + todo);
        }
        todo := todo - {dev};
      }
      assert current + {} == current && known - {} == known;
    }

    method Queue(e: UsbEvent, ghost present: set<nat>)
      requires Replay({}, sent + pending) == Some(present)
      requires e.Arrived? <==> e.dev !in present
      modifies this`pending
      ensures pending == old(pending) + [e]
      ensures Replay({}, sent + pending) == Some(if e.Arrived? then present + {e.dev} else present - {e.dev})
    {
      ReplaySnoc(sent + pending, e, present);
      assert sent + (pending + [e]) == sent + pending + [e];
      pending := pending + [e];
    }
  }

  lemma ArrivalSets(known: set<nat>, current: set<nat>, todo: set<nat>, dev: nat)
    requires dev in todo && todo <= current
    ensures var next := todo - {dev};
            if dev in known then
              known + (current - next) == known + (current - todo) && current - next - known == current - todo - known
            else
              && dev !in known + (current - todo)
              && known + (current - next) == known + (current - todo) + {dev}
              && |current - next - known| == |current - todo - known| + 1
  {
    var next := todo - {dev};
    if dev !in known {
      assert current - next - known == (current - todo - known) + {dev};
    }
  }

  lemma DepartureSets(known: set<nat>, current: set<nat>, todo: set<nat>, dev: nat)
    requires dev in todo && todo <= known
    ensures var next := todo - {dev};
            if dev in current then
              current + next == current + todo && known - next - current == known - todo - current
            else
              && current + next == current + todo - {dev}
              && |known - next - current| == |known - todo - current| + 1
  {
    var next := todo - {dev};
    if dev !in current {
      assert known - next - current == (known - todo - current) + {dev};
    }
  }

  // ----- device ids -----

  /** An arrival together with the id taken from the global counter for it. */
  datatype Input = Input(event: UsbEvent, id: nat)

  datatype Report = Connected(dev: nat, id: nat) | Disconnected(id: nat)

  /** `nextId` is above every id taken so far; other users of the counter leave gaps. */
  datatype IdState = IdState(ids: map<nat, nat>, reports: seq<Report>, nextId: nat)

  function Translate(s: IdState, i: Input): IdState {
    match i.event
    case Arrived(d) =>
      s.(ids := s.ids[d := i.id], reports := s.reports + [Connected(d, i.id)], nextId := i.id + 1)
    case Left(d) =>
      if d in s.ids then s.(ids := s.ids - {d}, reports := s.reports + [Disconnected(s.ids[d])]) else s
  }

  predicate FreshIds(s: IdState, inputs: seq<Input>)
    decreases |inputs|
  {
    inputs == []
    || ((inputs[0].event.Arrived? ==> inputs[0].id >= s.nextId) && FreshIds(Translate(s, inputs[0]), inputs[1..]))
  }

  function TranslateAll(s: IdState, inputs: seq<Input>): IdState
    decreases |inputs|
  {
    if inputs == [] then s else TranslateAll(Translate(s, inputs[0]), inputs[1..])
  }

  const NO_DEVICES: IdState := IdState(map[], [], 1)

  ghost predicate ConnectedBefore(reports: seq<Report>, id: nat, n: nat) {
    exists i :: 0 <= i < n && i < |reports| && reports[i].Connected? && reports[i].id == id
  }

  ghost predicate DisconnectedIn(reports: seq<Report>, id: nat) {
    exists i :: 0 <= i < |reports| && reports[i] == Disconnected(id)
  }

  /** Every disconnection was connected before and is the only one of its id. */
  ghost predicate PastOk(reports: seq<Report>, nextId: nat) {
    && (forall i :: 0 <= i < |reports| ==> reports[i].id < nextId)
    && (forall i :: 0 <= i < |reports| && reports[i].Disconnected? ==> ConnectedBefore(reports, reports[i].id, i))
    && (forall i, j :: 0 <= i < j < |reports| && reports[i].Disconnected? && reports[j].Disconnected?
          ==> reports[i].id != reports[j].id)
  }

  ghost predicate IsLive(reports: seq<Report>, nextId: nat, id: nat) {
    id < nextId && ConnectedBefore(reports, id, |reports|) && !DisconnectedIn(reports, id)
  }

  /** Live ids are distinct, and were reported connected and not disconnected. */
  ghost predicate IdInv(s: IdState) {
    && (forall a, b :: a in s.ids && b in s.ids && s.ids[a] == s.ids[b] ==> a == b)
    && (forall d :: d in s.ids ==> IsLive(s.reports, s.nextId, s.ids[d]))
    && PastOk(s.reports, s.nextId)
  }

  lemma ReportsKeep(reports: seq<Report>, r: Report, id: nat, n: nat)
    requires ConnectedBefore(reports, id, n)
    ensures ConnectedBefore(reports + [r], id, n)
  {
    var i :| 0 <= i < n && i < |reports| && reports[i].Connected? && reports[i].id == id;
    assert (reports + [r])[i] == reports[i];
  }

  lemma NewlyConnected(reports: seq<Report>, nextId: nat, dev: nat, id: nat)
    requires PastOk(reports, nextId) && nextId <= id
    ensures IsLive(reports + [Connected(dev, id)], id + 1, id)
  {
    assert (reports + [Connected(dev, id)])[|reports|] == Connected(dev, id);
  }

  /** A report about another id leaves a live id live. */
  lemma StaysLive(reports: seq<Report>, nextId: nat, r: Report, nextId': nat, id: nat)
    requires IsLive(reports, nextId, id) && nextId <= nextId' && r != Disconnected(id)
    ensures IsLive(reports + [r], nextId', id)
  {
    ReportsKeep(reports, r, id, |reports|);
  }

  lemma PastWithConnection(reports: seq<Report>, nextId: nat, dev: nat, id: nat)
    requires PastOk(reports, nextId) && nextId <= id
    ensures PastOk(reports + [Connected(dev, id)], id + 1)
  {
    var r := Connected(dev, id);
    forall k | 0 <= k < |reports + [r]| && (reports + [r])[k].Disconnected?
      ensures ConnectedBefore(reports + [r], (reports + [r])[k].id, k)
    {
      ReportsKeep(reports, r, reports[k].id, k);
    }
  }

  lemma PastWithDisconnection(reports: seq<Report>, nextId: nat, id: nat)
    requires PastOk(reports, nextId) && IsLive(reports, nextId, id)
    ensures PastOk(reports + [Disconnected(id)], nextId)
  {
    var r := Disconnected(id);
    ReportsKeep(reports, r, id, |reports|);
    forall k | 0 <= k < |reports + [r]| && (reports + [r])[k].Disconnected?
      ensures ConnectedBefore(reports + [r], (reports + [r])[k].id, k)
    {
      if k < |reports| { ReportsKeep(reports, r, reports[k].id, k); }
    }
    assert forall k :: 0 <= k < |reports| ==> reports[k] != r;
  }

  lemma ArrivalKeepsIds(s: IdState, i: Input)
    requires IdInv(s) && i.event.Arrived? && i.id >= s.nextId
    ensures IdInv(Translate(s, i))
  {
    var s', r := Translate(s, i), Connected(i.event.dev, i.id);
    NewlyConnected(s.reports, s.nextId, i.event.dev, i.id);
    PastWithConnection(s.reports, s.nextId, i.event.dev, i.id);
    forall d | d in s'.ids ensures IsLive(s'.reports, s'.nextId, s'.ids[d]) {
      if d != i.event.dev { StaysLive(s.reports, s.nextId, r, s'.nextId, s.ids[d]); }
    }
  }

  lemma DepartureKeepsIds(s: IdState, i: Input)
    requires IdInv(s) && i.event.Left?
    ensures IdInv(Translate(s, i))
  {
    if i.event.dev in s.ids {
      var s', gone := Translate(s, i), s.ids[i.event.dev];
      PastWithDisconnection(s.reports, s.nextId, gone);
      forall d | d in s'.ids ensures IsLive(s'.reports, s'.nextId, s'.ids[d]) {
        StaysLive(s.reports, s.nextId, Disconnected(gone), s.nextId, s.ids[d]);
      }
    }
  }

  lemma {:induction false} IdsOnEveryStream(s: IdState, inputs: seq<Input>)
    requires IdInv(s) && FreshIds(s, inputs)
    ensures IdInv(TranslateAll(s, inputs))
    decreases |inputs|
  {
    if inputs != [] {
      if inputs[0].event.Arrived? { ArrivalKeepsIds(s, inputs[0]); } else { DepartureKeepsIds(s, inputs[0]); }
      IdsOnEveryStream(Translate(s, inputs[0]), inputs[1..]);
    }
  }

  /** For any stream of hotplug events: every disconnection reported is of an id connected
      earlier, and no id is reported disconnected twice. */
  lemma DisconnectionsAreMatched(inputs: seq<Input>, j: nat)
    requires FreshIds(NO_DEVICES, inputs)
    requires j < |TranslateAll(NO_DEVICES, inputs).reports|
    requires TranslateAll(NO_DEVICES, inputs).reports[j].Disconnected?
    ensures var reports := TranslateAll(NO_DEVICES, inputs).reports;
            && ConnectedBefore(reports, reports[j].id, j)
            && forall k :: 0 <= k < |reports| && k != j ==> reports[k] != reports[j]
  {
    IdsOnEveryStream(NO_DEVICES, inputs);
    var reports := TranslateAll(NO_DEVICES, inputs).reports;
    forall k | 0 <= k < |reports| && k != j ensures reports[k] != reports[j] {
      if reports[k].Disconnected? {
        assert if k < j then reports[k].id != reports[j].id else reports[j].id != reports[k].id;
      }
    }
  }

  // ----- the reports, from the events alone -----

  /** The id given to the arrival of the device that its departure, if it comes now, ends: that of its
      last arrival, unless it has left since. */
  function IdOf(inputs: seq<Input>, dev: nat): Option<nat> {
    if inputs == [] then None
    else
      var last := inputs[|inputs| - 1];
      if last.event == Arrived(dev) then Some(last.id)
      else if last.event == Left(dev) then None
      else IdOf(inputs[..|inputs| - 1], dev)
  }

  /** Each arrival is reported with its id, each departure of a device that is there with the id of
      its arrival, and nothing else is reported. */
  function ReportsFor(inputs: seq<Input>): seq<Report> {
    if inputs == [] then []
    else
      var front, last := inputs[..|inputs| - 1], inputs[|inputs| - 1];
      ReportsFor(front) + match last.event
      case Arrived(d) => [Connected(d, last.id)]
      case Left(d) => if IdOf(front, d).Some? then [Disconnected(IdOf(front, d).value)] else []
  }

  lemma {:induction false} TranslateSnoc(s: IdState, inputs: seq<Input>, i: Input)
    ensures TranslateAll(s, inputs + [i]) == Translate(TranslateAll(s, inputs), i)
    decreases |inputs|
  {
    if inputs == [] {
      assert ([] + [i])[1..] == [] && ([] + [i])[0] == i;
      assert TranslateAll(s, [i]) == TranslateAll(Translate(s, i), []) by { assert [i][1..] == []; }
    } else {
      assert (inputs + [i])[1..] == inputs[1..] + [i];
      TranslateSnoc(Translate(s, inputs[0]), inputs[1..], i);
    }
  }

  ghost predicate IdsAre(ids: map<nat, nat>, inputs: seq<Input>) {
    forall d: nat :: IdOf(inputs, d) == if d in ids then Some(ids[d]) else None
  }

  /** For any stream of hotplug events, exactly what is reported: every departure of a device that is
      there is, and under the id its arrival was reported with. */
  lemma {:induction false} ReportsAreExact(inputs: seq<Input>)
    ensures TranslateAll(NO_DEVICES, inputs).reports == ReportsFor(inputs)
    ensures IdsAre(TranslateAll(NO_DEVICES, inputs).ids, inputs)
  {
    if inputs != [] {
      var front, last := inputs[..|inputs| - 1], inputs[|inputs| - 1];
      assert inputs == front + [last];
      ReportsAreExact(front);
      TranslateSnoc(NO_DEVICES, front, last);
      var s := TranslateAll(NO_DEVICES, front);
      forall d: nat ensures IdOf(inputs, d)
                         == if d in Translate(s, last).ids then Some(Translate(s, last).ids[d]) else None
      {
        assert IdOf(front, d) == if d in s.ids then Some(s.ids[d]) else None;
      }
    }
  }

  function Events(inputs: seq<Input>): seq<UsbEvent> {
    if inputs == [] then [] else [inputs[0].event] + Events(inputs[1..])
  }

  lemma {:induction false} IdsFollowReplay(s: IdState, inputs: seq<Input>)
    requires Replay(s.ids.Keys, Events(inputs)).Some?
    ensures TranslateAll(s, inputs).ids.Keys == Replay(s.ids.Keys, Events(inputs)).value
    decreases |inputs|
  {
    if inputs != [] {
      var s' := Translate(s, inputs[0]);
      assert Events(inputs)[1..] == Events(inputs[1..]);
      assert s'.ids.Keys == if inputs[0].event.Arrived? then s.ids.Keys + {inputs[0].event.dev}
                            else s.ids.Keys - {inputs[0].event.dev};
      IdsFollowReplay(s', inputs[1..]);
    }
  }

  /** Fed well-formed events, the id map holds exactly the devices present, each under its own
      id: live ids and live devices are in bijection. */
  lemma LiveIdsMatchLiveDevices(inputs: seq<Input>)
    requires FreshIds(NO_DEVICES, inputs) && Replay({}, Events(inputs)).Some?
    ensures var ids := TranslateAll(NO_DEVICES, inputs).ids;
            && ids.Keys == Replay({}, Events(inputs)).value
            && forall a, b :: a in ids && b in ids && ids[a] == ids[b] ==> a == b
  {
    assert NO_DEVICES.ids.Keys == {};
    IdsOnEveryStream(NO_DEVICES, inputs);
    IdsFollowReplay(NO_DEVICES, inputs);
  }

  /** The two tasks together: fed everything the polling task has sent, the id map holds the devices
      the task last saw, up to the events still queued, and exactly them once the queue is empty. */
  lemma PolledIdsMatchPolledDevices(task: PollingTask, inputs: seq<Input>)
    requires task.Valid() && Events(inputs) == task.sent && FreshIds(NO_DEVICES, inputs)
    ensures var ids := TranslateAll(NO_DEVICES, inputs).ids;
            && Replay({}, task.sent) == Some(ids.Keys)
            && Replay(ids.Keys, task.pending) == Some(task.known)
            && (task.pending == [] ==> ids.Keys == task.known)
            && forall a, b :: a in ids && b in ids && ids[a] == ids[b] ==> a == b
  {
    ReplayPrefix({}, task.sent, task.pending);
    ReplayAppend({}, task.sent, task.pending);
    LiveIdsMatchLiveDevices(inputs);
  }
}
