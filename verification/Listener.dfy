// A `Listen` client: it subscribes to the event channel, is sent the visible devices, and
// then every event since the subscription, including those the snapshot already reflects.

module Listener {
  import opened Registry
  import R = Registry

  /** Capacity of the broadcast channel; a receiver further behind has lost events. */
  const CHANNEL_CAPACITY: nat := 32

  /** `cursor` is the next event to receive; `view` is what the client believes attached. */
  datatype ListenerState = ListenerState(cursor: nat, snapped: bool, alive: bool, view: set<nat>)

  datatype JointAction =
    | Change(action: Action)   // one registry handler runs
    | Snapshot                 // `send_currently_connected`
    | Receive                  // one turn of the listening loop

  datatype Joint = Joint(registry: State, listener: ListenerState)

  function Subscribe(s: State): ListenerState {
    ListenerState(|s.events|, false, true, {})
  }

  /** One event: the device is looked up when the event is handled, not when it was sent, and
      an Attached event for a device no longer in the map is skipped. */
  function Receives(s: State, l: ListenerState): ListenerState
    requires l.cursor <= |s.events|
  {
    if |s.events| - l.cursor > CHANNEL_CAPACITY then l.(alive := false)
    else if l.cursor == |s.events| then l
    else
      match s.events[l.cursor]
      case Attached(id) =>
        if id in s.devices then l.(cursor := l.cursor + 1, view := l.view + {id})
        else l.(cursor := l.cursor + 1)
      case Detached(id) => l.(cursor := l.cursor + 1, view := l.view - {id})
  }

  ghost predicate Enabled(j: Joint, a: JointAction) {
    match a
    case Change(c) => Allowed(j.registry, c)
    case Snapshot => j.listener.alive && !j.listener.snapped
    case Receive => j.listener.alive && j.listener.snapped && j.listener.cursor <= |j.registry.events|
  }

  ghost function Apply(j: Joint, a: JointAction): Joint
    requires Enabled(j, a)
  {
    match a
    case Change(c) => j.(registry := R.Step(j.registry, c))
    case Snapshot => j.(listener := j.listener.(snapped := true, view := VisibleIds(j.registry.devices)))
    case Receive => j.(listener := Receives(j.registry, j.listener))
  }

  ghost predicate LegalRun(j: Joint, run: seq<JointAction>)
    decreases |run|
  {
    run == [] || (Enabled(j, run[0]) && LegalRun(Apply(j, run[0]), run[1..]))
  }

  ghost function After(j: Joint, run: seq<JointAction>): Joint
    requires LegalRun(j, run)
    decreases |run|
  {
    if run == [] then j else After(Apply(j, run[0]), run[1..])
  }

  // ----- the invariant -----

  /** An event about the id is still to be received. */
  predicate Mentioned(events: seq<DeviceEvent>, from: nat, id: nat) {
    exists i :: from <= i < |events| && events[i].id == id
  }

  /** Where no event is outstanding the view is right: attached iff visible for ids in the map,
      not attached for ids outside it; `lost` and `stale` ids aside. */
  ghost predicate ViewOk(s: State, l: ListenerState, id: nat) {
    || Mentioned(s.events, l.cursor, id)
    || (if id in s.devices then id in s.lost || (id in l.view <==> !Shadowed(s.devices, id))
        else id in l.view ==> id in s.stale)
  }

  ghost predicate ListenerInv(j: Joint) {
    && Inv(j.registry)
    && j.listener.cursor <= |j.registry.events|
    && j.listener.view <= j.registry.used
    && (j.listener.snapped ==> forall id: nat :: ViewOk(j.registry, j.listener, id))
  }

  // ----- registry changes -----

  /** An action appends events, and an id it does not announce keeps its standing. */
  ghost predicate Unannounced(s: State, s': State, id: nat) {
    !Mentioned(s'.events, |s.events|, id)
  }

  lemma {:induction false} AnnouncedKept(events: seq<DeviceEvent>, news: seq<DeviceEvent>, id: nat)
    requires !Mentioned(events + news, |events|, id)
    ensures Announced(events + news, id) <==> Announced(events, id)
    decreases |news|
  {
    if news == [] {
      assert events + news == events;
    } else {
      var front, last := news[..|news| - 1], news[|news| - 1];
      assert events + news == (events + front) + [last];
      AnnouncedSnoc(events + front, last, id);
      assert (events + news)[|events| + |news| - 1] == last;
      assert !Mentioned(events + front, |events|, id) by {
        forall i | |events| <= i < |events + front| ensures (events + front)[i].id != id {
          assert (events + news)[i] == (events + front)[i];
        }
      }
      AnnouncedKept(events, front, id);
    }
  }

  lemma StepAppends(s: State, a: Action)
    ensures s.events <= R.Step(s, a).events && s.used <= R.Step(s, a).used
  {
  }

  /** An id that stays unannounced enters the map only as a new id, leaves it while visible only as
      a stale one, starts or stops being stale accordingly, and is not found again once lost. */
  ghost predicate QuietInMap(s: State, s': State, id: nat) {
    && (id in s'.devices && id !in s.devices ==> id !in s.used)
    && (id in s.devices && id !in s'.devices && Visible(s.devices, id) ==> id in s'.stale)
    && (id in s.stale && id !in s'.stale ==> id in s'.devices)
    && (id !in s.stale && id in s'.stale ==> id in s.devices)
    && (id in s.lost ==> id in s'.lost)
  }

  ghost predicate Quiet(s: State, s': State, id: nat) {
    (Announced(s'.events, id) <==> Announced(s.events, id)) && QuietInMap(s, s', id)
  }

  lemma QuietStanding(s: State, a: Action, id: nat)
    requires Unannounced(s, R.Step(s, a), id)
    ensures Announced(R.Step(s, a).events, id) <==> Announced(s.events, id)
  {
    StepAppends(s, a);
    var s' := R.Step(s, a);
    var news := s'.events[|s.events|..];
    assert s'.events == s.events + news;
    AnnouncedKept(s.events, news, id);
  }

  /** What is announced last, or first, is not the id. */
  lemma EndsNotMentioned(events: seq<DeviceEvent>, from: nat, id: nat)
    requires from < |events| && !Mentioned(events, from, id)
    ensures events[from].id != id && events[|events| - 1].id != id
  {
  }

  lemma QuietUsbConnected(s: State, n: nat, udid: string, id: nat)
    requires Inv(s) && Allowed(s, UsbConnected(n, udid))
    requires Unannounced(s, R.OnUsbConnected(s, n, udid), id)
    ensures QuietInMap(s, R.OnUsbConnected(s, n, udid), id)
  {
    EndsNotMentioned(R.OnUsbConnected(s, n, udid).events, |s.events|, id);
  }

  lemma QuietRemoved(s: State, n: nat, id: nat)
    requires Inv(s) && Unannounced(s, OnRemoved(s, n), id)
    ensures QuietInMap(s, OnRemoved(s, n), id)
  {
    if n in s.devices {
      if |OnRemoved(s, n).events| > |s.events| { EndsNotMentioned(OnRemoved(s, n).events, |s.events|, id); }
      if s.devices[n].kind.Network? { NetworkRemovalIsSilentIffShadowed(s.devices, n); }
    }
  }

  lemma QuietInserted(s: State, n: nat, udid: string, id: nat)
    requires Inv(s) && n !in s.used
    ensures QuietInMap(s, InsertNetwork(s, n, udid), id)
  {
  }

  lemma QuietAddDevice(s: State, n: nat, udid: string, force: bool, connects: bool, id: nat)
    requires Inv(s) && n !in s.used
    requires Unannounced(s, OnAddDevice(s, n, udid, force, connects), id)
    ensures QuietInMap(s, OnAddDevice(s, n, udid, force, connects), id)
  {
    var s' := OnAddDevice(s, n, udid, force, connects);
    if |s'.events| > |s.events| { EndsNotMentioned(s'.events, |s.events|, id); }
  }

  lemma QuietIds(s: State, a: Action, id: nat)
    requires Inv(s) && Allowed(s, a) && Unannounced(s, R.Step(s, a), id)
    ensures Quiet(s, R.Step(s, a), id)
  {
    QuietStanding(s, a, id);
    match a
    case UsbConnected(n, udid) => QuietUsbConnected(s, n, udid, id);
    case UsbDisconnected(n) => QuietRemoved(s, n, id);
    case NetworkConnected(n, udid) => QuietInserted(s, n, udid, id);
    case NetworkDisconnected(n) =>
      NetworkDisconnectedIsRemoved(s, n);
      QuietRemoved(s, n, id);
    case AddDevice(n, udid, force, connects) => QuietAddDevice(s, n, udid, force, connects, id);
  }

  /** The view of one id carries over any change between two good registry states. */
  lemma ViewCarries(s: State, s': State, l: ListenerState, id: nat)
    requires Inv(s) && Inv(s') && s.events <= s'.events
    requires l.cursor <= |s.events| && l.view <= s.used
    requires ViewOk(s, l, id)
    requires Unannounced(s, s', id) ==> Quiet(s, s', id)
    ensures ViewOk(s', l, id)
  {
    if Mentioned(s.events, l.cursor, id) {
      var i :| l.cursor <= i < |s.events| && s.events[i].id == id;
      assert s'.events[i].id == id;
    } else if !Mentioned(s'.events, l.cursor, id) {
      assert Unannounced(s, s', id);
    }
  }

  lemma ChangeKeepsView(s: State, l: ListenerState, a: Action, id: nat)
    requires Inv(s) && Allowed(s, a) && l.cursor <= |s.events| && l.view <= s.used
    requires ViewOk(s, l, id)
    ensures ViewOk(R.Step(s, a), l, id)
  {
    StepAppends(s, a);
    StepKeepsInv(s, a);
    if Unannounced(s, R.Step(s, a), id) { QuietIds(s, a, id); }
    ViewCarries(s, R.Step(s, a), l, id);
  }

  // ----- receiving -----

  /** The last event about an id decides whether it is announced. */
  lemma {:induction false} LastMentionDecides(events: seq<DeviceEvent>, at: nat)
    requires at < |events| && !Mentioned(events, at + 1, events[at].id)
    ensures Announced(events, events[at].id) <==> events[at].Attached?
  {
    var before, rest := events[..at + 1], events[at + 1..];
    assert events == before + rest && before == events[..at] + [events[at]];
    AnnouncedKept(before, rest, events[at].id);
    AnnouncedSnoc(events[..at], events[at], events[at].id);
  }

  lemma ReceiveKeepsView(s: State, l: ListenerState, id: nat)
    requires Inv(s) && l.cursor < |s.events| && |s.events| - l.cursor <= CHANNEL_CAPACITY
    requires ViewOk(s, l, id)
    ensures ViewOk(s, Receives(s, l), id)
  {
    if !Mentioned(s.events, l.cursor + 1, id) {
      if s.events[l.cursor].id == id {
        LastMentionDecides(s.events, l.cursor);
      } else {
        assert !Mentioned(s.events, l.cursor, id);
      }
    }
  }

  lemma StepKeepsListener(j: Joint, a: JointAction)
    requires ListenerInv(j) && Enabled(j, a)
    ensures ListenerInv(Apply(j, a))
  {
    match a
    case Change(c) =>
      StepKeepsInv(j.registry, c);
      StepAppends(j.registry, c);
      if j.listener.snapped {
        forall id: nat ensures ViewOk(R.Step(j.registry, c), j.listener, id) {
          ChangeKeepsView(j.registry, j.listener, c, id);
        }
      }
    case Snapshot =>
    case Receive =>
      var s, l := j.registry, j.listener;
      forall id: nat ensures ViewOk(s, Receives(s, l), id) {
        assert ViewOk(s, l, id);
        if l.cursor < |s.events| && |s.events| - l.cursor <= CHANNEL_CAPACITY {
          ReceiveKeepsView(s, l, id);
        }
      }
  }

  lemma {:induction false} RunKeepsListener(j: Joint, run: seq<JointAction>)
    requires ListenerInv(j) && LegalRun(j, run)
    ensures ListenerInv(After(j, run))
    decreases |run|
  {
    if run != [] {
      StepKeepsListener(j, run[0]);
      RunKeepsListener(Apply(j, run[0]), run[1..]);
    }
  }

  lemma DrainedViews(j: Joint)
    requires ListenerInv(j) && j.listener.snapped && j.listener.cursor == |j.registry.events|
    ensures forall id: nat :: id in j.registry.devices && id !in j.registry.lost ==>
              (id in j.listener.view <==> !Shadowed(j.registry.devices, id))
    ensures forall id: nat :: id in j.listener.view && id !in j.registry.devices ==> id in j.registry.stale
  {
    forall id: nat
      ensures id in j.registry.devices && id !in j.registry.lost ==>
                (id in j.listener.view <==> !Shadowed(j.registry.devices, id))
      ensures id in j.listener.view && id !in j.registry.devices ==> id in j.registry.stale
    {
      assert ViewOk(j.registry, j.listener, id);
    }
  }

  /** Listener convergence. Whenever the client subscribes and whenever the snapshot is taken,
      once the client has received every event sent so far its view is right: of the ids in the
      map exactly the visible ones are attached, a restored-after-failure one aside; any other
      id it still shows was dropped as stale. */
  lemma ListenersConverge(history: seq<Action>, run: seq<JointAction>)
    requires Legal(START, history)
    requires LegalRun(Joint(R.Run(START, history), Subscribe(R.Run(START, history))), run)
    requires var j := After(Joint(R.Run(START, history), Subscribe(R.Run(START, history))), run);
             j.listener.snapped && j.listener.cursor == |j.registry.events|
    ensures var j := After(Joint(R.Run(START, history), Subscribe(R.Run(START, history))), run);
            && (forall id: nat :: id in j.registry.devices && id !in j.registry.lost ==>
                  (id in j.listener.view <==> !Shadowed(j.registry.devices, id)))
            && (forall id: nat :: id in j.listener.view && id !in j.registry.devices ==> id in j.registry.stale)
  {
    var s := R.Run(START, history);
    RunKeepsInv(START, history);
    RunKeepsListener(Joint(s, Subscribe(s)), run);
    var j := After(Joint(s, Subscribe(s)), run);
    DrainedViews(j);
  }

  // ----- progress -----

  /** A listener that is not too far behind catches up by receiving, one event at a time; one that is
      further behind than the channel's capacity ends at its next turn with its view as it was. */
  lemma {:induction false} CatchesUpOrEnds(j: Joint)
    requires j.listener.alive && j.listener.snapped && j.listener.cursor <= |j.registry.events|
    ensures var n := |j.registry.events| - j.listener.cursor;
            if n <= CHANNEL_CAPACITY then
              var run := seq(n, (_: nat) => Receive);
              && LegalRun(j, run)
              && After(j, run).listener.alive && After(j, run).listener.cursor == |j.registry.events|
              && After(j, run).registry == j.registry
            else
              Apply(j, Receive).listener == j.listener.(alive := false)
    decreases |j.registry.events| - j.listener.cursor
  {
    var n := |j.registry.events| - j.listener.cursor;
    if 0 < n <= CHANNEL_CAPACITY {
      var run := seq(n, (_: nat) => Receive);
      CatchesUpOrEnds(Apply(j, Receive));
      assert run[1..] == seq(n - 1, (_: nat) => Receive);
    }
  }

  // ----- runs in which no handler drifts after the subscription -----

  /** No handler of the run drifts. */
  ghost predicate ChangesNeverDrift(j: Joint, run: seq<JointAction>)
    requires LegalRun(j, run)
    decreases |run|
  {
    run == []
    || ((run[0].Change? ==> !Drifts(j.registry, run[0].action)) && ChangesNeverDrift(Apply(j, run[0]), run[1..]))
  }

  /** The same devices with a past that agrees with them: whatever drifted before is forgotten. */
  function Cleaned(s: State, past: seq<DeviceEvent>): State {
    State(s.devices, past, s.used, {}, {})
  }

  /** `c` is `j` with its past replaced: same devices, same outstanding events, same view. */
  ghost predicate Alike(j: Joint, c: Joint) {
    && c.registry == Cleaned(j.registry, c.registry.events)
    && Inv(c.registry) && InSync(c.registry)
    && c.listener == j.listener.(cursor := c.listener.cursor)
    && j.listener.cursor <= |j.registry.events| && c.listener.cursor <= |c.registry.events|
    && j.registry.events[j.listener.cursor..] == c.registry.events[c.listener.cursor..]
  }

  /** What a handler does to the map and what it announces depends on the map alone. */
  lemma StepIgnoresThePast(s: State, t: State, a: Action)
    requires s.devices == t.devices && s.used == t.used
    ensures s.events <= R.Step(s, a).events && t.events <= R.Step(t, a).events
    ensures R.Step(s, a).devices == R.Step(t, a).devices && R.Step(s, a).used == R.Step(t, a).used
    ensures R.Step(s, a).events[|s.events|..] == R.Step(t, a).events[|t.events|..]
  {
    StepAppends(s, a);
    StepAppends(t, a);
  }

  lemma SameNews(
    e: seq<DeviceEvent>, e': seq<DeviceEvent>, from: nat, f: seq<DeviceEvent>, f': seq<DeviceEvent>, at: nat)
    requires e <= e' && f <= f' && from <= |e| && at <= |f|
    requires e[from..] == f[at..] && e'[|e|..] == f'[|f|..]
    ensures e'[from..] == f'[at..]
  {
    assert e' == e + e'[|e|..] && f' == f + f'[|f|..];
    assert e'[from..] == e[from..] + e'[|e|..];
    assert f'[at..] == f[at..] + f'[|f|..];
  }

  lemma ChangeKeepsAlike(j: Joint, c: Joint, a: Action)
    requires Alike(j, c) && Enabled(j, Change(a)) && !Drifts(j.registry, a)
    ensures Enabled(c, Change(a)) && Alike(Apply(j, Change(a)), Apply(c, Change(a)))
  {
    var s, t := j.registry, c.registry;
    StepIgnoresThePast(s, t, a);
    SameNews(s.events, R.Step(s, a).events, j.listener.cursor, t.events, R.Step(t, a).events, c.listener.cursor);
    assert Allowed(t, a) && !Drifts(t, a);
    HandlersKeepSyncExactly(t, a);
    StepKeepsInv(t, a);
    InSyncIsNothingLost(R.Step(t, a));
  }

  lemma ReceiveKeepsAlike(j: Joint, c: Joint)
    requires Alike(j, c) && Enabled(j, Receive)
    ensures Enabled(c, Receive) && Alike(Apply(j, Receive), Apply(c, Receive))
  {
    var e, f := j.registry.events, c.registry.events;
    var from, at := j.listener.cursor, c.listener.cursor;
    assert |e| - from == |f| - at by { assert |e[from..]| == |f[at..]|; }
    if from < |e| {
      assert e[from] == e[from..][0] == f[at..][0] == f[at];
      assert e[from + 1..] == e[from..][1..] && f[at + 1..] == f[at..][1..];
    }
  }

  lemma {:induction false} RunKeepsAlike(j: Joint, c: Joint, run: seq<JointAction>)
    requires Alike(j, c) && LegalRun(j, run) && ChangesNeverDrift(j, run)
    ensures LegalRun(c, run) && Alike(After(j, run), After(c, run))
    decreases |run|
  {
    if run != [] {
      match run[0] {
        case Change(a) => ChangeKeepsAlike(j, c, a);
        case Snapshot =>
        case Receive => ReceiveKeepsAlike(j, c);
      }
      RunKeepsAlike(Apply(j, run[0]), Apply(c, run[0]), run[1..]);
    }
  }

  /** Any set of ids is what some past announces. */
  lemma {:induction false} PastFor(ids: set<nat>) returns (past: seq<DeviceEvent>)
    ensures forall id: nat :: Announced(past, id) <==> id in ids
  {
    past := [];
    if ids != {} {
      var x :| x in ids;
      var before := PastFor(ids - {x});
      past := before + [Attached(x)];
      forall id: nat ensures Announced(past, id) <==> id in ids {
        AnnouncedSnoc(before, Attached(x), id);
      }
    }
  }

  /** A fresh subscription to a registry of any past is like one to a registry that never drifted. */
  lemma SubscriptionIsAlike(s: State) returns (c: Joint)
    requires Inv(s)
    ensures Alike(Joint(s, Subscribe(s)), c) && ListenerInv(c)
  {
    var past := PastFor(VisibleIds(s.devices));
    var t := Cleaned(s, past);
    assert InSync(t);
    c := Joint(t, Subscribe(t));
  }

  /** In every run in which no handler drifts after the subscription, whatever happened before it,
      the drained listener shows exactly what ListDevices would answer. */
  lemma ListenersMatchDeviceList(history: seq<Action>, run: seq<JointAction>)
    requires Legal(START, history)
    requires var j := Joint(R.Run(START, history), Subscribe(R.Run(START, history)));
             LegalRun(j, run) && ChangesNeverDrift(j, run)
    requires var j := After(Joint(R.Run(START, history), Subscribe(R.Run(START, history))), run);
             j.listener.snapped && j.listener.cursor == |j.registry.events|
    ensures var j := After(Joint(R.Run(START, history), Subscribe(R.Run(START, history))), run);
            j.listener.view == VisibleIds(j.registry.devices)
  {
    var s := R.Run(START, history);
    RunKeepsInv(START, history);
    var c := SubscriptionIsAlike(s);
    RunKeepsAlike(Joint(s, Subscribe(s)), c, run);
    RunKeepsListener(c, run);
    InSyncIsNothingLost(After(c, run).registry);
    DrainedViews(After(c, run));
  }
}
