/** The registry of UI sessions: peer connections, each with its UI sessions
    (the `sessions` module of src/flutter.rs), for calls that do not overlap. */
module SessionRegistry {
  import opened Common

  datatype Key = Key(peerId: string, connType: nat)

  /** A UI session: the displays it shows and the displays its renderer has textures for. */
  datatype UiSession = UiSession(displays: seq<Display>, rendered: set<Display>)

  type Handlers = map<SessionId, UiSession>
  type Registry = map<Key, Handlers>

  // ----- the registry as a value -----

  ghost predicate Holds(reg: Registry, k: Key, id: SessionId) {
    k in reg && id in reg[k]
  }

  /** Every peer entry has a UI session, and every UI session belongs to one peer entry. */
  ghost predicate Valid(reg: Registry) {
    && (forall k :: k in reg ==> reg[k] != map[])
    && (forall k, k', id :: Holds(reg, k, id) && Holds(reg, k', id) ==> k == k')
  }

  ghost predicate Known(reg: Registry, id: SessionId) {
    exists k :: Holds(reg, k, id)
  }

  ghost function Owner(reg: Registry, id: SessionId): (k: Key)
    requires Known(reg, id)
    ensures Holds(reg, k, id)
  {
    var k :| Holds(reg, k, id);
    k
  }

  const NEW_SESSION := UiSession([], {})

  function Inserted(reg: Registry, id: SessionId, key: Key): Registry {
    reg[key := (if key in reg then reg[key] else map[])[id := NEW_SESSION]]
  }

  function PeerInserted(reg: Registry, key: Key, id: SessionId, displays: seq<Display>): Registry {
    if key in reg then reg[key := reg[key][id := UiSession(displays, {})]] else reg
  }

  /** The registry after removing `id`, and whether its peer entry went with it. */
  ghost function Removed(reg: Registry, id: SessionId): (Registry, Option<Key>) {
    if !Known(reg, id) then (reg, None)
    else
      var k := Owner(reg, id);
      var rest := reg[k] - {id};
      if rest == map[] then (reg - {k}, Some(k)) else (reg[k := rest], None)
  }

  ghost predicate WouldRemove(reg: Registry, id: SessionId) {
    Known(reg, id) && |reg[Owner(reg, id)]| == 1
  }

  ghost function Switched(reg: Registry, id: SessionId, displays: seq<Display>): Registry {
    if !Known(reg, id) then reg
    else
      var k := Owner(reg, id);
      reg[k := reg[k][id := reg[k][id].(displays := displays)]]
  }

  // ----- removal -----

  lemma OneLeft(hs: Handlers, id: SessionId)
    requires id in hs
    ensures |hs| == 1 <==> hs - {id} == map[]
  {
    assert hs.Keys == (hs - {id}).Keys + {id};
    if hs - {id} == map[] {
      assert hs.Keys == {id};
    }
    if |hs| == 1 {
      assert |(hs - {id}).Keys| == 0;
    }
  }

  /** Asking first whether a removal would take the peer entry with it gives the answer of
      the removal. */
  lemma PredictionIsExact(reg: Registry, id: SessionId)
    ensures WouldRemove(reg, id) <==> Removed(reg, id).1.Some?
  {
    if Known(reg, id) {
      OneLeft(reg[Owner(reg, id)], id);
    }
  }

  /** A removal takes out `id` and nothing else. */
  lemma RemovalIsExact(reg: Registry, id: SessionId, k: Key, other: SessionId)
    requires Valid(reg)
    ensures Holds(Removed(reg, id).0, k, other) <==> Holds(reg, k, other) && other != id
    ensures Holds(Removed(reg, id).0, k, other) ==> Removed(reg, id).0[k][other] == reg[k][other]
  {
    if Known(reg, id) && k == Owner(reg, id) {
      var rest := reg[k] - {id};
      assert other in rest <==> other in reg[k] && other != id;
    }
  }

  /** Removing a session that was just added restores the registry, and takes the peer
      entry with it exactly when the insertion had made it. */
  lemma RemovalUndoesInsertion(reg: Registry, id: SessionId, key: Key)
    requires Valid(reg) && !Known(reg, id)
    ensures Removed(Inserted(reg, id, key), id) == (reg, if key in reg then None else Some(key))
  {
    var reg' := Inserted(reg, id, key);
    assert Holds(reg', key, id);
    OnlyOwner(reg, id, key, reg');
    if key in reg {
      assert !Holds(reg, key, id);
      assert reg'[key] - {id} == reg[key];
      assert reg'[key := reg[key]] == reg;
    } else {
      assert reg'[key] - {id} == map[];
      assert reg' - {key} == reg;
    }
  }

  lemma OnlyOwner(reg: Registry, id: SessionId, key: Key, reg': Registry)
    requires !Known(reg, id) && Holds(reg', key, id)
    requires forall k :: k != key && k in reg' ==> k in reg && reg[k] == reg'[k]
    ensures Owner(reg', id) == key
  {
    var k := Owner(reg', id);
    if k != key {
      assert Holds(reg, k, id);
    }
  }

  lemma RemovalUndoesPeerInsertion(reg: Registry, key: Key, id: SessionId, displays: seq<Display>)
    requires Valid(reg) && !Known(reg, id)
    ensures Removed(PeerInserted(reg, key, id, displays), id) == (reg, None)
  {
    var reg' := PeerInserted(reg, key, id, displays);
    if key in reg {
      assert Holds(reg', key, id);
      OnlyOwner(reg, id, key, reg');
      assert !Holds(reg, key, id);
      assert reg'[key] - {id} == reg[key];
      assert reg'[key := reg[key]] == reg;
    }
  }

  // ----- runs -----

  datatype Op =
    | InsertSession(id: SessionId, key: Key)
    | InsertPeerSession(key: Key, id: SessionId, displays: seq<Display>)
    | Remove(id: SessionId)
    | SwitchDisplay(id: SessionId, displays: seq<Display>)
    /** The renderer of a UI session gains or loses textures. */
    | Render(id: SessionId, rendered: set<Display>)

  ghost function Apply(reg: Registry, op: Op): Registry {
    match op
    case InsertSession(id, key) => Inserted(reg, id, key)
    case InsertPeerSession(key, id, displays) => PeerInserted(reg, key, id, displays)
    case Remove(id) => Removed(reg, id).0
    case SwitchDisplay(id, displays) => Switched(reg, id, displays)
    case Render(id, rendered) =>
      if !Known(reg, id) then reg
      else var k := Owner(reg, id); reg[k := reg[k][id := reg[k][id].(rendered := rendered)]]
  }

  /** New UI sessions have new ids. */
  ghost predicate Fresh(reg: Registry, op: Op) {
    match op
    case InsertSession(id, _) => !Known(reg, id)
    case InsertPeerSession(_, id, _) => !Known(reg, id)
    case _ => true
  }

  lemma ApplyValid(reg: Registry, op: Op)
    requires Valid(reg) && Fresh(reg, op)
    ensures Valid(Apply(reg, op))
  {
    var reg' := Apply(reg, op);
    match op {
      case InsertSession(id, key) =>
        forall k, id' | Holds(reg', k, id') ensures Holds(reg, k, id') || (k == key && id' == id) {}
        assert reg'[key] != map[] by { assert id in reg'[key]; }
      case InsertPeerSession(key, id, displays) =>
        forall k, id' | Holds(reg', k, id') ensures Holds(reg, k, id') || (k == key && id' == id) {}
        assert key in reg ==> id in reg'[key];
      case Remove(id) =>
        forall k, id' ensures Holds(reg', k, id') <==> Holds(reg, k, id') && id' != id {
          RemovalIsExact(reg, id, k, id');
        }
      case SwitchDisplay(id, displays) =>
        if Known(reg, id) { SameSessions(reg, id, reg[Owner(reg, id)][id].(displays := displays)); }
      case Render(id, rendered) =>
        if Known(reg, id) { SameSessions(reg, id, reg[Owner(reg, id)][id].(rendered := rendered)); }
    }
  }

  lemma SameSessions(reg: Registry, id: SessionId, u: UiSession)
    requires Valid(reg) && Known(reg, id)
    ensures Valid(reg[Owner(reg, id) := reg[Owner(reg, id)][id := u]])
  {
    var k0 := Owner(reg, id);
    var reg' := reg[k0 := reg[k0][id := u]];
    assert id in reg'[k0];
    forall k, id' ensures Holds(reg', k, id') <==> Holds(reg, k, id') {}
  }

  ghost predicate IsRun(ops: seq<Op>, reg: Registry) {
    if ops == [] then reg == map[]
    else
      var last := |ops| - 1;
      exists reg0 :: IsRun(ops[..last], reg0) && Fresh(reg0, ops[last]) && reg == Apply(reg0, ops[last])
  }

  /** Every reachable registry: no peer entry without a UI session, and each session id
      under one peer. */
  lemma {:induction false} RunsAreValid(ops: seq<Op>, reg: Registry)
    requires IsRun(ops, reg)
    ensures Valid(reg)
  {
    if ops != [] {
      var last := |ops| - 1;
      var reg0 :| IsRun(ops[..last], reg0) && Fresh(reg0, ops[last]) && reg == Apply(reg0, ops[last]);
      RunsAreValid(ops[..last], reg0);
      ApplyValid(reg0, ops[last]);
    }
  }

  // ----- what each operation leaves in the registry -----

  /** The UI session `id` of peer entry `k`, if it is there. */
  ghost function At(reg: Registry, k: Key, id: SessionId): Option<UiSession> {
    if k in reg && id in reg[k] then Some(reg[k][id]) else None
  }

  /** A new UI session shows nothing and has no textures; no other changes. */
  lemma InsertionIsExact(reg: Registry, id: SessionId, key: Key, k: Key, other: SessionId)
    ensures At(Inserted(reg, id, key), k, other)
         == if k == key && other == id then Some(UiSession([], {})) else At(reg, k, other)
  {}

  /** A UI session added to a peer entry shows the given displays, without textures yet; without
      the entry nothing happens; no other changes. */
  lemma PeerInsertionIsExact(reg: Registry, key: Key, id: SessionId, displays: seq<Display>, k: Key, other: SessionId)
    ensures At(PeerInserted(reg, key, id, displays), k, other)
         == if key in reg && k == key && other == id then Some(UiSession(displays, {})) else At(reg, k, other)
  {}

  /** A switch gives the UI session the new displays and leaves its textures and every other
      session as they are. */
  lemma SwitchIsExact(reg: Registry, id: SessionId, displays: seq<Display>, k: Key, other: SessionId)
    requires Valid(reg)
    ensures var was := At(reg, k, other);
            At(Switched(reg, id, displays), k, other) ==
              if other == id && was.Some? then Some(UiSession(displays, was.value.rendered)) else was
  {
    if At(reg, k, other).Some? {
      assert Holds(reg, k, other);
    }
    if Known(reg, id) {
      assert Holds(reg, Owner(reg, id), id);
    }
  }

  // ----- the displays to capture -----

  /** The displays that UI sessions other than `id` have textures for. */
  ghost function OthersRender(hs: Handlers, id: SessionId): set<Display> {
    RenderedBy(hs, hs.Keys - {id})
  }

  ghost function RenderedBy(hs: Handlers, ids: set<SessionId>): set<Display> {
    set k, d | k in ids && k in hs && d in hs[k].rendered :: d
  }

  lemma RenderedByOneMore(hs: Handlers, ids: set<SessionId>, k: SessionId)
    requires k in hs
    ensures RenderedBy(hs, ids + {k}) == RenderedBy(hs, ids) + hs[k].rendered
  {
    forall d | d in RenderedBy(hs, ids) + hs[k].rendered ensures d in RenderedBy(hs, ids + {k}) {
      if d in hs[k].rendered {
        assert k in ids + {k};
      } else {
        var k' :| k' in ids && k' in hs && d in hs[k'].rendered;
        assert k' in ids + {k};
      }
    }
  }

  /** The displays sent to the peer for capture when unused ones are dropped, if any. */
  ghost function KeptDisplays(current: Option<Display>, id: SessionId, hs: Handlers): Option<set<Display>> {
    var all := (if current.Some? then {current.value} else {}) + OthersRender(hs, id);
    if all == {} then None else Some(all)
  }

  /** The displays sent to the peer for capture when `id` switches to `value`. */
  ghost function SwitchCapture(desktop: bool, id: SessionId, value: seq<Display>, hs: Handlers): set<Display> {
    if |value| == 1 && desktop then {value[0]} + OthersRender(hs, id)
    else set d | d in value
  }

  /** What a call sends to the peer or does to the frames, in order. */
  datatype Action =
    | SwitchTo(d: Display)
    /** The valid flag of the display's frame is reset. */
    | NextRgba(d: Display)
    | Capture(displays: set<Display>)
    | Refresh(d: Display)

  ghost function Refreshes(value: seq<Display>): seq<Action> {
    seq(|value|, i requires 0 <= i < |value| => Refresh(value[i]))
  }

  /** `multi`: the peer serves several UI sessions. */
  ghost function SwitchActions(desktop: bool, multi: bool, id: SessionId, value: seq<Display>,
                               hs: Handlers): seq<Action>
  {
    (if |value| == 1 then [SwitchTo(value[0]), NextRgba(value[0])] else [])
    + [Capture(SwitchCapture(desktop, id, value, hs))]
    + (if multi then Refreshes(value) else [])
  }

  /** After a removal that leaves the peer entry, exactly the displays some remaining UI
      session renders are sent for capture. */
  lemma CaptureAfterRemoval(reg: Registry, id: SessionId, d: Display)
    requires Valid(reg) && Known(reg, id) && Removed(reg, id).1.None?
    ensures var k := Owner(reg, id);
            var sent := KeptDisplays(None, id, Removed(reg, id).0[k]);
            (sent.Some? && d in sent.value) <==>
            exists other :: other != id && other in reg[k] && d in reg[k][other].rendered
  {
    var k := Owner(reg, id);
    var rest := reg[k] - {id};
    assert Removed(reg, id).0[k] == rest;
    if other :| other != id && other in reg[k] && d in reg[k][other].rendered {
      assert other in rest.Keys - {id} && rest[other] == reg[k][other];
      assert d in OthersRender(rest, id);
    }
    if d in OthersRender(rest, id) {
      var other :| other in rest.Keys - {id} && d in rest[other].rendered;
      assert other in reg[k];
    }
  }

  /** `d` is shown by a UI session of `id`'s peer entry other than `id`. */
  ghost predicate ShownByOther(reg: Registry, id: SessionId, d: Display)
    requires Known(reg, id)
  {
    var hs := reg[Owner(reg, id)];
    exists other :: other != id && other in hs && d in hs[other].rendered
  }

  lemma SwitchKeepsOwner(reg: Registry, id: SessionId, value: seq<Display>)
    requires Valid(reg) && Known(reg, id)
    ensures var reg' := Switched(reg, id, value);
            && Owner(reg, id) in reg'
            && Known(reg', id) && Owner(reg', id) == Owner(reg, id)
            && forall other :: other != id && other in reg[Owner(reg, id)] ==>
                 other in reg'[Owner(reg, id)] && reg'[Owner(reg, id)][other] == reg[Owner(reg, id)][other]
  {
    var k := Owner(reg, id);
    var reg' := Switched(reg, id, value);
    assert Holds(reg', k, id);
    assert Holds(reg, Owner(reg', id), id);
  }

  lemma SwitchKeepsRendered(reg: Registry, id: SessionId, value: seq<Display>, d: Display)
    requires Valid(reg) && Known(reg, id)
    ensures d in OthersRender(Switched(reg, id, value)[Owner(reg, id)], id) <==> ShownByOther(reg, id, d)
  {
    SwitchKeepsOwner(reg, id, value);
    var hs, hs' := reg[Owner(reg, id)], Switched(reg, id, value)[Owner(reg, id)];
    if other :| other != id && other in hs && d in hs[other].rendered {
      assert other in hs'.Keys - {id} && d in hs'[other].rendered;
    }
    if d in OthersRender(hs', id) {
      var other :| other in hs'.Keys - {id} && other in hs' && d in hs'[other].rendered;
      assert other in hs;
    }
  }

  /** A switch sends one list of displays for capture. */
  lemma OneCapture(desktop: bool, multi: bool, id: SessionId, value: seq<Display>, hs: Handlers, x: set<Display>)
    ensures Capture(x) in SwitchActions(desktop, multi, id, value, hs) <==> x == SwitchCapture(desktop, id, value, hs)
  {
    var actions := SwitchActions(desktop, multi, id, value, hs);
    assert actions[if |value| == 1 then 2 else 0] == Capture(SwitchCapture(desktop, id, value, hs));
    forall i | 0 <= i < |value| ensures Refreshes(value)[i].Refresh? {}
  }

  /** What a switch does, in every reachable registry, by the actions themselves: a switch
      message and a flag reset for a single display and nothing else; one list for capture, of
      the new displays and, for a desktop's single display, of those other UI sessions show;
      and a refresh of exactly the new displays for peers that serve several UI sessions. */
  lemma SwitchDoes(ops: seq<Op>, reg: Registry, desktop: bool, multi: bool, id: SessionId,
                   value: seq<Display>, sent: set<Display>, d: Display)
    requires IsRun(ops, reg) && Known(reg, id)
    requires Capture(sent) in SwitchActions(desktop, multi, id, value, Switched(reg, id, value)[Owner(reg, id)])
    ensures var actions := SwitchActions(desktop, multi, id, value, Switched(reg, id, value)[Owner(reg, id)]);
            && (SwitchTo(d) in actions <==> value == [d])
            && (NextRgba(d) in actions <==> value == [d])
            && (d in sent <==> d in value || (desktop && |value| == 1 && ShownByOther(reg, id, d)))
            && (Refresh(d) in actions <==> multi && d in value)
  {
    RunsAreValid(ops, reg);
    var hs := Switched(reg, id, value)[Owner(reg, id)];
    OneCapture(desktop, multi, id, value, hs, sent);
    SwitchKeepsRendered(reg, id, value, d);
    SwitchMessages(desktop, multi, id, value, hs, d);
  }

  lemma SwitchMessages(desktop: bool, multi: bool, id: SessionId, value: seq<Display>, hs: Handlers, d: Display)
    ensures var actions := SwitchActions(desktop, multi, id, value, hs);
            && (SwitchTo(d) in actions <==> value == [d])
            && (NextRgba(d) in actions <==> value == [d])
            && (Refresh(d) in actions <==> multi && d in value)
  {
    var head := if |value| == 1 then [SwitchTo(value[0]), NextRgba(value[0])] else [];
    var middle := [Capture(SwitchCapture(desktop, id, value, hs))];
    var tail := if multi then Refreshes(value) else [];
    var actions := SwitchActions(desktop, multi, id, value, hs);
    assert actions == head + middle + tail;
    assert forall a :: a in actions <==> a in head || a in middle || a in tail;
    if |value| == 1 {
      assert value == [value[0]];
      assert head[0] == SwitchTo(value[0]) && head[1] == NextRgba(value[0]);
    }
    if multi && d in value {
      var i :| 0 <= i < |value| && value[i] == d;
      assert Refreshes(value)[i] == Refresh(d);
    }
  }

  /** In every reachable registry: of the displays a switch sends for capture, those the
      peer's other UI sessions show are among them exactly when it is a desktop's switch to
      a single display or the new displays include all of those. */
  lemma SwitchKeepsOthersIff(ops: seq<Op>, reg: Registry, desktop: bool, multi: bool, id: SessionId,
                             value: seq<Display>, sent: set<Display>)
    requires IsRun(ops, reg) && Known(reg, id)
    requires Capture(sent) in SwitchActions(desktop, multi, id, value, Switched(reg, id, value)[Owner(reg, id)])
    ensures (forall d :: ShownByOther(reg, id, d) ==> d in sent)
       <==> (desktop && |value| == 1) || (forall d :: ShownByOther(reg, id, d) ==> d in value)
  {
    RunsAreValid(ops, reg);
    var hs := Switched(reg, id, value)[Owner(reg, id)];
    OneCapture(desktop, multi, id, value, hs, sent);
    forall d ensures d in OthersRender(hs, id) <==> ShownByOther(reg, id, d) {
      SwitchKeepsRendered(reg, id, value, d);
    }
  }

  lemma RunThen(ops: seq<Op>, reg: Registry, op: Op)
    requires IsRun(ops, reg) && Fresh(reg, op)
    ensures IsRun(ops + [op], Apply(reg, op))
  {
    var longer := ops + [op];
    assert longer[..|ops|] == ops && longer[|ops|] == op;
  }

  const ONE := SessionId(1)
  const TWO := SessionId(2)

  /** Two windows on one peer: the first shows display 0, the second display 2. */
  function TwoWindows(peer: Key): seq<Op> {
    [InsertSession(ONE, peer)] + [InsertPeerSession(peer, TWO, [2])] + [Render(ONE, {0})] + [Render(TWO, {2})]
  }

  /** A registry with one peer entry. */
  lemma RenderAlone(ops: seq<Op>, peer: Key, hs: Handlers, id: SessionId, rendered: set<Display>)
    requires id in hs && IsRun(ops, map[peer := hs])
    ensures IsRun(ops + [Render(id, rendered)], map[peer := hs[id := hs[id].(rendered := rendered)]])
  {
    var reg: Registry := map[peer := hs];
    assert Holds(reg, peer, id);
    assert Owner(reg, id) == peer;
    assert reg[peer := hs[id := hs[id].(rendered := rendered)]] == map[peer := hs[id := hs[id].(rendered := rendered)]];
    RunThen(ops, reg, Render(id, rendered));
  }

  lemma TwoWindowsOpen(peer: Key)
    ensures IsRun([InsertSession(ONE, peer)] + [InsertPeerSession(peer, TWO, [2])],
                  map[peer := map[ONE := NEW_SESSION, TWO := UiSession([2], {})]])
  {
    var r1: Registry := map[peer := map[ONE := NEW_SESSION]];
    RunThen([], map[], InsertSession(ONE, peer));
    assert [] + [InsertSession(ONE, peer)] == [InsertSession(ONE, peer)];
    RunThen([InsertSession(ONE, peer)], r1, InsertPeerSession(peer, TWO, [2]));
    assert r1[peer][TWO := UiSession([2], {})] == map[ONE := NEW_SESSION, TWO := UiSession([2], {})];
  }

  lemma TwoWindowsRun(peer: Key) returns (reg: Registry)
    ensures reg == map[peer := map[ONE := UiSession([], {0}), TWO := UiSession([2], {2})]]
    ensures IsRun(TwoWindows(peer), reg)
  {
    var ops := [InsertSession(ONE, peer)] + [InsertPeerSession(peer, TWO, [2])];
    var hs: Handlers := map[ONE := NEW_SESSION, TWO := UiSession([2], {})];
    var hs1 := hs[ONE := UiSession([], {0})];
    TwoWindowsOpen(peer);
    RenderAlone(ops, peer, hs, ONE, {0});
    RenderAlone(ops + [Render(ONE, {0})], peer, hs1, TWO, {2});
    reg := map[peer := hs1[TWO := UiSession([2], {2})]];
    assert reg[peer] == map[ONE := UiSession([], {0}), TWO := UiSession([2], {2})];
  }

  /** Opening two displays in one window stops the capture of a third that another shows: a
      switch, in a registry that a run reaches, whose capture list lacks it. */
  lemma SwitchToTwoDropsOthers(peer: Key, multi: bool) returns (reg: Registry)
    ensures IsRun(TwoWindows(peer), reg) && Known(reg, ONE) && ShownByOther(reg, ONE, 2)
    ensures forall sent ::
              Capture(sent) in SwitchActions(true, multi, ONE, [0, 1], Switched(reg, ONE, [0, 1])[Owner(reg, ONE)]) ==>
              2 !in sent
  {
    reg := TwoWindowsRun(peer);
    assert Holds(reg, peer, ONE);
    assert TWO in reg[peer] && 2 in reg[peer][TWO].rendered;
    var hs := Switched(reg, ONE, [0, 1])[Owner(reg, ONE)];
    forall sent | Capture(sent) in SwitchActions(true, multi, ONE, [0, 1], hs) ensures 2 !in sent {
      OneCapture(true, multi, ONE, [0, 1], hs, sent);
    }
  }

  // ----- the registry as the client updates it -----

  class Sessions {
    var sessions: Registry

    constructor ()
      ensures sessions == map[]
    {
      sessions := map[];
    }

    method InsertSession(id: SessionId, key: Key)
      modifies this
      ensures sessions == Inserted(old(sessions), id, key)
    {
      if key !in sessions {
        sessions := sessions[key := map[]];
      }
      sessions := sessions[key := sessions[key][id := NEW_SESSION]];
    }

    /** Also resets the valid flag of the frame when the session shows a single display. */
    method InsertPeerSessionId(key: Key, id: SessionId, displays: seq<Display>) returns (ok: bool, actions: seq<Action>)
      modifies this
      ensures sessions == PeerInserted(old(sessions), key, id, displays)
      ensures ok == (key in old(sessions))
      ensures actions == if ok && |displays| == 1 then [NextRgba(displays[0])] else []
    {
      if key !in sessions {
        return false, [];
      }
      sessions := sessions[key := sessions[key][id := UiSession(displays, {})]];
      actions := if |displays| == 1 then [NextRgba(displays[0])] else [];
      ok := true;
    }

    /** Goes through the peer entries in whatever order the map yields them. */
    method FindOwner(id: SessionId) returns (r: Option<Key>)
      requires Valid(sessions)
      ensures r.Some? <==> Known(sessions, id)
      ensures r.Some? ==> r.value == Owner(sessions, id)
    {
      var left := sessions.Keys;
      while left != {}
        invariant left <= sessions.Keys
        invariant forall k :: k in sessions && k !in left ==> id !in sessions[k]
        decreases |left|
      {
        var k :| k in left;
        if id in sessions[k] {
          assert Holds(sessions, k, id);
          return Some(k);
        }
        left := left - {k};
      }
      r := None;
    }

    /** Adds to `start` what the UI sessions other than `id` render. */
    method ExtendByOthers(start: set<Display>, id: SessionId, hs: Handlers) returns (remains: set<Display>)
      ensures remains == start + OthersRender(hs, id)
    {
      remains := start;
      ghost var done: set<SessionId> := {};
      var left := hs.Keys;
      while left != {}
        invariant left <= hs.Keys
        invariant forall k :: k in done <==> k in hs && k !in left && k != id
        invariant remains == start + RenderedBy(hs, done)
        decreases |left|
      {
        var k :| k in left;
        left := left - {k};
        if k == id {
          continue;
        }
        RenderedByOneMore(hs, done, k);
        done := done + {k};
        remains := remains + hs[k].rendered;
      }
      assert done == hs.Keys - {id};
    }

    method RemainingDisplays(current: Option<Display>, id: SessionId, hs: Handlers) returns (r: Option<set<Display>>)
      ensures r == KeptDisplays(current, id, hs)
    {
      var remains: set<Display> := {};
      if current.Some? {
        remains := {current.value};
      }
      remains := ExtendByOthers(remains, id, hs);
      r := if remains == {} then None else Some(remains);
    }

    /** Returns the key of the peer entry that went with the UI session, if it did, and the
        displays then sent for capture. */
    method RemoveSessionBySessionId(id: SessionId) returns (removed: Option<Key>, capture: Option<set<Display>>)
      requires Valid(sessions)
      modifies this
      ensures (sessions, removed) == Removed(old(sessions), id)
      ensures Valid(sessions)
      ensures capture == if Known(old(sessions), id) && removed.None?
                         then KeptDisplays(None, id, sessions[Owner(old(sessions), id)]) else None
    {
      ApplyValid(sessions, Remove(id));
      removed, capture := None, None;
      var owner := FindOwner(id);
      if owner.None? {
        return;
      }
      var k := owner.value;
      var rest := sessions[k] - {id};
      if rest == map[] {
        removed := Some(k);
        sessions := sessions - {k};
      } else {
        capture := RemainingDisplays(None, id, rest);
        sessions := sessions[k := rest];
      }
    }

    method WouldRemovePeerBySessionId(id: SessionId) returns (r: bool)
      requires Valid(sessions)
      ensures r <==> Removed(sessions, id).1.Some?
    {
      PredictionIsExact(sessions, id);
      var owner := FindOwner(id);
      r := owner.Some? && |sessions[owner.value]| == 1;
    }

    method SessionSwitchDisplay(desktop: bool, multi: bool, id: SessionId, value: seq<Display>)
      returns (actions: seq<Action>)
      requires Valid(sessions)
      modifies this
      ensures sessions == Switched(old(sessions), id, value) && Valid(sessions)
      ensures actions == if Known(old(sessions), id)
                         then SwitchActions(desktop, multi, id, value, sessions[Owner(old(sessions), id)]) else []
    {
      ApplyValid(sessions, SwitchDisplay(id, value));
      actions := [];
      var owner := FindOwner(id);
      if owner.None? {
        return;
      }
      var k := owner.value;
      sessions := sessions[k := sessions[k][id := sessions[k][id].(displays := value)]];
      if |value| == 1 {
        actions := [SwitchTo(value[0]), NextRgba(value[0])];
      }
      if |value| == 1 && desktop {
        var remains := RemainingDisplays(Some(value[0]), id, sessions[k]);
        actions := actions + [Capture(remains.value)];
      } else {
        actions := actions + [Capture(set d | d in value)];
      }
      if multi {
        actions := actions + seq(|value|, i requires 0 <= i < |value| => Refresh(value[i]));
      }
    }
  }
}
