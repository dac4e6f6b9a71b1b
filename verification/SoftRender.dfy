/** The hand-over of decoded frames to the UI (`on_rgba_soft_render`, `get_rgba`,
    `next_rgba` and `update_use_texture_render` in src/flutter.rs), with one producer per
    display and every interleaving of its locked sections with the other calls. */
module SoftRender {
  import opened Common

  /** A pixel buffer: `id` is the allocation, `bytes` what it holds at the moment. */
  datatype Buffer = Buffer(id: nat, bytes: seq<byte>)

  datatype Rgba = Rgba(data: Buffer, valid: bool)

  /** A UI session: the displays it shows and whether its event stream is open. */
  datatype Ui = Ui(displays: seq<Display>, stream: bool)

  /** Where the producer of a display stands in `on_rgba_soft_render`. */
  datatype Phase =
    | Idle
    /** The frame is in the map; the UI has not been told. */
    | Swapped
    /** It has looked whether there are several UI sessions. */
    | Sampled(multi: bool)
    /** It found no UI session to tell. */
    | Unsent

  /** `raw` are the producers' own buffers, `rgbas` the shared map, `told` the UI sessions
      told about the frame a display last put into the map. */
  datatype State = State(uis: map<SessionId, Ui>, rgbas: map<Display, Rgba>, raw: map<Display, Buffer>,
                         phase: map<Display, Phase>, told: map<Display, set<SessionId>>, nextId: nat)

  predicate IsTold(ui: Ui, multi: bool, d: Display) {
    |ui.displays| <= 1 && (multi ==> d in ui.displays) && ui.stream
  }

  /** The UI sessions an announcement of display `d` goes to. */
  function Recipients(uis: map<SessionId, Ui>, multi: bool, d: Display): set<SessionId> {
    set k | k in uis && IsTold(uis[k], multi, d)
  }

  datatype Step =
    /** The decoder writes the next frame into the producer's buffer. */
    | Decode(d: Display, bytes: seq<byte>)
    | Offer(d: Display)
    | Sample(d: Display)
    | Announce(d: Display)
    | Retract(d: Display)
    | NextRgba(d: Display)
    | Clear
    /** UI sessions come, go, switch displays or open their streams. */
    | ChangeUis(uis: map<SessionId, Ui>)

  predicate Enabled(s: State, e: Step) {
    match e
    case Decode(d, _) => d in s.phase && s.phase[d] == Idle && d in s.raw
    case Offer(d) => d in s.phase && s.phase[d] == Idle && d in s.raw
    case Sample(d) => d in s.phase && s.phase[d] == Swapped
    case Announce(d) => d in s.phase && s.phase[d].Sampled?
    case Retract(d) => d in s.phase && s.phase[d] == Unsent
    case _ => true
  }

  function Next(s: State, e: Step): State
    requires Enabled(s, e)
  {
    match e
    case Decode(d, bytes) => s.(raw := s.raw[d := s.raw[d].(bytes := bytes)])
    case Offer(d) =>
      if d in s.rgbas then
        if s.rgbas[d].valid then s
        else s.(rgbas := s.rgbas[d := Rgba(s.raw[d], true)], raw := s.raw[d := s.rgbas[d].data],
                phase := s.phase[d := Swapped], told := s.told[d := {}])
      else s.(rgbas := s.rgbas[d := Rgba(s.raw[d], true)], raw := s.raw[d := Buffer(s.nextId, [])],
              phase := s.phase[d := Swapped], told := s.told[d := {}], nextId := s.nextId + 1)
    case Sample(d) => s.(phase := s.phase[d := Sampled(|s.uis| > 1)])
    case Announce(d) =>
      var to := Recipients(s.uis, s.phase[d].multi, d);
      s.(told := s.told[d := to], phase := s.phase[d := if to == {} then Unsent else Idle])
    case Retract(d) => s.(rgbas := Invalidated(s.rgbas, d), phase := s.phase[d := Idle])
    case NextRgba(d) => s.(rgbas := Invalidated(s.rgbas, d))
    case Clear => s.(rgbas := map[])
    case ChangeUis(uis) => s.(uis := uis)
  }

  function Invalidated(rgbas: map<Display, Rgba>, d: Display): map<Display, Rgba> {
    if d in rgbas then rgbas[d := rgbas[d].(valid := false)] else rgbas
  }

  /** What `get_rgba` hands out. */
  function Exposed(s: State, d: Display): Option<Buffer> {
    if d in s.rgbas && s.rgbas[d].valid then Some(s.rgbas[d].data) else None
  }

  // ----- invariants over every interleaving -----

  /** The allocations of the producers' buffers and of the shared ones: no buffer is in
      two places. */
  ghost predicate Separate(raw: map<Display, Buffer>, rgbas: map<Display, Rgba>, nextId: nat) {
    && (forall d :: d in raw ==> raw[d].id < nextId)
    && (forall d :: d in rgbas ==> rgbas[d].data.id < nextId)
    && (forall d, d' :: d in raw && d' in raw && raw[d].id == raw[d'].id ==> d == d')
    && (forall d, d' :: d in rgbas && d' in rgbas && rgbas[d].data.id == rgbas[d'].data.id ==> d == d')
    && (forall d, d' :: d in raw && d' in rgbas ==> raw[d].id != rgbas[d'].data.id)
  }

  /** A valid frame of an idle producer has been announced. */
  ghost predicate Announced(s: State)
    requires s.phase.Keys == s.told.Keys
  {
    forall d :: d in s.phase && s.phase[d] == Idle && Exposed(s, d).Some? ==> s.told[d] != {}
  }

  /** While a producer is at work, nobody has been told of the frame it put into the map. */
  ghost predicate Untold(s: State)
    requires s.phase.Keys == s.told.Keys
  {
    forall d :: d in s.phase && s.phase[d] != Idle ==> s.told[d] == {}
  }

  ghost predicate Inv(s: State) {
    && s.phase.Keys == s.raw.Keys == s.told.Keys
    && s.rgbas.Keys <= s.raw.Keys
    && Separate(s.raw, s.rgbas, s.nextId)
    && Announced(s)
    && Untold(s)
  }

  lemma SwapSeparate(raw: map<Display, Buffer>, rgbas: map<Display, Rgba>, nextId: nat, d: Display)
    requires Separate(raw, rgbas, nextId) && d in raw && d in rgbas
    ensures Separate(raw[d := rgbas[d].data], rgbas[d := Rgba(raw[d], true)], nextId)
  {}

  lemma InsertSeparate(raw: map<Display, Buffer>, rgbas: map<Display, Rgba>, nextId: nat, d: Display)
    requires Separate(raw, rgbas, nextId) && d in raw && d !in rgbas
    ensures Separate(raw[d := Buffer(nextId, [])], rgbas[d := Rgba(raw[d], true)], nextId + 1)
  {}

  lemma RelabelSeparate(raw: map<Display, Buffer>, rgbas: map<Display, Rgba>,
                        raw': map<Display, Buffer>, rgbas': map<Display, Rgba>, nextId: nat)
    requires Separate(raw, rgbas, nextId)
    requires raw'.Keys == raw.Keys && rgbas'.Keys <= rgbas.Keys
    requires forall d :: d in raw ==> raw'[d].id == raw[d].id
    requires forall d :: d in rgbas' ==> rgbas'[d].data.id == rgbas[d].data.id
    ensures Separate(raw', rgbas', nextId)
  {}

  lemma SeparateNext(s: State, e: Step)
    requires Inv(s) && Enabled(s, e)
    ensures var s' := Next(s, e); Separate(s'.raw, s'.rgbas, s'.nextId)
  {
    if e.Offer? {
      if e.d in s.rgbas {
        SwapSeparate(s.raw, s.rgbas, s.nextId, e.d);
      } else {
        InsertSeparate(s.raw, s.rgbas, s.nextId, e.d);
      }
    } else {
      RelabelSeparate(s.raw, s.rgbas, Next(s, e).raw, Next(s, e).rgbas, s.nextId);
    }
  }

  lemma AnnouncedNext(s: State, e: Step)
    requires Inv(s) && Enabled(s, e)
    ensures var s' := Next(s, e); s'.phase.Keys == s'.told.Keys && Announced(s')
  {
    var s' := Next(s, e);
    forall d | d in s'.phase && s'.phase[d] == Idle && Exposed(s', d).Some? ensures s'.told[d] != {} {}
  }

  lemma UntoldNext(s: State, e: Step)
    requires Inv(s) && Enabled(s, e)
    ensures var s' := Next(s, e); s'.phase.Keys == s'.told.Keys && Untold(s')
  {}

  lemma KeysNext(s: State, e: Step)
    requires Inv(s) && Enabled(s, e)
    ensures var s' := Next(s, e); s'.phase.Keys == s'.raw.Keys == s'.told.Keys && s'.rgbas.Keys <= s'.raw.Keys
  {}

  lemma NextInv(s: State, e: Step)
    requires Inv(s) && Enabled(s, e)
    ensures Inv(Next(s, e))
  {
    KeysNext(s, e);
    SeparateNext(s, e);
    AnnouncedNext(s, e);
    UntoldNext(s, e);
  }

  ghost predicate IsRun(s: State, steps: seq<Step>, t: State)
    decreases |steps|
  {
    if steps == [] then s == t
    else Enabled(s, steps[0]) && IsRun(Next(s, steps[0]), steps[1..], t)
  }

  /** The state when producers have been set up, each with its own buffer. */
  ghost predicate IsStart(s: State) {
    && s.rgbas == map[]
    && s.phase.Keys == s.raw.Keys == s.told.Keys
    && (forall d :: d in s.phase ==> s.phase[d] == Idle)
    && (forall d :: d in s.raw ==> s.raw[d].id < s.nextId)
    && (forall d, d' :: d in s.raw && d' in s.raw && s.raw[d].id == s.raw[d'].id ==> d == d')
  }

  /** Every interleaving: no buffer is ever in two places, and whenever a producer is idle a
      valid frame has been announced to some UI session. */
  lemma {:induction false} RunsKeepInv(s: State, steps: seq<Step>, t: State)
    requires IsRun(s, steps, t) && (Inv(s) || IsStart(s))
    ensures Inv(t)
    decreases |steps|
  {
    if steps != [] {
      NextInv(s, steps[0]);
      RunsKeepInv(Next(s, steps[0]), steps[1..], t);
    }
  }

  // ----- exposed bytes do not change -----

  /** Only the UI's own call, a retraction or the clearing of the map ends an exposure. */
  lemma ExposureStep(s: State, e: Step, d: Display)
    requires Inv(s) && Enabled(s, e) && Exposed(s, d).Some?
    requires e != NextRgba(d) && e != Retract(d) && e != Clear
    ensures Exposed(Next(s, e), d) == Exposed(s, d)
  {}

  /** A frame stays exposed, byte for byte, in every interleaving and wherever its producer
      stands, until the UI asks for the next one, the producer takes it back because nobody
      was told, or the map is cleared. */
  lemma {:induction false} ExposureIsStable(s: State, steps: seq<Step>, t: State, d: Display)
    requires Inv(s) && IsRun(s, steps, t) && Exposed(s, d).Some?
    requires forall i :: 0 <= i < |steps| ==> steps[i] != NextRgba(d) && steps[i] != Retract(d) && steps[i] != Clear
    ensures Exposed(t, d) == Exposed(s, d)
    decreases |steps|
  {
    if steps != [] {
      NextInv(s, steps[0]);
      ExposureStep(s, steps[0], d);
      ExposureIsStable(Next(s, steps[0]), steps[1..], t, d);
    }
  }

  /** A buffer handed out before the frame was taken back, or before the UI asked for the
      next one, keeps its bytes until the producer offers its next frame. */
  lemma {:induction false} HandedOutIsStable(s: State, steps: seq<Step>, t: State, d: Display)
    requires IsRun(s, steps, t) && d in s.rgbas
    requires forall i :: 0 <= i < |steps| ==> steps[i] != Offer(d) && steps[i] != Clear
    ensures d in t.rgbas && t.rgbas[d].data == s.rgbas[d].data
    decreases |steps|
  {
    if steps != [] {
      HandedOutIsStable(Next(s, steps[0]), steps[1..], t, d);
    }
  }

  /** No UI call and no clearing among the steps. */
  ghost predicate Unasked(steps: seq<Step>, d: Display) {
    forall i :: 0 <= i < |steps| ==> steps[i] != NextRgba(d) && steps[i] != Clear
  }

  /** `t` is reached from `s` without a call of the UI. */
  ghost predicate RunsTo(s: State, steps: seq<Step>, t: State, d: Display) {
    IsRun(s, steps, t) && Unasked(steps, d)
  }

  /** But not longer: a frame taken back gives its buffer to the producer's next offer, and
      the decoder may then write anything into it, with no call of the UI in between. */
  lemma RetractReleases(s: State, steps: seq<Step>, t: State, d: Display, bytes: seq<byte>)
    returns (steps': seq<Step>, t': State)
    requires RunsTo(s, steps, t, d) && Enabled(t, Retract(d)) && d in t.rgbas && d in t.raw
    ensures RunsTo(s, steps', t', d) && steps + [Retract(d)] <= steps'
    ensures d in t'.raw && t'.raw[d] == Buffer(t.rgbas[d].data.id, bytes)
  {
    steps', t' := Then(s, steps, t, Retract(d), d);
    steps', t' := Then(s, steps', t', Offer(d), d);
    assert t'.raw[d] == t.rgbas[d].data;
    steps', t' := FinishOffer(s, steps', t', d);
    steps', t' := Then(s, steps', t', Decode(d, bytes), d);
  }

  /** A producer with a frame in the map can always finish, alone. */
  lemma FinishOffer(s: State, steps: seq<Step>, t: State, d: Display) returns (steps': seq<Step>, t': State)
    requires RunsTo(s, steps, t, d) && d in t.phase && t.phase[d] == Swapped
    ensures RunsTo(s, steps', t', d) && steps <= steps'
    ensures d in t'.phase && t'.phase[d] == Idle && t'.raw == t.raw
  {
    steps', t' := Then(s, steps, t, Sample(d), d);
    steps', t' := Then(s, steps', t', Announce(d), d);
    if t'.phase[d] != Idle {
      steps', t' := Then(s, steps', t', Retract(d), d);
    }
  }

  lemma Then(s: State, steps: seq<Step>, t: State, e: Step, d: Display) returns (steps': seq<Step>, t': State)
    requires RunsTo(s, steps, t, d) && Enabled(t, e) && e != NextRgba(d) && e != Clear
    ensures steps' == steps + [e] && t' == Next(t, e) && RunsTo(s, steps', t', d)
  {
    steps', t' := steps + [e], Next(t, e);
    RunExtends(s, steps, t, e);
  }

  lemma {:induction false} RunExtends(s: State, steps: seq<Step>, t: State, e: Step)
    requires IsRun(s, steps, t) && Enabled(t, e)
    ensures IsRun(s, steps + [e], Next(t, e))
    decreases |steps|
  {
    var longer := steps + [e];
    if steps == [] {
      assert longer == [e];
      assert longer[1..] == [];
    } else {
      assert longer[1..] == steps[1..] + [e];
      RunExtends(Next(s, steps[0]), steps[1..], t, e);
    }
  }

  /** The producer is idle and its frame exposed. */
  ghost predicate Offered(s: State, d: Display) {
    d in s.phase && s.phase[d] == Idle && Exposed(s, d).Some? && d in s.told
  }

  lemma OfferedStep(s: State, e: Step, d: Display)
    requires Inv(s) && Enabled(s, e) && Offered(s, d)
    requires e != NextRgba(d) && e != Clear
    ensures Offered(Next(s, e), d)
    ensures Exposed(Next(s, e), d) == Exposed(s, d) && Next(s, e).told[d] == s.told[d]
  {
    ExposureStep(s, e, d);
  }

  /** A frame that has been announced stays exposed, byte for byte, in every interleaving,
      until the UI asks for the next one or the map is cleared. */
  lemma {:induction false} AnnouncedFrameIsStable(s: State, steps: seq<Step>, t: State, d: Display)
    requires Inv(s) && IsRun(s, steps, t) && Offered(s, d)
    requires forall i :: 0 <= i < |steps| ==> steps[i] != NextRgba(d) && steps[i] != Clear
    ensures Offered(t, d) && Exposed(t, d) == Exposed(s, d) && t.told[d] == s.told[d]
    decreases |steps|
  {
    if steps != [] {
      NextInv(s, steps[0]);
      OfferedStep(s, steps[0], d);
      AnnouncedFrameIsStable(Next(s, steps[0]), steps[1..], t, d);
    }
  }

  // ----- exactly when bytes handed out may change -----

  /** Some producer has the buffer `b`, with these bytes in it. */
  ghost predicate WithProducer(t: State, b: Buffer) {
    exists k :: k in t.raw && t.raw[k] == b
  }

  ghost predicate EndsWithProducer(s: State, steps: seq<Step>, t: State, d: Display, b: Buffer) {
    RunsTo(s, steps, t, d) && WithProducer(t, b)
  }

  /** Some interleaving writes `bytes` into the buffer exposed for `d`, although the UI has
      not asked for the next frame and the map has not been cleared. */
  ghost predicate MayBeOverwritten(s: State, d: Display, bytes: seq<byte>)
    requires d in s.rgbas
  {
    exists steps, t :: EndsWithProducer(s, steps, t, d, Buffer(s.rgbas[d].data.id, bytes))
  }

  /** With no UI session left, an announcement reaches nobody. */
  lemma NobodyIsTold(s: State, d: Display)
    requires Enabled(s, Announce(d)) && s.uis == map[]
    ensures var s' := Next(s, Announce(d)); s'.phase[d] == Unsent && s'.rgbas == s.rgbas && s'.raw == s.raw
  {
    assert Recipients(s.uis, s.phase[d].multi, d) == {};
  }

  /** The producer of `d` can come to find nobody to tell. */
  lemma FindNobody(s: State, d: Display) returns (steps: seq<Step>, t: State)
    requires Inv(s) && Exposed(s, d).Some? && s.told[d] == {}
    ensures RunsTo(s, steps, t, d) && Enabled(t, Retract(d)) && t.rgbas == s.rgbas && t.raw == s.raw
  {
    steps, t := [], s;
    if t.phase[d] == Swapped {
      steps, t := Then(s, steps, t, Sample(d), d);
    }
    if t.phase[d] != Unsent {
      steps, t := Then(s, steps, t, ChangeUis(map[]), d);
      NobodyIsTold(t, d);
      steps, t := Then(s, steps, t, Announce(d), d);
    }
  }

  lemma UntoldMayBeOverwritten(s: State, d: Display, bytes: seq<byte>)
    requires Inv(s) && Exposed(s, d).Some? && s.told[d] == {}
    ensures MayBeOverwritten(s, d, bytes)
  {
    var steps, t := FindNobody(s, d);
    steps, t := RetractReleases(s, steps, t, d, bytes);
    assert EndsWithProducer(s, steps, t, d, Buffer(s.rgbas[d].data.id, bytes));
  }

  lemma ToldIsNotOverwritten(s: State, d: Display, bytes: seq<byte>)
    requires Inv(s) && Exposed(s, d).Some? && s.told[d] != {}
    ensures !MayBeOverwritten(s, d, bytes)
  {
    var b := Buffer(s.rgbas[d].data.id, bytes);
    forall steps, t | RunsTo(s, steps, t, d) ensures !WithProducer(t, b) {
      AnnouncedFrameIsStable(s, steps, t, d);
      RunsKeepInv(s, steps, t);
    }
  }

  /** In every reachable state: the bytes that `get_rgba` hands out may change before the UI
      asks for the next frame, with no clearing of the map, if and only if no UI session has
      been told of the frame yet. */
  lemma OverwrittenIff(s0: State, steps: seq<Step>, s: State, d: Display, bytes: seq<byte>)
    requires IsStart(s0) && IsRun(s0, steps, s) && Exposed(s, d).Some?
    ensures d in s.told
    ensures MayBeOverwritten(s, d, bytes) <==> s.told[d] == {}
  {
    RunsKeepInv(s0, steps, s);
    if s.told[d] == {} {
      UntoldMayBeOverwritten(s, d, bytes);
    } else {
      ToldIsNotOverwritten(s, d, bytes);
    }
  }

  /** A first frame on a client without UI sessions: exposed, and not safe to read. */
  lemma FirstFrameMayBeOverwritten(bytes: seq<byte>)
    ensures var s0 := State(map[], map[], map[0 := Buffer(0, [])], map[0 := Idle], map[0 := {}], 1);
            var s := Next(s0, Offer(0));
            && IsStart(s0) && IsRun(s0, [Offer(0)], s)
            && Exposed(s, 0).Some? && MayBeOverwritten(s, 0, bytes)
  {
    var s0 := State(map[], map[], map[0 := Buffer(0, [])], map[0 := Idle], map[0 := {}], 1);
    var s := Next(s0, Offer(0));
    assert [Offer(0)][1..] == [];
    OverwrittenIff(s0, [Offer(0)], s, 0, bytes);
  }

  // ----- buffers are neither duplicated nor lost -----

  ghost function Buffers(s: State): set<nat> {
    (set d | d in s.raw :: s.raw[d].id) + set d | d in s.rgbas :: s.rgbas[d].data.id
  }

  /** A first frame of a display adds the one empty buffer it leaves with the producer;
      clearing the map drops the buffers in it; every other step only moves buffers. */
  lemma BuffersAreConserved(s: State, e: Step)
    requires Inv(s) && Enabled(s, e)
    ensures Buffers(Next(s, e)) ==
              if e.Clear? then set d | d in s.raw :: s.raw[d].id
              else if e.Offer? && e.d !in s.rgbas then Buffers(s) + {s.nextId}
              else Buffers(s)
  {
    var s' := Next(s, e);
    match e {
      case Decode(d, bytes) =>
        forall d' | d' in s.raw ensures s'.raw[d'].id == s.raw[d'].id {}
        SameBuffers(s, s');
      case Offer(d) =>
        if d in s.rgbas {
          if !s.rgbas[d].valid { SwapBuffers(s, s', d); }
        } else {
          NewBuffer(s, s', d);
        }
      case Retract(d) => SameBuffers(s, s');
      case NextRgba(d) => SameBuffers(s, s');
      case _ =>
    }
  }

  lemma SameBuffers(s: State, s': State)
    requires s.raw.Keys == s'.raw.Keys && s.rgbas.Keys == s'.rgbas.Keys
    requires forall d :: d in s.raw ==> s.raw[d].id == s'.raw[d].id
    requires forall d :: d in s.rgbas ==> s.rgbas[d].data.id == s'.rgbas[d].data.id
    ensures Buffers(s') == Buffers(s)
  {
    forall b ensures b in Buffers(s') <==> b in Buffers(s) {
      if d :| d in s.raw && s.raw[d].id == b { assert s'.raw[d].id == b; }
      if d :| d in s.rgbas && s.rgbas[d].data.id == b { assert s'.rgbas[d].data.id == b; }
      if d :| d in s'.raw && s'.raw[d].id == b { assert s.raw[d].id == b; }
      if d :| d in s'.rgbas && s'.rgbas[d].data.id == b { assert s.rgbas[d].data.id == b; }
    }
  }

  lemma SwapBuffers(s: State, s': State, d: Display)
    requires d in s.raw && d in s.rgbas
    requires s'.raw == s.raw[d := s.rgbas[d].data]
    requires s'.rgbas == s.rgbas[d := Rgba(s.raw[d], true)]
    ensures Buffers(s') == Buffers(s)
  {
    forall b ensures b in Buffers(s') <==> b in Buffers(s) {
      if k :| k in s.raw && s.raw[k].id == b {
        if k == d { assert s'.rgbas[d].data.id == b; } else { assert s'.raw[k].id == b; }
      }
      if k :| k in s.rgbas && s.rgbas[k].data.id == b {
        if k == d { assert s'.raw[d].id == b; } else { assert s'.rgbas[k].data.id == b; }
      }
      if k :| k in s'.raw && s'.raw[k].id == b {
        if k == d { assert s.rgbas[d].data.id == b; } else { assert s.raw[k].id == b; }
      }
      if k :| k in s'.rgbas && s'.rgbas[k].data.id == b {
        if k == d { assert s.raw[d].id == b; } else { assert s.rgbas[k].data.id == b; }
      }
    }
  }

  lemma NewBuffer(s: State, s': State, d: Display)
    requires d in s.raw && d !in s.rgbas
    requires s'.raw == s.raw[d := Buffer(s.nextId, [])]
    requires s'.rgbas == s.rgbas[d := Rgba(s.raw[d], true)]
    ensures Buffers(s') == Buffers(s) + {s.nextId}
  {
    forall b ensures b in Buffers(s') <==> b in Buffers(s) + {s.nextId} {
      assert s'.raw[d].id == s.nextId;
      if k :| k in s.raw && s.raw[k].id == b {
        if k == d { assert s'.rgbas[d].data.id == b; } else { assert s'.raw[k].id == b; }
      }
      if k :| k in s.rgbas && s.rgbas[k].data.id == b { assert s'.rgbas[k].data.id == b; }
      if k :| k in s'.raw && s'.raw[k].id == b {
        if k != d { assert s.raw[k].id == b; }
      }
      if k :| k in s'.rgbas && s'.rgbas[k].data.id == b {
        if k == d { assert s.raw[d].id == b; } else { assert s.rgbas[k].data.id == b; }
      }
    }
  }

  // ----- the handler as the client updates it -----

  class FlutterHandler {
    var uis: map<SessionId, Ui>
    var rgbas: map<Display, Rgba>
    var raw: map<Display, Buffer>
    ghost var phase: map<Display, Phase>
    ghost var told: map<Display, set<SessionId>>
    var nextId: nat

    ghost function Value(): State
      reads this
    {
      State(uis, rgbas, raw, phase, told, nextId)
    }

    constructor (raw: map<Display, Buffer>, nextId: nat)
      requires forall d :: d in raw ==> raw[d].id < nextId
      requires forall d, d' :: d in raw && d' in raw && raw[d].id == raw[d'].id ==> d == d'
      ensures IsStart(Value())
      ensures uis == map[] && this.raw == raw
    {
      uis, rgbas := map[], map[];
      this.raw, this.nextId := raw, nextId;
      phase := map d | d in raw :: Idle;
      told := map d | d in raw :: {};
    }

    method GetRgba(d: Display) returns (r: Option<Buffer>)
      ensures r == Exposed(Value(), d)
    {
      r := None;
      if d in rgbas {
        if rgbas[d].valid {
          r := Some(rgbas[d].data);
        }
      }
    }

    method NextRgba(d: Display)
      modifies this`rgbas
      ensures Value() == Next(old(Value()), Step.NextRgba(d))
    {
      if d in rgbas {
        rgbas := rgbas[d := rgbas[d].(valid := false)];
      }
    }

    method UpdateUseTextureRender()
      modifies this`rgbas
      ensures Value() == Next(old(Value()), Clear)
    {
      rgbas := map[];
    }

    /** The first locked section: returns whether the UI is to be told. */
    method OfferFrame(d: Display) returns (offered: bool)
      requires Enabled(Value(), Offer(d))
      modifies this
      ensures Value() == Next(old(Value()), Offer(d))
      ensures offered <==> Exposed(old(Value()), d).None?
    {
      if d in rgbas {
        if rgbas[d].valid {
          return false;
        }
        var mine := raw[d];
        raw := raw[d := rgbas[d].data];
        rgbas := rgbas[d := Rgba(mine, true)];
      } else {
        var mine := raw[d];
        raw := raw[d := Buffer(nextId, [])];
        nextId := nextId + 1;
        rgbas := rgbas[d := Rgba(mine, true)];
      }
      phase := phase[d := Swapped];
      told := told[d := {}];
      offered := true;
    }

    /** The loop over the UI sessions, in whatever order the map yields them. */
    method TellSessions(d: Display, multi: bool) returns (sent: bool, ghost to: set<SessionId>)
      ensures to == Recipients(uis, multi, d)
      ensures sent <==> Recipients(uis, multi, d) != {}
    {
      sent, to := false, {};
      var handlers := uis;
      var left := handlers.Keys;
      while left != {}
        invariant left <= handlers.Keys
        invariant forall k :: k in to <==> k in handlers && k !in left && IsTold(handlers[k], multi, d)
        invariant sent <==> to != {}
        decreases |left|
      {
        var k :| k in left;
        left := left - {k};
        var handler := handlers[k];
        if |handler.displays| > 1 {
          continue;
        }
        if multi {
          if d !in handler.displays {
            continue;
          }
        }
        if handler.stream {
          to := to + {k};
          sent := true;
        }
      }
    }

    method AnnounceFrame(d: Display, multi: bool) returns (sent: bool)
      requires d in phase && phase[d] == Sampled(multi)
      modifies this`phase, this`told
      ensures Value() == Next(old(Value()), Announce(d))
      ensures sent <==> Recipients(uis, multi, d) != {}
    {
      ghost var to;
      sent, to := TellSessions(d, multi);
      told := told[d := to];
      phase := phase[d := if sent then Idle else Unsent];
    }

    /** The whole function, when nothing comes between its sections. */
    method OnRgbaSoftRender(d: Display)
      requires Enabled(Value(), Offer(d))
      modifies this
      ensures Value() == WholeOffer(old(Value()), d)
    {
      var offered := OfferFrame(d);
      if !offered {
        return;
      }
      var multi := |uis| > 1;
      phase := phase[d := Sampled(multi)];
      var sent := AnnounceFrame(d, multi);
      if !sent {
        if d in rgbas {
          rgbas := rgbas[d := rgbas[d].(valid := false)];
        }
        phase := phase[d := Idle];
      }
    }
  }

  /** The sections of `on_rgba_soft_render`, one after the other. */
  ghost function WholeOffer(s: State, d: Display): State
    requires Enabled(s, Offer(d))
  {
    var s1 := Next(s, Offer(d));
    if Exposed(s, d).Some? then s1
    else
      var s2 := Next(s1, Sample(d));
      var s3 := Next(s2, Announce(d));
      if s3.phase[d] == Idle then s3 else Next(s3, Retract(d))
  }

  /** Undisturbed, the function leaves its producer idle and exposes the new frame exactly
      when the last one was taken and some UI session could be told. */
  lemma WholeOfferMeaning(s: State, d: Display)
    requires Inv(s) && Enabled(s, Offer(d))
    ensures var t := WholeOffer(s, d);
            && Inv(t)
            && d in t.phase && t.phase[d] == Idle
            && (Exposed(s, d).Some? ==> t == s)
            && (Exposed(s, d).None? ==>
                  Exposed(t, d) == if Recipients(s.uis, |s.uis| > 1, d) == {} then None else Some(s.raw[d]))
  {
    WholeOfferInv(s, d);
  }

  /** The UI's call for the next frame hides the last one, and lets a new one through: then,
      if some UI session can be told, what the producer has decoded is exposed. */
  lemma NextFrameGetsThrough(s: State, d: Display)
    requires Inv(s) && Enabled(s, Offer(d))
    ensures var t := Next(s, NextRgba(d));
            && Exposed(t, d) == None
            && (forall e :: e != d ==> Exposed(t, e) == Exposed(s, e))
            && Enabled(t, Offer(d))
            && (Recipients(s.uis, |s.uis| > 1, d) != {} ==> Exposed(WholeOffer(t, d), d) == Some(s.raw[d]))
  {
    NextInv(s, NextRgba(d));
    WholeOfferMeaning(Next(s, NextRgba(d)), d);
  }

  /** Who is told of a frame the undisturbed function exposes: of several UI sessions, those
      that show this display and no other and whose stream is open ... */
  lemma SeveralAreTold(s: State, d: Display, k: SessionId)
    requires Enabled(s, Offer(d)) && Exposed(s, d).None? && |s.uis| > 1
    ensures d in WholeOffer(s, d).told
    ensures k in WholeOffer(s, d).told[d] <==> k in s.uis && s.uis[k].stream && s.uis[k].displays == [d]
  {
    if k in s.uis {
      OneDisplay(s.uis[k].displays, d);
    }
  }

  /** ... and a lone one, if its stream is open and it shows one display or none. */
  lemma LoneIsTold(s: State, d: Display, k: SessionId, ui: Ui)
    requires Enabled(s, Offer(d)) && Exposed(s, d).None? && s.uis == map[k := ui]
    ensures d in WholeOffer(s, d).told
    ensures WholeOffer(s, d).told[d] == if ui.stream && |ui.displays| < 2 then {k} else {}
  {
    assert |s.uis| == 1;
  }

  lemma OneDisplay(displays: seq<Display>, d: Display)
    ensures |displays| < 2 && d in displays <==> displays == [d]
  {}

  lemma WholeOfferInv(s: State, d: Display)
    requires Inv(s) && Enabled(s, Offer(d))
    ensures Inv(WholeOffer(s, d))
  {
    NextInv(s, Offer(d));
    if Exposed(s, d).None? {
      var s1 := Next(s, Offer(d));
      NextInv(s1, Sample(d));
      var s2 := Next(s1, Sample(d));
      NextInv(s2, Announce(d));
      var s3 := Next(s2, Announce(d));
      if s3.phase[d] != Idle {
        NextInv(s3, Retract(d));
      }
    }
  }
}
