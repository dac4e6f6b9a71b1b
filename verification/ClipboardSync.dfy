/** Clipboard synchronisation between connected computers (src/clipboard.rs): reading and
    writing one clipboard, and the protocol over any network of peers. */
module ClipboardSync {
  import opened Common
  import opened ClipboardCodec

  // ----- one clipboard -----

  datatype Side = Host | Client

  function Utf8Of(s: string): Utf8
    requires forall i :: 0 <= i < |s| ==> s[i] < 128 as char
  {
    seq(|s|, i requires 0 <= i < |s| => s[i] as int)
  }

  const OWNER_FORMAT: Utf8 := Utf8Of("dyn.com.codedesk.owner")
  const EXCEL_FORMAT: Utf8 := Utf8Of("XML Spreadsheet")

  function OwnerData(side: Side): seq<byte> {
    match side
    case Host => [1]
    case Client => [2]
  }

  /** Whether either side has marked the content as its own update. */
  predicate IsOwner(data: seq<byte>) {
    |data| > 0 && data[0] % 4 != 0
  }

  predicate IsMarker(d: Data) {
    d.Special? && d.name == OWNER_FORMAT && IsOwner(d.data)
  }

  predicate Marked(content: seq<Data>) {
    exists i :: 0 <= i < |content| && IsMarker(content[i])
  }

  /** The formats asked of the system clipboard; file lists only where file copy is built in. */
  predicate IsSupported(files: bool, d: Data) {
    match d
    case Text(_) => true
    case Html(_) => true
    case Rtf(_) => true
    case Picture(_) => true
    case FileUrl(_) => files
    case Special(s, _) => s == EXCEL_FORMAT || s == OWNER_FORMAT
    case _ => false
  }

  function GetFormats(files: bool, content: seq<Data>): seq<Data> {
    if content == [] then []
    else (if IsSupported(files, content[0]) then [content[0]] else []) + GetFormats(files, content[1..])
  }

  /** The items worth sending: not the owner's mark and no empty text. */
  predicate IsPayload(d: Data) {
    match d
    case Special(s, _) => s != OWNER_FORMAT
    case Text(text) => text != []
    case _ => true
  }

  function Payload(data: seq<Data>): seq<Data> {
    if data == [] then []
    else (if IsPayload(data[0]) then [data[0]] else []) + Payload(data[1..])
  }

  predicate HasFiles(data: seq<Data>) {
    exists i :: 0 <= i < |data| && data[i].FileUrl?
  }

  function GetFiltered(files: bool, content: seq<Data>, force: bool): seq<Data> {
    var data := GetFormats(files, content);
    if !force && Marked(data) then [] else Payload(data)
  }

  /** What is read from a clipboard for sending. */
  function Get(files: bool, content: seq<Data>, force: bool): seq<Data> {
    var data := GetFiltered(files, content, force);
    if HasFiles(data) then [] else data
  }

  function CheckClipboard(lib: Library, files: bool, content: seq<Data>): Option<seq<Clipboard>> {
    var data := Get(files, content, false);
    if data == [] then None else Some(CreateMulti(lib, data))
  }

  function Owned(data: seq<Data>, side: Side): seq<Data> {
    data + [Special(OWNER_FORMAT, OwnerData(side))]
  }

  /** What a received update leaves on the clipboard. */
  function Updated(lib: Library, content: seq<Data>, update: seq<Clipboard>, side: Side): seq<Data>
    requires AllValid(update)
  {
    var data := FromMulti(lib, update);
    if data == [] then content else Owned(data, side)
  }

  lemma {:induction false} NothingReadable(lib: Library, update: seq<Clipboard>)
    requires AllValid(update) && forall i :: 0 <= i < |update| ==> FromProto(lib, update[i]) == None
    ensures FromMulti(lib, update) == []
  {
    if update != [] {
      NothingReadable(lib, update[1..]);
    }
  }

  lemma {:induction false} GetFormatsKeeps(files: bool, content: seq<Data>, d: Data)
    requires d in content && IsSupported(files, d)
    ensures d in GetFormats(files, content)
  {
    if content[0] != d {
      GetFormatsKeeps(files, content[1..], d);
    }
  }

  /** A clipboard that holds a received update has nothing to send. */
  lemma OwnedIsSilent(lib: Library, files: bool, data: seq<Data>, side: Side)
    ensures CheckClipboard(lib, files, Owned(data, side)) == None
  {
    var mark := Special(OWNER_FORMAT, OwnerData(side));
    var content := Owned(data, side);
    assert content[|data|] == mark;
    GetFormatsKeeps(files, content, mark);
    var read := GetFormats(files, content);
    var i :| 0 <= i < |read| && read[i] == mark;
    assert IsMarker(read[i]);
  }

  // ----- the clipboard as the program updates it -----

  class ClipboardContext {
    const lib: Library
    const files: bool
    const side: Side
    /** The content of the system clipboard. */
    var content: seq<Data>
    /** The last message built from it. */
    var last: seq<Clipboard>

    constructor (lib: Library, files: bool, side: Side, content: seq<Data>)
      ensures this.lib == lib && this.files == files && this.side == side
      ensures this.content == content && last == []
    {
      this.lib, this.files, this.side, this.content, this.last := lib, files, side, content, [];
    }

    method GetFormatsFilter(force: bool) returns (r: seq<Data>)
      ensures r == GetFiltered(files, content, force)
    {
      var data := GetFormats(files, content);
      if data == [] {
        return data;
      }
      if !force {
        for i := 0 to |data|
          invariant forall j :: 0 <= j < i ==> !IsMarker(data[j])
        {
          if data[i].Special? && data[i].name == OWNER_FORMAT && IsOwner(data[i].data) {
            return [];
          }
        }
      }
      r := Payload(data);
    }

    method Check() returns (msg: Option<seq<Clipboard>>)
      modifies this`last
      ensures msg == CheckClipboard(lib, files, content)
      ensures last == if msg.Some? then msg.value else old(last)
    {
      var data := GetFormatsFilter(false);
      if HasFiles(data) {
        data := [];
      }
      if data == [] {
        return None;
      }
      last := CreateMulti(lib, data);
      msg := Some(last);
    }

    method Update(update: seq<Clipboard>)
      requires AllValid(update)
      modifies this`content
      ensures content == Updated(lib, old(content), update, side)
      ensures content != old(content) ==> CheckClipboard(lib, files, content) == None
    {
      var data := FromMulti(lib, update);
      if data == [] {
        return;
      }
      content := data + [Special(OWNER_FORMAT, OwnerData(side))];
      OwnedIsSilent(lib, files, data, side);
    }
  }

  // ----- the network -----

  /** A network of machines.  A machine runs one or more agents: the host service and the
      client, each a subscriber of the machine's clipboard listener.  `home` is the machine
      of an agent, `sides` the side it plays, `links` the agents it is connected to. */
  datatype Net = Net(lib: Library, files: bool, machines: nat, home: seq<nat>, sides: seq<Side>, links: seq<set<nat>>)

  /** A message to an agent. */
  datatype Message = Message(to: nat, update: seq<Clipboard>)

  /** `clips` are the system clipboards of the machines, `pending` the change notifications
      each agent has not handled yet, `wire` the messages in flight, which arrive in any
      order. */
  datatype State = State(clips: seq<seq<Data>>, pending: seq<nat>, wire: multiset<Message>)

  /** No machine is connected to itself. */
  ghost predicate ValidNet(net: Net) {
    && |net.links| == |net.sides| == |net.home|
    && (forall k :: 0 <= k < |net.home| ==> net.home[k] < net.machines)
    && forall k :: 0 <= k < |net.links| ==>
         forall r :: r in net.links[k] ==> r < |net.home| && net.home[r] != net.home[k]
  }

  ghost predicate ValidState(net: Net, s: State) {
    && ValidNet(net)
    && |s.clips| == net.machines && |s.pending| == |net.home|
    && forall m :: m in s.wire ==> m.to < |net.home| && AllValid(m.update)
  }

  datatype Step =
    /** A user copies something on machine `p`. */
    | UserCopy(p: nat, content: seq<Data>)
    /** Agent `k` handles a notification; `to` are the connected agents it sends to. */
    | Notify(k: nat, to: set<nat>)
    /** A message arrives; `ok` is false when setting the system clipboard fails. */
    | Deliver(m: Message, ok: bool)

  ghost predicate Enabled(net: Net, s: State, e: Step)
    requires ValidState(net, s)
  {
    match e
    case UserCopy(p, _) => p < |s.clips|
    case Notify(k, to) => k < |s.pending| && s.pending[k] > 0 && to <= net.links[k]
    case Deliver(m, _) => m in s.wire
  }

  function Broadcast(to: set<nat>, update: seq<Clipboard>): set<Message> {
    set r | r in to :: Message(r, update)
  }

  /** A change on machine `p` notifies every agent there. */
  ghost function Woken(net: Net, pending: seq<nat>, p: nat): (r: seq<nat>)
    requires |pending| == |net.home|
    ensures |r| == |pending|
    ensures forall k :: 0 <= k < |r| ==> r[k] == if net.home[k] == p then pending[k] + 1 else pending[k]
  {
    seq(|pending|, k requires 0 <= k < |pending| => if net.home[k] == p then pending[k] + 1 else pending[k])
  }

  ghost function Next(net: Net, s: State, e: Step): State
    requires ValidState(net, s) && Enabled(net, s, e)
  {
    match e
    case UserCopy(p, content) =>
      s.(clips := s.clips[p := content], pending := Woken(net, s.pending, p))
    case Notify(k, to) =>
      var msg := CheckClipboard(net.lib, net.files, s.clips[net.home[k]]);
      var s' := s.(pending := s.pending[k := s.pending[k] - 1]);
      if msg.None? then s' else s'.(wire := s.wire + multiset(Broadcast(to, msg.value)))
    case Deliver(m, ok) =>
      var s' := s.(wire := s.wire - multiset{m});
      var q := net.home[m.to];
      if !ok || FromMulti(net.lib, m.update) == [] then s'
      else
        s'.(clips := s.clips[q := Updated(net.lib, s.clips[q], m.update, net.sides[m.to])],
            pending := Woken(net, s.pending, q))
  }

  ghost predicate Silent(net: Net, content: seq<Data>) {
    CheckClipboard(net.lib, net.files, content) == None
  }

  lemma NextValid(net: Net, s: State, e: Step)
    requires ValidState(net, s) && Enabled(net, s, e)
    ensures ValidState(net, Next(net, s, e))
  {
    if e.Notify? {
      MultiValid(net.lib, Get(net.files, s.clips[net.home[e.k]], false));
    }
  }

  // ----- termination -----

  /** `n * x`, by repeated addition. */
  ghost function Times(n: nat, x: nat): nat {
    if n == 0 then 0 else Times(n - 1, x) + x
  }

  lemma {:induction false} TimesSum(n: nat, m: nat, x: nat)
    ensures Times(n + m, x) == Times(n, x) + Times(m, x)
  {
    if m > 0 {
      TimesSum(n, m - 1, x);
    }
  }

  lemma {:induction false} TimesAtLeast(n: nat, x: nat)
    requires x >= 1
    ensures n <= Times(n, x)
  {
    if n > 0 {
      TimesAtLeast(n - 1, x);
    }
  }

  lemma {:induction false} TimesOne(n: nat)
    ensures Times(n, 1) == n
  {
    if n > 0 {
      TimesOne(n - 1);
    }
  }

  /** What one message may cause: itself, and a notification for every agent. */
  ghost function MessageCost(net: Net): nat {
    1 + |net.home|
  }

  /** What handling one notification may cause: itself, and from a clipboard with
      something to send also a message per connection. */
  ghost function Factor(net: Net, k: nat, content: seq<Data>): nat
    requires k < |net.links|
  {
    if Silent(net, content) then 1 else 1 + Times(|net.links[k]|, MessageCost(net))
  }

  ghost function AgentWeight(net: Net, s: State, k: nat): nat
    requires ValidState(net, s) && k < |s.pending|
  {
    Times(s.pending[k], Factor(net, k, s.clips[net.home[k]]))
  }

  ghost function Weights(net: Net, s: State): (w: seq<nat>)
    requires ValidState(net, s)
    ensures |w| == |s.pending| && forall k :: 0 <= k < |w| ==> w[k] == AgentWeight(net, s, k)
  {
    seq(|s.pending|, k requires 0 <= k < |s.pending| => AgentWeight(net, s, k))
  }

  ghost function Sum(w: seq<nat>): nat {
    if w == [] then 0 else w[0] + Sum(w[1..])
  }

  ghost function Weight(net: Net, s: State): nat
    requires ValidState(net, s)
  {
    Sum(Weights(net, s)) + Times(|s.wire|, MessageCost(net))
  }

  lemma {:induction false} SumUpdate(w: seq<nat>, p: nat, x: nat)
    requires p < |w|
    ensures Sum(w[p := x]) == Sum(w) - w[p] + x
  {
    if p == 0 {
      assert w[0 := x][1..] == w[1..];
    } else {
      assert w[p := x][1..] == w[1..][p - 1 := x];
      SumUpdate(w[1..], p - 1, x);
    }
  }

  lemma {:induction false} SumGrowsByOneEach(w: seq<nat>, w': seq<nat>)
    requires |w| == |w'| && forall k :: 0 <= k < |w| ==> w'[k] <= w[k] + 1
    ensures Sum(w') <= Sum(w) + |w|
  {
    if w != [] {
      SumGrowsByOneEach(w[1..], w'[1..]);
    }
  }

  lemma {:induction false} BroadcastSize(to: set<nat>, update: seq<Clipboard>)
    ensures |Broadcast(to, update)| == |to|
  {
    if to != {} {
      var r :| r in to;
      BroadcastSize(to - {r}, update);
      assert Broadcast(to, update) == Broadcast(to - {r}, update) + {Message(r, update)};
    }
  }

  lemma {:induction false} SubsetSize<T>(a: set<T>, b: set<T>)
    requires a <= b
    ensures |a| <= |b|
  {
    if a != {} {
      var x :| x in a;
      SubsetSize(a - {x}, b - {x});
    }
  }

  /** How many messages a notification adds at most. */
  lemma WireSize(net: Net, s: State, k: nat, to: set<nat>)
    requires ValidState(net, s) && Enabled(net, s, Notify(k, to))
    ensures var n := |Next(net, s, Notify(k, to)).wire|;
            n == |s.wire| || (!Silent(net, s.clips[net.home[k]]) && |s.wire| <= n <= |s.wire| + |net.links[k]|)
  {
    var msg := CheckClipboard(net.lib, net.files, s.clips[net.home[k]]);
    if msg.Some? {
      BroadcastSize(to, msg.value);
      SubsetSize(to, net.links[k]);
    }
  }

  lemma WireGrowth(net: Net, s: State, k: nat, to: set<nat>)
    requires ValidState(net, s) && Enabled(net, s, Notify(k, to))
    ensures Times(|Next(net, s, Notify(k, to)).wire|, MessageCost(net))
          < Times(|s.wire|, MessageCost(net)) + Factor(net, k, s.clips[net.home[k]])
  {
    WireSize(net, s, k, to);
    var added := |Next(net, s, Notify(k, to)).wire| - |s.wire|;
    if added > 0 {
      TimesSum(|s.wire|, added, MessageCost(net));
      TimesSum(added, |net.links[k]| - added, MessageCost(net));
    }
  }

  lemma NotifyWeights(net: Net, s: State, s': State, k: nat)
    requires ValidState(net, s) && ValidState(net, s') && k < |s.pending| && s.pending[k] > 0
    requires s'.clips == s.clips && s'.pending == s.pending[k := s.pending[k] - 1]
    ensures Sum(Weights(net, s')) == Sum(Weights(net, s)) - Factor(net, k, s.clips[net.home[k]])
  {
    var f := Factor(net, k, s.clips[net.home[k]]);
    var w := Weights(net, s);
    assert Weights(net, s') == w[k := Times(s.pending[k] - 1, f)];
    SumUpdate(w, k, Times(s.pending[k] - 1, f));
  }

  lemma NotifyEffect(net: Net, s: State, k: nat, to: set<nat>)
    requires ValidState(net, s) && Enabled(net, s, Notify(k, to))
    ensures var s' := Next(net, s, Notify(k, to));
            s'.clips == s.clips && s'.pending == s.pending[k := s.pending[k] - 1]
  {}

  lemma NotifyDecreases(net: Net, s: State, k: nat, to: set<nat>)
    requires ValidState(net, s) && Enabled(net, s, Notify(k, to))
    ensures ValidState(net, Next(net, s, Notify(k, to)))
    ensures Weight(net, Next(net, s, Notify(k, to))) < Weight(net, s)
  {
    NextValid(net, s, Notify(k, to));
    NotifyEffect(net, s, k, to);
    NotifyWeights(net, s, Next(net, s, Notify(k, to)), k);
    WireGrowth(net, s, k, to);
  }

  lemma DeliveryIsSilent(net: Net, k: nat, data: seq<Data>, side: Side)
    requires k < |net.links|
    ensures Factor(net, k, Owned(data, side)) == 1
  {
    OwnedIsSilent(net.lib, net.files, data, side);
  }

  lemma DeliveryEffect(net: Net, s: State, m: Message, data: seq<Data>)
    requires ValidState(net, s) && m in s.wire
    requires FromMulti(net.lib, m.update) == data != []
    ensures var s' := Next(net, s, Deliver(m, true));
            && s'.clips == s.clips[net.home[m.to] := Owned(data, net.sides[m.to])]
            && s'.pending == Woken(net, s.pending, net.home[m.to])
            && s'.wire == s.wire - multiset{m}
  {}

  /** A delivery that fails, or has nothing readable, leaves every clipboard as it is and
      notifies nobody. */
  lemma FailedDelivery(net: Net, s: State, m: Message, ok: bool)
    requires ValidState(net, s) && m in s.wire
    requires !ok || forall i :: 0 <= i < |m.update| ==> FromProto(net.lib, m.update[i]) == None
    ensures Next(net, s, Deliver(m, ok)) == s.(wire := s.wire - multiset{m})
  {
    if ok {
      NothingReadable(net.lib, m.update);
    }
  }

  /** One clipboard replaced by a received update: no agent's weight grows by more than the
      notification it gets. */
  lemma UpdateWeights(net: Net, s: State, s': State, q: nat, data: seq<Data>, side: Side)
    requires ValidState(net, s) && ValidState(net, s') && q < |s.clips|
    requires s'.clips == s.clips[q := Owned(data, side)] && s'.pending == Woken(net, s.pending, q)
    ensures Sum(Weights(net, s')) <= Sum(Weights(net, s)) + |net.home|
  {
    forall k | 0 <= k < |s.pending| ensures Weights(net, s')[k] <= Weights(net, s)[k] + 1 {
      DeliveryIsSilent(net, k, data, side);
      TimesOne(Woken(net, s.pending, q)[k]);
      TimesAtLeast(s.pending[k], Factor(net, k, s.clips[net.home[k]]));
    }
    SumGrowsByOneEach(Weights(net, s), Weights(net, s'));
  }

  lemma WireShrinks(net: Net, s: State, m: Message, ok: bool)
    requires ValidState(net, s) && Enabled(net, s, Deliver(m, ok))
    ensures Times(|Next(net, s, Deliver(m, ok)).wire|, MessageCost(net))
         == Times(|s.wire|, MessageCost(net)) - MessageCost(net)
  {
    assert |s.wire - multiset{m}| == |s.wire| - 1;
  }

  lemma DeliverDecreases(net: Net, s: State, m: Message, ok: bool)
    requires ValidState(net, s) && Enabled(net, s, Deliver(m, ok))
    ensures ValidState(net, Next(net, s, Deliver(m, ok)))
    ensures Weight(net, Next(net, s, Deliver(m, ok))) < Weight(net, s)
  {
    var s' := Next(net, s, Deliver(m, ok));
    NextValid(net, s, Deliver(m, ok));
    WireShrinks(net, s, m, ok);
    if ok && FromMulti(net.lib, m.update) != [] {
      DeliveryEffect(net, s, m, FromMulti(net.lib, m.update));
      UpdateWeights(net, s, s', net.home[m.to], FromMulti(net.lib, m.update), net.sides[m.to]);
    } else {
      assert Weights(net, s') == Weights(net, s);
    }
  }

  ghost predicate IsRun(net: Net, s: State, steps: seq<Step>, t: State)
    decreases |steps|
  {
    && ValidState(net, s)
    && if steps == [] then s == t
       else Enabled(net, s, steps[0]) && IsRun(net, Next(net, s, steps[0]), steps[1..], t)
  }

  lemma StepDecreases(net: Net, s: State, e: Step)
    requires ValidState(net, s) && Enabled(net, s, e) && !e.UserCopy?
    ensures ValidState(net, Next(net, s, e)) && Weight(net, Next(net, s, e)) < Weight(net, s)
  {
    match e {
      case Notify(k, to) => NotifyDecreases(net, s, k, to);
      case Deliver(m, ok) => DeliverDecreases(net, s, m, ok);
    }
  }

  /** Once users stop copying, every interleaving of notifications and deliveries on every
      network comes to an end, after a number of steps known from the start. */
  lemma {:induction false} RunsTerminate(net: Net, s: State, steps: seq<Step>, t: State)
    requires IsRun(net, s, steps, t)
    requires forall i :: 0 <= i < |steps| ==> !steps[i].UserCopy?
    ensures ValidState(net, t)
    ensures |steps| + Weight(net, t) <= Weight(net, s)
    decreases |steps|
  {
    if steps != [] {
      StepDecreases(net, s, steps[0]);
      RunsTerminate(net, Next(net, s, steps[0]), steps[1..], t);
    }
  }

  // ----- no received update is ever sent on -----

  /** A run with its past: what users have put on which clipboard, and what was sent from
      which machine. */
  datatype History = History(s: State, copies: set<(nat, seq<Data>)>, sent: seq<(nat, seq<Clipboard>)>)

  ghost predicate IsStart(net: Net, h: History) {
    && ValidState(net, h.s)
    && h.s.wire == multiset{}
    && h.sent == []
    && forall p :: 0 <= p < |h.s.clips| ==> (p, h.s.clips[p]) in h.copies
  }

  ghost function Record(net: Net, h: History, e: Step): History
    requires ValidState(net, h.s) && Enabled(net, h.s, e)
  {
    History(
      Next(net, h.s, e),
      if e.UserCopy? then h.copies + {(e.p, e.content)} else h.copies,
      if e.Notify? && !Silent(net, h.s.clips[net.home[e.k]])
        then h.sent + [(net.home[e.k], CheckClipboard(net.lib, net.files, h.s.clips[net.home[e.k]]).value)]
        else h.sent)
  }

  ghost predicate IsHistory(net: Net, h: History, steps: seq<Step>, h': History)
    decreases |steps|
  {
    && ValidState(net, h.s)
    && if steps == [] then h == h'
       else Enabled(net, h.s, steps[0]) && IsHistory(net, Record(net, h, steps[0]), steps[1..], h')
  }

  /** `update` is what some user put on the clipboard of machine `p`. */
  ghost predicate CopiedAt(net: Net, h: History, p: nat, update: seq<Clipboard>) {
    exists content :: (p, content) in h.copies && CheckClipboard(net.lib, net.files, content) == Some(update)
  }

  ghost predicate OnlyUserContent(net: Net, h: History) {
    && ValidState(net, h.s)
    && (forall p :: 0 <= p < |h.s.clips| ==> Silent(net, h.s.clips[p]) || (p, h.s.clips[p]) in h.copies)
    && (forall i :: 0 <= i < |h.sent| ==> CopiedAt(net, h, h.sent[i].0, h.sent[i].1))
    && (forall m :: m in h.s.wire ==> exists i :: 0 <= i < |h.sent| && h.sent[i].1 == m.update)
  }

  lemma CopiedAtKept(net: Net, h: History, h': History, p: nat, update: seq<Clipboard>)
    requires CopiedAt(net, h, p, update) && h.copies <= h'.copies
    ensures CopiedAt(net, h', p, update)
  {
    var content :| (p, content) in h.copies && CheckClipboard(net.lib, net.files, content) == Some(update);
    assert (p, content) in h'.copies;
  }

  lemma SentKeeps(net: Net, h: History, e: Step)
    requires OnlyUserContent(net, h) && Enabled(net, h.s, e)
    ensures var h' := Record(net, h, e);
            forall i :: 0 <= i < |h'.sent| ==> CopiedAt(net, h', h'.sent[i].0, h'.sent[i].1)
  {
    var h' := Record(net, h, e);
    forall i | 0 <= i < |h'.sent| ensures CopiedAt(net, h', h'.sent[i].0, h'.sent[i].1) {
      if i < |h.sent| {
        CopiedAtKept(net, h, h', h.sent[i].0, h.sent[i].1);
      } else {
        assert (net.home[e.k], h.s.clips[net.home[e.k]]) in h'.copies;
      }
    }
  }

  /** Only a notification puts a message on the wire: the one it makes of the clipboard. */
  lemma NewOnWire(net: Net, s: State, e: Step, m: Message)
    requires ValidState(net, s) && Enabled(net, s, e) && m in Next(net, s, e).wire && m !in s.wire
    ensures e.Notify? && CheckClipboard(net.lib, net.files, s.clips[net.home[e.k]]) == Some(m.update)
  {}

  lemma WireKeeps(net: Net, h: History, e: Step, m: Message)
    requires OnlyUserContent(net, h) && Enabled(net, h.s, e) && m in Next(net, h.s, e).wire
    ensures var h' := Record(net, h, e); exists i :: 0 <= i < |h'.sent| && h'.sent[i].1 == m.update
  {
    var h' := Record(net, h, e);
    if m in h.s.wire {
      var i :| 0 <= i < |h.sent| && h.sent[i].1 == m.update;
      assert h'.sent[i].1 == m.update;
    } else {
      NewOnWire(net, h.s, e, m);
      assert h'.sent[|h.sent|].1 == m.update;
    }
  }

  lemma ClipsKeep(net: Net, h: History, e: Step, p: nat)
    requires OnlyUserContent(net, h) && Enabled(net, h.s, e) && p < |h.s.clips|
    ensures var h' := Record(net, h, e); Silent(net, h'.s.clips[p]) || (p, h'.s.clips[p]) in h'.copies
  {
    if e.Deliver? && e.ok && FromMulti(net.lib, e.m.update) != [] {
      OwnedIsSilent(net.lib, net.files, FromMulti(net.lib, e.m.update), net.sides[e.m.to]);
    }
  }

  lemma RecordKeeps(net: Net, h: History, e: Step)
    requires OnlyUserContent(net, h) && Enabled(net, h.s, e)
    ensures OnlyUserContent(net, Record(net, h, e))
  {
    var h' := Record(net, h, e);
    NextValid(net, h.s, e);
    SentKeeps(net, h, e);
    forall m | m in h'.s.wire ensures exists i :: 0 <= i < |h'.sent| && h'.sent[i].1 == m.update {
      WireKeeps(net, h, e, m);
    }
    forall p | 0 <= p < |h'.s.clips| ensures Silent(net, h'.s.clips[p]) || (p, h'.s.clips[p]) in h'.copies {
      ClipsKeep(net, h, e, p);
    }
  }

  lemma {:induction false} HistoryKeeps(net: Net, h: History, steps: seq<Step>, h': History)
    requires IsHistory(net, h, steps, h') && OnlyUserContent(net, h)
    ensures OnlyUserContent(net, h')
    decreases |steps|
  {
    if steps != [] {
      RecordKeeps(net, h, steps[0]);
      HistoryKeeps(net, Record(net, h, steps[0]), steps[1..], h');
    }
  }

  /** In every run on every network, whatever was sent, and whatever is in flight, is
      something a user put on the sender's own clipboard, and a clipboard with something to
      send holds what its user put there: no machine passes on or returns a received update. */
  lemma NoEcho(net: Net, h: History, steps: seq<Step>, h': History)
    requires IsStart(net, h) && IsHistory(net, h, steps, h')
    ensures OnlyUserContent(net, h')
  {
    HistoryKeeps(net, h, steps, h');
  }

  // ----- one copy reaches every connected machine -----

  ghost predicate Quiescent(s: State) {
    s.wire == multiset{} && forall k :: 0 <= k < |s.pending| ==> s.pending[k] == 0
  }

  /** Steps in which nothing fails: every connected agent is sent to, every update is set. */
  ghost predicate Reliable(net: Net, e: Step) {
    match e
    case UserCopy(_, _) => false
    case Notify(k, to) => k < |net.links| && to == net.links[k]
    case Deliver(_, ok) => ok
  }

  ghost predicate AllReliable(net: Net, steps: seq<Step>) {
    forall i :: 0 <= i < |steps| ==> Reliable(net, steps[i])
  }

  /** A network that is not quiescent can go on without a failure. */
  lemma CanGoOn(net: Net, s: State) returns (e: Step)
    requires ValidState(net, s) && !Quiescent(s)
    ensures Enabled(net, s, e) && Reliable(net, e)
  {
    if s.wire != multiset{} {
      var m :| m in s.wire;
      e := Deliver(m, true);
    } else {
      var k :| 0 <= k < |s.pending| && s.pending[k] != 0;
      e := Notify(k, net.links[k]);
    }
  }

  /** So from every state some run without failures, and without a further copy, is
      complete. */
  lemma {:induction false} SomeRunCompletes(net: Net, s: State) returns (steps: seq<Step>, t: State)
    requires ValidState(net, s)
    ensures IsRun(net, s, steps, t) && AllReliable(net, steps) && Quiescent(t)
    decreases Weight(net, s)
  {
    if Quiescent(s) {
      return [], s;
    }
    var e := CanGoOn(net, s);
    StepDecreases(net, s, e);
    var more;
    more, t := SomeRunCompletes(net, Next(net, s, e));
    steps := [e] + more;
    assert steps[1..] == more;
  }

  /** A copy whose content the messages can carry. */
  ghost predicate Sendable(net: Net, content: seq<Data>) {
    var data := Get(net.files, content, false);
    && data != []
    && forall i :: 0 <= i < |data| ==>
         WellTyped(net.lib, data[i]) && LosslessFor(net.lib, data[i]) && Carried(net.lib, data[i])
  }

  /** Some agent of machine `p` is connected to agent `r`. */
  ghost predicate IsTarget(net: Net, p: nat, r: nat)
    requires ValidNet(net)
  {
    exists k :: 0 <= k < |net.links| && net.home[k] == p && r in net.links[k]
  }

  /** Machine `q` holds `data` as one of its agents connected to machine `p` set it. */
  ghost predicate Holds(net: Net, p: nat, data: seq<Data>, s: State, q: nat)
    requires ValidState(net, s)
  {
    && q < |s.clips|
    && exists r :: 0 <= r < |net.home| && IsTarget(net, p, r) && net.home[r] == q
                   && s.clips[q] == Owned(data, net.sides[r])
  }

  /** Nothing has happened to machine `q`. */
  ghost predicate Untouched(net: Net, s0: State, s: State, q: nat)
    requires ValidState(net, s0) && ValidState(net, s) && q < |s.clips|
  {
    s.clips[q] == s0.clips[q] && forall k :: 0 <= k < |s.pending| && net.home[k] == q ==> s.pending[k] == 0
  }

  /** The message to `r` is in flight, or its machine holds the data. */
  ghost predicate OnItsWay(net: Net, p: nat, data: seq<Data>, s: State, r: nat)
    requires ValidState(net, s) && r < |net.home|
  {
    Message(r, CreateMulti(net.lib, data)) in s.wire || Holds(net, p, data, s, net.home[r])
  }

  ghost predicate Spreading(net: Net, s0: State, p: nat, content: seq<Data>, s: State)
    requires ValidState(net, s0) && p < |s0.clips|
  {
    var data := Get(net.files, content, false);
    && ValidState(net, s)
    && s.clips[p] == content
    && (forall m :: m in s.wire ==> m.update == CreateMulti(net.lib, data) && IsTarget(net, p, m.to))
    && (forall q :: 0 <= q < |s.clips| && q != p ==> Holds(net, p, data, s, q) || Untouched(net, s0, s, q))
    && (forall k, r :: 0 <= k < |s.pending| && net.home[k] == p && s.pending[k] == 0 && r in net.links[k] ==>
          OnItsWay(net, p, data, s, r))
  }

  lemma SendableArrives(net: Net, content: seq<Data>)
    requires Sendable(net, content)
    ensures var data := Get(net.files, content, false);
            AllValid(CreateMulti(net.lib, data)) && FromMulti(net.lib, CreateMulti(net.lib, data)) == data != []
  {
    var data := Get(net.files, content, false);
    MultiValid(net.lib, data);
    MultiRoundTrip(net.lib, data);
  }

  lemma HoldsKept(net: Net, p: nat, data: seq<Data>, s: State, s': State, q: nat)
    requires ValidState(net, s) && ValidState(net, s') && Holds(net, p, data, s, q)
    requires s'.clips[q] == s.clips[q]
    ensures Holds(net, p, data, s', q)
  {}

  lemma OnItsWayKept(net: Net, p: nat, data: seq<Data>, s: State, s': State, r: nat)
    requires ValidState(net, s) && ValidState(net, s') && r < |net.home| && OnItsWay(net, p, data, s, r)
    requires s'.clips == s.clips && s.wire <= s'.wire
    ensures OnItsWay(net, p, data, s', r)
  {
    if Holds(net, p, data, s, net.home[r]) {
      HoldsKept(net, p, data, s, s', net.home[r]);
    } else {
      assert Message(r, CreateMulti(net.lib, data)) in s'.wire;
    }
  }

  /** A notification leaves the other machines as they are. */
  lemma OthersKept(net: Net, s0: State, p: nat, data: seq<Data>, s: State, s': State, k: nat, q: nat)
    requires ValidState(net, s0) && ValidState(net, s) && ValidState(net, s')
    requires s'.clips == s.clips && k < |s.pending| && s.pending[k] > 0
    requires s'.pending == s.pending[k := s.pending[k] - 1]
    requires q < |s.clips| && (Holds(net, p, data, s, q) || Untouched(net, s0, s, q))
    ensures Holds(net, p, data, s', q) || Untouched(net, s0, s', q)
  {
    if Holds(net, p, data, s, q) {
      HoldsKept(net, p, data, s, s', q);
    }
  }

  lemma SentMessages(net: Net, s: State, k: nat, update: seq<Clipboard>)
    requires ValidState(net, s) && k < |net.links| && Enabled(net, s, Notify(k, net.links[k]))
    requires CheckClipboard(net.lib, net.files, s.clips[net.home[k]]) == Some(update)
    ensures var s' := Next(net, s, Notify(k, net.links[k]));
            && s.wire <= s'.wire
            && (forall r :: r in net.links[k] ==> Message(r, update) in s'.wire)
            && (forall m :: m in s'.wire ==> m in s.wire || (m.update == update && m.to in net.links[k]))
  {
    forall r | r in net.links[k] ensures Message(r, update) in Broadcast(net.links[k], update) {}
  }

  /** An agent of the copying machine sends. */
  lemma CopyIsSent(net: Net, s0: State, p: nat, content: seq<Data>, s: State, k: nat)
    requires ValidState(net, s0) && p < |s0.clips| && Sendable(net, content)
    requires Spreading(net, s0, p, content, s)
    requires k < |net.links| && Enabled(net, s, Notify(k, net.links[k])) && net.home[k] == p
    ensures Spreading(net, s0, p, content, Next(net, s, Notify(k, net.links[k])))
  {
    var s' := Next(net, s, Notify(k, net.links[k]));
    var data := Get(net.files, content, false);
    NextValid(net, s, Notify(k, net.links[k]));
    NotifyEffect(net, s, k, net.links[k]);
    SentMessages(net, s, k, CreateMulti(net.lib, data));
    forall q | 0 <= q < |s'.clips| && q != p ensures Holds(net, p, data, s', q) || Untouched(net, s0, s', q) {
      OthersKept(net, s0, p, data, s, s', k, q);
    }
    forall j, r | 0 <= j < |s'.pending| && net.home[j] == p && s'.pending[j] == 0 && r in net.links[j]
      ensures OnItsWay(net, p, data, s', r)
    {
      if j != k {
        OnItsWayKept(net, p, data, s, s', r);
      }
    }
  }

  /** An agent of another machine has nothing to send. */
  lemma ReceiverIsQuiet(net: Net, s0: State, p: nat, content: seq<Data>, s: State, k: nat, to: set<nat>)
    requires ValidState(net, s0) && p < |s0.clips|
    requires Spreading(net, s0, p, content, s) && Enabled(net, s, Notify(k, to)) && net.home[k] != p
    ensures Spreading(net, s0, p, content, Next(net, s, Notify(k, to)))
  {
    var s' := Next(net, s, Notify(k, to));
    var data := Get(net.files, content, false);
    NextValid(net, s, Notify(k, to));
    assert Holds(net, p, data, s, net.home[k]);
    var r0 :| 0 <= r0 < |net.home| && s.clips[net.home[k]] == Owned(data, net.sides[r0]);
    OwnedIsSilent(net.lib, net.files, data, net.sides[r0]);
    assert s' == s.(pending := s.pending[k := s.pending[k] - 1]);
    forall q | 0 <= q < |s'.clips| && q != p ensures Holds(net, p, data, s', q) || Untouched(net, s0, s', q) {
      OthersKept(net, s0, p, data, s, s', k, q);
    }
    forall j, r | 0 <= j < |s'.pending| && net.home[j] == p && s'.pending[j] == 0 && r in net.links[j]
      ensures OnItsWay(net, p, data, s', r)
    {
      OnItsWayKept(net, p, data, s, s', r);
    }
  }

  lemma TargetIsElsewhere(net: Net, p: nat, r: nat)
    requires ValidNet(net) && IsTarget(net, p, r)
    ensures r < |net.home| && net.home[r] != p
  {}

  lemma HeldAfterDelivery(net: Net, p: nat, data: seq<Data>, s: State, m: Message, s': State, q: nat)
    requires ValidState(net, s) && ValidState(net, s') && m in s.wire && IsTarget(net, p, m.to)
    requires s'.clips == s.clips[net.home[m.to] := Owned(data, net.sides[m.to])]
    requires Holds(net, p, data, s, q) || q == net.home[m.to]
    ensures Holds(net, p, data, s', q)
  {
    if q == net.home[m.to] {
      assert s'.clips[q] == Owned(data, net.sides[m.to]);
    } else {
      HoldsKept(net, p, data, s, s', q);
    }
  }

  lemma OnItsWayAfterDelivery(net: Net, p: nat, data: seq<Data>, s: State, m: Message, s': State, r: nat)
    requires ValidState(net, s) && ValidState(net, s') && m in s.wire && IsTarget(net, p, m.to)
    requires s'.clips == s.clips[net.home[m.to] := Owned(data, net.sides[m.to])]
    requires s'.wire == s.wire - multiset{m}
    requires r < |net.home| && OnItsWay(net, p, data, s, r)
    ensures OnItsWay(net, p, data, s', r)
  {
    if Holds(net, p, data, s, net.home[r]) || r == m.to {
      HeldAfterDelivery(net, p, data, s, m, s', net.home[r]);
    } else {
      assert Message(r, CreateMulti(net.lib, data)) != m;
    }
  }

  lemma OthersAfterDelivery(net: Net, s0: State, p: nat, data: seq<Data>, s: State, m: Message, s': State, q: nat)
    requires ValidState(net, s0) && ValidState(net, s) && ValidState(net, s')
    requires m in s.wire && IsTarget(net, p, m.to)
    requires s'.clips == s.clips[net.home[m.to] := Owned(data, net.sides[m.to])]
    requires s'.pending == Woken(net, s.pending, net.home[m.to])
    requires q < |s.clips| && (Holds(net, p, data, s, q) || Untouched(net, s0, s, q))
    ensures Holds(net, p, data, s', q) || Untouched(net, s0, s', q)
  {
    if Holds(net, p, data, s, q) || q == net.home[m.to] {
      HeldAfterDelivery(net, p, data, s, m, s', q);
    }
  }

  lemma CopyArrives(net: Net, s0: State, p: nat, content: seq<Data>, s: State, m: Message)
    requires ValidState(net, s0) && p < |s0.clips| && Sendable(net, content)
    requires Spreading(net, s0, p, content, s) && m in s.wire
    ensures Spreading(net, s0, p, content, Next(net, s, Deliver(m, true)))
  {
    var s' := Next(net, s, Deliver(m, true));
    var data := Get(net.files, content, false);
    SendableArrives(net, content);
    NextValid(net, s, Deliver(m, true));
    DeliveryEffect(net, s, m, data);
    TargetIsElsewhere(net, p, m.to);
    forall q | 0 <= q < |s'.clips| && q != p ensures Holds(net, p, data, s', q) || Untouched(net, s0, s', q) {
      OthersAfterDelivery(net, s0, p, data, s, m, s', q);
    }
    forall j, r | 0 <= j < |s'.pending| && net.home[j] == p && s'.pending[j] == 0 && r in net.links[j]
      ensures OnItsWay(net, p, data, s', r)
    {
      OnItsWayAfterDelivery(net, p, data, s, m, s', r);
    }
  }

  lemma SpreadingStep(net: Net, s0: State, p: nat, content: seq<Data>, s: State, e: Step)
    requires ValidState(net, s0) && p < |s0.clips| && Sendable(net, content)
    requires Spreading(net, s0, p, content, s)
    requires ValidState(net, s) && Enabled(net, s, e) && Reliable(net, e)
    ensures Spreading(net, s0, p, content, Next(net, s, e))
  {
    match e {
      case Notify(k, to) =>
        if net.home[k] == p {
          CopyIsSent(net, s0, p, content, s, k);
        } else {
          ReceiverIsQuiet(net, s0, p, content, s, k, to);
        }
      case Deliver(m, _) => CopyArrives(net, s0, p, content, s, m);
    }
  }

  lemma {:induction false} SpreadingRun(net: Net, s0: State, p: nat, content: seq<Data>,
                                        s: State, steps: seq<Step>, t: State)
    requires ValidState(net, s0) && p < |s0.clips| && Sendable(net, content)
    requires Spreading(net, s0, p, content, s)
    requires IsRun(net, s, steps, t) && AllReliable(net, steps)
    ensures Spreading(net, s0, p, content, t)
    decreases |steps|
  {
    if steps != [] {
      SpreadingStep(net, s0, p, content, s, steps[0]);
      SpreadingRun(net, s0, p, content, Next(net, s, steps[0]), steps[1..], t);
    }
  }

  /** From a quiescent network, one copy of sendable content on machine `p` leads every
      complete run without failures to the same end: every connected machine holds the same
      data (with the owner's mark of an agent connected to `p`), and no other clipboard has
      changed. */
  lemma CopyReachesEveryone(net: Net, s0: State, p: nat, content: seq<Data>, steps: seq<Step>, t: State)
    requires ValidState(net, s0) && Quiescent(s0) && p < |s0.clips| && Sendable(net, content)
    requires IsRun(net, Next(net, s0, UserCopy(p, content)), steps, t)
    requires AllReliable(net, steps) && Quiescent(t)
    ensures ValidState(net, t)
    ensures t.clips[p] == content
    ensures forall r :: 0 <= r < |net.home| && IsTarget(net, p, r) ==>
              Holds(net, p, Get(net.files, content, false), t, net.home[r])
    ensures forall q :: 0 <= q < |t.clips| && q != p && Unconnected(net, p, q) ==> t.clips[q] == s0.clips[q]
  {
    var s := Next(net, s0, UserCopy(p, content));
    NextValid(net, s0, UserCopy(p, content));
    CopyStarts(net, s0, p, content);
    SpreadingRun(net, s0, p, content, s, steps, t);
    AllArrived(net, s0, p, content, t);
  }

  /** No agent of `p` is connected to machine `q`. */
  ghost predicate Unconnected(net: Net, p: nat, q: nat)
    requires ValidNet(net)
  {
    forall r :: 0 <= r < |net.home| && IsTarget(net, p, r) ==> net.home[r] != q
  }

  lemma AllArrived(net: Net, s0: State, p: nat, content: seq<Data>, t: State)
    requires ValidState(net, s0) && p < |s0.clips|
    requires Spreading(net, s0, p, content, t) && Quiescent(t)
    ensures forall r :: 0 <= r < |net.home| && IsTarget(net, p, r) ==>
              Holds(net, p, Get(net.files, content, false), t, net.home[r])
    ensures forall q :: 0 <= q < |t.clips| && q != p && Unconnected(net, p, q) ==> t.clips[q] == s0.clips[q]
  {
    var data := Get(net.files, content, false);
    forall r | 0 <= r < |net.home| && IsTarget(net, p, r) ensures Holds(net, p, data, t, net.home[r]) {
      var k :| 0 <= k < |net.links| && net.home[k] == p && r in net.links[k];
      assert OnItsWay(net, p, data, t, r);
    }
    forall q | 0 <= q < |t.clips| && q != p && Unconnected(net, p, q) ensures t.clips[q] == s0.clips[q] {
      assert Holds(net, p, data, t, q) || Untouched(net, s0, t, q);
    }
  }

  lemma CopyStarts(net: Net, s0: State, p: nat, content: seq<Data>)
    requires ValidState(net, s0) && Quiescent(s0) && p < |s0.clips|
    ensures Spreading(net, s0, p, content, Next(net, s0, UserCopy(p, content)))
  {
    var s := Next(net, s0, UserCopy(p, content));
    NextValid(net, s0, UserCopy(p, content));
    forall q | 0 <= q < |s.clips| && q != p ensures Untouched(net, s0, s, q) {}
  }
}
