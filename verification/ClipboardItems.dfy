/** Which items of a clipboard are synchronised, and what that means for the protocol: the
    results of ClipboardSync.dfy by the items a user copies. */
module ClipboardItems {
  import opened Common
  import opened ClipboardCodec
  import opened ClipboardSync

  // ----- which items are read -----

  /** The kinds of items that are synchronised. */
  ghost predicate IsSynced(d: Data) {
    || (d.Text? && d.text != [])
    || d.Html?
    || d.Rtf?
    || (d.Picture? && (d.image.Rgba? || d.image.Png? || d.image.Svg?))
    || (d.Special? && d.name == Utf8Of("XML Spreadsheet"))
  }

  /** Some item says that an update of either side is on the clipboard. */
  ghost predicate SaysOwned(content: seq<Data>) {
    exists i, b, more :: 0 <= i < |content| && SaysOwnedAt(content[i], b, more)
  }

  ghost predicate SaysOwnedAt(d: Data, b: byte, more: seq<byte>) {
    d == Special(Utf8Of("dyn.com.codedesk.owner"), [b] + more) && b % 4 != 0
  }

  ghost predicate Increasing(at: seq<nat>) {
    forall k, l :: 0 <= k < l < |at| ==> at[k] < at[l]
  }

  /** Exactly the places of `content` that `wanted` holds of are in `at`. */
  ghost predicate Places(content: seq<Data>, wanted: Data -> bool, at: seq<nat>) {
    && (forall k :: 0 <= k < |at| ==> at[k] < |content| && wanted(content[at[k]]))
    && (forall i :: 0 <= i < |content| && wanted(content[i]) ==> i in at)
  }

  /** `at` are the places of `content`, in order, that `wanted` holds of, and `data` what
      stands there. */
  ghost predicate Selects(content: seq<Data>, wanted: Data -> bool, at: seq<nat>, data: seq<Data>) {
    && Increasing(at) && Places(content, wanted, at)
    && |data| == |at| && forall k :: 0 <= k < |at| ==> data[k] == content[at[k]]
  }

  /** The items that are read: the synchronised kinds, and file lists where they are built in. */
  ghost function Wanted(files: bool): Data -> bool {
    d => IsSynced(d) || (files && d.FileUrl?)
  }

  ghost function Shifted(at: seq<nat>): (r: seq<nat>)
    ensures |r| == |at| && forall k :: 0 <= k < |at| ==> r[k] == at[k] + 1
  {
    seq(|at|, k requires 0 <= k < |at| => at[k] + 1)
  }

  /** The places behind one more item in front. */
  lemma PlacesShift(content: seq<Data>, wanted: Data -> bool, at: seq<nat>)
    requires content != [] && Places(content[1..], wanted, at)
    ensures forall k :: 0 <= k < |at| ==> Shifted(at)[k] < |content| && wanted(content[Shifted(at)[k]])
    ensures forall i :: 1 <= i < |content| && wanted(content[i]) ==> i in Shifted(at)
  {
    forall i | 1 <= i < |content| && wanted(content[i]) ensures i in Shifted(at) {
      assert content[i] == content[1..][i - 1];
      assert i - 1 in at;
      var k :| 0 <= k < |at| && at[k] == i - 1;
      assert Shifted(at)[k] == i;
    }
  }

  /** One more item in front that is not wanted ... */
  lemma SelectsSkip(content: seq<Data>, wanted: Data -> bool, at: seq<nat>, data: seq<Data>)
    requires content != [] && Selects(content[1..], wanted, at, data) && !wanted(content[0])
    ensures Selects(content, wanted, Shifted(at), data)
  {
    PlacesShift(content, wanted, at);
  }

  lemma PlacesTake(content: seq<Data>, wanted: Data -> bool, at: seq<nat>)
    requires content != [] && Places(content[1..], wanted, at) && wanted(content[0])
    ensures Places(content, wanted, [0] + Shifted(at))
  {
    var all := [0] + Shifted(at);
    PlacesShift(content, wanted, at);
    forall i | 0 <= i < |content| && wanted(content[i]) ensures i in all {
      if i == 0 {
        assert all[0] == 0;
      } else {
        assert i in Shifted(at);
      }
    }
  }

  /** ... and one that is. */
  lemma SelectsTake(content: seq<Data>, wanted: Data -> bool, at: seq<nat>, data: seq<Data>)
    requires content != [] && Selects(content[1..], wanted, at, data) && wanted(content[0])
    ensures Selects(content, wanted, [0] + Shifted(at), [content[0]] + data)
  {
    PlacesTake(content, wanted, at);
    IncreasingFromZero(at);
    TakenItems(content, at, data);
  }

  lemma IncreasingFromZero(at: seq<nat>)
    requires Increasing(at)
    ensures Increasing([0] + Shifted(at))
  {}

  lemma TakenItems(content: seq<Data>, at: seq<nat>, data: seq<Data>)
    requires content != [] && |data| == |at|
    requires forall k :: 0 <= k < |at| ==> at[k] < |content| - 1 && data[k] == content[1..][at[k]]
    ensures var all := [0] + Shifted(at);
            forall k :: 0 <= k < |all| ==> all[k] < |content| && ([content[0]] + data)[k] == content[all[k]]
  {}

  lemma ReadAndKept(files: bool, d: Data)
    ensures Wanted(files)(d) <==> IsSupported(files, d) && IsPayload(d)
  {
    assert OWNER_FORMAT[0] != EXCEL_FORMAT[0];
  }

  lemma {:induction false} ReadItems(files: bool, content: seq<Data>) returns (at: seq<nat>)
    ensures Selects(content, Wanted(files), at, Payload(GetFormats(files, content)))
  {
    if content == [] {
      return [];
    }
    var more := ReadItems(files, content[1..]);
    var read := GetFormats(files, content[1..]);
    ReadAndKept(files, content[0]);
    if IsSupported(files, content[0]) {
      assert ([content[0]] + read)[1..] == read;
      assert GetFormats(files, content) == [content[0]] + read;
    } else {
      assert GetFormats(files, content) == [] + read == read;
    }
    if IsSupported(files, content[0]) && IsPayload(content[0]) {
      SelectsTake(content, Wanted(files), more, Payload(read));
      at := [0] + Shifted(more);
    } else {
      assert [] + Payload(read) == Payload(read);
      SelectsSkip(content, Wanted(files), more, Payload(read));
      at := Shifted(more);
    }
  }

  lemma {:induction false} GetFormatsMembers(files: bool, content: seq<Data>, d: Data)
    ensures d in GetFormats(files, content) ==> d in content
  {
    if content != [] {
      GetFormatsMembers(files, content[1..], d);
    }
  }

  lemma MarkerIff(d: Data)
    ensures IsMarker(d) <==> exists b, more :: SaysOwnedAt(d, b, more)
  {
    if IsMarker(d) {
      assert d.data == [d.data[0]] + d.data[1..];
      assert SaysOwnedAt(d, d.data[0], d.data[1..]);
    }
    if b, more :| SaysOwnedAt(d, b, more) {
      assert ([b] + more)[0] == b;
    }
  }

  lemma MarkedIff(files: bool, content: seq<Data>)
    ensures Marked(GetFormats(files, content)) <==> SaysOwned(content)
  {
    var read := GetFormats(files, content);
    if Marked(read) {
      var i :| 0 <= i < |read| && IsMarker(read[i]);
      MarkerIff(read[i]);
      GetFormatsMembers(files, content, read[i]);
      assert read[i] in content;
    }
    if SaysOwned(content) {
      var i, b, more :| 0 <= i < |content| && SaysOwnedAt(content[i], b, more);
      MarkerIff(content[i]);
      GetFormatsKeeps(files, content, content[i]);
      var k :| 0 <= k < |read| && read[k] == content[i];
    }
  }

  /** What is read from a clipboard: nothing when an update is on it, unless forced; else
      exactly the items of the wanted kinds, in their order. */
  lemma FilteredItems(files: bool, content: seq<Data>, force: bool) returns (at: seq<nat>)
    ensures !force && SaysOwned(content) ==> GetFiltered(files, content, force) == []
    ensures force || !SaysOwned(content) ==> Selects(content, Wanted(files), at, GetFiltered(files, content, force))
  {
    MarkedIff(files, content);
    at := ReadItems(files, content);
  }

  ghost predicate HoldsFiles(files: bool, content: seq<Data>) {
    files && exists i :: 0 <= i < |content| && content[i].FileUrl?
  }

  lemma FilesIff(files: bool, content: seq<Data>, at: seq<nat>, data: seq<Data>)
    requires Selects(content, Wanted(files), at, data)
    ensures HasFiles(data) <==> HoldsFiles(files, content)
  {
    if HasFiles(data) {
      var k :| 0 <= k < |data| && data[k].FileUrl?;
      assert content[at[k]].FileUrl?;
    }
    if HoldsFiles(files, content) {
      var i :| 0 <= i < |content| && content[i].FileUrl?;
      assert Wanted(files)(content[i]);
      var k :| 0 <= k < |at| && at[k] == i;
      assert data[k].FileUrl?;
    }
  }

  /** What is read for sending: nothing when an update or a file list is on the clipboard;
      else exactly the items of the synchronised kinds, in their order. */
  lemma SentItems(files: bool, content: seq<Data>) returns (at: seq<nat>)
    ensures SaysOwned(content) || HoldsFiles(files, content) ==> Get(files, content, false) == []
    ensures !SaysOwned(content) && !HoldsFiles(files, content) ==>
              Selects(content, IsSyncedItem(), at, Get(files, content, false))
  {
    at := FilteredItems(files, content, false);
    if !SaysOwned(content) {
      FilesIff(files, content, at, GetFiltered(files, content, false));
    }
  }

  ghost function IsSyncedItem(): Data -> bool {
    d => IsSynced(d)
  }

  /** A message is sent exactly when there is an item of a synchronised kind, no update and
      no file list. */
  lemma SentIff(lib: Library, files: bool, content: seq<Data>)
    ensures CheckClipboard(lib, files, content).Some?
       <==> !SaysOwned(content) && !HoldsFiles(files, content) && exists i :: 0 <= i < |content| && IsSynced(content[i])
  {
    var at := SentItems(files, content);
    var data := Get(files, content, false);
    if !SaysOwned(content) && !HoldsFiles(files, content) {
      if i :| 0 <= i < |content| && IsSynced(content[i]) {
        assert IsSyncedItem()(content[i]);
        assert i in at;
      }
      if data != [] {
        assert IsSynced(content[at[0]]);
      }
    }
  }

  /** An update without a readable item leaves the clipboard as it is. */
  lemma UnreadableUpdate(lib: Library, content: seq<Data>, update: seq<Clipboard>, side: Side)
    requires AllValid(update) && forall i :: 0 <= i < |update| ==> FromProto(lib, update[i]) == None
    ensures Updated(lib, content, update, side) == content
  {
    NothingReadable(lib, update);
  }

  // ----- by the items a user copies -----

  /** An item of a synchronised kind that a message can carry: text, HTML, RTF, an image whose
      sizes fit, a spreadsheet that compresses. */
  ghost predicate Arrives(lib: Library, d: Data) {
    && IsSynced(d)
    && (d.Text? ==> lib.isUtf8(d.text) && Lossless(lib, d.text))
    && (d.Html? ==> lib.isUtf8(d.html) && Lossless(lib, d.html))
    && (d.Rtf? ==> lib.isUtf8(d.rtf) && Lossless(lib, d.rtf))
    && (d.Picture? && d.image.Svg? ==> lib.isUtf8(d.image.svg) && Lossless(lib, d.image.svg))
    && (d.Picture? && d.image.Rgba? ==>
          d.image.width < TWO31 && d.image.height < TWO31 && Lossless(lib, d.image.pixels))
    && (d.Special? ==> |lib.compress(d.data)| < |d.data| && lib.decompress(lib.compress(d.data)) == d.data)
  }

  /** `now` is `data` with the mark of a host or a client behind it. */
  ghost predicate IsMarkedCopy(now: seq<Data>, data: seq<Data>, side: Side) {
    now == data + [Special(Utf8Of("dyn.com.codedesk.owner"), if side == Host then [1] else [2])]
  }

  lemma ArrivingIsSendable(net: Net, content: seq<Data>) returns (at: seq<nat>)
    requires !SaysOwned(content) && !HoldsFiles(net.files, content)
    requires exists i :: 0 <= i < |content| && IsSynced(content[i])
    requires forall i :: 0 <= i < |content| && IsSynced(content[i]) ==> Arrives(net.lib, content[i])
    ensures Sendable(net, content) && Selects(content, IsSyncedItem(), at, Get(net.files, content, false))
  {
    SentIff(net.lib, net.files, content);
    at := SentItems(net.files, content);
    var data := Get(net.files, content, false);
    forall k | 0 <= k < |data|
      ensures WellTyped(net.lib, data[k]) && LosslessFor(net.lib, data[k]) && Carried(net.lib, data[k])
    {
      assert IsSyncedItem()(content[at[k]]);
      assert Arrives(net.lib, data[k]);
    }
  }

  /** One copy: in every complete run without failures each connected machine ends with
      exactly the items of the synchronised kinds, in their order, and an owner's mark. */
  lemma ItemsReachEveryone(net: Net, s0: State, p: nat, content: seq<Data>, steps: seq<Step>, t: State)
    returns (at: seq<nat>, data: seq<Data>)
    requires ValidState(net, s0) && Quiescent(s0) && p < |s0.clips|
    requires !SaysOwned(content) && !HoldsFiles(net.files, content)
    requires exists i :: 0 <= i < |content| && IsSynced(content[i])
    requires forall i :: 0 <= i < |content| && IsSynced(content[i]) ==> Arrives(net.lib, content[i])
    requires IsRun(net, Next(net, s0, UserCopy(p, content)), steps, t)
    requires AllReliable(net, steps) && Quiescent(t)
    ensures Selects(content, IsSyncedItem(), at, data)
    ensures forall k, r :: 0 <= k < |net.links| && net.home[k] == p && r in net.links[k] ==>
              HeldAt(net, t, net.home[r], data)
  {
    at := ArrivingIsSendable(net, content);
    data := Get(net.files, content, false);
    CopyReachesEveryone(net, s0, p, content, steps, t);
    forall k, r | 0 <= k < |net.links| && net.home[k] == p && r in net.links[k]
      ensures HeldAt(net, t, net.home[r], data)
    {
      assert IsTarget(net, p, r);
      HeldIsMarked(net, p, data, t, net.home[r]);
    }
  }

  lemma HeldIsMarked(net: Net, p: nat, data: seq<Data>, t: State, q: nat)
    requires ValidState(net, t) && Holds(net, p, data, t, q)
    ensures HeldAt(net, t, q, data)
  {
    var r :| 0 <= r < |net.home| && net.home[r] == q && t.clips[q] == Owned(data, net.sides[r]);
    OwnedIsMarkedCopy(data, net.sides[r]);
  }

  lemma OwnedIsMarkedCopy(data: seq<Data>, side: Side)
    ensures IsMarkedCopy(Owned(data, side), data, side)
  {
    assert OwnerData(side) == if side == Host then [1] else [2];
    assert OWNER_FORMAT == Utf8Of("dyn.com.codedesk.owner");
  }

  /** The clipboard of machine `q` is `data` with the mark of one of its agents. */
  ghost predicate HeldAt(net: Net, t: State, q: nat, data: seq<Data>) {
    && q < |t.clips| && |net.home| == |net.sides|
    && exists r :: 0 <= r < |net.home| && net.home[r] == q && IsMarkedCopy(t.clips[q], data, net.sides[r])
  }

  lemma SelectsEverything(content: seq<Data>, wanted: Data -> bool, at: seq<nat>, data: seq<Data>)
    requires Selects(content, wanted, at, data) && forall i :: 0 <= i < |content| ==> wanted(content[i])
    ensures data == content
  {
    SelectsAll(|content|, at);
  }

  lemma FirstPlace(at: seq<nat>)
    ensures at == [] || at[0] >= 0
  {}

  lemma LastPlace(at: seq<nat>, k: nat)
    requires Increasing(at) && k < |at|
    ensures k == |at| - 1 || at[k] < at[|at| - 1]
  {}

  /** An increasing list that holds every number below `n`, and no other, counts up to `n`. */
  lemma {:induction false} SelectsAll(n: nat, at: seq<nat>)
    requires Increasing(at)
    requires forall k :: 0 <= k < |at| ==> at[k] < n
    requires forall i :: 0 <= i < n ==> i in at
    ensures |at| == n && forall k :: 0 <= k < n ==> at[k] == k
  {
    FirstPlace(at);
    if n > 0 {
      assert n - 1 in at;
      var k :| 0 <= k < |at| && at[k] == n - 1;
      LastPlace(at, k);
      var front := at[..k];
      forall i | 0 <= i < n - 1 ensures i in front {
        assert i in at;
        var j :| 0 <= j < |at| && at[j] == i;
        assert front[j] == i;
      }
      SelectsAll(n - 1, front);
    }
  }

  /** In particular content that consists of such items arrives whole. */
  lemma WholeContentArrives(net: Net, s0: State, p: nat, content: seq<Data>, steps: seq<Step>, t: State)
    requires ValidState(net, s0) && Quiescent(s0) && p < |s0.clips|
    requires content != [] && forall i :: 0 <= i < |content| ==> Arrives(net.lib, content[i])
    requires IsRun(net, Next(net, s0, UserCopy(p, content)), steps, t)
    requires AllReliable(net, steps) && Quiescent(t)
    ensures forall k, r :: 0 <= k < |net.links| && net.home[k] == p && r in net.links[k] ==>
              HeldAt(net, t, net.home[r], content)
  {
    forall i | 0 <= i < |content| ensures IsSyncedItem()(content[i]) && IsSynced(content[i]) {
      assert Arrives(net.lib, content[i]);
    }
    NotOwned(content);
    assert IsSynced(content[0]);
    var at, data := ItemsReachEveryone(net, s0, p, content, steps, t);
    SelectsEverything(content, IsSyncedItem(), at, data);
  }

  lemma NotOwned(content: seq<Data>)
    requires forall i :: 0 <= i < |content| ==> IsSynced(content[i])
    ensures !SaysOwned(content)
  {
    assert Utf8Of("XML Spreadsheet")[0] != Utf8Of("dyn.com.codedesk.owner")[0];
  }
}
