/** Where the password of a connection comes from and when it is stored
    (`PasswordSource`, `LoginConfigHandler`, `handle_hash`, `handle_login_from_ui`,
    `handle_login_error` and `handle_peer_info` in src/client.rs). */
module Login {
  import opened Common

  datatype PasswordSource =
    | PersonalAb(password: Bytes)
    | SharedAb(text: Bytes)
    | Undefined

  /** What really produced the password, as opposed to the tag the client keeps. */
  datatype Origin = Shared | Personal | User | Preset | Stored | Nobody

  /** A connection token: the password and tag another session hands over. */
  datatype Token = Token(password: Bytes, source: PasswordSource, origin: Origin)

  /** SHA-256, and the salt the peer sends with its hash message. */
  datatype Crypto = Crypto(sha: Bytes -> Bytes, salt: Bytes)

  function Salted(c: Crypto, text: Bytes): Bytes {
    c.sha(text + c.salt)
  }

  // ----- the personal address book -----

  datatype AbPeer = AbPeer(id: Bytes, hash: Option<Bytes>)
  datatype AbEntry = AbEntry(personal: bool, peers: seq<AbPeer>)
  datatype AddressBook = AddressBook(accessToken: Bytes, entries: seq<AbEntry>)

  function FirstPersonal(entries: seq<AbEntry>): Option<AbEntry> {
    if entries == [] then None
    else if entries[0].personal then Some(entries[0]) else FirstPersonal(entries[1..])
  }

  function FirstPeer(peers: seq<AbPeer>, id: Bytes): Option<AbPeer> {
    if peers == [] then None
    else if peers[0].id == id then Some(peers[0]) else FirstPeer(peers[1..], id)
  }

  /** The password of peer `id` in the personal address book, empty when there is none;
      `hash` holds the decoded text, when it decodes. */
  function PersonalPassword(ab: AddressBook, accessToken: Bytes, id: Bytes): Bytes {
    if accessToken == [] || accessToken != ab.accessToken then []
    else
      match FirstPersonal(ab.entries)
      case None => []
      case Some(entry) =>
        match FirstPeer(entry.peers, id)
        case None => []
        case Some(peer) => if peer.hash.Some? then peer.hash.value else []
  }

  /** `q` is the password of peer `id` in the book: it stands with the first peer of that id
      in the first personal entry, and the user is the one whose book it is. */
  ghost predicate StandsInBook(ab: AddressBook, accessToken: Bytes, id: Bytes, q: Bytes) {
    && accessToken != [] && accessToken == ab.accessToken
    && exists i: nat, j: nat :: IsPlace(ab, id, i, j) && ab.entries[i].peers[j].hash == Some(q)
  }

  ghost predicate IsPlace(ab: AddressBook, id: Bytes, i: nat, j: nat) {
    && i < |ab.entries| && ab.entries[i].personal
    && (forall k :: 0 <= k < i ==> !ab.entries[k].personal)
    && j < |ab.entries[i].peers| && ab.entries[i].peers[j].id == id
    && (forall k :: 0 <= k < j ==> ab.entries[i].peers[k].id != id)
  }

  lemma {:induction false} FirstPersonalAt(entries: seq<AbEntry>, i: nat)
    requires i < |entries| && entries[i].personal && forall k :: 0 <= k < i ==> !entries[k].personal
    ensures FirstPersonal(entries) == Some(entries[i])
  {
    if i > 0 {
      FirstPersonalAt(entries[1..], i - 1);
    }
  }

  lemma {:induction false} FirstPersonalPlace(entries: seq<AbEntry>) returns (i: nat)
    requires FirstPersonal(entries).Some?
    ensures i < |entries| && entries[i].personal && forall k :: 0 <= k < i ==> !entries[k].personal
  {
    if entries[0].personal {
      return 0;
    }
    var n := FirstPersonalPlace(entries[1..]);
    i := n + 1;
    assert forall k :: 1 <= k < i ==> entries[k] == entries[1..][k - 1];
  }

  lemma {:induction false} FirstPeerAt(peers: seq<AbPeer>, id: Bytes, j: nat)
    requires j < |peers| && peers[j].id == id && forall k :: 0 <= k < j ==> peers[k].id != id
    ensures FirstPeer(peers, id) == Some(peers[j])
  {
    if j > 0 {
      FirstPeerAt(peers[1..], id, j - 1);
    }
  }

  lemma {:induction false} FirstPeerPlace(peers: seq<AbPeer>, id: Bytes) returns (j: nat)
    requires FirstPeer(peers, id).Some?
    ensures j < |peers| && peers[j].id == id && forall k :: 0 <= k < j ==> peers[k].id != id
  {
    if peers[0].id == id {
      return 0;
    }
    var n := FirstPeerPlace(peers[1..], id);
    j := n + 1;
    assert forall k :: 1 <= k < j ==> peers[k] == peers[1..][k - 1];
  }

  /** The lookup finds a password exactly when it stands in the book. */
  lemma PersonalPasswordIff(ab: AddressBook, accessToken: Bytes, id: Bytes, q: Bytes)
    requires q != []
    ensures PersonalPassword(ab, accessToken, id) == q <==> StandsInBook(ab, accessToken, id, q)
  {
    if StandsInBook(ab, accessToken, id, q) {
      var i: nat, j: nat :| IsPlace(ab, id, i, j) && ab.entries[i].peers[j].hash == Some(q);
      FirstPersonalAt(ab.entries, i);
      FirstPeerAt(ab.entries[i].peers, id, j);
    }
    if PersonalPassword(ab, accessToken, id) == q {
      var i := FirstPersonalPlace(ab.entries);
      FirstPersonalAt(ab.entries, i);
      var j := FirstPeerPlace(ab.entries[i].peers, id);
      FirstPeerAt(ab.entries[i].peers, id, j);
      assert IsPlace(ab, id, i, j);
    }
  }

  // ----- the handler as a value -----

  /** `config` is the peer configuration in memory and `disk` the stored one, each by its
      password; `shared` a shared address-book password not used yet; `switchUuid` whether a
      side switch is still to be tried. */
  datatype Handler = Handler(password: Bytes, source: PasswordSource, remember: bool,
                             config: Bytes, disk: Bytes, shared: Bytes, switchUuid: bool, origin: Origin)

  /** What `initialize` is given. */
  datatype Setup = Setup(disk: Bytes, token: Option<Token>, shared: Bytes, switchUuid: bool)

  function Initialized(i: Setup): Handler {
    var h := Handler([], Undefined, i.disk != [], i.disk, i.disk, i.shared, i.switchUuid, Nobody);
    match i.token
    case None => h
    case Some(t) => h.(password := t.password, source := t.source, origin := t.origin)
  }

  /** The token `get_conn_token` hands over. */
  function ConnToken(h: Handler): Option<Token> {
    if h.password == [] then None else Some(Token(h.password, h.source, h.origin))
  }

  function UsePreset(c: Crypto, h: Handler, preset: Bytes): Handler {
    if h.password == [] && preset != []
    then h.(password := Salted(c, preset), source := Undefined, origin := Preset) else h
  }

  function UseShared(c: Crypto, h: Handler): Handler {
    var h' := h.(shared := []);
    if h.shared != []
    then h'.(password := Salted(c, h.shared), source := SharedAb(h.shared), origin := Shared) else h'
  }

  function UseConfig(h: Handler): Handler {
    if h.password == [] && h.config != []
    then h.(password := h.config, source := Undefined, origin := Stored) else h
  }

  function UsePersonal(h: Handler, personal: Bytes): Handler {
    if h.password == [] && personal != []
    then h.(password := personal, source := PersonalAb(personal), origin := Personal) else h
  }

  function UseBuiltin(c: Crypto, h: Handler, builtin: Bytes): Handler {
    if h.password == [] && builtin != []
    then h.(password := Salted(c, builtin), source := SharedAb(builtin), origin := Shared) else h
  }

  /** `trusted` says whether a pending side switch is accepted. */
  function Hashed(c: Crypto, h: Handler, preset: Bytes, trusted: bool, personal: Bytes, builtin: Bytes): Handler {
    var h0 := h.(switchUuid := false);
    if h.switchUuid && trusted then h0.(source := Undefined)
    else UseBuiltin(c, UsePersonal(UseConfig(UseShared(c, UsePreset(c, h0, preset))), personal), builtin)
  }

  /** Choosing a password changes the password, its tag and origin, and uses up a shared one. */
  lemma ChoiceKeeps(c: Crypto, h: Handler, preset: Bytes, personal: Bytes, builtin: Bytes)
    ensures var g := UseShared(c, UsePreset(c, h, preset));
            g == h.(shared := [], password := g.password, source := g.source, origin := g.origin)
    ensures var r := UseBuiltin(c, UsePersonal(UseConfig(h), personal), builtin);
            r == h.(password := r.password, source := r.source, origin := r.origin)
  {}

  function LoggedInFromUi(c: Crypto, h: Handler, text: Bytes, remember: bool): Handler {
    if text == [] then UseConfig(h)
    else h.(password := Salted(c, text), source := Undefined, origin := User, remember := remember)
  }

  datatype LoginError = PasswordEmpty | PasswordWrong | OtherError

  function Failed(h: Handler, err: LoginError): Handler {
    if err == OtherError then h else h.(password := [])
  }

  predicate IsPersonalAb(s: PasswordSource, password: Bytes) {
    password != [] && s.PersonalAb? && s.password == password
  }

  predicate IsSharedAb(c: Crypto, s: PasswordSource, password: Bytes) {
    password != [] && s.SharedAb? && Salted(c, s.text) == password
  }

  function StoredPassword(c: Crypto, h: Handler): Bytes {
    if h.remember then
      if h.password != [] && h.password != h.disk && !IsSharedAb(c, h.source, h.password) then h.password else h.disk
    else
      if IsPersonalAb(h.source, h.password) then h.password else []
  }

  function Connected(c: Crypto, h: Handler): Handler {
    h.(config := StoredPassword(c, h), disk := StoredPassword(c, h))
  }

  /** The password pushed to the user's personal address book on connecting, if any. */
  function Pushed(c: Crypto, h: Handler): Option<Bytes> {
    var stored := StoredPassword(c, h);
    if stored != [] && !IsSharedAb(c, h.source, h.password) && !IsPersonalAb(h.source, h.password)
    then Some(stored) else None
  }

  // ----- runs -----

  datatype Event =
    | HandleHash(preset: Bytes, trusted: bool, personal: Bytes, builtin: Bytes)
    | LoginFromUi(text: Bytes, remember: bool)
    | HandleLoginError(err: LoginError)
    | HandlePeerInfo

  function Next(c: Crypto, h: Handler, e: Event): Handler {
    match e
    case HandleHash(preset, trusted, personal, builtin) => Hashed(c, h, preset, trusted, personal, builtin)
    case LoginFromUi(text, remember) => LoggedInFromUi(c, h, text, remember)
    case HandleLoginError(err) => Failed(h, err)
    case HandlePeerInfo => Connected(c, h)
  }

  function Run(c: Crypto, h: Handler, events: seq<Event>): Handler {
    if events == [] then h else Next(c, Run(c, h, events[..|events| - 1]), events[|events| - 1])
  }

  /** A run of one session: the peer's hash message comes first. */
  predicate IsSession(events: seq<Event>) {
    events == [] || events[0].HandleHash?
  }

  /** The tag tells the truth: a shared password is tagged so, a password tagged shared is a
      shared one, the salted text of the tag, and one tagged personal is the address book's. */
  ghost predicate Honest(c: Crypto, password: Bytes, source: PasswordSource, origin: Origin) {
    password != [] ==>
      && (origin == Shared ==> source.SharedAb?)
      && (source.SharedAb? ==> origin == Shared && password == Salted(c, source.text))
      && (source.PersonalAb? ==> origin == Personal && password == source.password)
  }

  /** A shared password that has lost its tag. */
  ghost predicate Untagged(source: PasswordSource, origin: Origin) {
    origin == Shared && source == Undefined
  }

  /** What tokens are like: honest, or for a shared password without its tag.  Every token
      that a session hands over is of this kind (`TokensStayAccepted`). */
  ghost predicate Accepted(c: Crypto, token: Option<Token>) {
    token.Some? ==>
      var t := token.value;
      Honest(c, t.password, t.source, t.origin) || Untagged(t.source, t.origin)
  }

  ghost predicate HonestSetup(c: Crypto, i: Setup) {
    i.token.Some? ==> Honest(c, i.token.value.password, i.token.value.source, i.token.value.origin)
  }

  /** The set-ups in which a shared password gets by without a tag: it is handed over by
      token, and either the tag is lost to a side switch or it was lost before and no shared
      password of the session's own replaces it. */
  ghost predicate Bare(i: Setup) {
    && i.token.Some? && i.token.value.password != [] && i.token.value.origin == Shared
    && (i.switchUuid || (i.token.value.source == Undefined && i.shared == []))
  }

  /** The handler holds the handed-over shared password without its tag. */
  ghost predicate HoldsBare(i: Setup, h: Handler) {
    && Bare(i)
    && h.password == i.token.value.password && Untagged(h.source, h.origin)
    && h.remember == (i.disk != [])
    && (h.disk == i.disk || h.disk == h.password || !h.remember)
  }

  /** What holds from the first event on. */
  ghost predicate Inv(c: Crypto, i: Setup, h: Handler) {
    && h.config == h.disk
    && !h.switchUuid
    && (Honest(c, h.password, h.source, h.origin) || HoldsBare(i, h))
  }

  lemma HashInv(c: Crypto, i: Setup, h: Handler, preset: Bytes, trusted: bool, personal: Bytes, builtin: Bytes)
    requires Inv(c, i, h)
    ensures Inv(c, i, Hashed(c, h, preset, trusted, personal, builtin))
  {
    var h1 := UsePreset(c, h.(switchUuid := false), preset);
    assert Inv(c, i, h1);
    var h2 := UseShared(c, h1);
    assert Inv(c, i, h2);
    ChooseKeptInv(c, i, h2, personal, builtin);
  }

  lemma ChooseKeptInv(c: Crypto, i: Setup, h: Handler, personal: Bytes, builtin: Bytes)
    requires Inv(c, i, h)
    ensures Inv(c, i, UseBuiltin(c, UsePersonal(UseConfig(h), personal), builtin))
  {
    var h3 := UseConfig(h);
    assert Inv(c, i, h3);
    var h4 := UsePersonal(h3, personal);
    assert Inv(c, i, h4);
  }

  /** The first event: an accepted side switch drops the tag, everything else keeps it. */
  lemma FirstInv(c: Crypto, i: Setup, e: Event)
    requires Accepted(c, i.token) && e.HandleHash?
    ensures Inv(c, i, Next(c, Initialized(i), e))
  {
    var h := Initialized(i);
    var h0 := h.(switchUuid := false);
    if h.switchUuid && e.trusted {
      assert Inv(c, i, h0.(source := Undefined));
    } else {
      var h2 := UseShared(c, UsePreset(c, h0, e.preset));
      FirstChoice(c, i, h0, e.preset);
      ChooseKeptInv(c, i, h2, e.personal, e.builtin);
    }
  }

  lemma FirstChoice(c: Crypto, i: Setup, h: Handler, preset: Bytes)
    requires Accepted(c, i.token) && h == Initialized(i).(switchUuid := false)
    ensures Inv(c, i, UseShared(c, UsePreset(c, h, preset)))
  {
    var h1 := UsePreset(c, h, preset);
    if i.shared == [] && h.password != [] && Untagged(h.source, h.origin) {
      assert h1 == h && HoldsBare(i, UseShared(c, h1));
    } else if i.shared == [] {
      assert Honest(c, h1.password, h1.source, h1.origin);
    }
  }

  lemma UiInv(c: Crypto, i: Setup, h: Handler, text: Bytes, remember: bool)
    requires Inv(c, i, h)
    ensures Inv(c, i, LoggedInFromUi(c, h, text, remember))
  {}

  lemma NextInv(c: Crypto, i: Setup, h: Handler, e: Event)
    requires Inv(c, i, h)
    ensures Inv(c, i, Next(c, h, e))
  {
    match e {
      case HandleHash(preset, trusted, personal, builtin) => HashInv(c, i, h, preset, trusted, personal, builtin);
      case LoginFromUi(text, remember) => UiInv(c, i, h, text, remember);
      case HandleLoginError(err) =>
      case HandlePeerInfo =>
    }
  }

  lemma {:induction false} RunInv(c: Crypto, i: Setup, events: seq<Event>)
    requires Accepted(c, i.token) && IsSession(events) && events != []
    ensures Inv(c, i, Run(c, Initialized(i), events))
  {
    var last := |events| - 1;
    if last == 0 {
      assert Run(c, Initialized(i), events[..0]) == Initialized(i);
      FirstInv(c, i, events[0]);
    } else {
      RunInv(c, i, events[..last]);
      NextInv(c, i, Run(c, Initialized(i), events[..last]), events[last]);
    }
  }

  /** In every session the tag tells the truth, unless a shared password gets by without one. */
  lemma TagIsHonest(c: Crypto, i: Setup, events: seq<Event>)
    requires Accepted(c, i.token) && IsSession(events) && !Bare(i)
    requires events != [] || HonestSetup(c, i)
    ensures var h := Run(c, Initialized(i), events); Honest(c, h.password, h.source, h.origin)
  {
    if events != [] {
      RunInv(c, i, events);
    }
  }

  /** Connecting newly stores a shared password. */
  ghost predicate StoresShared(c: Crypto, h: Handler) {
    h.origin == Shared && h.password != [] && StoredPassword(c, h) == h.password && h.disk != h.password
  }

  /** Connecting pushes a shared password to the personal address book. */
  ghost predicate PushesShared(c: Crypto, h: Handler) {
    h.origin == Shared && h.password != [] && Pushed(c, h) == Some(h.password)
  }

  ghost predicate SomeSessionStoresShared(c: Crypto, i: Setup) {
    exists events :: IsSession(events) && events != [] && StoresShared(c, Run(c, Initialized(i), events))
  }

  ghost predicate SomeSessionPushesShared(c: Crypto, i: Setup) {
    exists events :: IsSession(events) && events != [] && PushesShared(c, Run(c, Initialized(i), events))
  }

  /** A shared password can end up in the stored peer configuration if and only if it gets
      by without a tag, over a stored password that differs from it. */
  lemma SharedStoredIff(c: Crypto, i: Setup)
    requires Accepted(c, i.token)
    ensures SomeSessionStoresShared(c, i) <==> Bare(i) && i.disk != [] && i.disk != i.token.value.password
  {
    if Bare(i) && i.disk != [] && i.disk != i.token.value.password {
      BareIsUsed(c, i);
    }
    forall events | IsSession(events) && events != [] && StoresShared(c, Run(c, Initialized(i), events))
      ensures Bare(i) && i.disk != [] && i.disk != i.token.value.password
    {
      RunInv(c, i, events);
    }
  }

  /** It can be pushed to the personal address book if and only if it gets by without a
      tag, over any stored password. */
  lemma SharedPushedIff(c: Crypto, i: Setup)
    requires Accepted(c, i.token)
    ensures SomeSessionPushesShared(c, i) <==> Bare(i) && i.disk != []
  {
    if Bare(i) && i.disk != [] {
      BareIsUsed(c, i);
    }
    forall events | IsSession(events) && events != [] && PushesShared(c, Run(c, Initialized(i), events))
      ensures Bare(i) && i.disk != []
    {
      RunInv(c, i, events);
    }
  }

  lemma OneEvent(c: Crypto, h: Handler, e: Event)
    ensures Run(c, h, [e]) == Next(c, h, e) && (e.HandleHash? ==> IsSession([e]))
  {
    assert Run(c, h, [e][..0]) == h;
  }

  /** The session whose only event is the peer's hash message, with the switch accepted. */
  lemma BareIsUsed(c: Crypto, i: Setup)
    requires Bare(i) && i.disk != []
    ensures i.disk != i.token.value.password ==> SomeSessionStoresShared(c, i)
    ensures SomeSessionPushesShared(c, i)
  {
    var e := HandleHash([], true, [], []);
    OneEvent(c, Initialized(i), e);
    assert i.disk != i.token.value.password ==> StoresShared(c, Run(c, Initialized(i), [e]));
    assert PushesShared(c, Run(c, Initialized(i), [e]));
  }

  // ----- from session to session -----

  /** Whatever a session does, the token it hands over is accepted again. */
  lemma TokensStayAccepted(c: Crypto, i: Setup, events: seq<Event>)
    requires Accepted(c, i.token) && IsSession(events)
    ensures Accepted(c, ConnToken(Run(c, Initialized(i), events)))
  {
    if events != [] {
      RunInv(c, i, events);
    }
  }

  /** It is honest unless a shared password got by without a tag. */
  lemma TokensStayHonest(c: Crypto, i: Setup, events: seq<Event>, j: Setup)
    requires Accepted(c, i.token) && IsSession(events) && !Bare(i)
    requires events != [] || HonestSetup(c, i)
    requires j.token == ConnToken(Run(c, Initialized(i), events))
    ensures HonestSetup(c, j)
  {
    TagIsHonest(c, i, events);
  }

  datatype Session = Session(start: Setup, events: seq<Event>)

  /** Sessions one after the other: each starts without a token, or with one that some
      earlier session hands over. */
  ghost predicate IsChain(c: Crypto, sessions: seq<Session>) {
    forall n :: 0 <= n < |sessions| ==> IsSession(sessions[n].events) && HasToken(c, sessions, n)
  }

  ghost predicate HasToken(c: Crypto, sessions: seq<Session>, n: nat)
    requires n < |sessions|
  {
    || sessions[n].start.token == None
    || exists k :: 0 <= k < n && sessions[n].start.token == HandedOver(c, sessions[k])
  }

  ghost function HandedOver(c: Crypto, s: Session): Option<Token> {
    ConnToken(Run(c, Initialized(s.start), s.events))
  }

  lemma {:induction false} ChainIsAccepted(c: Crypto, sessions: seq<Session>, n: nat)
    requires IsChain(c, sessions) && n < |sessions|
    ensures Accepted(c, sessions[n].start.token)
    decreases n
  {
    assert HasToken(c, sessions, n);
    if sessions[n].start.token != None {
      var k :| 0 <= k < n && sessions[n].start.token == HandedOver(c, sessions[k]);
      ChainIsAccepted(c, sessions, k);
      TokensStayAccepted(c, sessions[k].start, sessions[k].events);
    }
  }

  /** In every chain of sessions, each session can store a shared password exactly when it
      gets by without a tag over a different stored password, and push it exactly when it
      gets by over any. */
  lemma ChainSharedIff(c: Crypto, sessions: seq<Session>, n: nat)
    requires IsChain(c, sessions) && n < |sessions|
    ensures var i := sessions[n].start;
            && (SomeSessionStoresShared(c, i) <==> Bare(i) && i.disk != [] && i.disk != i.token.value.password)
            && (SomeSessionPushesShared(c, i) <==> Bare(i) && i.disk != [])
  {
    ChainIsAccepted(c, sessions, n);
    SharedStoredIff(c, sessions[n].start);
    SharedPushedIff(c, sessions[n].start);
  }

  /** A tag lost in one session is missing in the next: the first, with a side switch over no
      stored password, stores nothing; the second, without a switch, stores and pushes the
      shared password. */
  lemma LostTagIsStoredLater(c: Crypto, text: Bytes, disk: Bytes)
    requires Salted(c, text) != [] && disk != [] && disk != Salted(c, text)
    ensures var i := Setup([], Some(Token(Salted(c, text), SharedAb(text), Shared)), [], true);
            var e := HandleHash([], true, [], []);
            var j := Setup(disk, ConnToken(Run(c, Initialized(i), [e])), [], false);
            && HonestSetup(c, i) && !SomeSessionStoresShared(c, i)
            && SomeSessionStoresShared(c, j) && SomeSessionPushesShared(c, j)
  {
    var i := Setup([], Some(Token(Salted(c, text), SharedAb(text), Shared)), [], true);
    var e := HandleHash([], true, [], []);
    OneEvent(c, Initialized(i), e);
    SharedStoredIff(c, i);
    TokensStayAccepted(c, i, [e]);
    var j := Setup(disk, ConnToken(Run(c, Initialized(i), [e])), [], false);
    SharedStoredIff(c, j);
    SharedPushedIff(c, j);
  }

  // ----- which password is used, and what a refusal means -----

  function FirstNonEmpty(candidates: seq<Bytes>): Bytes {
    if candidates == [] then []
    else if candidates[0] != [] then candidates[0] else FirstNonEmpty(candidates[1..])
  }

  function SaltedIfAny(c: Crypto, text: Bytes): Bytes {
    if text == [] then [] else Salted(c, text)
  }

  lemma FirstNonEmptyStep(p: Bytes, rest: seq<Bytes>)
    ensures FirstNonEmpty([p] + rest) == if p != [] then p else FirstNonEmpty(rest)
  {
    assert ([p] + rest)[1..] == rest;
  }

  /** The order in which passwords are tried: a shared one first, then the last one used, the
      preset, the stored, the personal address book's and the built-in one. */
  lemma PasswordPriority(c: Crypto, h: Handler, preset: Bytes, trusted: bool, personal: Bytes, builtin: Bytes)
    requires (forall b :: c.sha(b) != []) && !(h.switchUuid && trusted)
    ensures Hashed(c, h, preset, trusted, personal, builtin).password ==
            FirstNonEmpty([SaltedIfAny(c, h.shared)] + ([h.password] + ([SaltedIfAny(c, preset)] +
              ([h.config] + ([personal] + ([SaltedIfAny(c, builtin)] + []))))))
  {
    var s, p, b := SaltedIfAny(c, h.shared), SaltedIfAny(c, preset), SaltedIfAny(c, builtin);
    FirstNonEmptyStep(b, []);
    FirstNonEmptyStep(personal, [b] + []);
    FirstNonEmptyStep(h.config, [personal] + ([b] + []));
    FirstNonEmptyStep(p, [h.config] + ([personal] + ([b] + [])));
    FirstNonEmptyStep(h.password, [p] + ([h.config] + ([personal] + ([b] + []))));
    FirstNonEmptyStep(s, [h.password] + ([p] + ([h.config] + ([personal] + ([b] + [])))));
  }

  /** A hash message tags a password as the personal book's only if it stands in the book;
      and what stands there is used, and tagged so, when nothing comes before it. */
  lemma TaggedPersonalStandsInBook(c: Crypto, h: Handler, preset: Bytes, trusted: bool, ab: AddressBook,
                                   accessToken: Bytes, id: Bytes, builtin: Bytes, q: Bytes)
    requires q != []
    ensures var r := Hashed(c, h, preset, trusted, PersonalPassword(ab, accessToken, id), builtin);
            && (r.source == PersonalAb(q) && h.source != PersonalAb(q) ==>
                  r.password == q && StandsInBook(ab, accessToken, id, q))
            && (!(h.switchUuid && trusted) && h.password == preset == h.shared == h.config == []
                && StandsInBook(ab, accessToken, id, q) ==>
                  r.password == q && r.source == PersonalAb(q))
  {
    PersonalPasswordIff(ab, accessToken, id, q);
  }

  /** Errors other than a missing or wrong password. */
  predicate OtherErrors(events: seq<Event>) {
    forall i :: 0 <= i < |events| ==> events[i] == HandleLoginError(OtherError)
  }

  lemma {:induction false} OtherErrorsChangeNothing(c: Crypto, h: Handler, events: seq<Event>)
    requires OtherErrors(events)
    ensures Run(c, h, events) == h
  {
    if events != [] {
      OtherErrorsChangeNothing(c, h, events[..|events| - 1]);
    }
  }

  /** A typed password that leads to a connection, after any number of other errors, is the
      stored one if the user wants it remembered, and pushed to the personal address book;
      else nothing is stored or pushed.  Whatever was used before does not matter. */
  lemma TypedIsStoredIff(c: Crypto, h: Handler, text: Bytes, remember: bool, errors: seq<Event>)
    requires text != [] && Salted(c, text) != [] && OtherErrors(errors)
    ensures var used := Run(c, LoggedInFromUi(c, h, text, remember), errors);
            && used.password == Salted(c, text)
            && Connected(c, used).disk == (if remember then Salted(c, text) else [])
            && Connected(c, used).config == Connected(c, used).disk
            && Pushed(c, used) == (if remember then Some(Salted(c, text)) else None)
  {
    OtherErrorsChangeNothing(c, LoggedInFromUi(c, h, text, remember), errors);
  }

  /** A password from the personal address book is stored on connecting, remembered or not,
      and not pushed back. */
  lemma PersonalIsStored(c: Crypto, h: Handler)
    requires h.password != [] && h.source == PersonalAb(h.password)
    ensures Connected(c, h).disk == h.password && Pushed(c, h) == None
  {}

  /** Logging in with nothing typed uses the last password, or else the stored one, and
      leaves the wish to remember. */
  lemma NothingTyped(c: Crypto, h: Handler, remember: bool)
    ensures var r := LoggedInFromUi(c, h, [], remember);
            && r.password == (if h.password != [] then h.password else h.config)
            && r.remember == h.remember && (h.password != [] ==> r == h)
  {}

  /** The event brings the password `p`, or a text that salts to it. */
  ghost predicate Gives(c: Crypto, e: Event, p: Bytes) {
    match e
    case HandleHash(preset, _, personal, builtin) =>
      SaltedIfAny(c, preset) == p || personal == p || SaltedIfAny(c, builtin) == p
    case LoginFromUi(text, _) => SaltedIfAny(c, text) == p
    case _ => false
  }

  /** The handler has `p` nowhere. */
  ghost predicate Forgotten(c: Crypto, h: Handler, p: Bytes) {
    h.password != p && h.config != p && h.disk != p && SaltedIfAny(c, h.shared) != p
  }

  lemma HashForgets(c: Crypto, h: Handler, preset: Bytes, trusted: bool, personal: Bytes, builtin: Bytes, p: Bytes)
    requires p != [] && Forgotten(c, h, p)
    requires SaltedIfAny(c, preset) != p && personal != p && SaltedIfAny(c, builtin) != p
    ensures Forgotten(c, Hashed(c, h, preset, trusted, personal, builtin), p)
  {
    var h0 := h.(switchUuid := false);
    if !(h.switchUuid && trusted) {
      var h1 := UsePreset(c, h0, preset);
      assert Forgotten(c, h1, p);
      var h2 := UseShared(c, h1);
      assert Forgotten(c, h2, p);
      var h3 := UseConfig(h2);
      assert Forgotten(c, h3, p);
      var h4 := UsePersonal(h3, personal);
      assert Forgotten(c, h4, p);
    }
  }

  lemma ForgottenStep(c: Crypto, h: Handler, e: Event, p: Bytes)
    requires p != [] && Forgotten(c, h, p) && !Gives(c, e, p)
    ensures Forgotten(c, Next(c, h, e), p)
  {
    if e.HandleHash? {
      HashForgets(c, h, e.preset, e.trusted, e.personal, e.builtin, p);
    }
  }

  lemma {:induction false} ForgottenRun(c: Crypto, h: Handler, events: seq<Event>, p: Bytes)
    requires p != [] && Forgotten(c, h, p)
    requires forall i :: 0 <= i < |events| ==> !Gives(c, events[i], p)
    ensures Forgotten(c, Run(c, h, events), p)
  {
    if events != [] {
      var last := |events| - 1;
      ForgottenRun(c, h, events[..last], p);
      ForgottenStep(c, Run(c, h, events[..last]), events[last], p);
    }
  }

  /** A password the peer has refused, stored nowhere yet and not waiting as a shared one, is
      never sent, stored or pushed by anything that follows, until it is given again. */
  lemma RefusedIsNotStored(c: Crypto, h: Handler, err: LoginError, events: seq<Event>)
    requires err != OtherError && h.password != []
    requires h.config != h.password && h.disk != h.password && SaltedIfAny(c, h.shared) != h.password
    requires forall i :: 0 <= i < |events| ==> !Gives(c, events[i], h.password)
    ensures var h' := Run(c, Failed(h, err), events);
            h'.password != h.password && h'.disk != h.password && Pushed(c, h') != Some(h.password)
  {
    ForgottenRun(c, Failed(h, err), events, h.password);
  }

  // ----- the handler as the client updates it -----

  class LoginConfigHandler {
    const crypto: Crypto
    var password: Bytes
    var source: PasswordSource
    var remember: bool
    var config: Bytes
    var disk: Bytes
    var sharedPassword: Bytes
    var switchUuid: bool
    ghost var origin: Origin

    ghost function Value(): Handler
      reads this
    {
      Handler(password, source, remember, config, disk, sharedPassword, switchUuid, origin)
    }

    constructor Initialize(crypto: Crypto, disk: Bytes, token: Option<Token>, shared: Bytes, switchUuid: bool)
      ensures this.crypto == crypto
      ensures Value() == Initialized(Setup(disk, token, shared, switchUuid))
    {
      this.crypto := crypto;
      this.remember := disk != [];
      this.config := disk;
      this.disk := disk;
      this.password, this.source, this.origin := [], Undefined, Nobody;
      if token.Some? {
        this.password := token.value.password;
        this.source := token.value.source;
        this.origin := token.value.origin;
      }
      this.switchUuid := switchUuid;
      this.sharedPassword := shared;
    }

    /** The tag is written back once, after the password has been chosen: no other step
        comes in between. */
    method HandleHash(preset: Bytes, trusted: bool, ab: AddressBook, accessToken: Bytes, id: Bytes, builtin: Bytes)
      modifies this
      ensures Value() == Hashed(crypto, old(Value()), preset, trusted, PersonalPassword(ab, accessToken, id), builtin)
      ensures forall q :: q != [] && source == PersonalAb(q) && old(source) != PersonalAb(q) ==>
                password == q && StandsInBook(ab, accessToken, id, q)
    {
      forall q | q != [] ensures PersonalPassword(ab, accessToken, id) == q <==> StandsInBook(ab, accessToken, id, q) {
        PersonalPasswordIff(ab, accessToken, id, q);
      }
      var uuid := switchUuid;
      switchUuid := false;
      if uuid && trusted {
        source := Undefined;
        return;
      }
      ghost var h := Value();
      var pw, tag, from := ChooseGiven(h, preset);
      sharedPassword := [];
      ChoiceKeeps(crypto, h, preset, [], []);
      h := UseShared(crypto, UsePreset(crypto, h, preset));
      ChoiceKeeps(crypto, h, [], PersonalPassword(ab, accessToken, id), builtin);
      pw, tag, from := ChooseKept(h, pw, tag, PersonalPassword(ab, accessToken, id), builtin);
      password, source, origin := pw, tag, from;
    }

    /** The first choices: the password there is, the preset, and over both a shared one. */
    method ChooseGiven(ghost h: Handler, preset: Bytes) returns (pw: Bytes, tag: PasswordSource, ghost from: Origin)
      requires h == Value()
      ensures pw == UseShared(crypto, UsePreset(crypto, h, preset)).password
      ensures tag == UseShared(crypto, UsePreset(crypto, h, preset)).source
      ensures from == UseShared(crypto, UsePreset(crypto, h, preset)).origin
    {
      pw, tag, from := password, source, origin;
      if pw == [] {
        if preset != [] {
          pw, tag, from := Salted(crypto, preset), Undefined, Preset;
        }
      }
      if sharedPassword != [] {
        pw, tag, from := Salted(crypto, sharedPassword), SharedAb(sharedPassword), Shared;
      }
    }

    /** While there is none: the stored one, the personal address book's, the built-in one. */
    method ChooseKept(ghost h: Handler, pw0: Bytes, tag0: PasswordSource, personal: Bytes, builtin: Bytes)
      returns (pw: Bytes, tag: PasswordSource, ghost from: Origin)
      requires h.password == pw0 && h.source == tag0 && h.config == config
      ensures pw == UseBuiltin(crypto, UsePersonal(UseConfig(h), personal), builtin).password
      ensures tag == UseBuiltin(crypto, UsePersonal(UseConfig(h), personal), builtin).source
      ensures from == UseBuiltin(crypto, UsePersonal(UseConfig(h), personal), builtin).origin
    {
      pw, tag, from := pw0, tag0, h.origin;
      if pw == [] {
        pw := config;
        if pw != [] {
          tag, from := Undefined, Stored;
        }
      }
      if pw == [] {
        if personal != [] {
          pw, tag, from := personal, PersonalAb(personal), Personal;
        }
      }
      if pw == [] {
        if builtin != [] {
          pw, tag, from := Salted(crypto, builtin), SharedAb(builtin), Shared;
        }
      }
    }

    method HandleLoginFromUi(text: Bytes, rememberIt: bool)
      modifies this
      ensures Value() == LoggedInFromUi(crypto, old(Value()), text, rememberIt)
    {
      var pw;
      if text == [] {
        pw := password;
        if pw == [] {
          pw := config;
          if pw != [] {
            source, origin := Undefined, Stored;
          }
        }
      } else {
        source, origin := Undefined, User;
        remember := rememberIt;
        pw := Salted(crypto, text);
      }
      password := pw;
    }

    method HandleLoginError(err: LoginError)
      modifies this`password
      ensures Value() == Failed(old(Value()), err)
    {
      if err == PasswordEmpty || err == PasswordWrong {
        password := [];
      }
    }

    method HandlePeerInfo() returns (push: Option<Bytes>)
      modifies this`config, this`disk
      ensures Value() == Connected(crypto, old(Value()))
      ensures push == Pushed(crypto, old(Value()))
    {
      var stored := disk;
      if remember {
        if password != [] && password != stored && !IsSharedAb(crypto, source, password) {
          stored := password;
        }
      } else {
        if IsPersonalAb(source, password) {
          stored := password;
        } else if stored != [] {
          stored := [];
        }
      }
      push := None;
      if stored != [] && !IsSharedAb(crypto, source, password) && !IsPersonalAb(source, password) {
        push := Some(stored);
      }
      disk := stored;
      config := stored;
    }
  }
}
