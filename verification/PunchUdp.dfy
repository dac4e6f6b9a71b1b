/** The retry loop of `punch_udp` in src/common.rs: empty packets at growing intervals until
    something arrives or time is up.  Times are in milliseconds. */
module PunchUdp {

  const FIRST_INTERVAL := 20
  const MAX_INTERVAL := 200
  const MAX_TIME := 20000

  function Grown(interval: nat): nat {
    var next := interval * 3 / 2;
    if next < MAX_INTERVAL then next else MAX_INTERVAL
  }

  /** The interval waited after the packet number `k` (the first packet is number 0). */
  function Backoff(k: nat): nat {
    if k == 0 then FIRST_INTERVAL else Grown(Backoff(k - 1))
  }

  /** Intervals never shrink and stay between 20 and 200 milliseconds. */
  lemma {:induction false} BackoffBounds(k: nat)
    ensures FIRST_INTERVAL <= Backoff(k) <= Backoff(k + 1) <= MAX_INTERVAL
  {
    if k > 0 {
      BackoffBounds(k - 1);
    }
  }

  lemma {:induction false} BackoffLevels(k: nat)
    requires k >= 6
    ensures Backoff(k) == MAX_INTERVAL
  {
    if k == 6 {
      assert Backoff(1) == 30;
      assert Backoff(2) == 45;
      assert Backoff(3) == 67;
      assert Backoff(4) == 100;
      assert Backoff(5) == 150;
    } else {
      BackoffLevels(k - 1);
    }
  }

  /** The least time from the first packet to packet number `k`. */
  function Waited(k: nat): nat {
    if k == 0 then 0 else Waited(k - 1) + Backoff(k - 1)
  }

  lemma {:induction false} WaitedClosed(k: nat)
    requires k >= 6
    ensures Waited(k) == 412 + 200 * (k - 6)
  {
    if k == 6 {
      assert Backoff(1) == 30;
      assert Backoff(2) == 45;
      assert Backoff(3) == 67;
      assert Backoff(4) == 100;
      assert Backoff(5) == 150;
      assert Waited(3) == 95;
    } else {
      WaitedClosed(k - 1);
      BackoffLevels(k - 1);
    }
  }

  // ----- the loop as a value -----

  /** One turn: the timer fires and the clock is read up to three times, or something is
      received. */
  datatype Turn = Timer(a: int, b: int, c: int) | Received(size: nat) | ReceiveError

  datatype Outcome = Running | TimedOut | Punched | Broken

  datatype State = State(interval: nat, sent: nat, lastSend: int, outcome: Outcome)

  function Start(lastSend: int): State {
    State(FIRST_INTERVAL, 1, lastSend, Running)
  }

  /** `tm` is the start of the time limit. */
  function Next(s: State, tm: int, listen: bool, t: Turn): State {
    if s.outcome != Running then s
    else
      match t
      case Timer(a, b, c) =>
        if a - tm > MAX_TIME then s.(outcome := TimedOut)
        else if b - s.lastSend >= s.interval then
          State(Grown(s.interval), s.sent + 1, c, Running)
        else s
      case Received(size) => if listen && size == 0 then s else s.(outcome := Punched)
      case ReceiveError => s.(outcome := Broken)
  }

  function Run(lastSend: int, tm: int, listen: bool, turns: seq<Turn>): State {
    if turns == [] then Start(lastSend)
    else Next(Run(lastSend, tm, listen, turns[..|turns| - 1]), tm, listen, turns[|turns| - 1])
  }

  /** Clock readings do not go back, within a turn and from turn to turn. */
  ghost predicate Monotone(from: int, turns: seq<Turn>) {
    forall i :: 0 <= i < |turns| && turns[i].Timer? ==>
      && from <= turns[i].a <= turns[i].b <= turns[i].c
      && forall j :: 0 <= j < i && turns[j].Timer? ==> turns[j].c <= turns[i].a
  }

  /** The time of the last send is the reading of an earlier turn, or the first one. */
  ghost predicate LastIsPast(s: State, lastSend: int, turns: seq<Turn>) {
    if s.sent == 1 then s.lastSend == lastSend
    else exists j :: 0 <= j < |turns| && turns[j].Timer? && turns[j].c == s.lastSend
  }

  lemma LastStaysPast(s: State, lastSend: int, tm: int, listen: bool, before: seq<Turn>, t: Turn)
    requires s.sent > 0 && LastIsPast(s, lastSend, before)
    ensures LastIsPast(Next(s, tm, listen, t), lastSend, before + [t])
  {
    var turns := before + [t];
    assert turns[|before|] == t;
    if s.sent != 1 {
      var j :| 0 <= j < |before| && before[j].Timer? && before[j].c == s.lastSend;
      assert turns[j] == before[j];
    }
  }

  // ----- how a run ends -----

  /** The turn ends the loop: a timer after the time limit, an error, or a reception, which for
      a listener must not be empty. */
  ghost predicate Ends(t: Turn, tm: int, listen: bool) {
    || (t.Timer? && t.a - tm > 20000)
    || t.ReceiveError?
    || (t.Received? && !(listen && t.size == 0))
  }

  lemma {:induction false} StoppedStays(lastSend: int, tm: int, listen: bool, turns: seq<Turn>, n: nat)
    requires n <= |turns| && Run(lastSend, tm, listen, turns[..n]).outcome != Running
    ensures Run(lastSend, tm, listen, turns) == Run(lastSend, tm, listen, turns[..n])
    decreases |turns| - n
  {
    if n == |turns| {
      assert turns[..n] == turns;
    } else {
      assert turns[..n + 1][..n] == turns[..n];
      StoppedStays(lastSend, tm, listen, turns, n + 1);
    }
  }

  /** Turn `i` is the first that ends the loop. */
  ghost predicate EndsFirst(turns: seq<Turn>, tm: int, listen: bool, i: nat) {
    i < |turns| && Ends(turns[i], tm, listen) && forall j :: 0 <= j < i ==> !Ends(turns[j], tm, listen)
  }

  /** The run goes on exactly while no turn ends it ... */
  lemma {:induction false} RunningIff(lastSend: int, tm: int, listen: bool, turns: seq<Turn>)
    ensures Run(lastSend, tm, listen, turns).outcome == Running
       <==> forall i :: 0 <= i < |turns| ==> !Ends(turns[i], tm, listen)
  {
    if turns != [] {
      var last := |turns| - 1;
      RunningIff(lastSend, tm, listen, turns[..last]);
      assert forall i :: 0 <= i < last ==> turns[..last][i] == turns[i];
    }
  }

  /** ... and its outcome is that of the first turn that does: timed out, broken, or punched.
      From then on nothing is sent. */
  lemma OutcomeIsFirstEnd(lastSend: int, tm: int, listen: bool, turns: seq<Turn>, i: nat)
    requires EndsFirst(turns, tm, listen, i)
    ensures var s := Run(lastSend, tm, listen, turns);
            && s.outcome == (if turns[i].Timer? then TimedOut else if turns[i].ReceiveError? then Broken else Punched)
            && s.sent == Run(lastSend, tm, listen, turns[..i]).sent
  {
    RunningIff(lastSend, tm, listen, turns[..i]);
    assert turns[..i + 1][..i] == turns[..i];
    StoppedStays(lastSend, tm, listen, turns, i + 1);
  }

  // ----- how many packets: the sleep alone -----

  /** Every timer turn comes after a sleep that lasts the interval, or longer. */
  ghost predicate Slept(lastSend: int, tm: int, listen: bool, turns: seq<Turn>) {
    forall i :: 0 <= i < |turns| && turns[i].Timer? ==>
      SleptUntil(tm, Run(lastSend, tm, listen, turns[..i]).interval, turns[..i], turns[i].a)
  }

  ghost predicate SleptUntil(tm: int, interval: nat, before: seq<Turn>, a: int) {
    && tm + interval <= a
    && forall j :: 0 <= j < |before| && before[j].Timer? ==> before[j].c + interval <= a
  }

  /** Packet number `sent - 1` left in time, and not before its intervals were over. */
  ghost predicate OnTime(s: State, tm: int) {
    && s.sent > 0
    && s.interval == Backoff(s.sent - 1)
    && (s.sent > 1 ==> Waited(s.sent - 1) <= s.lastSend - tm && Waited(s.sent - 1) <= MAX_TIME)
  }

  lemma SleepKeepsTime(s: State, tm: int, listen: bool, t: Turn)
    requires OnTime(s, tm)
    requires t.Timer? ==> t.a <= t.b <= t.c && tm + s.interval <= t.a
    requires t.Timer? && s.sent > 1 ==> s.lastSend + s.interval <= t.a
    ensures OnTime(Next(s, tm, listen, t), tm)
  {
    assert Waited(s.sent) == Waited(s.sent - 1) + Backoff(s.sent - 1);
    assert Backoff(s.sent) == Grown(Backoff(s.sent - 1));
  }

  lemma MonotonePrefix(from: int, turns: seq<Turn>, n: nat)
    requires n <= |turns| && Monotone(from, turns)
    ensures Monotone(from, turns[..n])
  {}

  lemma SleptPrefix(lastSend: int, tm: int, listen: bool, turns: seq<Turn>, n: nat)
    requires n <= |turns| && Slept(lastSend, tm, listen, turns)
    ensures Slept(lastSend, tm, listen, turns[..n])
  {
    forall i | 0 <= i < n ensures turns[..n][..i] == turns[..i] {}
  }

  lemma {:induction false} SleptRunIsOnTime(lastSend: int, tm: int, listen: bool, turns: seq<Turn>)
    requires Monotone(tm, turns) && Slept(lastSend, tm, listen, turns)
    ensures var s := Run(lastSend, tm, listen, turns); LastIsPast(s, lastSend, turns) && OnTime(s, tm)
  {
    if turns == [] {
      assert Waited(0) == 0;
    } else {
      var last := |turns| - 1;
      var s := Run(lastSend, tm, listen, turns[..last]);
      MonotonePrefix(tm, turns, last);
      SleptPrefix(lastSend, tm, listen, turns, last);
      SleptRunIsOnTime(lastSend, tm, listen, turns[..last]);
      if s.sent > 1 {
        var j :| 0 <= j < last && turns[..last][j].Timer? && turns[..last][j].c == s.lastSend;
        assert turns[j] == turns[..last][j];
      }
      SleepKeepsTime(s, tm, listen, turns[last]);
      assert turns == turns[..last] + [turns[last]];
      LastStaysPast(s, lastSend, tm, listen, turns[..last], turns[last]);
    }
  }

  /** While no sleep ends early, at most 104 packets are sent, however the clock readings
      of a turn and the two at the start lie apart. */
  lemma SleepBoundsPackets(lastSend: int, tm: int, listen: bool, turns: seq<Turn>)
    requires Monotone(tm, turns) && Slept(lastSend, tm, listen, turns)
    ensures Run(lastSend, tm, listen, turns).sent <= 104
  {
    SleptRunIsOnTime(lastSend, tm, listen, turns);
    var k := Run(lastSend, tm, listen, turns).sent - 1;
    if k >= 6 {
      WaitedClosed(k);
    }
  }

  // ----- how many packets: sleeps that may end early -----

  /** What the first packet gains from a start of the time limit after it. */
  function HeadStart(lastSend: int, tm: int): nat
    requires lastSend <= tm
  {
    if tm - lastSend < FIRST_INTERVAL then tm - lastSend else FIRST_INTERVAL
  }

  /** Every packet took its time, counted from the start of the time limit, and the packet
      before the last had taken it when the time limit was looked at. */
  ghost predicate Paced(s: State, lastSend: int, tm: int)
    requires lastSend <= tm
  {
    var e := HeadStart(lastSend, tm);
    && s.sent > 0
    && s.interval == Backoff(s.sent - 1)
    && (s.sent > 1 ==> Waited(s.sent - 1) - e <= s.lastSend - tm)
    && (s.sent > 2 ==> Waited(s.sent - 2) - e <= MAX_TIME)
  }

  /** The last packet was in time by a clock that is `gap` fast. */
  ghost predicate Timely(s: State, lastSend: int, tm: int, gap: nat)
    requires lastSend <= tm
  {
    s.sent > 1 ==> Waited(s.sent - 1) - HeadStart(lastSend, tm) <= MAX_TIME + gap
  }

  lemma SendKeepsPace(s: State, lastSend: int, tm: int, t: Turn)
    requires lastSend <= tm && Paced(s, lastSend, tm)
    requires s.sent == 1 ==> s.lastSend == lastSend
    requires t.Timer? && tm <= t.a <= t.b <= t.c && s.lastSend <= t.a <= tm + MAX_TIME
    requires t.b - s.lastSend >= s.interval
    ensures var k := s.sent; var e := HeadStart(lastSend, tm);
            && Waited(k) - e <= t.b - tm
            && (k > 1 ==> Waited(k - 1) - e <= MAX_TIME)
  {
    assert Waited(0) == 0 && Backoff(0) == FIRST_INTERVAL;
    assert Waited(s.sent) == Waited(s.sent - 1) + Backoff(s.sent - 1);
  }

  lemma TimerKeepsPace(s: State, lastSend: int, tm: int, listen: bool, t: Turn, gap: nat)
    requires lastSend <= tm && Paced(s, lastSend, tm)
    requires s.sent == 1 ==> s.lastSend == lastSend
    requires t.Timer? ==> tm <= t.a <= t.b <= t.c && s.lastSend <= t.a
    ensures Paced(Next(s, tm, listen, t), lastSend, tm)
    ensures Timely(s, lastSend, tm, gap) && (t.Timer? ==> t.b - t.a <= gap) ==>
              Timely(Next(s, tm, listen, t), lastSend, tm, gap)
  {
    var r := Next(s, tm, listen, t);
    if r.sent == s.sent {
      assert r == s.(outcome := r.outcome);
    } else {
      SendKeepsPace(s, lastSend, tm, t);
      assert r.sent == s.sent + 1 && r.interval == Backoff(s.sent) && r.lastSend == t.c;
    }
  }

  /** The time limit and the interval are looked at within `gap` of each other. */
  ghost predicate GapsWithin(turns: seq<Turn>, gap: nat) {
    forall i :: 0 <= i < |turns| && turns[i].Timer? ==> turns[i].b - turns[i].a <= gap
  }

  lemma {:induction false} RunIsPaced(lastSend: int, tm: int, listen: bool, turns: seq<Turn>, gap: nat)
    requires lastSend <= tm && Monotone(tm, turns)
    ensures var s := Run(lastSend, tm, listen, turns); LastIsPast(s, lastSend, turns) && Paced(s, lastSend, tm)
    ensures GapsWithin(turns, gap) ==> Timely(Run(lastSend, tm, listen, turns), lastSend, tm, gap)
  {
    if turns != [] {
      var last := |turns| - 1;
      var before := turns[..last];
      var s := Run(lastSend, tm, listen, before);
      MonotonePrefix(tm, turns, last);
      assert GapsWithin(turns, gap) ==> GapsWithin(before, gap);
      RunIsPaced(lastSend, tm, listen, before, gap);
      if s.sent > 1 {
        var j :| 0 <= j < last && before[j].Timer? && before[j].c == s.lastSend;
        assert turns[j] == before[j];
      }
      TimerKeepsPace(s, lastSend, tm, listen, turns[last], gap);
      assert turns == turns[..last] + [turns[last]];
      LastStaysPast(s, lastSend, tm, listen, turns[..last], turns[last]);
    }
  }

  lemma CountBound(k: nat, room: nat)
    requires Waited(k) <= MAX_TIME + room
    ensures k <= 103 + (188 + room) / 200
  {
    if k >= 6 {
      WaitedClosed(k);
    }
  }

  /** The most packets the loop can send: `e` is the head start of the first packet and
      `gap` the most time between the two looks at the clock in one turn. */
  function MaxPackets(e: nat, gap: nat): nat {
    var a := (188 + e + gap) / 200;
    var b := 1 + (188 + e) / 200;
    104 + (if a < b then a else b)
  }

  /** The loop's own looks at the clock bound the packets too, for any sleeps. */
  lemma PacketBound(lastSend: int, tm: int, listen: bool, turns: seq<Turn>, gap: nat)
    requires lastSend <= tm && Monotone(tm, turns) && GapsWithin(turns, gap)
    ensures Run(lastSend, tm, listen, turns).sent <= MaxPackets(HeadStart(lastSend, tm), gap)
  {
    RunIsPaced(lastSend, tm, listen, turns, gap);
    var s := Run(lastSend, tm, listen, turns);
    var e := HeadStart(lastSend, tm);
    if s.sent > 1 {
      CountBound(s.sent - 1, e + gap);
    }
    if s.sent > 2 {
      CountBound(s.sent - 2, e);
    }
  }

  /** The clock is read once a turn. */
  ghost predicate SingleReading(turns: seq<Turn>) {
    forall i :: 0 <= i < |turns| && turns[i].Timer? ==> turns[i].a == turns[i].b == turns[i].c
  }

  /** With one clock reading a turn and the two start readings at the same moment, at most
      104 packets are sent. */
  lemma AtMost104(start: int, listen: bool, turns: seq<Turn>)
    requires Monotone(start, turns) && SingleReading(turns)
    ensures Run(start, start, listen, turns).sent <= 104
  {
    PacketBound(start, start, listen, turns, 0);
  }

  // ----- runs that reach the bounds -----

  /** When packet number `k` leaves at the earliest, `start` after a first packet at 0. */
  function Earliest(start: nat, k: nat): int {
    start + Waited(k) - HeadStart(0, start)
  }

  /** Timers that fire exactly when the interval is over. */
  function Punctual(start: nat, n: nat): seq<Turn> {
    if n == 0 then []
    else
      var t := Earliest(start, n);
      Punctual(start, n - 1) + [Timer(t, t, t)]
  }

  lemma {:induction false} WaitedGrows(j: nat, k: nat)
    requires j <= k
    ensures Waited(j) <= Waited(k)
  {
    if j < k {
      WaitedGrows(j, k - 1);
    }
  }

  lemma EarliestGrows(start: nat, j: nat, k: nat)
    requires 0 < j <= k
    ensures start <= Earliest(start, j) <= Earliest(start, k)
  {
    assert Waited(0) == 0 && Waited(1) == FIRST_INTERVAL;
    WaitedGrows(1, j);
    WaitedGrows(j, k);
  }

  lemma {:induction false} PunctualAt(start: nat, n: nat, i: nat)
    requires i < n
    ensures |Punctual(start, n)| == n
    ensures Punctual(start, n)[i] == Timer(Earliest(start, i + 1), Earliest(start, i + 1), Earliest(start, i + 1))
    ensures Punctual(start, n)[..i] == Punctual(start, i)
  {
    if i < n - 1 {
      PunctualAt(start, n - 1, i);
      assert Punctual(start, n)[..i] == Punctual(start, n - 1)[..i];
    } else if n > 1 {
      PunctualAt(start, n - 1, 0);
    }
  }

  /** Readings `before` are monotone, and stay so when a later turn follows. */
  lemma PunctualThen(start: nat, n: nat, t: Turn)
    requires t.Timer? && start <= t.a <= t.b <= t.c && (n > 0 ==> Earliest(start, n) <= t.a)
    ensures |Punctual(start, n)| == n && Monotone(start, Punctual(start, n) + [t])
    ensures GapsWithin(Punctual(start, n) + [t], t.b - t.a)
  {
    var p := Punctual(start, n);
    var turns := p + [t];
    if n > 0 {
      PunctualAt(start, n, 0);
    }
    forall i | 0 <= i < n
      ensures turns[i].Timer? && start <= turns[i].a == turns[i].b == turns[i].c == Earliest(start, i + 1) <= t.a
    {
      PunctualAt(start, n, i);
      EarliestGrows(start, i + 1, n);
    }
    forall i, j | 0 <= j < i < n ensures turns[j].c <= turns[i].a {
      EarliestGrows(start, j + 1, i + 1);
    }
    assert turns[n] == t;
  }

  lemma PunctualIsMonotone(start: nat, n: nat)
    requires n > 0
    ensures Monotone(start, Punctual(start, n))
  {
    var t := Earliest(start, n);
    EarliestGrows(start, n, n);
    if n > 1 {
      EarliestGrows(start, n - 1, n);
    }
    PunctualThen(start, n - 1, Timer(t, t, t));
  }

  lemma {:induction false} PunctualRun(start: nat, n: nat)
    requires n > 0 ==> Earliest(start, n) <= start + MAX_TIME
    ensures Run(0, start, false, Punctual(start, n))
         == State(Backoff(n), n + 1, if n == 0 then 0 else Earliest(start, n), Running)
  {
    if n > 0 {
      if n > 1 {
        WaitedGrows(n - 1, n);
      }
      PunctualRun(start, n - 1);
      var t := Punctual(start, n);
      assert t[..|t| - 1] == Punctual(start, n - 1);
      assert Waited(n) == Waited(n - 1) + Backoff(n - 1);
      assert Waited(0) == 0 && Backoff(0) == FIRST_INTERVAL;
    }
  }

  /** A last turn that looks at the time limit as late as it may, and at the interval as
      late as it must. */
  function LastTurn(start: nat, k: nat): Turn {
    var t := Earliest(start, k);
    Timer(if t < start + MAX_TIME then t else start + MAX_TIME, t, t)
  }

  lemma LastTurnSends(start: nat, k: nat)
    requires k > 1 && Earliest(start, k - 1) <= start + MAX_TIME
    ensures var turns := Punctual(start, k - 1) + [LastTurn(start, k)];
            && Run(0, start, false, turns).sent == k + 1 && Monotone(start, turns)
            && GapsWithin(turns, LastTurn(start, k).b - LastTurn(start, k).a)
  {
    var t := LastTurn(start, k);
    var turns := Punctual(start, k - 1) + [t];
    PunctualRun(start, k - 1);
    EarliestGrows(start, k - 1, k);
    PunctualThen(start, k - 1, t);
    assert turns[..|turns| - 1] == Punctual(start, k - 1);
    assert Waited(k) == Waited(k - 1) + Backoff(k - 1);
  }

  lemma RoomFor(e: nat, gap: nat)
    requires e <= FIRST_INTERVAL
    ensures var k := MaxPackets(e, gap) - 1;
            k > 1 && Waited(k - 1) - e <= MAX_TIME && Waited(k) - e <= MAX_TIME + gap
  {
    var k := MaxPackets(e, gap) - 1;
    WaitedClosed(k - 1);
    WaitedClosed(k);
  }

  /** The bound is exact: for every head start and every gap some run sends that many. */
  lemma PacketBoundIsReached(start: nat, gap: nat)
    ensures var k := MaxPackets(HeadStart(0, start), gap) - 1;
            && k > 1
            && var turns := Punctual(start, k - 1) + [LastTurn(start, k)];
            && Monotone(start, turns) && GapsWithin(turns, gap)
            && Run(0, start, false, turns).sent == MaxPackets(HeadStart(0, start), gap)
  {
    var k := MaxPackets(HeadStart(0, start), gap) - 1;
    RoomFor(HeadStart(0, start), gap);
    LastTurnSends(start, k);
  }

  /** With the two start readings at the same moment, a packet number 105 is possible if and
      only if a turn may take 12 milliseconds from one look at the clock to the next. */
  lemma MoreThan104Iff(gap: nat)
    ensures (exists turns :: Monotone(0, turns) && GapsWithin(turns, gap) && Run(0, 0, false, turns).sent > 104)
       <==> gap >= 12
  {
    if gap >= 12 {
      PacketBoundIsReached(0, gap);
      var k := MaxPackets(0, gap) - 1;
      var turns := Punctual(0, k - 1) + [LastTurn(0, k)];
      assert Monotone(0, turns) && GapsWithin(turns, gap) && Run(0, 0, false, turns).sent > 104;
    } else {
      forall turns | Monotone(0, turns) && GapsWithin(turns, gap) ensures Run(0, 0, false, turns).sent <= 104 {
        PacketBound(0, 0, false, turns, gap);
      }
    }
  }

  /** A run of 105 packets: the last sleep ends 12 milliseconds early and the process is held
      up for as long between the two looks at the clock. */
  lemma OneMoreThan104()
    ensures var turns := Punctual(0, 103) + [Timer(20000, 20012, 20012)];
            Monotone(0, turns) && Run(0, 0, false, turns).sent == 105
  {
    WaitedClosed(104);
    assert LastTurn(0, 104) == Timer(20000, 20012, 20012);
    WaitedClosed(103);
    LastTurnSends(0, 104);
  }

  lemma PunctualSleeps(n: nat, i: nat)
    requires i < n <= 103
    ensures |Punctual(0, n)| == n
    ensures Run(0, 0, false, Punctual(0, n)[..i]).interval == Backoff(i)
    ensures Earliest(0, i + 1) == Earliest(0, i) + Backoff(i)
  {
    PunctualAt(0, n, i);
    WaitedGrows(i, 103);
    WaitedClosed(103);
    PunctualRun(0, i);
  }

  lemma PunctualIsSleptUntil(i: nat)
    ensures SleptUntil(0, Backoff(i), Punctual(0, i), Earliest(0, i) + Backoff(i))
  {
    forall j | 0 <= j < |Punctual(0, i)| ensures Punctual(0, i)[j].Timer? && Punctual(0, i)[j].c <= Earliest(0, i) {
      if i > 0 {
        PunctualAt(0, i, 0);
        PunctualAt(0, i, j);
        EarliestGrows(0, j + 1, i);
      }
    }
  }

  lemma PunctualIsSlept(n: nat)
    requires n <= 103
    ensures Slept(0, 0, false, Punctual(0, n))
  {
    var turns := Punctual(0, n);
    if n > 0 {
      PunctualAt(0, n, 0);
    }
    forall i | 0 <= i < |turns|
      ensures turns[i].Timer?
      ensures SleptUntil(0, Run(0, 0, false, turns[..i]).interval, turns[..i], turns[i].a)
    {
      PunctualSleeps(n, i);
      PunctualAt(0, n, i);
      PunctualIsSleptUntil(i);
    }
  }

  /** The bound of 104 is reached, with no sleep that ends early. */
  lemma Exactly104()
    ensures var turns := Punctual(0, 103);
            Monotone(0, turns) && Slept(0, 0, false, turns) && Run(0, 0, false, turns).sent == 104
  {
    WaitedClosed(103);
    PunctualRun(0, 103);
    PunctualIsSlept(103);
    PunctualIsMonotone(0, 103);
  }

  // ----- the loop as the client runs it -----

  method PunchUdp(lastSend: int, tm: int, listen: bool, turns: seq<Turn>) returns (outcome: Outcome, sent: nat)
    ensures outcome == Run(lastSend, tm, listen, turns).outcome
    ensures sent == Run(lastSend, tm, listen, turns).sent
  {
    var interval: nat, last := FIRST_INTERVAL, lastSend;
    sent, outcome := 1, Running;
    for i := 0 to |turns|
      invariant State(interval, sent, last, outcome) == Run(lastSend, tm, listen, turns[..i])
      invariant outcome == Running
    {
      assert turns[..i + 1][..i] == turns[..i];
      match turns[i] {
        case Timer(a, b, c) =>
          if a - tm > MAX_TIME {
            outcome := TimedOut;
          } else if b - last >= interval {
            sent := sent + 1;
            interval := if interval * 3 / 2 < MAX_INTERVAL then interval * 3 / 2 else MAX_INTERVAL;
            last := c;
          }
        case Received(size) =>
          if !(listen && size == 0) {
            outcome := Punched;
          }
        case ReceiveError =>
          outcome := Broken;
      }
      if outcome != Running {
        StoppedStays(lastSend, tm, listen, turns, i + 1);
        return;
      }
    }
    assert turns[..|turns|] == turns;
  }
}
