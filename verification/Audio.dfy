/** The adaptive audio ring buffer of the client (`AudioBuffer` in src/client.rs).

The value part (`Audio`) says what one append, shrink, device pop or resize does to the
buffer and follows every sample of the appended stream through whole runs.  The class
`AudioBuffer` is the buffer as the client updates it, proved against the value part.
 */
module Audio {
  import opened Common

  type Sample = real

  /** Milliseconds of audio the ring can hold. */
  const AUDIO_BUFFER_MS := 3000
  /** Number of occupancy buckets, each a tenth of a second wide. */
  const BUCKETS := 30
  /** Milliseconds between two evaluations of the histogram. */
  const SHRINK_PERIOD := 12000

  /** `ring` is the FIFO, oldest sample first; `rate` is samples per second over all
      channels; `hist` counts the occupancies seen since it was last cleared; `tms` is the
      time of the last evaluation (0: none yet). */
  datatype State = State(ring: seq<Sample>, capacity: nat, rate: nat, hist: seq<nat>, tms: int)

  ghost predicate WellFormed(s: State) {
    && |s.ring| <= s.capacity
    && s.capacity == 3 * s.rate
    && |s.hist| == BUCKETS
  }

  function CapacityFor(rate: nat): nat {
    rate * AUDIO_BUFFER_MS / 1000
  }

  function ZeroHist(): seq<nat> {
    seq(BUCKETS, _ => 0)
  }

  function Initial(): State {
    State([], CapacityFor(48000 * 2), 48000 * 2, ZeroHist(), 0)
  }

  // ----- the FIFO -----

  /** The newest `n` elements of `s`, or all of them. */
  function Newest<T>(s: seq<T>, n: nat): seq<T> {
    if |s| <= n then s else s[|s| - n..]
  }

  function Resized(s: State, sampleRate: nat, channels: nat): State {
    var capacity := CapacityFor(sampleRate * channels);
    if capacity == s.capacity then s
    else s.(ring := [], capacity := capacity, rate := sampleRate * channels)
  }

  function Appended(s: State, block: seq<Sample>): State {
    s.(ring := Newest(s.ring + block, s.capacity))
  }

  function Popped(s: State, n: nat): State {
    s.(ring := s.ring[PopCount(s, n)..])
  }

  function PopCount(s: State, n: nat): nat {
    if |s.ring| < n then |s.ring| else n
  }

  // ----- the histogram -----

  /** The bucket an occupancy of `having` samples falls in. */
  function Bucket(having: nat, rate: nat): nat
    requires rate > 0
  {
    var i := having * 10 / rate;
    if i > BUCKETS - 1 then BUCKETS - 1 else i
  }

  /** Length of the leading run of zeros. */
  function LeadingZeros(h: seq<nat>): nat {
    if h == [] || h[0] != 0 then 0 else 1 + LeadingZeros(h[1..])
  }

  /** `m` is the first index holding the largest count among buckets 1 .. |h|-1, and 0
      when those are all empty. */
  ghost predicate IsMode(h: seq<nat>, m: nat) {
    && m < |h|
    && (m == 0 ==> forall j :: 1 <= j < |h| ==> h[j] == 0)
    && (m > 0 ==>
          && h[m] > 0
          && (forall j :: 1 <= j < m ==> h[j] < h[m])
          && (forall j :: m <= j < |h| ==> h[j] <= h[m]))
  }

  lemma ModeIsUnique(h: seq<nat>, m: nat, m': nat)
    requires IsMode(h, m) && IsMode(h, m')
    ensures m == m'
  {}

  function ModeUpTo(h: seq<nat>, n: nat): (m: nat)
    requires 1 <= n <= |h|
    ensures IsMode(h[..n], m)
  {
    if n == 1 then 0 else
      var m := ModeUpTo(h, n - 1);
      assert forall j :: 0 <= j < n - 1 ==> h[..n - 1][j] == h[..n][j];
      if m == 0 then (if h[n - 1] > 0 then n - 1 else 0)
      else if h[n - 1] > h[m] then n - 1 else m
  }

  function Mode(h: seq<nat>): (m: nat)
    requires |h| == BUCKETS
    ensures IsMode(h, m)
  {
    assert h[..BUCKETS] == h;
    ModeUpTo(h, BUCKETS)
  }

  /** How many samples one evaluation of `h` wants to drop from a ring of `capacity`. */
  function SkipAmount(h: seq<nat>, capacity: nat): nat
    requires |h| == BUCKETS
  {
    var zero := LeadingZeros(h) * 2 / 3;
    var max := Mode(h);
    if max < 6 then 0 else
      var mark := if max > zero * 4 then zero * 4 else max;
      RoundUpToEven(capacity * mark / (30 * 4))
  }

  /** `(n + 1) & !1`. */
  function RoundUpToEven(n: nat): nat {
    (n + 1) / 2 * 2
  }

  /** How many samples an evaluation does drop, given the occupancy at that moment. */
  function DropCount(h: seq<nat>, capacity: nat, having: nat): nat
    requires |h| == BUCKETS
  {
    var skip := SkipAmount(h, capacity);
    if having > skip * 3 then skip else 0
  }

  /** An occupancy can be counted: the division by the rate is defined. */
  predicate Countable(s: State) {
    |s.hist| == BUCKETS && s.rate > 0
  }

  function Bumped(s: State, having: nat): seq<nat>
    requires Countable(s)
  {
    var i := Bucket(having, s.rate);
    s.hist[i := s.hist[i] + 1]
  }

  predicate Due(tms: int, now: int) {
    tms != 0 && now >= tms + SHRINK_PERIOD
  }

  /** `having` is the occupancy reported by the append that triggers the shrink; the ring
      may have been popped since. */
  function Shrunk(s: State, having: nat, now: int): State
    requires Countable(s)
  {
    var h := Bumped(s, having);
    if s.tms == 0 then s.(hist := h, tms := now)
    else if !Due(s.tms, now) then s.(hist := h)
    else
      var drop := DropCount(h, s.capacity, |s.ring|);
      s.(hist := ZeroHist(), tms := now, ring := if drop <= |s.ring| then s.ring[drop..] else [])
  }

  // ----- safety of the drop -----

  /** One recorded occupancy, with the rate at which it was recorded. */
  datatype Record = Record(having: nat, rate: nat)

  /** `hist` counts exactly the recorded occupancies of `window`. */
  ghost predicate Counts(window: seq<Record>, hist: seq<nat>) {
    && |hist| == BUCKETS
    && (forall r :: r in window ==> r.rate > 0)
    && forall i :: 0 <= i < BUCKETS ==> hist[i] == CountIn(window, i)
  }

  ghost function CountIn(window: seq<Record>, i: nat): nat
    requires forall r :: r in window ==> r.rate > 0
  {
    if window == [] then 0
    else
      assert window[|window| - 1] in window;
      CountIn(window[..|window| - 1], i) +
      (if Bucket(window[|window| - 1].having, window[|window| - 1].rate) == i then 1 else 0)
  }

  lemma {:induction false} CountsMember(window: seq<Record>, r: Record)
    requires forall r :: r in window ==> r.rate > 0
    requires r in window
    ensures CountIn(window, Bucket(r.having, r.rate)) > 0
  {
    var last := |window| - 1;
    if window[last] != r {
      CountsMember(window[..last], r);
    }
  }

  lemma CountsExtend(window: seq<Record>, hist: seq<nat>, r: Record)
    requires Counts(window, hist) && r.rate > 0
    ensures Bucket(r.having, r.rate) < BUCKETS
    ensures Counts(window + [r], hist[Bucket(r.having, r.rate) := hist[Bucket(r.having, r.rate)] + 1])
  {
    var w := window + [r];
    assert w[..|w| - 1] == window;
    forall r' | r' in w ensures r'.rate > 0 {}
  }

  lemma CountsEmpty()
    ensures Counts([], ZeroHist())
  {}

  lemma {:induction false} LeadingZerosBound(h: seq<nat>, i: nat)
    requires i < |h| && h[i] > 0
    ensures LeadingZeros(h) <= i
  {
    if h[0] == 0 {
      LeadingZerosBound(h[1..], i - 1);
    }
  }

  /** `LeadingZeros` is what its name says. */
  lemma {:induction false} LeadingZerosMeaning(h: seq<nat>)
    ensures LeadingZeros(h) <= |h|
    ensures forall j :: 0 <= j < LeadingZeros(h) ==> h[j] == 0
    ensures LeadingZeros(h) < |h| ==> h[LeadingZeros(h)] != 0
  {
    if h != [] && h[0] == 0 {
      LeadingZerosMeaning(h[1..]);
      forall j | 0 <= j < LeadingZeros(h) ensures h[j] == 0 {
        if j > 0 { assert h[j] == h[1..][j - 1]; }
      }
    }
  }

  /** The arithmetic of the drop: with `lead` leading empty buckets, every occupancy at or
      above bucket `lead` is at least the amount dropped. */
  lemma SkipBelowLead(rate: nat, lead: nat, mark: nat, having: nat)
    requires rate > 0
    requires mark <= lead * 2 / 3 * 4
    requires having * 10 >= lead * rate
    ensures RoundUpToEven(3 * rate * mark / 120) <= having
  {
    var zero := lead * 2 / 3;
    var q := 3 * rate * mark / 120;
    if q > 0 {
      assert rate * mark <= rate * (zero * 4);
      assert 3 * rate * mark == 3 * (rate * mark);
      assert 3 * rate * mark <= 12 * (rate * zero);
      assert 120 * q <= 12 * (rate * zero);
      assert zero > 0;
      assert rate * (lead - zero) >= 1;
      assert rate * lead == rate * zero + rate * (lead - zero);
      assert RoundUpToEven(q) <= q + 1;
    }
  }

  lemma QuotientBelow(x: nat, rate: nat)
    requires rate > 0
    ensures x / rate * rate <= x
  {}

  lemma BucketLowerBound(having: nat, rate: nat, lead: nat)
    requires rate > 0
    requires lead <= Bucket(having, rate)
    ensures having * 10 >= lead * rate
  {
    QuotientBelow(having * 10, rate);
    ProductOrder(lead, having * 10 / rate, rate);
  }

  /** An evaluation never wants to drop more than any occupancy counted in its window, as
      long as the window was recorded at the present rate. */
  lemma SkipIsSafe(window: seq<Record>, hist: seq<nat>, rate: nat, r: Record)
    requires rate > 0
    requires Counts(window, hist)
    requires r in window && r.rate == rate
    ensures SkipAmount(hist, 3 * rate) <= r.having
  {
    var i := Bucket(r.having, r.rate);
    CountsMember(window, r);
    LeadingZerosBound(hist, i);
    BucketLowerBound(r.having, rate, LeadingZeros(hist));
    var lead := LeadingZeros(hist);
    var zero := lead * 2 / 3;
    var max := Mode(hist);
    if max >= 6 {
      SkipBelowLead(rate, lead, if max > zero * 4 then zero * 4 else max, r.having);
    }
  }

  lemma LeadingZerosUnique(h: seq<nat>, z: nat)
    requires z <= |h|
    requires forall j :: 0 <= j < z ==> h[j] == 0
    requires z < |h| ==> h[z] != 0
    ensures z == LeadingZeros(h)
  {
    LeadingZerosMeaning(h);
  }

  // ----- whole runs -----

  datatype Event =
    | AppendBlock(block: seq<Sample>)
    | ShrinkAt(now: int)
    | DevicePop(n: nat)
    | ResizeTo(sampleRate: nat, channels: nat)

  /** A run so far.  `stream` is everything ever appended; `heard` the stream indices the
      device has played, in order; `dropped` the number of samples discarded; `pending` the
      occupancy an append has reported and no shrink has consumed; `window` the occupancies
      counted since the histogram was last cleared. */
  datatype Run = Run(st: State, stream: seq<Sample>, heard: seq<int>, dropped: nat,
                     pending: seq<nat>, window: seq<Record>)

  function Start(): Run {
    Run(Initial(), [], [], 0, [], [])
  }

  /** The stream index of the oldest buffered sample. */
  function Oldest(r: Run): int {
    |r.stream| - |r.st.ring|
  }

  /** Appending, shrinking and resizing belong to one thread: each append is followed by
      its own shrink, with only device pops in between.  A ring of capacity 0 cannot be made,
      and a shrink at rate 0 would divide by it. */
  predicate Enabled(r: Run, e: Event) {
    match e
    case AppendBlock(_) => r.pending == []
    case ShrinkAt(_) => |r.pending| == 1 && Countable(r.st)
    case DevicePop(_) => true
    case ResizeTo(sampleRate, channels) => r.pending == [] && sampleRate * channels > 0
  }

  ghost predicate Increasing(s: seq<int>, bound: int) {
    && (forall i :: 0 <= i < |s| ==> s[i] < bound)
    && forall i, j :: 0 <= i < j < |s| ==> s[i] < s[j]
  }

  ghost predicate Inv(r: Run) {
    && WellFormed(r.st)
    && r.st.rate > 0
    && |r.st.ring| <= |r.stream|
    && r.st.ring == r.stream[Oldest(r)..]
    && |r.heard| + r.dropped + |r.st.ring| == |r.stream|
    && Increasing(r.heard, Oldest(r))
    && Counts(r.window, r.st.hist)
  }

  function Indices(from: int, n: nat): (s: seq<int>)
    ensures |s| == n && forall i :: 0 <= i < n ==> s[i] == from + i
  {
    seq(n, i => from + i)
  }

  /** Samples a due shrink discards. */
  function ShrinkDrop(s: State, having: nat, now: int): nat
    requires Countable(s)
  {
    if Due(s.tms, now) then DropCount(Bumped(s, having), s.capacity, |s.ring|) else 0
  }

  function Step(r: Run, e: Event): Run
    requires Enabled(r, e)
  {
    match e
    case AppendBlock(block) =>
      var st := Appended(r.st, block);
      r.(st := st, stream := r.stream + block, pending := [|st.ring|],
         dropped := r.dropped + (|r.st.ring| + |block| - |st.ring|))
    case ShrinkAt(now) =>
      var having := r.pending[0];
      r.(st := Shrunk(r.st, having, now), pending := [],
         dropped := r.dropped + ShrinkDrop(r.st, having, now),
         window := if Due(r.st.tms, now) then [] else r.window + [Record(having, r.st.rate)])
    case DevicePop(n) =>
      r.(st := Popped(r.st, n), heard := r.heard + Indices(Oldest(r), PopCount(r.st, n)))
    case ResizeTo(sampleRate, channels) =>
      var st := Resized(r.st, sampleRate, channels);
      r.(st := st, dropped := r.dropped + (|r.st.ring| - |st.ring|))
  }

  lemma StartInv()
    ensures Inv(Start())
  {
    CountsEmpty();
  }

  lemma DropFits(h: seq<nat>, capacity: nat, having: nat)
    requires |h| == BUCKETS
    ensures DropCount(h, capacity, having) <= having
    ensures DropCount(h, capacity, having) > 0 ==> having > 3 * DropCount(h, capacity, having)
    ensures DropCount(h, capacity, having) % 2 == 0
  {
    var skip := SkipAmount(h, capacity);
    if skip > 0 {
      var half := skip / 2;
      assert skip == 2 * half;
    }
  }

  lemma AppendInv(r: Run, block: seq<Sample>)
    requires Inv(r) && Enabled(r, AppendBlock(block))
    ensures Inv(Step(r, AppendBlock(block)))
  {
    assert r.st.ring + block == (r.stream + block)[Oldest(r)..];
  }

  lemma PopInv(r: Run, n: nat)
    requires Inv(r)
    ensures Inv(Step(r, DevicePop(n)))
  {
    var k := PopCount(r.st, n);
    assert r.st.ring[k..] == r.stream[Oldest(r) + k..];
  }

  /** What a shrink does to the buffer, in one line per field. */
  lemma ShrinkEffect(s: State, having: nat, now: int)
    requires WellFormed(s) && s.rate > 0
    ensures var s' := Shrunk(s, having, now);
            var drop := ShrinkDrop(s, having, now);
            && drop <= |s.ring| && s'.ring == s.ring[drop..]
            && s'.capacity == s.capacity && s'.rate == s.rate
            && s'.hist == if Due(s.tms, now) then ZeroHist() else Bumped(s, having)
  {
    DropFits(Bumped(s, having), s.capacity, |s.ring|);
  }

  lemma ShrinkInv(r: Run, now: int)
    requires Inv(r) && Enabled(r, ShrinkAt(now))
    ensures Inv(Step(r, ShrinkAt(now)))
  {
    ShrinkEffect(r.st, r.pending[0], now);
    CountsExtend(r.window, r.st.hist, Record(r.pending[0], r.st.rate));
    CountsEmpty();
    var drop := ShrinkDrop(r.st, r.pending[0], now);
    assert r.st.ring[drop..] == r.stream[Oldest(r) + drop..];
  }

  lemma StepInv(r: Run, e: Event)
    requires Inv(r) && Enabled(r, e)
    ensures Inv(Step(r, e))
  {
    match e {
      case AppendBlock(block) => AppendInv(r, block);
      case ShrinkAt(now) => ShrinkInv(r, now);
      case DevicePop(n) => PopInv(r, n);
      case ResizeTo(sampleRate, channels) =>
    }
  }

  /** The runs of the buffer: what a sequence of enabled events leads to from the start. */
  ghost predicate Reaches(events: seq<Event>, r: Run) {
    if events == [] then r == Start()
    else
      var last := |events| - 1;
      exists r0 :: Reaches(events[..last], r0) && Enabled(r0, events[last]) && r == Step(r0, events[last])
  }

  /** A buffer that was never resized takes three seconds of 48 kHz stereo. */
  lemma StartsAtStereo(r: Run)
    requires Reaches([], r)
    ensures r.st.rate == 2 * 48000 && r.st.capacity == 3 * 2 * 48000 && r.st.ring == [] && r.st.tms == 0
  {}

  /** Every run: the capacity is three seconds of audio, the buffer is exactly the tail of
      the appended stream, every sample is played once, dropped or still buffered, samples
      are played in stream order, and the histogram counts exactly its window. */
  lemma {:induction false} RunInvariant(events: seq<Event>, r: Run)
    requires Reaches(events, r)
    ensures Inv(r)
  {
    if events == [] {
      StartInv();
    } else {
      var last := |events| - 1;
      var r0 :| Reaches(events[..last], r0) && Enabled(r0, events[last]) && r == Step(r0, events[last]);
      RunInvariant(events[..last], r0);
      StepInv(r0, events[last]);
    }
  }

  /** No run is stuck: the shrink that follows an append is always possible, and every
      enabled event leads to a longer run. */
  lemma RunExtends(events: seq<Event>, r: Run, e: Event)
    requires Reaches(events, r)
    ensures e.ShrinkAt? ==> (Enabled(r, e) <==> |r.pending| == 1)
    ensures Enabled(r, e) ==> Reaches(events + [e], Step(r, e))
  {
    RunInvariant(events, r);
    var longer := events + [e];
    assert longer[..|events|] == events && longer[|events|] == e;
  }

  /** What a shrink drops: an even count, only when due and when 600 ms or more have been
      buffered at some time counted, less than a third of what is buffered, and at most
      every occupancy counted since the histogram was last cleared (the present one
      included) that was recorded at the present rate. */
  ghost predicate SafeDrop(r: Run, now: int, drop: int)
    requires |r.pending| == 1
  {
    && drop % 2 == 0
    && (drop > 0 ==> Due(r.st.tms, now) && 3 * drop < |r.st.ring|)
    && (drop > 0 ==> exists o :: o in r.window + [Record(r.pending[0], r.st.rate)] && o.having * 10 >= 6 * o.rate)
    && forall o :: o in r.window + [Record(r.pending[0], r.st.rate)] && o.rate == r.st.rate ==> drop <= o.having
  }

  lemma DropsAreSafe(r: Run, now: int)
    requires Inv(r) && Enabled(r, ShrinkAt(now))
    ensures SafeDrop(r, now, ShrinkDrop(r.st, r.pending[0], now))
  {
    DropFits(Bumped(r.st, r.pending[0]), r.st.capacity, |r.st.ring|);
    forall o | o in r.window + [Record(r.pending[0], r.st.rate)] && o.rate == r.st.rate
      ensures ShrinkDrop(r.st, r.pending[0], now) <= o.having
    {
      DropIsSafe(r, now, o);
    }
    if ShrinkDrop(r.st, r.pending[0], now) > 0 {
      var latest := Record(r.pending[0], r.st.rate);
      CountsExtend(r.window, r.st.hist, latest);
      var o := CountedAtMode(r.window + [latest], Bumped(r.st, r.pending[0]), r.st.capacity);
    }
  }

  lemma {:induction false} CountedOnce(window: seq<Record>, i: nat) returns (o: Record)
    requires (forall r :: r in window ==> r.rate > 0) && CountIn(window, i) > 0
    ensures o in window && Bucket(o.having, o.rate) == i
  {
    var last := |window| - 1;
    if Bucket(window[last].having, window[last].rate) == i {
      return window[last];
    }
    o := CountedOnce(window[..last], i);
  }

  /** Something is dropped only if the most frequent occupancy is 600 ms or more. */
  lemma CountedAtMode(window: seq<Record>, hist: seq<nat>, capacity: nat) returns (o: Record)
    requires Counts(window, hist) && SkipAmount(hist, capacity) > 0
    ensures o in window && Bucket(o.having, o.rate) == Mode(hist) >= 6
    ensures o.having * 10 >= 6 * o.rate
  {
    o := CountedOnce(window, Mode(hist));
    BucketLowerBound(o.having, o.rate, 6);
  }

  /** Every shrink of every run drops safely, takes what it drops from the front, and when
      it is due leaves every bucket zero. */
  lemma ShrinkIsSafe(events: seq<Event>, r: Run, now: int)
    requires Reaches(events, r) && Enabled(r, ShrinkAt(now))
    ensures Inv(r)
    ensures var r' := Step(r, ShrinkAt(now));
            var drop := r'.dropped - r.dropped;
            && SafeDrop(r, now, drop)
            && 0 <= drop <= |r.st.ring| && r'.st.ring == r.st.ring[drop..]
            && (Due(r.st.tms, now) ==> r'.window == [] && r'.st.hist == ZeroHist())
  {
    RunInvariant(events, r);
    DropsAreSafe(r, now);
    DropFits(Bumped(r.st, r.pending[0]), r.st.capacity, |r.st.ring|);
  }

  lemma DropIsSafe(r: Run, now: int, o: Record)
    requires Inv(r) && Enabled(r, ShrinkAt(now))
    requires o in r.window + [Record(r.pending[0], r.st.rate)] && o.rate == r.st.rate
    ensures ShrinkDrop(r.st, r.pending[0], now) <= o.having
  {
    var latest := Record(r.pending[0], r.st.rate);
    CountsExtend(r.window, r.st.hist, latest);
    SkipIsSafe(r.window + [latest], Bumped(r.st, r.pending[0]), r.st.rate, o);
  }

  // ----- exactly how much is dropped -----

  /** `t` is the tenth of a second of audio that the occupancy `o` falls in; everything from
      2.9 s on counts as the last one. */
  ghost predicate IsTenth(o: Record, t: nat) {
    t <= 29 && t * o.rate <= 10 * o.having && (t < 29 ==> 10 * o.having < (t + 1) * o.rate)
  }

  /** How many occupancies of `window` fall in tenth `t`. */
  ghost function InTenth(window: seq<Record>, t: nat): nat {
    if window == [] then 0
    else InTenth(window[..|window| - 1], t) + if IsTenth(window[|window| - 1], t) then 1 else 0
  }

  /** `low` is the least tenth any occupancy falls in. */
  ghost predicate IsLowest(window: seq<Record>, low: nat) {
    low <= 29 && InTenth(window, low) > 0 && forall t :: 0 <= t < low ==> InTenth(window, t) == 0
  }

  /** `m` is the first most frequent tenth among 1 to 29, or 0 when none of those occurs. */
  ghost predicate IsMostFrequent(window: seq<Record>, m: nat) {
    && m <= 29
    && (m == 0 ==> forall t :: 1 <= t <= 29 ==> InTenth(window, t) == 0)
    && (m > 0 ==>
          && InTenth(window, m) > 0
          && (forall t :: 1 <= t < m ==> InTenth(window, t) < InTenth(window, m))
          && (forall t :: m < t <= 29 ==> InTenth(window, t) <= InTenth(window, m)))
  }

  lemma QuotientIff(x: nat, rate: nat, t: nat)
    requires rate > 0
    ensures x / rate == t <==> t * rate <= x < (t + 1) * rate
    ensures x / rate >= t <==> t * rate <= x
  {
    var q := x / rate;
    assert x == q * rate + x % rate;
    assert q * rate <= x < (q + 1) * rate;
    ProductOrder(t, q, rate);
    ProductOrder(q + 1, t, rate);
    ProductOrder(t + 1, q, rate);
  }

  lemma TenthIsBucket(o: Record, t: nat)
    requires o.rate > 0
    ensures IsTenth(o, t) <==> Bucket(o.having, o.rate) == t
  {
    QuotientIff(o.having * 10, o.rate, t);
    QuotientIff(o.having * 10, o.rate, 29);
  }

  lemma {:induction false} InTenthIsCount(window: seq<Record>, t: nat)
    requires forall o :: o in window ==> o.rate > 0
    ensures InTenth(window, t) == CountIn(window, t)
  {
    if window != [] {
      var last := |window| - 1;
      InTenthIsCount(window[..last], t);
      assert window[last] in window;
      TenthIsBucket(window[last], t);
    }
  }

  lemma CountedTenths(window: seq<Record>, hist: seq<nat>, t: nat)
    requires Counts(window, hist) && t <= 29
    ensures hist[t] == InTenth(window, t)
  {
    InTenthIsCount(window, t);
  }

  lemma LowestIsLead(window: seq<Record>, hist: seq<nat>, low: nat)
    requires Counts(window, hist) && IsLowest(window, low)
    ensures LeadingZeros(hist) == low
  {
    forall t | 0 <= t <= 29 ensures hist[t] == InTenth(window, t) {
      CountedTenths(window, hist, t);
    }
    LeadingZerosUnique(hist, low);
  }

  lemma MostFrequentIsMode(window: seq<Record>, hist: seq<nat>, m: nat)
    requires Counts(window, hist) && IsMostFrequent(window, m)
    ensures Mode(hist) == m
  {
    forall t | 0 <= t <= 29 ensures hist[t] == InTenth(window, t) {
      CountedTenths(window, hist, t);
    }
    ModeIsUnique(hist, Mode(hist), m);
  }

  /** Every window that counts something has a lowest and a most frequent tenth. */
  lemma TenthsExist(window: seq<Record>) returns (low: nat, m: nat)
    requires window != [] && forall o :: o in window ==> o.rate > 0
    ensures IsLowest(window, low) && IsMostFrequent(window, m)
  {
    var hist := seq(BUCKETS, i requires 0 <= i < BUCKETS => CountIn(window, i));
    assert Counts(window, hist);
    forall t | 0 <= t <= 29 ensures hist[t] == InTenth(window, t) {
      CountedTenths(window, hist, t);
    }
    assert window[0] in window;
    CountsMember(window, window[0]);
    LeadingZerosBound(hist, Bucket(window[0].having, window[0].rate));
    LeadingZerosMeaning(hist);
    low, m := LeadingZeros(hist), Mode(hist);
  }

  /** The amount an evaluation wants to drop from a ring of `capacity`, rounded to whole
      stereo frames: the even one of `q` and `q + 1`. */
  ghost predicate IsWanted(capacity: nat, low: nat, m: nat, q: nat, wanted: nat) {
    var mark := if m < 4 * (2 * low / 3) then m else 4 * (2 * low / 3);
    && 120 * q <= capacity * mark < 120 * (q + 1)
    && (wanted == q || wanted == q + 1) && wanted % 2 == 0
  }

  lemma WantedIsSkip(hist: seq<nat>, capacity: nat, low: nat, m: nat) returns (q: nat)
    requires |hist| == BUCKETS && LeadingZeros(hist) == low && Mode(hist) == m
    ensures m < 6 ==> SkipAmount(hist, capacity) == 0
    ensures m >= 6 ==> IsWanted(capacity, low, m, q, SkipAmount(hist, capacity))
  {
    var mark := if m < 4 * (2 * low / 3) then m else 4 * (2 * low / 3);
    q := capacity * mark / 120;
    EvenOne(q);
  }

  lemma EvenOne(q: nat)
    ensures (RoundUpToEven(q) == q || RoundUpToEven(q) == q + 1) && RoundUpToEven(q) % 2 == 0
  {}

  /** How much every shrink of every run drops, from the occupancies counted since the last
      evaluation alone: nothing before twelve seconds have passed or when the most frequent
      occupancy is below 600 ms; else the wanted amount, if three times it is below what is
      buffered.  The clock of the evaluations starts with the first shrink. */
  lemma ShrinkDropsExactly(events: seq<Event>, r: Run, now: int, low: nat, m: nat) returns (q: nat, wanted: nat)
    requires Reaches(events, r) && Enabled(r, ShrinkAt(now))
    requires IsLowest(r.window + [Record(r.pending[0], r.st.rate)], low)
    requires IsMostFrequent(r.window + [Record(r.pending[0], r.st.rate)], m)
    ensures var r' := Step(r, ShrinkAt(now));
            var drop := r'.dropped - r.dropped;
            var due := r.st.tms != 0 && now - r.st.tms >= 12000;
            && (!due || m < 6 ==> drop == 0)
            && (due && m >= 6 ==>
                  && IsWanted(3 * r.st.rate, low, m, q, wanted)
                  && drop == if 3 * wanted < |r.st.ring| then wanted else 0)
            && r'.st.tms == (if due || r.st.tms == 0 then now else r.st.tms)
            && |r'.st.ring| == |r.st.ring| - drop && r'.heard == r.heard && r'.stream == r.stream
  {
    RunInvariant(events, r);
    var latest := Record(r.pending[0], r.st.rate);
    var h := Bumped(r.st, r.pending[0]);
    CountsExtend(r.window, r.st.hist, latest);
    LowestIsLead(r.window + [latest], h, low);
    MostFrequentIsMode(r.window + [latest], h, m);
    q := WantedIsSkip(h, r.st.capacity, low, m);
    wanted := SkipAmount(h, r.st.capacity);
    ShrinkEffect(r.st, r.pending[0], now);
  }

  /** Appending never makes room it does not need: exactly what does not fit is dropped, and
      it is the oldest. */
  lemma AppendDropsOverflow(events: seq<Event>, r: Run, block: seq<Sample>)
    requires Reaches(events, r) && Enabled(r, AppendBlock(block))
    ensures var r' := Step(r, AppendBlock(block));
            var over := |r.st.ring| + |block| - 3 * r.st.rate;
            && r'.dropped - r.dropped == (if over > 0 then over else 0)
            && r'.stream == r.stream + block && r'.heard == r.heard
            && |r'.st.ring| <= |r'.stream| && r'.st.ring == r'.stream[|r'.stream| - |r'.st.ring|..]
            && r'.pending == [|r'.st.ring|]
  {
    RunInvariant(events, r);
    StepInv(r, AppendBlock(block));
  }

  /** The device hears what it asks for, or all there is: the next samples of the stream. */
  lemma PopHearsTheNext(events: seq<Event>, r: Run, n: nat)
    requires Reaches(events, r)
    ensures var r' := Step(r, DevicePop(n));
            var k := if n < |r.st.ring| then n else |r.st.ring|;
            && |r'.heard| == |r.heard| + k && r.heard <= r'.heard
            && (forall i :: |r.heard| <= i < |r'.heard| ==>
                  r'.heard[i] == |r.stream| - |r.st.ring| + (i - |r.heard|))
            && |r'.st.ring| == |r.st.ring| - k && r'.dropped == r.dropped
  {}

  /** A resize empties the buffer exactly when the rate changes. */
  lemma ResizeDropsAllIff(events: seq<Event>, r: Run, sampleRate: nat, channels: nat)
    requires Reaches(events, r) && Enabled(r, ResizeTo(sampleRate, channels))
    ensures var r' := Step(r, ResizeTo(sampleRate, channels));
            && r'.st.rate == sampleRate * channels
            && (sampleRate * channels == r.st.rate ==> r' == r)
            && (sampleRate * channels != r.st.rate ==>
                  r'.st.ring == [] && r'.dropped == r.dropped + |r.st.ring| && r'.window == r.window)
  {
    RunInvariant(events, r);
    SameCapacity(sampleRate * channels);
  }

  lemma SameCapacity(rate: nat)
    ensures CapacityFor(rate) == 3 * rate
  {}

  // ----- channel alignment -----

  /** Two-channel audio: whole frames in, whole frames out. */
  predicate Stereo(e: Event) {
    match e
    case AppendBlock(block) => |block| % 2 == 0
    case ShrinkAt(_) => true
    case DevicePop(n) => n % 2 == 0
    case ResizeTo(_, channels) => channels == 2
  }

  ghost predicate Aligned(r: Run) {
    |r.stream| % 2 == 0 && |r.st.ring| % 2 == 0 && r.st.rate % 2 == 0
  }

  lemma EvenSum(a: int, b: int)
    requires a % 2 == 0 && b % 2 == 0
    ensures (a + b) % 2 == 0 && (a - b) % 2 == 0
  {}

  lemma ResizeAligned(s: State, sampleRate: nat, channels: nat)
    requires s.rate % 2 == 0 && |s.ring| % 2 == 0 && channels == 2
    ensures var s' := Resized(s, sampleRate, channels); s'.rate % 2 == 0 && |s'.ring| % 2 == 0
  {
    EvenSum(sampleRate * 2, 0);
  }

  lemma AppendAligned(s: State, stream: seq<Sample>, block: seq<Sample>)
    requires WellFormed(s) && s.rate % 2 == 0 && |s.ring| % 2 == 0 && |stream| % 2 == 0 && |block| % 2 == 0
    ensures |Appended(s, block).ring| % 2 == 0 && |stream + block| % 2 == 0
  {
    EvenSum(s.rate, s.rate);
    EvenSum(s.rate + s.rate, s.rate);
    EvenSum(|s.ring|, |block|);
    EvenSum(|stream|, |block|);
    assert |Appended(s, block).ring| == |s.ring| + |block| || |Appended(s, block).ring| == s.capacity;
  }

  lemma ShrinkAligned(s: State, having: nat, now: int)
    requires WellFormed(s) && s.rate > 0 && |s.ring| % 2 == 0
    ensures |Shrunk(s, having, now).ring| % 2 == 0
  {
    var drop := DropCount(Bumped(s, having), s.capacity, |s.ring|);
    DropFits(Bumped(s, having), s.capacity, |s.ring|);
    EvenSum(|s.ring|, drop);
  }

  lemma PopAligned(s: State, n: nat)
    requires |s.ring| % 2 == 0 && n % 2 == 0
    ensures |Popped(s, n).ring| % 2 == 0
  {
    EvenSum(|s.ring|, PopCount(s, n));
  }

  lemma StepAligned(r: Run, e: Event)
    requires Inv(r) && Enabled(r, e) && Aligned(r) && Stereo(e)
    ensures Aligned(Step(r, e))
  {
    var r' := Step(r, e);
    match e {
      case AppendBlock(block) => AppendAligned(r.st, r.stream, block);
      case ShrinkAt(now) => ShrinkAligned(r.st, r.pending[0], now);
      case DevicePop(n) => PopAligned(r.st, n);
      case ResizeTo(sampleRate, channels) => ResizeAligned(r.st, sampleRate, channels);
    }
  }

  lemma {:induction false} StereoRunAligned(events: seq<Event>, r: Run)
    requires Reaches(events, r)
    requires forall e :: e in events ==> Stereo(e)
    ensures Aligned(r)
  {
    if events != [] {
      var last := |events| - 1;
      var r0 :| Reaches(events[..last], r0) && Enabled(r0, events[last]) && r == Step(r0, events[last]);
      RunInvariant(events[..last], r0);
      StereoRunAligned(events[..last], r0);
      StepAligned(r0, events[last]);
    }
  }

  /** In every two-channel run the oldest buffered sample is a left-channel one, so every
      device request hears each channel in its own slots. */
  lemma StereoStaysAligned(events: seq<Event>, r: Run)
    requires Reaches(events, r)
    requires forall e :: e in events ==> Stereo(e)
    ensures Oldest(r) % 2 == 0
  {
    StereoRunAligned(events, r);
    EvenSum(|r.stream|, |r.st.ring|);
  }

  // ----- the buffer as the client updates it -----

  class AudioBuffer {
    var ring: seq<Sample>
    var capacity: nat
    var rate: nat
    const hist: array<nat>
    var tms: int

    ghost predicate Valid()
      reads this, hist
    {
      hist.Length == BUCKETS && WellFormed(Value())
    }

    ghost function Value(): State
      reads this, hist
    {
      State(ring, capacity, rate, hist[..], tms)
    }

    constructor ()
      ensures Valid() && fresh(hist)
      ensures Value() == Initial()
    {
      ring := [];
      capacity := 48000 * 2 * AUDIO_BUFFER_MS / 1000;
      rate := 48000 * 2;
      hist := new nat[BUCKETS](_ => 0);
      tms := 0;
      new;
      assert hist[..] == ZeroHist();
    }

    method Resize(sampleRate: nat, channels: nat)
      requires Valid()
      modifies this
      ensures Valid()
      ensures Value() == Resized(old(Value()), sampleRate, channels)
    {
      var newCapacity := sampleRate * channels * AUDIO_BUFFER_MS / 1000;
      if newCapacity != capacity {
        ring := [];
        capacity := newCapacity;
        rate := sampleRate * channels;
      }
    }

    method AppendPcm2(block: seq<Sample>) returns (having: nat)
      requires Valid()
      modifies this`ring
      ensures Valid()
      ensures Value() == Appended(old(Value()), block)
      ensures having == |ring|
    {
      if |block| > capacity {
        ring := Newest(ring + block, capacity);
        return capacity;
      }
      var wanted := |ring| + |block|;
      if wanted > capacity {
        ring := ring[wanted - capacity..];
      }
      ring := Newest(ring + block, capacity);
      having := |ring|;
    }

    /** The in-place pass over the histogram: finds the leading zero run and the mode of the
        counts while clearing every one of them. */
    method Scan() returns (zero: nat, max: nat)
      requires hist.Length == BUCKETS
      modifies hist
      ensures zero == LeadingZeros(old(hist[..]))
      ensures IsMode(old(hist[..]), max)
      ensures hist[..] == ZeroHist()
    {
      ghost var h := hist[..];
      zero, max := 0, 0;
      for i := 0 to BUCKETS
        invariant zero <= i && max < BUCKETS
        invariant forall j :: 0 <= j < zero ==> h[j] == 0
        invariant zero < i ==> h[zero] != 0
        invariant i == 0 ==> max == 0
        invariant i > 0 ==> max < i && IsMode(h[..i], max)
        invariant forall j :: i <= j < BUCKETS ==> hist[j] == h[j]
        invariant forall j :: 0 <= j < i && j != max ==> hist[j] == 0
        invariant i > 0 ==> hist[max] == if max == 0 then 0 else h[max]
      {
        if hist[i] == 0 && zero == i {
          zero := zero + 1;
        }
        if hist[i] > hist[max] {
          hist[max] := 0;
          max := i;
        } else {
          hist[i] := 0;
        }
      }
      assert h[..BUCKETS] == h;
      LeadingZerosUnique(h, zero);
      hist[max] := 0;
      assert hist[..] == ZeroHist();
    }

    /** `now` is the clock reading in milliseconds. */
    method TryShrink(having: nat, now: int)
      requires Valid() && rate > 0
      modifies this, hist
      ensures Valid()
      ensures Value() == Shrunk(old(Value()), having, now)
    {
      var i := having * 10 / rate;
      if i > BUCKETS - 1 {
        i := BUCKETS - 1;
      }
      hist[i] := hist[i] + 1;
      ghost var h := hist[..];
      assert h == Bumped(old(Value()), having);
      if tms == 0 {
        tms := now;
        return;
      } else if now < tms + SHRINK_PERIOD {
        return;
      }
      tms := now;

      var zero, max := Scan();
      ModeIsUnique(h, max, Mode(h));
      Drop(h, zero, max);
    }

    /** The decision how much to drop after the histogram `h` has been scanned. */
    method Drop(ghost h: seq<nat>, lead: nat, mode: nat)
      requires |h| == BUCKETS && lead == LeadingZeros(h) && mode == Mode(h)
      modifies this`ring
      ensures var drop := DropCount(h, capacity, |old(ring)|); drop <= |old(ring)| && ring == old(ring)[drop..]
    {
      DropFits(h, capacity, |ring|);
      var zero, max := lead * 2 / 3, mode;
      if max < 6 {
        return;
      } else if max > zero * 4 {
        max := zero * 4;
      }
      var skip := (capacity * max / (30 * 4) + 1) / 2 * 2;
      if |ring| > skip * 3 && skip > 0 {
        ring := ring[skip..];
      }
    }

    method AppendPcm(block: seq<Sample>, now: int)
      requires Valid() && rate > 0
      modifies this, hist
      ensures Valid()
      ensures Value() == var st := Appended(old(Value()), block); Shrunk(st, |st.ring|, now)
    {
      var having := AppendPcm2(block);
      TryShrink(having, now);
    }

    /** The device callback: fills `data` with the oldest buffered samples, then silence. */
    method FillOutput(data: array<Sample>)
      requires Valid()
      requires data as object != hist
      modifies this`ring, data
      ensures Valid()
      ensures Value() == Popped(old(Value()), data.Length)
      ensures var k := PopCount(old(Value()), data.Length);
              data[..k] == old(ring)[..k] && forall j :: k <= j < data.Length ==> data[j] == 0.0
    {
      var n := data.Length;
      if |ring| < n {
        n := |ring|;
      }
      var elems := ring[..n];
      ring := ring[n..];
      for j := 0 to data.Length
        invariant forall m :: 0 <= m < j ==> data[m] == if m < n then elems[m] else 0.0
        invariant ring == old(ring)[n..] && hist[..] == old(hist[..])
      {
        data[j] := if j < n then elems[j] else 0.0;
      }
    }
  }
}
