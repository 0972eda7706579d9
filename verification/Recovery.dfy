/** Recovery times of alerts: how they are read off an alert's history, and the statistics made
    of them.  Instants are nanoseconds; statistics are exact rationals. */
module Recovery {
  import opened Values
  import opened Sorting
  import opened MapSums
  import opened AlertTasks

  const NANOS: int := 1_000_000_000

  datatype Transition = Transition(state: AlertState, at: int)

  /** The history of one alert. */
  class AlertStateEntry {
    const id: Id
    var states: seq<Transition>

    /** A state is recorded only where it differs from the one before. */
    ghost predicate Valid()
      reads this
    {
      Changes(states)
    }

    constructor (id: Id, initial: AlertState, now: int)
      ensures Valid() && this.id == id && states == [Transition(initial, now)]
    {
      this.id := id;
      states := [Transition(initial, now)];
    }

    method UpdateState(newState: AlertState, now: int) returns (changed: bool)
      requires Valid()
      modifies this
      ensures Valid()
      ensures changed <==> old(states) == [] || old(states)[|old(states)| - 1].state != newState
      ensures states == old(states) + if changed then [Transition(newState, now)] else []
    {
      changed := states == [] || states[|states| - 1].state != newState;
      if changed {
        states := states + [Transition(newState, now)];
      } else {
        assert states + [] == states;
      }
    }
  }

  ghost predicate Changes(states: seq<Transition>) {
    forall i | 0 <= i < |states| - 1 :: states[i].state != states[i + 1].state
  }

  // -------------------------------------------------------------------------- recoveries

  function Earlier(): (Transition, Transition) -> bool {
    (a: Transition, b: Transition) => a.at <= b.at
  }

  predicate Ordered(states: seq<Transition>) {
    forall i, j | 0 <= i < j < |states| :: states[i].at <= states[j].at
  }

  /** A recovery: triggered at `i`, and, with nothing but disablings in between, not triggered
      at `j`. */
  ghost predicate Recovers(states: seq<Transition>, i: nat, j: nat) {
    && i < j < |states| && states[i].state.Triggered? && states[j].state.NotTriggered?
    && forall k | i < k < j :: states[k].state.Disabled?
  }

  /** The trigger still open at the end of a history. */
  function OpenTrigger(states: seq<Transition>): Option<nat> {
    if states == [] then None
    else match states[|states| - 1].state
      case Triggered => Some(|states| - 1)
      case NotTriggered => None
      case Disabled => OpenTrigger(states[..|states| - 1])
  }

  lemma {:induction false} OpenTriggerExact(states: seq<Transition>, i: nat)
    ensures OpenTrigger(states) == Some(i) <==>
            i < |states| && states[i].state.Triggered? && forall k | i < k < |states| :: states[k].state.Disabled?
  {
    if states != [] {
      OpenTriggerExact(states[..|states| - 1], i);
    }
  }

  /** All recoveries, in the order of their ends. */
  function Recoveries(states: seq<Transition>): seq<(nat, nat)> {
    if states == [] then []
    else
      var rest, last := states[..|states| - 1], states[|states| - 1];
      Recoveries(rest) +
      if last.state.NotTriggered? && OpenTrigger(rest).Some? then [(OpenTrigger(rest).value, |rest|)] else []
  }

  /** What the loop collects are exactly the recoveries. */
  lemma {:induction false} RecoveriesExact(states: seq<Transition>, i: nat, j: nat)
    ensures (i, j) in Recoveries(states) <==> Recovers(states, i, j)
  {
    if states != [] {
      var rest := states[..|states| - 1];
      RecoveriesExact(rest, i, j);
      OpenTriggerExact(rest, i);
      assert j < |rest| ==> (Recovers(states, i, j) <==> Recovers(rest, i, j));
    }
  }

  /** Of two recoveries one ends before the other begins. */
  lemma RecoveriesDisjoint(states: seq<Transition>, i: nat, j: nat, i': nat, j': nat)
    requires Recovers(states, i, j) && Recovers(states, i', j') && (i, j) != (i', j')
    ensures j < i' || j' < i
  { }

  /** `num_seconds` of the time between two instants in order. */
  function WholeSeconds(from: int, to: int): int {
    (to - from) / NANOS
  }

  function Seconds(states: seq<Transition>, r: (nat, nat)): int
    requires r.0 < |states| && r.1 < |states|
  {
    WholeSeconds(states[r.0].at, states[r.1].at)
  }

  predicate Within(rs: seq<(nat, nat)>, n: nat) {
    forall k | 0 <= k < |rs| :: rs[k].0 < n && rs[k].1 < n
  }

  function PositiveTimes(states: seq<Transition>, rs: seq<(nat, nat)>): seq<int>
    requires Within(rs, |states|)
  {
    if rs == [] then []
    else
      var last := Seconds(states, rs[|rs| - 1]);
      PositiveTimes(states, rs[..|rs| - 1]) + if last > 0 then [last] else []
  }

  lemma {:induction false} RecoveriesWithin(states: seq<Transition>)
    ensures Within(Recoveries(states), |states|)
  {
    if states != [] {
      RecoveriesWithin(states[..|states| - 1]);
      var rest := states[..|states| - 1];
      if OpenTrigger(rest).Some? { OpenTriggerExact(rest, OpenTrigger(rest).value); }
    }
  }

  function RecoveryTimes(states: seq<Transition>): seq<int> {
    RecoveriesWithin(states);
    PositiveTimes(states, Recoveries(states))
  }

  lemma {:induction false} TimesOfPrefix(states: seq<Transition>, more: seq<Transition>, rs: seq<(nat, nat)>)
    requires Within(rs, |states|)
    ensures Within(rs, |states + more|) && PositiveTimes(states + more, rs) == PositiveTimes(states, rs)
  {
    if rs != [] {
      TimesOfPrefix(states, more, rs[..|rs| - 1]);
      var r := rs[|rs| - 1];
      assert (states + more)[r.0] == states[r.0] && (states + more)[r.1] == states[r.1];
    }
  }

  /** The loop of `get_recovery_times`, on the sorted history. */
  method GetRecoveryTimes(states: seq<Transition>) returns (times: seq<int>)
    ensures times == RecoveryTimes(Sort(states, Earlier()))
  {
    var sorted := Sort(states, Earlier());
    times := [];
    assert RecoveryTimes(sorted[..0]) == [] && OpenTrigger(sorted[..0]) == None;
    hide Sort; hide Recoveries; hide PositiveTimes;
    var triggered: Option<int> := None;
    for k := 0 to |sorted|
      invariant times == RecoveryTimes(sorted[..k])
      invariant triggered.Some? <==> OpenTrigger(sorted[..k]).Some?
      invariant triggered.Some? ==> OpenTrigger(sorted[..k]).value < k && triggered.value == sorted[OpenTrigger(sorted[..k]).value].at
    {
      var now := sorted[k];
      assert sorted[..k + 1][..k] == sorted[..k];
      OneMoreState(sorted[..k], now);
      assert sorted[..k] + [now] == sorted[..k + 1];
      assert OpenTrigger(sorted[..k + 1]) ==
             match now.state { case Triggered => Some(k) case NotTriggered => None case Disabled => OpenTrigger(sorted[..k]) };
      hide OpenTrigger; hide RecoveryTimes;
      match now.state {
        case Triggered => triggered := Some(now.at);
        case NotTriggered =>
          if triggered.Some? {
            var seconds := WholeSeconds(triggered.value, now.at);
            if seconds > 0 {
              times := times + [seconds];
            }
            triggered := None;
          }
        case Disabled =>
      }
    }
    assert sorted[..|sorted|] == sorted;
  }

  lemma OneMoreState(states: seq<Transition>, now: Transition)
    ensures var open := OpenTrigger(states);
            && (open.Some? ==> open.value < |states|)
            && RecoveryTimes(states + [now]) ==
               RecoveryTimes(states) +
               if now.state.NotTriggered? && open.Some? && WholeSeconds(states[open.value].at, now.at) > 0
               then [WholeSeconds(states[open.value].at, now.at)] else []
  {
    var all, open := states + [now], OpenTrigger(states);
    if open.Some? { OpenTriggerExact(states, open.value); }
    RecoveriesWithin(states);
    RecoveriesWithin(all);
    TimesOfPrefix(states, [now], Recoveries(states));
    hide OpenTrigger; hide Recoveries; hide PositiveTimes; hide WholeSeconds; hide Within;
    if now.state.NotTriggered? && open.Some? {
      assert all[open.value] == states[open.value] && all[|states|] == now;
    } else {
      assert Recoveries(states) + [] == Recoveries(states);
      assert RecoveryTimes(states) + [] == RecoveryTimes(states);
    }
  }

  /** The whole seconds, of 10^9 nanoseconds, from the one transition to the other. */
  predicate Lasts(states: seq<Transition>, i: nat, j: nat, seconds: int)
    requires i < |states| && j < |states|
  {
    var nanos := states[j].at - states[i].at;
    seconds * 1_000_000_000 <= nanos < (seconds + 1) * 1_000_000_000
  }

  lemma SecondsExact(states: seq<Transition>, r: (nat, nat), seconds: int)
    requires r.0 < |states| && r.1 < |states|
    ensures Seconds(states, r) == seconds <==> Lasts(states, r.0, r.1, seconds)
  { }

  predicate SomeLasts(states: seq<Transition>, rs: seq<(nat, nat)>, seconds: int)
    requires Within(rs, |states|)
  {
    exists k | 0 <= k < |rs| :: Seconds(states, rs[k]) == seconds
  }

  lemma SomeLastsMore(states: seq<Transition>, rs: seq<(nat, nat)>, seconds: int)
    requires Within(rs, |states|) && rs != []
    ensures Within(rs[..|rs| - 1], |states|)
    ensures SomeLasts(states, rs, seconds) <==>
            SomeLasts(states, rs[..|rs| - 1], seconds) || Seconds(states, rs[|rs| - 1]) == seconds
  {
    hide Seconds;
    var rest := rs[..|rs| - 1];
    assert forall k | 0 <= k < |rest| :: rs[k] == rest[k];
    if SomeLasts(states, rest, seconds) {
      var k :| 0 <= k < |rest| && Seconds(states, rest[k]) == seconds;
      assert Seconds(states, rs[k]) == seconds;
    }
  }

  lemma {:induction false} PositiveMembers(states: seq<Transition>, rs: seq<(nat, nat)>, seconds: int)
    requires Within(rs, |states|)
    ensures seconds in PositiveTimes(states, rs) <==> seconds > 0 && SomeLasts(states, rs, seconds)
  {
    if rs != [] {
      SomeLastsMore(states, rs, seconds);
      hide Seconds; hide SomeLasts;
      PositiveMembers(states, rs[..|rs| - 1], seconds);
    }
  }

  /** A time is reported exactly when some recovery lasts that many whole seconds, and not none. */
  lemma TimesExact(states: seq<Transition>, seconds: int)
    ensures seconds in RecoveryTimes(states) <==>
            seconds > 0 && exists i: nat, j: nat | Recovers(states, i, j) :: Lasts(states, i, j, seconds)
  {
    var rs := Recoveries(states);
    RecoveriesWithin(states);
    PositiveMembers(states, rs, seconds);
    hide Recoveries; hide Seconds; hide Lasts; hide PositiveTimes;
    forall k | 0 <= k < |rs| ensures Recovers(states, rs[k].0, rs[k].1) {
      assert (rs[k].0, rs[k].1) == rs[k] && rs[k] in rs;
      RecoveriesExact(states, rs[k].0, rs[k].1);
    }
    forall k | 0 <= k < |rs| ensures Seconds(states, rs[k]) == seconds <==> Lasts(states, rs[k].0, rs[k].1, seconds) {
      SecondsExact(states, rs[k], seconds);
    }
    forall i: nat, j: nat | Recovers(states, i, j) && Lasts(states, i, j, seconds)
      ensures exists k | 0 <= k < |rs| :: Seconds(states, rs[k]) == seconds
    {
      RecoveriesExact(states, i, j);
      var k :| 0 <= k < |rs| && rs[k] == (i, j);
    }
  }

  lemma SortedHistory(states: seq<Transition>)
    ensures Ordered(Sort(states, Earlier()))
  {
    assert TotalOrder(Earlier());
    SortAscends(states, Earlier());
    var sorted := Sort(states, Earlier());
    hide Sort;
    forall i, j | 0 <= i < j < |sorted| ensures sorted[i].at <= sorted[j].at { assert Earlier()(sorted[i], sorted[j]); }
  }

  function Sum(xs: seq<int>): int {
    if xs == [] then 0 else Sum(xs[..|xs| - 1]) + xs[|xs| - 1]
  }

  function Nanos(seconds: int): int {
    seconds * NANOS
  }

  /** What has been reported fits between the start and an instant. */
  predicate Fits(states: seq<Transition>, times: seq<int>, until: int)
    requires states != []
  {
    Nanos(Sum(times)) <= until - states[0].at
  }

  lemma {:induction false} TimesFit(states: seq<Transition>)
    requires Ordered(states) && states != []
    ensures Fits(states, RecoveryTimes(states), states[|states| - 1].at)
    ensures OpenTrigger(states).Some? ==>
              OpenTrigger(states).value < |states| && Fits(states, RecoveryTimes(states), states[OpenTrigger(states).value].at)
  {
    var rest, last := states[..|states| - 1], states[|states| - 1];
    assert states == rest + [last];
    if rest == [] {
      FirstFits(last);
      FirstTimes(last);
      assert states == [last];
      hide RecoveryTimes; hide OpenTrigger; hide Fits;
    } else {
      assert Ordered(rest);
      TimesFit(rest);
      hide RecoveryTimes; hide OpenTrigger; hide Fits; hide Ordered;
      OneMoreState(rest, last);
      OpenMore(rest, last);
      FitOneMore(rest, last, RecoveryTimes(rest), OpenTrigger(rest));
      assert RecoveryTimes(rest) + [] == RecoveryTimes(rest);
      var open := OpenTrigger(rest);
      assert open.Some? ==> states[open.value] == rest[open.value];
    }
  }

  lemma FirstTimes(first: Transition)
    ensures RecoveryTimes([first]) == []
    ensures OpenTrigger([first]).Some? ==> OpenTrigger([first]).value == 0
  {
    assert [first][..0] == [];
    assert Recoveries([first][..0]) == [] && OpenTrigger([first][..0]) == None;
    assert Recoveries([first]) == [];
  }

  lemma OpenMore(states: seq<Transition>, now: Transition)
    ensures OpenTrigger(states + [now]) ==
            match now.state { case Triggered => Some(|states|) case NotTriggered => None case Disabled => OpenTrigger(states) }
  {
    assert (states + [now])[..|states|] == states;
  }

  lemma FirstFits(first: Transition)
    ensures Fits([first], [], first.at)
  { }

  lemma FitOneMore(states: seq<Transition>, now: Transition, times: seq<int>, open: Option<nat>)
    requires states != [] && Ordered(states + [now]) && Fits(states, times, states[|states| - 1].at)
    requires open.Some? ==> open.value < |states| && Fits(states, times, states[open.value].at)
    ensures Fits(states + [now], times, now.at)
    ensures open.Some? ==> Fits(states + [now], times, states[open.value].at)
    ensures open.Some? ==> Fits(states + [now], times + [WholeSeconds(states[open.value].at, now.at)], now.at)
  {
    var all := states + [now];
    assert all[0] == states[0] && all[|states| - 1] == states[|states| - 1] && all[|states|] == now;
    if open.Some? {
    }
    hide Sum;
  }

  /** Every reported time is positive, and together they fit between two instants of the
      history. */
  lemma TimesFitSpan(history: seq<Transition>)
    requires history != []
    ensures var times := RecoveryTimes(Sort(history, Earlier()));
            && (forall t | t in times :: t > 0)
            && exists a, b | a in history && b in history :: Sum(times) * NANOS <= b.at - a.at
  {
    var states := Sort(history, Earlier());
    SortedHistory(history);
    SortMembers(history, Earlier());
    hide Sort;
    assert history[0] in states;
    assert states[0] in states && states[|states| - 1] in states;
    TimesFit(states);
    RecoveriesWithin(states);
    OnlyPositive(states, Recoveries(states));
    hide Sum; hide PositiveTimes; hide Recoveries;
  }

  lemma {:induction false} OnlyPositive(states: seq<Transition>, rs: seq<(nat, nat)>)
    requires Within(rs, |states|)
    ensures forall t | t in PositiveTimes(states, rs) :: t > 0
  {
    if rs != [] { OnlyPositive(states, rs[..|rs| - 1]); }
  }

  // -------------------------------------------------------------------------- statistics

  /** The mean is the quotient of `sum` and `total`; `twiceMedian` is twice the median, so that
      both stay whole numbers. */
  datatype Stats = NoIncidents | Stats(total: nat, sum: int, twiceMedian: int, min: int, max: int, times: seq<int>)

  function IntLe(): (int, int) -> bool {
    (a: int, b: int) => a <= b
  }

  predicate AtMost(t: int, twice: int) {
    2 * t <= twice
  }

  predicate AtLeast(t: int, twice: int) {
    2 * t >= twice
  }

  function Below(twice: int): int -> bool {
    (t: int) => AtMost(t, twice)
  }

  function Above(twice: int): int -> bool {
    (t: int) => AtLeast(t, twice)
  }

  /** At least half of the times lie at or below the median, and at least half at or above. */
  ghost predicate Halves(times: seq<int>, twiceMedian: int) {
    2 * Count(times, Below(twiceMedian)) >= |times| && 2 * Count(times, Above(twiceMedian)) >= |times|
  }

  function Under(v: int): int -> bool {
    (t: int) => t < v
  }

  function UpTo(v: int): int -> bool {
    (t: int) => t <= v
  }

  /** The value at a rank, counting from 0. */
  ghost predicate AtRank(times: seq<int>, rank: int, v: int) {
    Count(times, Under(v)) <= rank < Count(times, UpTo(v))
  }

  ghost predicate LowerMiddle(times: seq<int>, v: int) {
    AtRank(times, (|times| - 1) / 2, v)
  }

  ghost predicate UpperMiddle(times: seq<int>, v: int) {
    AtRank(times, |times| / 2, v)
  }

  /** Twice the median is the sum of the two middle values, which coincide if there is one. */
  ghost predicate MiddleTwo(times: seq<int>, twiceMedian: int) {
    exists v, w | LowerMiddle(times, v) && UpperMiddle(times, w) :: twiceMedian == v + w
  }

  ghost predicate Describes(s: Stats, times: seq<int>) {
    if times == [] then s.NoIncidents?
    else
      && s.Stats? && s.times == times && s.total == |times| && s.sum == Sum(times)
      && s.min in times && s.max in times && (forall t | t in times :: s.min <= t <= s.max)
      && 2 * s.min <= s.twiceMedian <= 2 * s.max && Halves(times, s.twiceMedian)
      && MiddleTwo(times, s.twiceMedian)
      && MeanBetween(s.total, s.sum, s.min, s.max)
  }

  /** The mean `sum / total` lies between two times. */
  predicate MeanBetween(total: nat, sum: int, min: int, max: int) {
    total * min <= sum <= total * max
  }

  method FromRecoveryTimes(times: seq<int>) returns (s: Stats)
    ensures Describes(s, times)
  {
    if times == [] {
      return NoIncidents;
    }
    var sum, min, max := Extremes(times);
    var twiceMedian := Median(times);
    s := Stats(|times|, sum, twiceMedian, min, max, times);
    SumBetween(times, min, max);
    MedianHalves(times, twiceMedian, min, max);
    MedianMiddle(times, twiceMedian);
    hide Sum; hide MeanBetween; hide Halves; hide MiddleTwo;
  }

  method Extremes(times: seq<int>) returns (sum: int, min: int, max: int)
    requires times != []
    ensures sum == Sum(times)
    ensures min in times && max in times && forall t | t in times :: min <= t <= max
  {
    sum, min, max := 0, times[0], times[0];
    for k := 0 to |times|
      invariant sum == Sum(times[..k])
      invariant min in times && max in times && min <= max && forall t | t in times[..k] :: min <= t <= max
    {
      assert times[..k + 1][..k] == times[..k] && times[..k + 1] == times[..k] + [times[k]];
      sum := sum + times[k];
      if times[k] < min { min := times[k]; }
      if times[k] > max { max := times[k]; }
    }
    assert times[..|times|] == times;
  }

  method Median(times: seq<int>) returns (twiceMedian: int)
    requires times != []
    ensures |Sort(times, IntLe())| == |times| && twiceMedian == TwiceMedian(Sort(times, IntLe()))
  {
    SortCounts(times, IntLe(), Below(0));
    hide Sort; hide Count; hide Below; hide IntLe;
    if |times| == 1 {
      SortOne(times);
      return 2 * times[0];
    }
    var sorted, mid := Sort(times, IntLe()), |times| / 2;
    twiceMedian := if |times| % 2 == 0 then sorted[mid - 1] + sorted[mid] else 2 * sorted[mid];
  }

  lemma SortOne(times: seq<int>)
    requires |times| == 1
    ensures Sort(times, IntLe()) == times
  {
    assert times[..0] == [] && Sort([], IntLe()) == [];
  }

  function TwiceMedian(sorted: seq<int>): int
    requires sorted != []
  {
    if |sorted| % 2 == 0 then sorted[|sorted| / 2 - 1] + sorted[|sorted| / 2] else 2 * sorted[|sorted| / 2]
  }

  lemma {:induction false} CountFirst(xs: seq<int>, p: int -> bool, n: nat)
    requires n <= |xs| && forall k | 0 <= k < n :: p(xs[k])
    ensures Count(xs, p) >= n
  {
    if |xs| > 0 {
      CountFirst(xs[..|xs| - 1], p, if n == |xs| then n - 1 else n);
    }
  }

  lemma {:induction false} CountFrom(xs: seq<int>, p: int -> bool, n: nat)
    requires n <= |xs| && forall k | n <= k < |xs| :: p(xs[k])
    ensures Count(xs, p) >= |xs| - n
  {
    if n < |xs| { CountFrom(xs[..|xs| - 1], p, n); }
  }

  lemma MedianHalves(times: seq<int>, twice: int, min: int, max: int)
    requires times != [] && |Sort(times, IntLe())| == |times| && twice == TwiceMedian(Sort(times, IntLe()))
    requires forall t | t in times :: min <= t <= max
    ensures Halves(times, twice) && 2 * min <= twice <= 2 * max
  {
    var sorted := Sort(times, IntLe());
    SortAscends(times, IntLe());
    SortMembers(times, IntLe());
    SortCounts(times, IntLe(), Below(twice));
    SortCounts(times, IntLe(), Above(twice));
    hide Sort; hide Count; hide TotalOrder; hide Below; hide Above; hide TwiceMedian;
    hide Ascending; hide IntLe;
    SortedMedian(sorted, twice, min, max);
  }

  lemma SortedMedian(sorted: seq<int>, twice: int, min: int, max: int)
    requires sorted != [] && twice == TwiceMedian(sorted)
    requires forall i, j | 0 <= i < j < |sorted| :: sorted[i] <= sorted[j]
    requires forall t | t in sorted :: min <= t <= max
    ensures Halves(sorted, twice) && 2 * min <= twice <= 2 * max
  {
    var n, mid := |sorted|, |sorted| / 2;
    var below := if n % 2 == 0 then mid else mid + 1;
    assert sorted[mid] in sorted && sorted[below - 1] in sorted;
    hide AtMost; hide AtLeast; hide Count;
    CountFirst(sorted, Below(twice), below);
    CountFrom(sorted, Above(twice), mid);
  }

  lemma {:induction false} CountUpTo(xs: seq<int>, p: int -> bool, n: nat)
    requires n <= |xs| && forall k | n <= k < |xs| :: !p(xs[k])
    ensures Count(xs, p) <= n
  {
    if |xs| > 0 { CountUpTo(xs[..|xs| - 1], p, if n == |xs| then n - 1 else n); }
  }

  lemma SortedRank(sorted: seq<int>, k: nat)
    requires k < |sorted| && forall i, j | 0 <= i < j < |sorted| :: sorted[i] <= sorted[j]
    ensures AtRank(sorted, k, sorted[k])
  {
    CountUpTo(sorted, Under(sorted[k]), k);
    CountFirst(sorted, UpTo(sorted[k]), k + 1);
    hide Count;
  }

  lemma RankInSorted(times: seq<int>, k: nat)
    requires |Sort(times, IntLe())| == |times| && k < |times|
    ensures AtRank(times, k, Sort(times, IntLe())[k])
  {
    var sorted := Sort(times, IntLe());
    SortAscends(times, IntLe());
    SortCounts(times, IntLe(), Under(sorted[k]));
    SortCounts(times, IntLe(), UpTo(sorted[k]));
    hide Sort; hide Count; hide Under; hide UpTo;
    SortedRank(sorted, k);
  }

  lemma MedianMiddle(times: seq<int>, twice: int)
    requires times != [] && |Sort(times, IntLe())| == |times| && twice == TwiceMedian(Sort(times, IntLe()))
    ensures MiddleTwo(times, twice)
  {
    var n := |times|;
    RankInSorted(times, (n - 1) / 2);
    RankInSorted(times, n / 2);
    hide Sort; hide AtRank;
    assert LowerMiddle(times, Sort(times, IntLe())[(n - 1) / 2]) && UpperMiddle(times, Sort(times, IntLe())[n / 2]);
  }

  lemma {:induction false} SumBetween(times: seq<int>, min: int, max: int)
    requires forall t | t in times :: min <= t <= max
    ensures MeanBetween(|times|, Sum(times), min, max)
  {
    if times != [] {
      var rest, last := times[..|times| - 1], times[|times| - 1];
      assert last in times && forall t | t in rest :: t in times;
      SumBetween(rest, min, max);
    }
  }

  // -------------------------------------------------------------------------- aggregation

  datatype Aggregate = Aggregate(overall: Stats, totalAlerts: nat, withIncidents: nat, perAlert: map<Id, Stats>)

  datatype History = History(id: Id, states: seq<Transition>)

  function TimesOf(h: History): seq<int> {
    RecoveryTimes(Sort(h.states, Earlier()))
  }

  function AllTimes(histories: seq<History>): seq<int> {
    if histories == [] then []
    else AllTimes(histories[..|histories| - 1]) + TimesOf(histories[|histories| - 1])
  }

  function WithIncidents(histories: seq<History>): nat {
    if histories == [] then 0
    else WithIncidents(histories[..|histories| - 1]) + if TimesOf(histories[|histories| - 1]) != [] then 1 else 0
  }

  ghost function IncidentsAt(histories: seq<History>): set<int> {
    set i | 0 <= i < |histories| && TimesOf(histories[i]) != []
  }

  lemma IncidentsMore(histories: seq<History>, h: History)
    ensures IncidentsAt(histories + [h]) == IncidentsAt(histories) + if TimesOf(h) != [] then {|histories|} else {}
  {
    hide TimesOf;
    var all := histories + [h];
    assert forall i | 0 <= i < |histories| :: all[i] == histories[i];
  }

  lemma {:induction false} WithIncidentsExact(histories: seq<History>)
    ensures WithIncidents(histories) == |IncidentsAt(histories)|
  {
    if histories != [] {
      var rest, last := histories[..|histories| - 1], histories[|histories| - 1];
      WithIncidentsExact(rest);
      assert histories == rest + [last];
      IncidentsMore(rest, last);
      hide TimesOf;
    }
  }

  /** The times kept under each alert's id: those of its last history with incidents. */
  function TimesById(histories: seq<History>): map<Id, seq<int>> {
    if histories == [] then map[]
    else
      var rest, last := TimesById(histories[..|histories| - 1]), histories[|histories| - 1];
      if TimesOf(last) == [] then rest else rest[last.id := TimesOf(last)]
  }

  ghost predicate DescribesAll(perAlert: map<Id, Stats>, times: map<Id, seq<int>>) {
    && (forall id :: id in perAlert <==> id in times)
    && (forall id | id in perAlert :: times[id] != [] && Describes(perAlert[id], times[id]))
  }

  method FromAlertStates(histories: seq<History>) returns (a: Aggregate)
    ensures Describes(a.overall, AllTimes(histories))
    ensures a.totalAlerts == |histories| && a.withIncidents == WithIncidents(histories)
    ensures DescribesAll(a.perAlert, TimesById(histories))
  {
    var all: seq<int>, with: nat, perAlert: map<Id, Stats> := [], 0, map[];
    for k := 0 to |histories|
      invariant all == AllTimes(histories[..k]) && with == WithIncidents(histories[..k])
      invariant DescribesAll(perAlert, TimesById(histories[..k]))
    {
      assert histories[..k + 1][..k] == histories[..k];
      var times := GetRecoveryTimes(histories[k].states);
      assert times == TimesOf(histories[k]);
      var stats := FromRecoveryTimes(times);
      PutDescribed(perAlert, TimesById(histories[..k]), histories[k].id, stats, times);
      hide Describes; hide TimesOf; hide DescribesAll; hide RecoveryTimes;
      if stats.Stats? {
        with := with + 1;
        all := all + stats.times;
        perAlert := perAlert[histories[k].id := stats];
      } else {
        assert all + [] == all;
      }
    }
    assert histories[..|histories|] == histories;
    var overall := FromRecoveryTimes(all);
    a := Aggregate(overall, |histories|, with, perAlert);
  }

  lemma PutDescribed(perAlert: map<Id, Stats>, times: map<Id, seq<int>>, id: Id, s: Stats, ts: seq<int>)
    requires DescribesAll(perAlert, times) && Describes(s, ts)
    ensures s.Stats? <==> ts != []
    ensures s.Stats? ==> s.times == ts && DescribesAll(perAlert[id := s], times[id := ts])
  {
    hide Halves; hide Sum;
  }

  ghost function Lengths(times: map<Id, seq<int>>): map<Id, nat> {
    map id | id in times :: |times[id]|
  }

  /** No id has two histories with incidents. */
  ghost predicate OneEach(histories: seq<History>) {
    forall i, j | 0 <= i < j < |histories| && TimesOf(histories[i]) != [] && TimesOf(histories[j]) != [] ::
      histories[i].id != histories[j].id
  }

  lemma {:induction false} IdsWithIncidents(histories: seq<History>, id: Id)
    ensures id in TimesById(histories) <==> exists i | 0 <= i < |histories| :: histories[i].id == id && TimesOf(histories[i]) != []
    ensures id in TimesById(histories) ==> TimesById(histories)[id] != []
  {
    hide TimesOf;
    if histories != [] {
      var rest, last := histories[..|histories| - 1], histories[|histories| - 1];
      IdsWithIncidents(rest, id);
      if i :| 0 <= i < |rest| && rest[i].id == id && TimesOf(rest[i]) != [] { assert histories[i] == rest[i]; }
    }
  }

  /** The overall number of incidents is at least the sum over the alerts in the map, and equal to
      it exactly when no id has two histories with incidents: a second overwrites the first. */
  lemma {:induction false} OverallExact(histories: seq<History>)
    ensures MapSum(Lengths(TimesById(histories))) <= |AllTimes(histories)|
    ensures MapSum(Lengths(TimesById(histories))) == |AllTimes(histories)| <==> OneEach(histories)
  {
    hide TimesOf;
    if histories == [] {
      assert Lengths(TimesById(histories)) == map[];
    } else {
      var rest, last := histories[..|histories| - 1], histories[|histories| - 1];
      OverallExact(rest);
      IdsWithIncidents(rest, last.id);
      OneEachStep(histories);
      var before, times := TimesById(rest), TimesOf(last);
      if times != [] {
        MapSumPut(Lengths(before), last.id, |times|);
        assert Lengths(before[last.id := times]) == Lengths(before)[last.id := |times|];
      }
      hide OneEach; hide MapSum;
    }
  }

  lemma OneEachStep(histories: seq<History>)
    requires histories != []
    ensures var rest, last := histories[..|histories| - 1], histories[|histories| - 1];
            OneEach(histories) <==>
            OneEach(rest) && (TimesOf(last) == [] || last.id !in TimesById(rest))
  {
    hide TimesOf;
    var rest, last := histories[..|histories| - 1], histories[|histories| - 1];
    IdsWithIncidents(rest, last.id);
    if OneEach(histories) {
      forall i, j | 0 <= i < j < |rest| && TimesOf(rest[i]) != [] && TimesOf(rest[j]) != [] ensures rest[i].id != rest[j].id {
        assert histories[i] == rest[i] && histories[j] == rest[j];
      }
    }
  }
}
