/** The relay's table does get overloaded: 257 packets at once are one too many. */
module EspOverload {
  import opened Distinct
  import opened Packets
  import opened TimeAwareCache
  import opened EspRelay
  import opened EspTiming
  import opened EspIdeal

  /** A packet is received, the clock at zero. */
  function Reception(h: Hash): Event {
    Receive(BLANK.(flags := START_TTL, sig := h), 0, 0, false, 50)
  }

  /** Packets 0 to `n - 1` were received, and accepted, at time zero. */
  ghost predicate Burst(states: seq<State>, events: seq<Event>, n: nat) {
    && TimedRun(states, events) && |events| == n && LightLoad(states, events, n)
    && (forall k | 0 <= k < n :: events[k].now == 0)
    && OneEach(states[n].log, n)
  }

  ghost predicate OneEach(log: seq<Acceptance>, n: nat) {
    |log| == n && forall i | 0 <= i < n :: log[i].time == 0 && log[i].hmac == i
  }

  lemma AllLive(log: seq<Acceptance>, n: nat)
    requires OneEach(log, n)
    ensures |LiveSet(log, 0)| == n
  {
    var live := LiveSet(log, 0);
    var numbers := seq(n, i => i);
    forall i | i in live ensures i in numbers { assert numbers[i] == i; }
    CoveredBy(live, numbers);
    DistinctFit(numbers, live);
  }

  lemma NotSeen(st: State, n: nat)
    requires st.Shaped() && Agree(st, 0) && OneEach(st.log, n) && n < 0x1_0000
    ensures FirstHit(st.entries, n, 0) == CACHE_SIZE
  {}

  /** A packet not seen yet is accepted. */
  lemma Appended(st: State, n: nat)
    requires st.Shaped() && OneEach(st.log, n) && n < 0x1_0000 && FirstHit(st.entries, n, 0) == CACHE_SIZE
    ensures OneEach(Step(st, Reception(n)).log, n + 1)
  {
    var e := Reception(n);
    assert Forward(e.packet).Some? && Forward(e.packet).value.sig == n;
    assert Check(st, n, 0, 0).log == st.log;
  }

  lemma NewAccepted(states: seq<State>, events: seq<Event>, n: nat)
    requires Burst(states, events, n) && n < 0x1_0000
    ensures states[n].Shaped() && OneEach(Step(states[n], Reception(n)).log, n + 1)
  {
    EveryTimedState(states, events);
    CacheRefinesTimedSet(states, events, 0);
    NotSeen(states[n], n);
    Appended(states[n], n);
  }

  /** The run with one reception more. */
  lemma TimedExtends(states: seq<State>, events: seq<Event>, e: Event)
    requires TimedRun(states, events) && IsEvent(e) && LastTime(events) <= e.now < NO_WRAP
    ensures states[|events|].Shaped()
    ensures TimedRun(states + [Step(states[|events|], e)], events + [e])
  {
    RunExtends(states, events, e);
    TimesExtend(events, e);
  }

  lemma TimesExtend(events: seq<Event>, e: Event)
    requires forall k | 0 <= k < |events| :: events[k].now < NO_WRAP
    requires forall j, k | 0 <= j < k < |events| :: events[j].now <= events[k].now
    requires LastTime(events) <= e.now < NO_WRAP
    ensures forall k | 0 <= k < |events + [e]| :: (events + [e])[k].now < NO_WRAP
    ensures forall j, k | 0 <= j < k < |events + [e]| :: (events + [e])[j].now <= (events + [e])[k].now
  {}

  lemma LightExtends(states: seq<State>, events: seq<Event>, e: Event, t: State)
    requires |states| == |events| + 1 && LightLoad(states, events, |events|)
    ensures LightLoad(states + [t], events + [e], |events| + 1) <==> !Overload(states[|events|], e)
  {
    var more, steps := states + [t], events + [e];
    forall k: nat | k < |events| ensures !OverloadAt(more, steps, k) {
      assert !OverloadAt(states, events, k);
    }
    LastEvent(more, steps, |events|);
  }

  lemma BurstGrows(states: seq<State>, events: seq<Event>, n: nat)
    requires Burst(states, events, n) && n < CACHE_SIZE
    ensures states[n].Shaped()
    ensures Burst(states + [Step(states[n], Reception(n))], events + [Reception(n)], n + 1)
  {
    NewAccepted(states, events, n);
    AllLive(states[n].log, n);
    TimedExtends(states, events, Reception(n));
    LightExtends(states, events, Reception(n), Step(states[n], Reception(n)));
  }

  lemma {:induction false} BurstOf(n: nat) returns (states: seq<State>, events: seq<Event>)
    requires n <= CACHE_SIZE
    ensures Burst(states, events, n)
  {
    if n == 0 {
      states, events := [Boot()], [];
    } else {
      states, events := BurstOf(n - 1);
      BurstGrows(states, events, n - 1);
      states, events := states + [Step(states[n - 1], Reception(n - 1))], events + [Reception(n - 1)];
    }
  }

  lemma TooMany(states: seq<State>, events: seq<Event>, e: Event)
    requires TimedRun(states, events) && IsEvent(e) && LastTime(events) <= e.now < NO_WRAP
    requires states[|events|].Shaped() && Overload(states[|events|], e)
    ensures exists states, events :: TimedRun(states, events) && !AlwaysAnswers(states, events, |events|)
  {
    TimedExtends(states, events, e);
    var more, steps := states + [Step(states[|events|], e)], events + [e];
    assert OverloadAt(more, steps, |events|);
    LightMirrors(more, steps, |steps|);
    RefinementExactly(more, steps, |steps|);
  }

  /** So there is a run after which the table does not agree with the timed set. */
  lemma OverloadHappens()
    ensures exists states, events :: TimedRun(states, events) && !AlwaysAnswers(states, events, |events|)
  {
    var states, events := BurstOf(CACHE_SIZE);
    NewAccepted(states, events, CACHE_SIZE);
    AllLive(states[CACHE_SIZE].log, CACHE_SIZE);
    TooMany(states, events, Reception(CACHE_SIZE));
  }
}
