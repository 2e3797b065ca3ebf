/** The relay's table against an unbounded timed set that is fed from the received packets alone. */
module EspIdeal {
  import opened Packets
  import opened TimeAwareCache
  import opened EspRelay
  import opened EspInvariants
  import opened EspTiming

  datatype Taken = Taken(hmac: Hash, time: UInt32)

  predicate IsLiveTaken(a: Taken, now: UInt32) {
    a.time <= now < a.time + CACHE_TTL_MS
  }

  /** The packet was taken less than two seconds ago. */
  ghost predicate Knows(ideal: seq<Taken>, hmac: Hash, now: UInt32) {
    exists i :: 0 <= i < |ideal| && IsLiveTaken(ideal[i], now) && ideal[i].hmac == hmac
  }

  /** A reception of a packet not known, by a gateway or with hops left. */
  ghost predicate Takes(ideal: seq<Taken>, e: Event) {
    e.Receive? && !Knows(ideal, e.packet.sig, e.now) && (e.connected || Forward(e.packet).Some?)
  }

  /** What a table without bounds takes. */
  ghost function Ideal(events: seq<Event>): seq<Taken> {
    if events == [] then []
    else
      var rest, e := Ideal(events[..|events| - 1]), events[|events| - 1];
      if Takes(rest, e) then rest + [Taken(e.packet.sig, e.now)] else rest
  }

  /** The packets of the last two seconds. */
  ghost function LiveTaken(ideal: seq<Taken>, now: UInt32): set<int> {
    set i | 0 <= i < |ideal| && IsLiveTaken(ideal[i], now)
  }

  /** The event takes a packet on top of 256 in two seconds. */
  ghost predicate Overfull(events: seq<Event>, k: nat)
    requires k < |events|
  {
    Takes(Ideal(events[..k]), events[k]) && |LiveTaken(Ideal(events[..k]), events[k].now)| >= CACHE_SIZE
  }

  /** None of the first `n` events does. */
  ghost predicate IdealLight(events: seq<Event>, n: nat)
    requires n <= |events|
  {
    forall k: nat | k < n :: !Overfull(events, k)
  }

  /** A look-up is the question whether the timed set knows the packet. */
  ghost predicate Answers(st: State, ideal: seq<Taken>, now: UInt32) {
    forall h: Hash :: FirstHit(st.entries, h, now) < |st.entries| <==> Knows(ideal, h, now)
  }

  ghost predicate AnswersAfter(states: seq<State>, events: seq<Event>, k: nat)
    requires |states| == |events| + 1 && k < |events|
  {
    Answers(states[k + 1], Ideal(events[..k + 1]), events[k].now)
  }

  ghost predicate AlwaysAnswers(states: seq<State>, events: seq<Event>, n: nat)
    requires |states| == |events| + 1 && n <= |events|
  {
    forall k: nat | k < n :: AnswersAfter(states, events, k)
  }

  // ----- The relay's own record -----

  /** The relay accepted what the timed set took. */
  ghost predicate Mirrors(log: seq<Acceptance>, ideal: seq<Taken>) {
    && |log| == |ideal|
    && forall i | 0 <= i < |log| :: log[i].hmac == ideal[i].hmac && log[i].time == ideal[i].time
  }

  lemma MirrorsLive(log: seq<Acceptance>, ideal: seq<Taken>, now: UInt32)
    requires Mirrors(log, ideal)
    ensures LiveSet(log, now) == LiveTaken(ideal, now)
  {}

  lemma MirrorsAnswers(st: State, ideal: seq<Taken>, now: UInt32)
    requires Mirrors(st.log, ideal)
    ensures Answers(st, ideal, now) <==> Agree(st, now)
  {
    forall h: Hash ensures Knows(ideal, h, now) <==> exists i :: i in LiveSet(st.log, now) && st.log[i].hmac == h {
      if Knows(ideal, h, now) {
        var i :| 0 <= i < |ideal| && IsLiveTaken(ideal[i], now) && ideal[i].hmac == h;
        assert i in LiveSet(st.log, now);
      }
    }
  }

  /** Where the table agrees, the relay accepts exactly what the timed set takes. */
  lemma StepMirrors(st: State, e: Event, ideal: seq<Taken>)
    requires st.Shaped() && Agree(st, e.now) && Mirrors(st.log, ideal)
    ensures |Step(st, e).log| > |st.log| <==> Takes(ideal, e)
    ensures Mirrors(Step(st, e).log, if Takes(ideal, e) then ideal + [Taken(e.packet.sig, e.now)] else ideal)
  {
    match e
    case Loop(now) => LoopOnlyMarks(st, now);
    case Receive(packet, mac, now, connected, jitter) =>
      MirrorsAnswers(st, ideal, now);
      assert FirstHit(st.entries, packet.sig, now) < |st.entries| <==> Knows(ideal, packet.sig, now);
      LogGrows(st, packet, mac, now, connected, jitter);
      LogsMirror(st.log, OnPacket(st, packet, mac, now, connected, jitter).log, ideal,
                 Recorded(packet, now, connected, jitter));
  }

  lemma LogsMirror(before: seq<Acceptance>, after: seq<Acceptance>, ideal: seq<Taken>, a: Acceptance)
    requires Mirrors(before, ideal)
    ensures Adds(before, after, true, a) ==> Mirrors(after, ideal + [Taken(a.hmac, a.time)])
    ensures Adds(before, after, false, a) ==> Mirrors(after, ideal)
  {}

  lemma TakenLast(events: seq<Event>, n: nat)
    requires n < |events|
    ensures var ideal, e := Ideal(events[..n]), events[n];
      Ideal(events[..n + 1]) == if Takes(ideal, e) then ideal + [Taken(e.packet.sig, e.now)] else ideal
  {
    assert events[..n + 1][..n] == events[..n];
  }

  lemma AgreesBefore(states: seq<State>, events: seq<Event>, n: nat)
    requires TimedRun(states, events) && n < |events| && LightLoad(states, events, n)
    ensures states[n].Shaped() && Agree(states[n], events[n].now)
  {
    KeptAlong(states, events, n);
    TimedAt(states, events, n);
    KeptLater(states[n], LastTime(events[..n]), events[n].now);
    KeptAgrees(states[n], events[n].now);
  }

  lemma {:induction false} LightMirrors(states: seq<State>, events: seq<Event>, n: nat)
    requires TimedRun(states, events) && n <= |events|
    ensures IdealLight(events, n) <==> LightLoad(states, events, n)
    ensures IdealLight(events, n) ==> Mirrors(states[n].log, Ideal(events[..n]))
  {
    if n > 0 {
      LightMirrors(states, events, n - 1);
      IdealLast(events, n - 1);
      LastEvent(states, events, n - 1);
      if IdealLight(events, n - 1) { NextMirrors(states, events, n - 1); }
    }
  }

  lemma IdealLast(events: seq<Event>, n: nat)
    requires n < |events|
    ensures IdealLight(events, n + 1) <==> IdealLight(events, n) && !Overfull(events, n)
  {}

  lemma NextMirrors(states: seq<State>, events: seq<Event>, n: nat)
    requires TimedRun(states, events) && n < |events| && LightLoad(states, events, n)
    requires Mirrors(states[n].log, Ideal(events[..n]))
    ensures Overfull(events, n) <==> OverloadAt(states, events, n)
    ensures Mirrors(states[n + 1].log, Ideal(events[..n + 1]))
  {
    assert StepAt(states, events, n);
    AgreesBefore(states, events, n);
    StepMirrors(states[n], events[n], Ideal(events[..n]));
    MirrorsLive(states[n].log, Ideal(events[..n]), events[n].now);
    TakenLast(events, n);
  }

  // ----- Main results -----

  /** While the packets received are such that an unbounded set takes none on top of 256 in two seconds,
      the relay accepts just what that set takes, and looking a packet up at any later time is asking
      that set. */
  lemma RefinesTimedSet(states: seq<State>, events: seq<Event>, now: UInt32)
    requires TimedRun(states, events) && LastTime(events) <= now && IdealLight(events, |events|)
    ensures Mirrors(states[|events|].log, Ideal(events)) && Answers(states[|events|], Ideal(events), now)
  {
    assert events[..|events|] == events;
    LightMirrors(states, events, |events|);
    CacheRefinesTimedSet(states, events, now);
    MirrorsAnswers(states[|events|], Ideal(events), now);
  }

  /** ... and that load is the exact limit: the table answers as the timed set does after every event if
      and only if the set takes none on top of 256. */
  lemma {:induction false} RefinementExactly(states: seq<State>, events: seq<Event>, n: nat)
    requires TimedRun(states, events) && n <= |events|
    ensures AlwaysAnswers(states, events, n) <==> IdealLight(events, n)
  {
    if n > 0 {
      RefinementExactly(states, events, n - 1);
      NextExactly(states, events, n - 1);
    }
  }

  lemma NextExactly(states: seq<State>, events: seq<Event>, n: nat)
    requires TimedRun(states, events) && n < |events|
    requires AlwaysAnswers(states, events, n) <==> IdealLight(events, n)
    ensures AlwaysAnswers(states, events, n + 1) <==> IdealLight(events, n + 1)
  {
    IdealLast(events, n);
    AnswersLast(states, events, n);
    if IdealLight(events, n) { NextAnswers(states, events, n); }
  }

  lemma AnswersLast(states: seq<State>, events: seq<Event>, n: nat)
    requires |states| == |events| + 1 && n < |events|
    ensures AlwaysAnswers(states, events, n + 1) <==>
      AlwaysAnswers(states, events, n) && AnswersAfter(states, events, n)
  {}

  lemma NextAnswers(states: seq<State>, events: seq<Event>, n: nat)
    requires TimedRun(states, events) && n < |events| && IdealLight(events, n)
    ensures AnswersAfter(states, events, n) <==> !Overfull(events, n)
  {
    LightMirrors(states, events, n);
    NextMirrors(states, events, n);
    NextAgrees(states, events, n);
    MirrorsAnswers(states[n + 1], Ideal(events[..n + 1]), events[n].now);
  }

  /** Under such a load no packet is accepted again within two seconds. */
  lemma ReacceptedApart(states: seq<State>, events: seq<Event>, n: nat)
    requires TimedRun(states, events) && n <= |events| && IdealLight(events, n)
    ensures Apart(states[n].log)
  {
    LightMirrors(states, events, n);
    LogApart(states, events, n);
  }
}
