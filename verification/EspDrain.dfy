/** The main loop on its own: with no more receptions it works off every pending entry. */
module EspDrain {
  import opened Distinct
  import opened Packets
  import opened TimeAwareCache
  import opened EspRelay
  import opened EspInvariants

  /** Waiting for its broadcast, which has not begun. */
  predicate Pending(st: State, k: int)
    requires 0 <= k < |st.entries|
  {
    st.entries[k].active && !st.entries[k].broadcasted && !(st.isBroadcasting && st.current == k)
  }

  ghost function PendingSet(st: State): set<int> {
    set k | 0 <= k < |st.entries| && Pending(st, k)
  }

  /** Pending and heard from fewer than four senders. */
  ghost function ToBurst(st: State): set<int> {
    set k | 0 <= k < |st.entries| && Pending(st, k) && st.entries[k].rxCount < REDUNDANCY
  }

  /** Two turns for each pending entry, one more for the burst under way. */
  ghost function Work(st: State): nat {
    2 * |PendingSet(st)| + (if st.isBroadcasting then 1 else 0)
  }

  /** The deadlines the next turn depends on have passed. */
  ghost predicate Ready(st: State, now: UInt32) {
    if st.isBroadcasting then now >= st.endTime
    else forall k | k in PendingSet(st) :: now >= st.entries[k].broadcastTime
  }

  /** Bursts made and bursts to be made add up to the same before and after every turn. */
  lemma BurstsConserved(st: State, now: UInt32)
    requires st.Shaped()
    ensures var t := OnLoop(st, now);
      |t.starts| + |ToBurst(t)| == |st.starts| + |ToBurst(st)|
  {
    var k, t := FirstBurst(st.entries, now), OnLoop(st, now);
    if !st.isBroadcasting && k < CACHE_SIZE {
      Started(st, now);
      assert ToBurst(t) == ToBurst(st) - {k};
    } else {
      NotStarted(st, now);
      assert ToBurst(t) == ToBurst(st);
    }
  }

  lemma Started(st: State, now: UInt32)
    requires st.Shaped() && !st.isBroadcasting && FirstBurst(st.entries, now) < CACHE_SIZE
    ensures var k, t := FirstBurst(st.entries, now), OnLoop(st, now);
      k in ToBurst(st) && forall i :: i in ToBurst(t) <==> i in ToBurst(st) && i != k
  {}

  lemma NotStarted(st: State, now: UInt32)
    requires st.Shaped() && (st.isBroadcasting || FirstBurst(st.entries, now) == CACHE_SIZE)
    ensures forall i :: i in ToBurst(OnLoop(st, now)) <==> i in ToBurst(st)
  {}

  /** Each turn made in time does some of the work. */
  lemma TurnDecreasesWork(st: State, now: UInt32)
    requires st.Shaped() && Ready(st, now) && Work(st) > 0
    ensures Work(OnLoop(st, now)) < Work(st)
  {
    var k, t := FirstBurst(st.entries, now), OnLoop(st, now);
    if st.isBroadcasting {
      assert PendingSet(t) == PendingSet(st);
    } else {
      var i :| i in PendingSet(st);
      var done := if k < CACHE_SIZE then k else i;
      assert IsDue(st.entries[i], now);
      assert done in PendingSet(st) && done !in PendingSet(t);
      SmallerSet(PendingSet(t), PendingSet(st), done);
    }
  }

  // ----- Turns of the loop alone, at any times -----

  ghost predicate IsLoopRun(states: seq<State>, times: seq<UInt32>) {
    && |states| == |times| + 1 && states[0].Shaped()
    && forall k: nat | k < |times| :: TurnAt(states, times, k)
  }

  ghost predicate TurnAt(states: seq<State>, times: seq<UInt32>, k: nat)
    requires |states| == |times| + 1 && k < |times|
  {
    states[k].Shaped() && states[k + 1].Shaped() && states[k + 1] == OnLoop(states[k], times[k])
  }

  /** The same entries wait, and the same burst is under way. */
  ghost predicate Idle(st: State, t: State) {
    PendingSet(t) == PendingSet(st) && t.isBroadcasting == st.isBroadcasting && t.endTime == st.endTime
  }

  /** A turn made too early does no harm. */
  lemma TurnWorksOrIdles(st: State, now: UInt32)
    requires st.Shaped()
    ensures Work(OnLoop(st, now)) < Work(st) || Idle(st, OnLoop(st, now))
    ensures PendingSet(OnLoop(st, now)) <= PendingSet(st)
  {
    var k, t := FirstBurst(st.entries, now), OnLoop(st, now);
    if st.isBroadcasting {
      assert PendingSet(t) == PendingSet(st);
    } else if k < CACHE_SIZE {
      SmallerSet(PendingSet(t), PendingSet(st), k);
    } else if i :| i in PendingSet(st) && i !in PendingSet(t) {
      SmallerSet(PendingSet(t), PendingSet(st), i);
    } else {
      assert PendingSet(t) == PendingSet(st);
    }
  }

  lemma {:induction false} WorkNeverGrows(states: seq<State>, times: seq<UInt32>, m: nat, n: nat)
    requires IsLoopRun(states, times) && m <= n <= |times|
    ensures Work(states[n]) <= Work(states[m])
    decreases n
  {
    if m < n {
      WorkNeverGrows(states, times, m, n - 1);
      assert TurnAt(states, times, n - 1);
      TurnWorksOrIdles(states[n - 1], times[n - 1]);
    }
  }

  lemma {:induction false} BurstsKept(states: seq<State>, times: seq<UInt32>, n: nat)
    requires IsLoopRun(states, times) && n <= |times|
    ensures states[n].Shaped()
    ensures |states[n].starts| + |ToBurst(states[n])| == |states[0].starts| + |ToBurst(states[0])|
  {
    if n > 0 {
      BurstsKept(states, times, n - 1);
      assert TurnAt(states, times, n - 1);
      BurstsConserved(states[n - 1], times[n - 1]);
    }
  }

  /** How often the acceptance in entry `k` was burst, or will be. */
  ghost function Due(st: State, k: nat): nat
    requires st.Shaped() && k < CACHE_SIZE && Owned(st, k)
  {
    |st.log[st.owner[k]].bursts| + if k in ToBurst(st) then 1 else 0
  }

  /** A turn makes no burst but one that was to be made, and forgets none. */
  lemma EntryConserved(st: State, now: UInt32, k: nat)
    requires Inv(st) && k < CACHE_SIZE && Owned(st, k)
    ensures var t := OnLoop(st, now); t.Shaped() && t.owner == st.owner && Owned(t, k) && Due(t, k) == Due(st, k)
  {
    var first := FirstBurst(st.entries, now);
    if !st.isBroadcasting && first < CACHE_SIZE {
      Started(st, now);
      if k != first { OwnersDiffer(st, first, k); }
    } else {
      NotStarted(st, now);
    }
  }

  lemma {:induction false} EntryKept(states: seq<State>, times: seq<UInt32>, n: nat, k: nat)
    requires IsLoopRun(states, times) && n <= |times| && Inv(states[0]) && GatewayDone(states[0])
    requires k < CACHE_SIZE && Owned(states[0], k)
    ensures Inv(states[n]) && GatewayDone(states[n]) && states[n].owner == states[0].owner
    ensures Owned(states[n], k) && Due(states[n], k) == Due(states[0], k)
  {
    if n > 0 {
      EntryKept(states, times, n - 1, k);
      assert TurnAt(states, times, n - 1);
      InvStep(states[n - 1], Loop(times[n - 1]));
      EntryConserved(states[n - 1], times[n - 1], k);
    }
  }

  // ----- Enough turns, however they are timed -----

  /** How many of the first `n` turns were made after their deadlines. */
  ghost function TimelyTurns(states: seq<State>, times: seq<UInt32>, n: nat): nat
    requires n <= |states| && n <= |times|
  {
    if n == 0 then 0
    else TimelyTurns(states, times, n - 1) + if Ready(states[n - 1], times[n - 1]) then 1 else 0
  }

  lemma {:induction false} TimelyTurnsWork(states: seq<State>, times: seq<UInt32>, n: nat)
    requires IsLoopRun(states, times) && n <= |times|
    ensures Work(states[n]) + TimelyTurns(states, times, n) <= Work(states[0]) || Work(states[n]) == 0
  {
    if n > 0 {
      TimelyTurnsWork(states, times, n - 1);
      assert TurnAt(states, times, n - 1);
      WorkNeverGrows(states, times, n - 1, n);
      if Ready(states[n - 1], times[n - 1]) && Work(states[n - 1]) > 0 {
        TurnDecreasesWork(states[n - 1], times[n - 1]);
      }
    }
  }

  /** Nothing is pending and no burst is under way, with one burst made for each entry that was waiting
      with fewer than four senders. */
  ghost predicate IsDrained(st: State, t: State) {
    && !t.isBroadcasting && PendingSet(t) == {}
    && |t.starts| == |st.starts| + |ToBurst(st)|
  }

  lemma WorkedOff(states: seq<State>, times: seq<UInt32>, n: nat)
    requires IsLoopRun(states, times) && n <= |times| && Work(states[n]) == 0
    ensures IsDrained(states[0], states[|times|])
  {
    var t := states[|times|];
    WorkNeverGrows(states, times, n, |times|);
    BurstsKept(states, times, |times|);
    assert ToBurst(t) <= PendingSet(t);
    assert ToBurst(t) == {};
  }

  /** Whenever the turns are made: once as many of them as there is work came after their deadlines, all
      is worked off ... */
  lemma Drained(states: seq<State>, times: seq<UInt32>)
    requires IsLoopRun(states, times) && TimelyTurns(states, times, |times|) >= Work(states[0])
    ensures IsDrained(states[0], states[|times|])
  {
    TimelyTurnsWork(states, times, |times|);
    WorkedOff(states, times, |times|);
  }

  /** ... and each burst is one entry's own: a waiting entry's acceptance is burst once if fewer than four
      senders were counted, and never otherwise. */
  lemma DrainedEach(states: seq<State>, times: seq<UInt32>, k: nat)
    requires IsLoopRun(states, times) && IsDrained(states[0], states[|times|])
    requires Inv(states[0]) && GatewayDone(states[0])
    requires k < CACHE_SIZE && Pending(states[0], k)
    ensures Owned(states[0], k) && states[|times|].owner == states[0].owner && Owned(states[|times|], k)
    ensures |states[0].log[states[0].owner[k]].bursts| == 0
    ensures |states[|times|].log[states[0].owner[k]].bursts| ==
      if states[0].entries[k].rxCount < 4 then 1 else 0
  {
    assert Owned(states[0], k);
    EntryKept(states, times, |times|, k);
    assert k !in PendingSet(states[|times|]);
  }

  // ----- How long it takes -----

  /** All deadlines at the start are over by `deadline`. */
  ghost predicate OverBy(st: State, deadline: nat) {
    && (forall k | k in PendingSet(st) :: st.entries[k].broadcastTime as int <= deadline)
    && (st.isBroadcasting ==> st.endTime <= deadline)
  }

  /** The clock neither runs back nor wraps. */
  ghost predicate Steady(times: seq<UInt32>) {
    && (forall j, k | 0 <= j < k < |times| :: times[j] <= times[k])
    && (forall k | 0 <= k < |times| :: times[k] + BROADCAST_BURST < 0x1_0000_0000)
  }

  lemma TurnDeadlines(st: State, now: UInt32, deadline: nat)
    requires st.Shaped() && now + BROADCAST_BURST < 0x1_0000_0000
    requires forall k | k in PendingSet(st) :: st.entries[k].broadcastTime as int <= deadline
    ensures var t := OnLoop(st, now);
      && (forall k | k in PendingSet(t) :: t.entries[k].broadcastTime as int <= deadline)
      && (t.isBroadcasting ==> (st.isBroadcasting && t.endTime == st.endTime) || t.endTime == now + BROADCAST_BURST)
  {
    LoopOnlyMarks(st, now);
    TurnWorksOrIdles(st, now);
  }

  /** A burst under way began with the run or in one of its turns. */
  lemma {:induction false} Deadlines(states: seq<State>, times: seq<UInt32>, n: nat, deadline: nat)
    requires IsLoopRun(states, times) && Steady(times) && n <= |times| && OverBy(states[0], deadline)
    ensures forall k | k in PendingSet(states[n]) :: states[n].entries[k].broadcastTime as int <= deadline
    ensures states[n].isBroadcasting ==>
      states[n].endTime <= deadline || (n > 0 && states[n].endTime <= times[n - 1] + BROADCAST_BURST)
  {
    if n > 0 {
      Deadlines(states, times, n - 1, deadline);
      assert TurnAt(states, times, n - 1);
      TurnDeadlines(states[n - 1], times[n - 1], deadline);
    }
  }

  lemma {:induction false} NothingDone(states: seq<State>, times: seq<UInt32>, m: nat, n: nat)
    requires IsLoopRun(states, times) && m <= n <= |times| && Work(states[n]) == Work(states[m])
    ensures Idle(states[m], states[n])
    decreases n
  {
    if m < n {
      assert TurnAt(states, times, n - 1);
      WorkNeverGrows(states, times, m, n - 1);
      WorkNeverGrows(states, times, n - 1, n);
      NothingDone(states, times, m, n - 1);
      TurnWorksOrIdles(states[n - 1], times[n - 1]);
    }
  }

  /** From state `m` to a turn past the deadlines and 500 milliseconds after the turn before `m`, some
      work is done. */
  lemma Progress(states: seq<State>, times: seq<UInt32>, m: nat, n: nat, deadline: nat)
    requires IsLoopRun(states, times) && Steady(times) && m <= n < |times| && OverBy(states[0], deadline)
    requires times[n] >= deadline && (m > 0 ==> times[n] >= times[m - 1] + BROADCAST_BURST)
    ensures Work(states[n + 1]) < Work(states[m]) || Work(states[n + 1]) == 0
  {
    assert TurnAt(states, times, n);
    WorkNeverGrows(states, times, m, n);
    WorkNeverGrows(states, times, n, n + 1);
    if Work(states[n]) == Work(states[m]) && Work(states[n]) > 0 {
      NothingDone(states, times, m, n);
      Deadlines(states, times, m, deadline);
      Deadlines(states, times, n, deadline);
      assert Ready(states[n], times[n]);
      TurnDecreasesWork(states[n], times[n]);
    }
  }

  /** Turns past the deadlines, each at least 500 milliseconds after the one before. */
  ghost predicate FarApart(times: seq<UInt32>, marks: seq<nat>, deadline: nat) {
    && (forall i | 0 <= i < |marks| :: marks[i] < |times| && times[marks[i]] >= deadline)
    && (forall i, j | 0 <= i < j < |marks| :: marks[i] < marks[j])
    && (forall i, j | 0 <= i < j < |marks| && j == i + 1 :: times[marks[j]] >= times[marks[i]] + BROADCAST_BURST)
  }

  lemma {:induction false} MarkedWork(states: seq<State>, times: seq<UInt32>, marks: seq<nat>, deadline: nat, m: nat)
    requires IsLoopRun(states, times) && Steady(times) && OverBy(states[0], deadline)
    requires FarApart(times, marks, deadline) && m < |marks|
    ensures Work(states[marks[m] + 1]) + m + 1 <= Work(states[0]) || Work(states[marks[m] + 1]) == 0
  {
    if m == 0 {
      Progress(states, times, 0, marks[0], deadline);
    } else {
      MarkedWork(states, times, marks, deadline, m - 1);
      Progress(states, times, marks[m - 1] + 1, marks[m], deadline);
    }
  }

  /** However often the loop turns: as many turns as there is work, past the deadlines and 500 milliseconds
      apart, are enough among them. */
  lemma DrainedInTime(states: seq<State>, times: seq<UInt32>, marks: seq<nat>, deadline: nat)
    requires IsLoopRun(states, times) && Steady(times) && OverBy(states[0], deadline)
    requires FarApart(times, marks, deadline) && |marks| >= Work(states[0])
    ensures IsDrained(states[0], states[|times|])
  {
    if marks == [] {
      WorkedOff(states, times, 0);
    } else {
      var m := |marks| - 1;
      MarkedWork(states, times, marks, deadline, m);
      WorkedOff(states, times, marks[m] + 1);
    }
  }
}
