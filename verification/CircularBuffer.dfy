/** The deduplication ring of the UDP nodes: 256 rows, oldest overwritten first, zeroed at start. */
module CircularBuffer {
  import opened Distinct
  import opened Packets

  const HASHES: nat := 256

  /** What the ring remembers: the last 256 of 256 zeros followed by the accepted hashes. */
  function Window(accepted: seq<Hash>): (w: seq<Hash>)
    ensures |w| == HASHES
  {
    History(accepted)[|accepted|..]
  }

  function History(accepted: seq<Hash>): (all: seq<Hash>)
    ensures |all| == HASHES + |accepted|
  {
    Zeros() + accepted
  }

  function Zeros(): (z: seq<Hash>)
    ensures |z| == HASHES
  {
    seq(HASHES, _ => 0)
  }

  predicate Seen(accepted: seq<Hash>, h: Hash) {
    h in Window(accepted)
  }

  /** A node's memory after one more packet: the same hash is not accepted twice in a row. */
  function Remember(accepted: seq<Hash>, h: Hash): seq<Hash> {
    if Seen(accepted, h) then accepted else accepted + [h]
  }

  function RememberAll(accepted: seq<Hash>, received: seq<Hash>): seq<Hash> {
    if received == [] then accepted
    else Remember(RememberAll(accepted, received[..|received| - 1]), received[|received| - 1])
  }

  /** The place of a row in the window: 0 for the row to be overwritten next. */
  function Age(row: nat, next: nat): nat
    requires row < HASHES && next < HASHES
  {
    if row >= next then row - next else row + HASHES - next
  }

  /** The rows, read from `next` on and around, are the window. */
  ghost predicate Holds(rows: seq<Hash>, next: nat, accepted: seq<Hash>) {
    && |rows| == HASHES
    && next == |accepted| % HASHES
    && forall row | 0 <= row < HASHES :: rows[row] == Window(accepted)[Age(row, next)]
  }

  /** A new hash takes the oldest row. */
  lemma HoldsNext(rows: seq<Hash>, next: nat, accepted: seq<Hash>, val: Hash)
    requires Holds(rows, next, accepted)
    ensures Holds(rows[next := val], if next == 255 then 0 else next + 1, accepted + [val])
  {
    WindowSlides(accepted, val);
  }

  class CircularBuffer {
    const buff: array<Hash>
    var next: nat
    ghost var accepted: seq<Hash>

    ghost predicate Valid()
      reads this, buff
    {
      buff.Length == HASHES && Holds(buff[..], next, accepted)
    }

    constructor ()
      ensures Valid() && fresh(buff) && accepted == []
    {
      buff := new Hash[HASHES](_ => 0);
      next := 0;
      accepted := [];
    }

    method ContainsBuff(val: Hash) returns (location: int)
      requires Valid()
      ensures location == -1 <==> !Seen(accepted, val)
      ensures location != -1 ==> 0 <= location < HASHES && buff[location] == val && val !in buff[..location]
    {
      for row := 0 to HASHES
        invariant val !in buff[..row]
      {
        if val == buff[row] {
          InWindow(val);
          return row;
        }
      }
      InWindow(val);
      return -1;
    }

    method AddToBuff(val: Hash) returns (row: nat)
      requires Valid()
      modifies this`next, this`accepted, buff
      ensures Valid() && accepted == Remember(old(accepted), val)
      ensures row < HASHES && buff[row] == val
      ensures !Seen(old(accepted), val) ==> row == old(next)
      ensures Seen(old(accepted), val) ==> buff[..] == old(buff[..])
    {
      var location := ContainsBuff(val);
      if location == -1 {
        HoldsNext(buff[..], next, accepted, val);
        ghost var rows := buff[..][next := val];
        buff[next] := val;
        assert buff[..] == rows;
        row := next;
        accepted := accepted + [val];
        if next == 255 {
          next := 0;
        } else {
          next := next + 1;
        }
      } else {
        row := location;
      }
    }

    /** Every place of the window has its row. */
    lemma InWindow(val: Hash)
      requires Valid()
      ensures Seen(accepted, val) <==> val in buff[..]
    {
      if k :| 0 <= k < HASHES && Window(accepted)[k] == val {
        var row := if next + k < HASHES then next + k else next + k - HASHES;
        assert Age(row, next) == k && buff[row] == val;
      }
    }
  }

  /** Accepting drops the oldest entry of the window and appends the new one. */
  lemma WindowSlides(accepted: seq<Hash>, h: Hash)
    ensures Window(accepted + [h]) == Window(accepted)[1..] + [h]
  {}

  /** `h` is remembered exactly while fewer than 256 acceptances came after its own, and a zero hash
      also while fewer than 256 came at all. */
  lemma SeenExactly(accepted: seq<Hash>, h: Hash)
    ensures Seen(accepted, h) <==>
      || (exists i :: 0 <= i < |accepted| && |accepted| - i <= HASHES && accepted[i] == h)
      || (h == 0 && |accepted| < HASHES)
  {
    var all := History(accepted);
    if Seen(accepted, h) {
      var k :| 0 <= k < HASHES && Window(accepted)[k] == h;
      assert all[|accepted| + k] == h;
      if |accepted| + k >= HASHES { assert accepted[|accepted| + k - HASHES] == h; }
    }
    if i :| 0 <= i < |accepted| && |accepted| - i <= HASHES && accepted[i] == h {
      assert Window(accepted)[HASHES + i - |accepted|] == h;
    }
    if h == 0 && |accepted| < HASHES {
      assert Window(accepted)[0] == 0;
    }
  }

  /** A history a ring can have: nothing was accepted while remembered. */
  ghost predicate IsHistory(accepted: seq<Hash>) {
    forall i | 0 <= i < |accepted| :: !Seen(accepted[..i], accepted[i])
  }

  lemma {:induction false} RunsAreHistories(received: seq<Hash>)
    ensures IsHistory(RememberAll([], received))
  {
    if received != [] {
      RunsAreHistories(received[..|received| - 1]);
      HistoryExtends(RememberAll([], received[..|received| - 1]), received[|received| - 1]);
    }
  }

  lemma HistoryExtends(accepted: seq<Hash>, h: Hash)
    requires IsHistory(accepted)
    ensures IsHistory(Remember(accepted, h))
  {
    var next := Remember(accepted, h);
    forall i | 0 <= i < |next| ensures !Seen(next[..i], next[i]) {
      assert i < |accepted| ==> next[..i] == accepted[..i];
      assert i == |accepted| ==> next[..i] == accepted;
    }
  }

  /** Any 257 consecutive acceptances are pairwise distinct. */
  lemma ConsecutiveDistinct(accepted: seq<Hash>, i: nat, j: nat)
    requires IsHistory(accepted) && i < j < |accepted| && j - i <= HASHES
    ensures accepted[i] != accepted[j]
  {
    SeenExactly(accepted[..j], accepted[j]);
    assert accepted[..j][i] == accepted[i];
  }

  /** If from acceptance `n` on at most 256 distinct hashes were about, each was accepted at most once
      since, and all that was accepted since is remembered. */
  lemma FewHashesNeverForgotten(accepted: seq<Hash>, n: nat, hashes: set<Hash>)
    requires IsHistory(accepted) && n <= |accepted| && |hashes| <= HASHES
    requires forall h | h in accepted[n..] :: h in hashes
    ensures |accepted| - n <= |hashes|
    ensures NoRepeats(accepted[n..])
    ensures forall h | h in accepted[n..] :: Seen(accepted, h)
  {
    var recent := accepted[n..];
    var some := if |recent| <= HASHES then |recent| else HASHES + 1;
    forall i, j | 0 <= i < j < some ensures recent[i] != recent[j] { ConsecutiveDistinct(accepted, n + i, n + j); }
    DistinctFit(recent[..some], hashes);
    forall h | h in recent ensures Seen(accepted, h) {
      var i :| 0 <= i < |recent| && recent[i] == h;
      assert accepted[n + i] == h;
      SeenExactly(accepted, h);
    }
  }
}
