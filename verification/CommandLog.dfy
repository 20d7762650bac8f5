/**
 What the collision monitor's output topic carries over one active period: one entry per processed command, with the
 velocity required of the robot and whether it was published.
 */
module CommandLog {
  import opened Grid
  import opened CollisionTime

  /** Times and durations are in nanoseconds. */
  datatype Entry = Entry(vel: Velocity, now: int, sent: bool)

  /** The newest command begins a stretch: there is none before it, or the one before it moved the robot. */
  predicate Begins(log: seq<Entry>)
    requires log != []
  {
    |log| == 1 || !log[|log| - 2].vel.IsZero()
  }

  /** When the stretch of standing still that the newest command belongs to, or would belong to, began. */
  function Since(log: seq<Entry>): int
    requires log != []
  {
    if Begins(log) then log[|log| - 1].now else Since(log[..|log| - 1])
  }

  /**
   A moving command is always sent; a standing one when its stretch begins, and until the timeout has passed since.
   */
  predicate Due(log: seq<Entry>, timeout: int)
    requires log != []
  {
    var e := log[|log| - 1];
    !e.vel.IsZero() || Begins(log) || e.now - Since(log) <= timeout
  }

  /** Every command of the log was sent exactly if it was due. */
  predicate Correct(log: seq<Entry>, timeout: int) {
    log == [] || (log[|log| - 1].sent == Due(log, timeout) && Correct(log[..|log| - 1], timeout))
  }

  /** The robot was last told `vel`: that command was sent, and none after it. */
  ghost predicate LastSent(log: seq<Entry>, vel: Velocity) {
    exists i :: 0 <= i < |log| && log[i].sent && log[i].vel == vel && forall j :: i < j < |log| ==> !log[j].sent
  }

  /** After every command, published or not, the robot has been told what is required of it now. */
  lemma {:induction false} RobotKnows(log: seq<Entry>, timeout: int)
    requires Correct(log, timeout) && log != []
    ensures LastSent(log, log[|log| - 1].vel)
  {
    var n := |log| - 1;
    if !log[n].sent {
      RobotKnows(log[..n], timeout);
      var i :| 0 <= i < n && log[i].sent && log[i].vel == log[n - 1].vel && forall j :: i < j < n ==> !log[..n][j].sent;
      forall j | i < j < |log| ensures !log[j].sent {
        assert j < n ==> log[..n][j] == log[j];
      }
    }
  }

  /** The commands from the `i`-th on all let the robot stand still, and the one before, if any, did not. */
  ghost predicate StretchFrom(log: seq<Entry>, i: nat) {
    && i < |log| && (forall j :: i <= j < |log| ==> log[j].vel.IsZero())
    && (i == 0 || !log[i - 1].vel.IsZero())
  }

  lemma {:induction false} StretchBegan(log: seq<Entry>) returns (i: nat)
    requires log != [] && log[|log| - 1].vel.IsZero()
    ensures StretchFrom(log, i) && Since(log) == log[i].now && (Begins(log) <==> i == |log| - 1)
  {
    var n := |log| - 1;
    if Begins(log) {
      i := n;
    } else {
      i := StretchBegan(log[..n]);
      assert log[..n][i] == log[i];
    }
  }

  lemma StretchIsUnique(log: seq<Entry>, i: nat, j: nat)
    requires StretchFrom(log, i) && StretchFrom(log, j)
    ensures i == j
  {
  }

  /**
   The newest command is kept back exactly when it lets the robot stand still, is not the first of its stretch to do so,
   and more than the timeout has passed since the first.
   */
  lemma SilentExactly(log: seq<Entry>, timeout: int)
    requires Correct(log, timeout) && log != []
    ensures !log[|log| - 1].sent <==>
            exists i: nat :: i < |log| - 1 && StretchFrom(log, i) && log[|log| - 1].now - log[i].now > timeout
  {
    var n := |log| - 1;
    if log[n].vel.IsZero() {
      var i := StretchBegan(log);
      forall j: nat | StretchFrom(log, j) ensures j == i {
        StretchIsUnique(log, i, j);
      }
    }
  }

  /** While the clock does not run backwards, silence lasts until the robot is to move again. */
  lemma SilenceLasts(log: seq<Entry>, timeout: int)
    requires Correct(log, timeout) && |log| >= 2
    requires !log[|log| - 2].sent && log[|log| - 1].vel.IsZero() && log[|log| - 2].now <= log[|log| - 1].now
    ensures !log[|log| - 1].sent
  {
  }

  /** What the node keeps of the log: the newest velocity, and when the robot came to stand still. */
  predicate Remembers(log: seq<Entry>, vel: Velocity, stamp: int) {
    log != [] ==> vel == log[|log| - 1].vel && (vel.IsZero() ==> stamp == Since(log))
  }

  /** The newest entry of a longer log, from what is remembered of the shorter one. */
  lemma NextEntry(log: seq<Entry>, vel: Velocity, stamp: int, e: Entry)
    requires Remembers(log, vel, stamp)
    ensures var log' := log + [e];
      && Begins(log') == (log == [] || !vel.IsZero())
      && Since(log') == (if Begins(log') then e.now else stamp)
      && log'[..|log|] == log
  {
  }
}
