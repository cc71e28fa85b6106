/**
  When an extent was deleted: its deletion time is the clock of the logged
  commit that retired it, so a collector's cutoff spares exactly the extents
  retired at or after it.
 */
module CommitDeletions {
  import opened Options
  import opened Catalog
  import opened CommitProtocol
  import opened CommitRuns

  // ---------------------------------------------------------------- on a serial log

  lemma {:induction false} SerialPrefix(log: seq<Op>, i: nat)
    requires Serial(log) && i <= |log|
    ensures Serial(log[..i])
    decreases |log|
  {
    if i == |log| {
      assert log[..i] == log;
    } else {
      var init := log[..|log| - 1];
      assert init[..i] == log[..i];
      SerialPrefix(init, i);
    }
  }

  /** Just before the `i`-th operation `x` had no deletion time, if it was there. */
  ghost predicate LiveBefore(log: seq<Op>, i: nat, x: ExtentId)
    requires Serial(log) && i < |log|
  {
    SerialPrefix(log, i);
    x in Replay(log[..i]).extents ==> Replay(log[..i]).extents[x].deletedAt == None
  }

  /** The `i`-th operation is a commit that lists `x`, which was live or which
      it adds itself, and no later operation purges `x`. */
  ghost predicate RetiredAt(log: seq<Op>, i: nat, x: ExtentId)
    requires Serial(log)
  {
    && i < |log| && log[i].Commit? && x in log[i].removed && LiveBefore(log, i, x)
    && (SerialPrefix(log, i); x in Replay(log[..i]).extents || HasId(log[i].added, x))
    && forall j :: i < j < |log| ==> log[j] != Purge(x)
  }

  lemma RetiredInInit(log: seq<Op>, i: nat, x: ExtentId)
    requires Serial(log) && log != [] && i < |log| - 1
    ensures Serial(log[..|log| - 1])
    ensures RetiredAt(log, i, x) <==> RetiredAt(log[..|log| - 1], i, x) && log[|log| - 1] != Purge(x)
  {
    var init := log[..|log| - 1];
    assert init[..i] == log[..i] && init[i] == log[i];
    forall j | i < j < |init| ensures init[j] == log[j] {}
  }

  /** What one operation does to a row it does not purge. */
  lemma RowAfter(db: DB, op: Op, x: ExtentId)
    requires Enabled(db, op) && x in Apply(db, op).extents
    ensures x in db.extents || (op.Commit? && HasId(op.added, x))
    ensures x in db.extents && op.Commit? && x in op.removed && db.extents[x].deletedAt == None ==>
      Apply(db, op).extents[x].deletedAt == Some(op.now)
    ensures x in db.extents && !(op.Commit? && x in op.removed && db.extents[x].deletedAt == None) ==>
      Apply(db, op).extents[x].deletedAt == db.extents[x].deletedAt
    ensures x !in db.extents ==> Apply(db, op).extents[x].deletedAt == if x in op.removed then Some(op.now) else None
  {
    if op.Commit? && HasId(op.added, x) { AddedIsFresh(db, op, x); }
  }

  lemma AddedIsFresh(db: DB, op: Op, x: ExtentId)
    requires op.Commit? && Enabled(db, op) && HasId(op.added, x)
    ensures x !in db.extents
  {
    var i :| 0 <= i < |op.added| && op.added[i].id == x;
  }

  lemma RowStays(db: DB, op: Op, x: ExtentId)
    requires Enabled(db, op) && op != Purge(x) && (x in db.extents || (op.Commit? && HasId(op.added, x)))
    ensures x in Apply(db, op).extents
  {}

  /** A retired extent that nothing purges is still there. */
  lemma {:induction false} RetiredIsThere(log: seq<Op>, i: nat, x: ExtentId)
    requires Serial(log) && RetiredAt(log, i, x)
    ensures x in Replay(log).extents
    decreases |log|
  {
    var init, op := log[..|log| - 1], log[|log| - 1];
    if i < |init| {
      RetiredInInit(log, i, x);
      RetiredIsThere(init, i, x);
      RowStays(Replay(init), op, x);
    } else {
      assert log[..i] == init;
      RowStays(Replay(init), op, x);
    }
  }

  /** Some commit that still counts retired `x` at time `at`. */
  ghost predicate Retired(log: seq<Op>, x: ExtentId, at: Time)
    requires Serial(log)
  {
    exists i: nat :: RetiredAt(log, i, x) && log[i].now == at
  }

  lemma StillRetired(log: seq<Op>, x: ExtentId, at: Time)
    requires Serial(log) && log != [] && log[|log| - 1] != Purge(x) && Serial(log[..|log| - 1])
    requires Retired(log[..|log| - 1], x, at)
    ensures Retired(log, x, at)
  {
    var init := log[..|log| - 1];
    var i: nat :| RetiredAt(init, i, x) && init[i].now == at;
    RetiredInInit(log, i, x);
    assert log[i] == init[i];
  }

  lemma RetiredBefore(log: seq<Op>, x: ExtentId, at: Time)
    requires Serial(log) && log != [] && Serial(log[..|log| - 1]) && Retired(log, x, at)
    ensures Retired(log[..|log| - 1], x, at) || (RetiredAt(log, |log| - 1, x) && log[|log| - 1].now == at)
  {
    var init := log[..|log| - 1];
    var i: nat :| RetiredAt(log, i, x) && log[i].now == at;
    if i < |init| {
      RetiredInInit(log, i, x);
      assert log[i] == init[i];
    }
  }

  /** The last operation retires `x`, or some earlier one that still counts. */
  lemma RetiredSplit(log: seq<Op>, x: ExtentId, at: Time)
    requires Serial(log) && log != [] && log[|log| - 1] != Purge(x)
    ensures Serial(log[..|log| - 1])
    ensures Retired(log, x, at) <==>
      Retired(log[..|log| - 1], x, at) || (RetiredAt(log, |log| - 1, x) && log[|log| - 1].now == at)
  {
    SerialPrefix(log, |log| - 1);
    if Retired(log[..|log| - 1], x, at) { StillRetired(log, x, at); }
    if Retired(log, x, at) { RetiredBefore(log, x, at); }
  }

  lemma LastRetires(log: seq<Op>, x: ExtentId)
    requires Serial(log) && log != []
    ensures Serial(log[..|log| - 1])
    ensures var db, op := Replay(log[..|log| - 1]), log[|log| - 1];
      RetiredAt(log, |log| - 1, x) <==>
        op.Commit? && x in op.removed && (if x in db.extents then db.extents[x].deletedAt == None else HasId(op.added, x))
  {
    assert log[..|log| - 1] == log[..|log| - 1];
  }

  /** The deletion time of a committed row is the clock of the commit that
      retired it, and a row no commit retired has none. */
  lemma {:induction false} DeletionTimeIs(log: seq<Op>, x: ExtentId, at: Time)
    requires Serial(log) && x in Replay(log).extents
    ensures Replay(log).extents[x].deletedAt == Some(at) <==> Retired(log, x, at)
    decreases |log|
  {
    var init, op := log[..|log| - 1], log[|log| - 1];
    var db := Replay(init);
    assert op != Purge(x);
    RowAfter(db, op, x);
    RetiredSplit(log, x, at);
    LastRetires(log, x);
    if x in db.extents {
      DeletionTimeIs(init, x, at);
    } else {
      NoneRetired(init, x);
    }
  }

  lemma NoneRetired(log: seq<Op>, x: ExtentId)
    requires Serial(log) && x !in Replay(log).extents
    ensures forall i: nat :: !RetiredAt(log, i, x)
  {
    forall i: nat ensures !RetiredAt(log, i, x) {
      if RetiredAt(log, i, x) { RetiredIsThere(log, i, x); }
    }
  }

  // ---------------------------------------------------------------- over runs

  /** Some commit that still counts retired `x` before `cutoff`. */
  ghost predicate RetiredEarlier(log: seq<Op>, x: ExtentId, cutoff: Time)
    requires Serial(log)
  {
    exists i: nat :: RetiredAt(log, i, x) && log[i].now < cutoff
  }

  lemma EarlierIff(log: seq<Op>, x: ExtentId, cutoff: Time)
    requires Serial(log)
    ensures var rows := Replay(log).extents;
      (x in rows && rows[x].deletedAt.Some? && rows[x].deletedAt.value < cutoff) <==> RetiredEarlier(log, x, cutoff)
  {
    var rows := Replay(log).extents;
    if x in rows && rows[x].deletedAt.Some? { DeletionTimeIs(log, x, rows[x].deletedAt.value); }
    if RetiredEarlier(log, x, cutoff) {
      var i: nat :| RetiredAt(log, i, x) && log[i].now < cutoff;
      RetiredIsThere(log, i, x);
      assert Retired(log, x, log[i].now);
      DeletionTimeIs(log, x, log[i].now);
    }
  }

  lemma CollectSees(s: Sys, c: ClientId, cutoff: Time)
    requires Can(s, c, Collect(cutoff))
    ensures At(Do(s, c, Collect(cutoff)), c).Collecting?
    ensures forall x :: x in At(Do(s, c, Collect(cutoff)), c).doomed <==>
      x in s.db.extents && s.db.extents[x].deletedAt.Some? && s.db.extents[x].deletedAt.value < cutoff
  {}

  /** The collector dooms exactly the extents that a commit with a clock before
      its cutoff retired: whatever was retired later keeps its grace. */
  lemma CollectDoomsRetired(trace: seq<Event>, s: Sys, c: ClientId, cutoff: Time)
    requires Runs(Start, trace, s) && Can(s, c, Collect(cutoff))
    ensures Serial(s.log) && At(Do(s, c, Collect(cutoff)), c).Collecting?
    ensures forall x :: x in At(Do(s, c, Collect(cutoff)), c).doomed <==> RetiredEarlier(s.log, x, cutoff)
  {
    EveryRunIsSerial(trace, s);
    CollectSees(s, c, cutoff);
    forall x ensures x in At(Do(s, c, Collect(cutoff)), c).doomed <==> RetiredEarlier(s.log, x, cutoff) {
      EarlierIff(s.log, x, cutoff);
    }
  }

  /** The clock a transaction has read came from its own soft-delete statement. */
  ghost predicate ClockRead(past: seq<Event>, c: ClientId, client: Client) {
    client.InTxn? && client.txn.kind.Direct? && !client.txn.pc.Begun? && !client.txn.pc.NumberRead? && !client.txn.pc.SnapIn? ==>
      Event(c, SoftDelete(client.txn.now)) in past
  }

  /** So did the clock of every logged commit of a writer. */
  ghost predicate ClocksRead(past: seq<Event>, s: Sys) {
    && (forall c {:trigger At(s, c)} :: ClockRead(past, c, At(s, c)))
    && (forall i :: 0 <= i < |s.log| && s.log[i].Commit? && s.log[i].removed != {} ==>
          exists c :: Event(c, SoftDelete(s.log[i].now)) in past)
  }

  lemma OwnClock(past: seq<Event>, s: Sys, c: ClientId, a: Action)
    requires Can(s, c, a) && ClockRead(past, c, At(s, c))
    ensures ClockRead(past + [Event(c, a)], c, At(Do(s, c, a), c))
  {
    if a.SoftDelete? { assert Event(c, a) in past + [Event(c, a)]; }
  }

  lemma OthersClock(past: seq<Event>, s: Sys, c: ClientId, a: Action, d: ClientId)
    requires Can(s, c, a) && d != c && ClockRead(past, d, At(s, d))
    ensures ClockRead(past + [Event(c, a)], d, At(Do(s, c, a), d))
  {}

  lemma LoggedClock(past: seq<Event>, s: Sys, c: ClientId, a: Action, i: nat)
    requires Inv(s) && Can(s, c, a) && ClocksRead(past, s)
    requires i < |Do(s, c, a).log| && Do(s, c, a).log[i].Commit? && Do(s, c, a).log[i].removed != {}
    ensures exists d :: Event(d, SoftDelete(Do(s, c, a).log[i].now)) in past
  {
    StepRefines(s, c, a);
    if i < |s.log| {
      assert Do(s, c, a).log[i] == s.log[i];
    } else {
      assert a.Publish?;
      assert ClockRead(past, c, At(s, c));
      assert ClientOk(s, At(s, c));
    }
  }

  lemma StepReadsClocks(past: seq<Event>, s: Sys, c: ClientId, a: Action)
    requires Inv(s) && Can(s, c, a) && ClocksRead(past, s)
    ensures ClocksRead(past + [Event(c, a)], Do(s, c, a))
  {
    var s', all := Do(s, c, a), past + [Event(c, a)];
    forall d ensures ClockRead(all, d, At(s', d)) {
      if d == c { OwnClock(past, s, c, a); } else { OthersClock(past, s, c, a, d); }
    }
    forall i | 0 <= i < |s'.log| && s'.log[i].Commit? && s'.log[i].removed != {}
      ensures exists d :: Event(d, SoftDelete(s'.log[i].now)) in all
    {
      LoggedClock(past, s, c, a, i);
      var d :| Event(d, SoftDelete(s'.log[i].now)) in past;
      assert Event(d, SoftDelete(s'.log[i].now)) in all;
    }
  }

  lemma {:induction false} RunReadsClocks(past: seq<Event>, s: Sys, trace: seq<Event>, s': Sys)
    requires Inv(s) && ClocksRead(past, s) && Runs(s, trace, s')
    ensures ClocksRead(past + trace, s')
    decreases |trace|
  {
    PastGrows(past, trace);
    if trace != [] {
      var c, a := trace[0].client, trace[0].action;
      StepKeeps(s, c, a);
      StepReadsClocks(past, s, c, a);
      assert Event(c, a) == trace[0];
      RunReadsClocks(past + [trace[0]], Do(s, c, a), trace[1..], s');
    }
  }

  lemma PastGrows(past: seq<Event>, trace: seq<Event>)
    ensures if trace == [] then past + trace == past else past + [trace[0]] + trace[1..] == past + trace
  {}

  /** A deletion time is never made up: it is the clock that some soft-delete
      statement of the run read. */
  lemma DeletionTimesAreClocks(trace: seq<Event>, s: Sys, x: ExtentId)
    requires Runs(Start, trace, s) && x in s.db.extents && s.db.extents[x].deletedAt.Some?
    ensures exists c :: Event(c, SoftDelete(s.db.extents[x].deletedAt.value)) in trace
  {
    EveryRunIsSerial(trace, s);
    var at := s.db.extents[x].deletedAt.value;
    DeletionTimeIs(s.log, x, at);
    var i: nat :| RetiredAt(s.log, i, x) && s.log[i].now == at;
    StartOk();
    RunReadsClocks([], Start, trace, s);
    assert [] + trace == trace;
  }
}
