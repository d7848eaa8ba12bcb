/**
 * The handler discipline shared by the controllers:
 *
 *   const client = await pool.connect()
 *   try { …body… } catch (err) { await client.query('ROLLBACK'); next(err) } finally { client.release() }
 *
 * A controller's body is given as a plan of steps computed from the request
 * and from the database's answers; which statements fail is a parameter.
 * Running the plan gives the observable trace: commands sent to the client,
 * calls to `next`, the response, and the release.
 */
module Transaction {
  import opened Wrappers
  import opened Js
  import opened SqlText
  import opened Errors

  /** A command sent on the dedicated client. */
  datatype Cmd =
    | Begin
    | Commit
    | Rollback
    | Stmt(sql: Text, params: seq<Value>)

  /** One step of a controller body. */
  datatype Step =
    /** `await client.query(…)`: it may fail, which throws. */
    | Send(cmd: Cmd)
    /** `throw new HttpError(…)` or a throwing builder */
    | Throw(err: Error)
    /** a builder that reported its error through `next` itself and returned `undefined` */
    | Forward(err: Error)
    /** `res.status(status).json(body)` */
    | Respond(status: nat, body: Value)

  datatype Event =
    | Sent(cmd: Cmd)
    | NextCalled(err: Error)
    | Responded(status: nat, body: Value)
    | Released

  /** The plan issues no ROLLBACK of its own and no release. */
  predicate PlainBody(steps: seq<Step>) {
    forall i :: 0 <= i < |steps| ==> steps[i] != Send(Rollback)
  }

  /**
   * Runs a body until it throws. `fails` holds the positions of the plan
   * steps whose command fails (every step advances the position, not only
   * a sent command); `at` is the position of `steps[0]` in the whole plan.
   * The result is the events produced and the error thrown, if any.
   */
  function Run(steps: seq<Step>, fails: set<nat>, at: nat): (r: (seq<Event>, Option<Error>))
    ensures Released !in r.0
    ensures |r.0| <= |steps|
    decreases |steps|
  {
    if |steps| == 0 then ([], None)
    else
      match steps[0]
      case Send(c) =>
        if at in fails then ([Sent(c)], Some(DbError))
        else var rest := Run(steps[1..], fails, at + 1); ([Sent(c)] + rest.0, rest.1)
      case Throw(e) => ([], Some(e))
      case Forward(e) => var rest := Run(steps[1..], fails, at + 1); ([NextCalled(e)] + rest.0, rest.1)
      case Respond(s, b) => var rest := Run(steps[1..], fails, at + 1); ([Responded(s, b)] + rest.0, rest.1)
  }

  /** A plain body sends no ROLLBACK of its own. */
  lemma {:induction false} RunNoRollback(steps: seq<Step>, fails: set<nat>, at: nat)
    requires PlainBody(steps)
    ensures Sent(Rollback) !in Run(steps, fails, at).0
    decreases |steps|
  {
    if |steps| > 0 {
      assert PlainBody(steps[1..]) by {
        forall i | 0 <= i < |steps[1..]| ensures steps[1..][i] != Send(Rollback) {
          assert steps[1..][i] == steps[i + 1];
        }
      }
      RunNoRollback(steps[1..], fails, at + 1);
    }
  }

  /** Every command a run records is one the plan sends. */
  lemma {:induction false} RunSentFromPlan(steps: seq<Step>, fails: set<nat>, at: nat, c: Cmd)
    requires Sent(c) in Run(steps, fails, at).0
    ensures Send(c) in steps
    decreases |steps|
  {
    var r := Run(steps, fails, at);
    if steps[0] != Send(c) {
      assert r.0[0] != Sent(c);
      assert Sent(c) in r.0[1..];
      assert r.0[1..] == Run(steps[1..], fails, at + 1).0;
      RunSentFromPlan(steps[1..], fails, at + 1, c);
    }
  }

  /** A command the plan never sends is never recorded. */
  lemma {:induction false} RunOnlyPlanned(steps: seq<Step>, fails: set<nat>, at: nat, c: Cmd)
    requires Send(c) !in steps
    ensures Sent(c) !in Run(steps, fails, at).0
    decreases |steps|
  {
    if |steps| > 0 {
      assert Send(c) !in steps[1..];
      RunOnlyPlanned(steps[1..], fails, at + 1, c);
    }
  }

  /** A response a run records is one the plan sends. */
  lemma {:induction false} RunRespondFromPlan(steps: seq<Step>, fails: set<nat>, at: nat, status: nat, body: Value)
    requires Responded(status, body) in Run(steps, fails, at).0
    ensures Respond(status, body) in steps
    decreases |steps|
  {
    var r := Run(steps, fails, at);
    if steps[0] != Respond(status, body) {
      assert r.0[0] != Responded(status, body);
      assert Responded(status, body) in r.0[1..];
      assert r.0[1..] == Run(steps[1..], fails, at + 1).0;
      RunRespondFromPlan(steps[1..], fails, at + 1, status, body);
    }
  }

  /** The full trace of a handler with the connect / try / catch / finally shape. */
  function Handle(steps: seq<Step>, fails: set<nat>): (t: seq<Event>) {
    var (events, err) := Run(steps, fails, 0);
    events + (if err.Some? then [Sent(Rollback), NextCalled(err.value)] else []) + [Released]
  }

  /** The trace of a handler without a dedicated client (`pool.query` inside a plain try / catch). */
  function HandleUnpooled(steps: seq<Step>, fails: set<nat>): (t: seq<Event>)
    ensures Released !in t
  {
    var (events, err) := Run(steps, fails, 0);
    events + (if err.Some? then [NextCalled(err.value)] else [])
  }

  /** The body ran to its end without throwing. */
  predicate Succeeds(steps: seq<Step>, fails: set<nat>) {
    Run(steps, fails, 0).1.None?
  }

  /** The transaction was committed and never rolled back. */
  predicate Committed(t: seq<Event>) {
    Sent(Commit) in t && Sent(Rollback) !in t
  }

  /** The client is released exactly once, as the very last event, whatever happens. */
  lemma ReleasedOnceLast(steps: seq<Step>, fails: set<nat>)
    ensures var t := Handle(steps, fails);
      |t| > 0 && t[|t| - 1] == Released && multiset(t)[Released] == 1
  {
    var (events, err) := Run(steps, fails, 0);
    var tail := if err.Some? then [Sent(Rollback), NextCalled(err.value)] else [];
    assert Released !in events + tail;
    assert multiset(events + tail)[Released] == 0;
    assert Handle(steps, fails) == events + tail + [Released];
  }

  /**
   * When the body throws, the trace ends with ROLLBACK, `next(err)` and the
   * release, and rollback is sent exactly once; when it does not, neither
   * ROLLBACK nor an error call is added.
   */
  lemma FailureTail(steps: seq<Step>, fails: set<nat>)
    requires PlainBody(steps)
    ensures var t := Handle(steps, fails);
      var err := Run(steps, fails, 0).1;
      && (err.Some? ==> |t| >= 3 && t[|t| - 3..] == [Sent(Rollback), NextCalled(err.value), Released]
                        && multiset(t)[Sent(Rollback)] == 1)
      && (err.None? ==> Sent(Rollback) !in t && t == Run(steps, fails, 0).0 + [Released])
  {
    var (events, err) := Run(steps, fails, 0);
    var t := Handle(steps, fails);
    RunNoRollback(steps, fails, 0);
    if err.Some? {
      assert t == events + [Sent(Rollback), NextCalled(err.value), Released];
      assert t[|t| - 3..] == [Sent(Rollback), NextCalled(err.value), Released];
      assert multiset(events)[Sent(Rollback)] == 0;
    }
  }

  /** A body that throws before sending anything still sends ROLLBACK, without a BEGIN. */
  lemma ThrowFirst(e: Error, rest: seq<Step>, fails: set<nat>)
    ensures Handle([Throw(e)] + rest, fails) == [Sent(Rollback), NextCalled(e), Released]
  {
  }

  /** Apart from the ROLLBACK of the catch block, a handler sends only commands of its plan. */
  lemma HandleSentFromPlan(steps: seq<Step>, fails: set<nat>, c: Cmd)
    requires Sent(c) in Handle(steps, fails) && c != Rollback
    ensures Send(c) in steps
  {
    var r := Run(steps, fails, 0);
    assert Sent(c) in r.0;
    RunSentFromPlan(steps, fails, 0, c);
  }

  /** A handler responds only with a response its plan contains. */
  lemma HandleRespondFromPlan(steps: seq<Step>, fails: set<nat>, status: nat, body: Value)
    requires Respond(status, body) !in steps
    ensures Responded(status, body) !in Handle(steps, fails)
  {
    if Responded(status, body) in Run(steps, fails, 0).0 {
      RunRespondFromPlan(steps, fails, 0, status, body);
    }
  }

  /** An unpooled handler that runs one query and then responds. */
  lemma UnpooledSendRespond(c: Cmd, status: nat, body: Value, fails: set<nat>)
    ensures HandleUnpooled([Send(c), Respond(status, body)], fails) ==
      if 0 in fails then [Sent(c), NextCalled(DbError)] else [Sent(c), Responded(status, body)]
  {
    var steps := [Send(c), Respond(status, body)];
    assert steps[1..] == [Respond(status, body)];
    RunRespond(status, body, fails, 1);
  }

  /** An unpooled handler that runs one query and then throws. */
  lemma UnpooledSendThrow(c: Cmd, e: Error, fails: set<nat>)
    ensures HandleUnpooled([Send(c), Throw(e)], fails) ==
      [Sent(c), NextCalled(if 0 in fails then DbError else e)]
  {
    var steps := [Send(c), Throw(e)];
    assert steps[1..] == [Throw(e)];
    assert Run(steps[1..], fails, 1) == ([], Some(e));
  }

  /** A plan without COMMIT never commits. */
  lemma HandleNoCommit(steps: seq<Step>, fails: set<nat>)
    requires Send(Commit) !in steps
    ensures !Committed(Handle(steps, fails))
  {
    RunOnlyPlanned(steps, fails, 0, Commit);
  }

  /** BEGIN, one statement, then a throw: never commits and never responds. */
  lemma BeginSendThrow(c: Cmd, e: Error, fails: set<nat>, status: nat, body: Value)
    requires c != Commit
    ensures var t := Handle([Send(Begin), Send(c), Throw(e)], fails);
      !Committed(t) && Responded(status, body) !in t
  {
    var steps := [Send(Begin), Send(c), Throw(e)];
    HandleNoCommit(steps, fails);
    HandleRespondFromPlan(steps, fails, status, body);
  }

  /**
   * A helper that calls `next(e)` itself and then throws `e2`: the client
   * rolls back and `next` is called a second time, with `e2`.
   */
  lemma ForwardThenThrow(e: Error, e2: Error, fails: set<nat>)
    ensures Handle([Forward(e), Throw(e2)], fails) == [NextCalled(e), Sent(Rollback), NextCalled(e2), Released]
  {
    var steps := [Forward(e), Throw(e2)];
    assert steps[1..] == [Throw(e2)];
    assert Run(steps[1..], fails, 1) == ([], Some(e2));
  }

  // ---------------------------------------------------------------------------
  // The transactional shape
  // ---------------------------------------------------------------------------

  function Sends(cmds: seq<Cmd>): (steps: seq<Step>)
    ensures |steps| == |cmds|
    ensures forall i :: 0 <= i < |cmds| ==> steps[i] == Send(cmds[i])
  {
    seq(|cmds|, i requires 0 <= i < |cmds| => Send(cmds[i]))
  }

  function SentAll(cmds: seq<Cmd>): (events: seq<Event>)
    ensures |events| == |cmds|
    ensures forall i :: 0 <= i < |cmds| ==> events[i] == Sent(cmds[i])
  {
    seq(|cmds|, i requires 0 <= i < |cmds| => Sent(cmds[i]))
  }

  predicate AllStmts(cmds: seq<Cmd>) {
    forall i :: 0 <= i < |cmds| ==> cmds[i].Stmt?
  }

  /** BEGIN, the statements, COMMIT, then the response. */
  function Transactional(stmts: seq<Cmd>, status: nat, body: Value): seq<Step> {
    [Send(Begin)] + Sends(stmts) + [Send(Commit), Respond(status, body)]
  }

  /** The only statements a transactional body sends are its own. */
  lemma TransactionalStmt(stmts: seq<Cmd>, status: nat, body: Value, c: Cmd)
    requires Send(c) in Transactional(stmts, status, body) && c.Stmt?
    ensures c in stmts
  {
    var steps := Transactional(stmts, status, body);
    var i :| 0 <= i < |steps| && steps[i] == Send(c);
    assert steps[0] == Send(Begin) && steps[|stmts| + 1] == Send(Commit) && steps[|stmts| + 2] == Respond(status, body);
    assert 1 <= i <= |stmts|;
    assert steps[i] == Sends(stmts)[i - 1];
  }

  /** One of the `n` plan steps from position `start` on fails. */
  predicate FailsBefore(fails: set<nat>, start: nat, n: nat) {
    exists i :: i in fails && start <= i < start + n
  }

  /** A failure index at or after `at`, when `at` itself does not fail, lies at or after `at + 1`. */
  lemma FailsBeforeStep(fails: set<nat>, at: nat, n: nat)
    requires at !in fails && n > 0
    ensures FailsBefore(fails, at, n) <==> FailsBefore(fails, at + 1, n - 1)
  {
    if FailsBefore(fails, at, n) {
      var i :| i in fails && at <= i < at + n;
      assert i != at;
    }
    if FailsBefore(fails, at + 1, n - 1) {
      var i :| i in fails && at + 1 <= i < at + 1 + n - 1;
      assert at <= i < at + n;
    }
  }

  lemma AllStmtsTail(stmts: seq<Cmd>)
    requires AllStmts(stmts) && |stmts| > 0
    ensures AllStmts(stmts[1..])
  {
    forall i | 0 <= i < |stmts[1..]| ensures stmts[1..][i].Stmt? {
      assert stmts[1..][i] == stmts[i + 1];
    }
  }

  lemma {:induction false} RunSends(stmts: seq<Cmd>, rest: seq<Step>, fails: set<nat>, at: nat)
    requires AllStmts(stmts)
    ensures var r := Run(Sends(stmts) + rest, fails, at);
      if FailsBefore(fails, at, |stmts|) then
        r.1 == Some(DbError) && Sent(Commit) !in r.0
      else
        r == (SentAll(stmts) + Run(rest, fails, at + |stmts|).0, Run(rest, fails, at + |stmts|).1)
    decreases |stmts|
  {
    var steps := Sends(stmts) + rest;
    if |stmts| > 0 {
      var c := stmts[0];
      assert c.Stmt?;
      assert steps[0] == Send(c);
      assert steps[1..] == Sends(stmts[1..]) + rest;
      if at in fails {
        assert FailsBefore(fails, at, |stmts|);
        assert Run(steps, fails, at) == ([Sent(c)], Some(DbError));
      } else {
        AllStmtsTail(stmts);
        RunSends(stmts[1..], rest, fails, at + 1);
        FailsBeforeStep(fails, at, |stmts|);
        var tail := Run(steps[1..], fails, at + 1);
        assert Run(steps, fails, at) == ([Sent(c)] + tail.0, tail.1);
        if !FailsBefore(fails, at, |stmts|) {
          var rr := Run(rest, fails, at + |stmts|);
          assert at + 1 + |stmts[1..]| == at + |stmts|;
          assert SentAll(stmts) == [Sent(c)] + SentAll(stmts[1..]);
          assert [Sent(c)] + (SentAll(stmts[1..]) + rr.0) == SentAll(stmts) + rr.0;
        }
      }
    } else {
      assert steps == rest;
      assert !FailsBefore(fails, at, 0);
      assert SentAll(stmts) == [];
      assert SentAll(stmts) + Run(rest, fails, at).0 == Run(rest, fails, at).0;
    }
  }

  lemma TransactionalPlain(stmts: seq<Cmd>, status: nat, body: Value)
    requires AllStmts(stmts)
    ensures PlainBody(Transactional(stmts, status, body))
  {
    var steps := Transactional(stmts, status, body);
    forall i | 0 <= i < |steps| ensures steps[i] != Send(Rollback) {
      if 1 <= i < 1 + |stmts| {
        assert steps[i] == Sends(stmts)[i - 1];
      }
    }
  }

  /** How far a transactional body started at command position `at` gets: the events it produces and whether it throws. */
  lemma TransactionalRun(stmts: seq<Cmd>, status: nat, body: Value, fails: set<nat>, at: nat)
    requires AllStmts(stmts)
    ensures var r := Run(Transactional(stmts, status, body), fails, at);
      var n := |stmts|;
      if at in fails then r == ([Sent(Begin)], Some(DbError))
      else if FailsBefore(fails, at + 1, n) then r.1 == Some(DbError) && Sent(Commit) !in r.0 && Responded(status, body) !in r.0
      else if at + 1 + n in fails then r == ([Sent(Begin)] + SentAll(stmts) + [Sent(Commit)], Some(DbError))
      else r == ([Sent(Begin)] + SentAll(stmts) + [Sent(Commit), Responded(status, body)], None)
  {
    var steps := Transactional(stmts, status, body);
    var tail: seq<Step> := [Send(Commit), Respond(status, body)];
    assert steps[1..] == Sends(stmts) + tail;
    RunSends(stmts, tail, fails, at + 1);
    var n := |stmts|;
    assert steps[0] == Send(Begin);
    if !(at in fails) && !FailsBefore(fails, at + 1, n) {
      var tr := Run(tail, fails, at + 1 + n);
      RunCommitRespond(status, body, fails, at + 1 + n);
      assert Run(steps[1..], fails, at + 1) == (SentAll(stmts) + tr.0, tr.1);
      RunSendFirst(steps, fails, at);
      assert Run(steps, fails, at) == ([Sent(Begin)] + (SentAll(stmts) + tr.0), tr.1);
      assert [Sent(Begin)] + (SentAll(stmts) + tr.0) == [Sent(Begin)] + SentAll(stmts) + tr.0;
    } else if !(at in fails) {
      assert Responded(status, body) !in Run(steps[1..], fails, at + 1).0 by {
        RunNoRespond(stmts, tail, fails, at + 1, status, body);
      }
    }
  }

  lemma RunRespond(status: nat, body: Value, fails: set<nat>, at: nat)
    ensures Run([Respond(status, body)], fails, at) == ([Responded(status, body)], None)
  {
    var steps := [Respond(status, body)];
    assert steps[1..] == [];
    assert Run(steps[1..], fails, at + 1) == ([], None);
    assert steps[0] == Respond(status, body);
    var rest := Run(steps[1..], fails, at + 1);
    assert Run(steps, fails, at) == ([Responded(status, body)] + rest.0, rest.1);
    assert [Responded(status, body)] + rest.0 == [Responded(status, body)];
  }

  lemma RunCommitRespond(status: nat, body: Value, fails: set<nat>, at: nat)
    ensures Run([Send(Commit), Respond(status, body)], fails, at) ==
      if at in fails then ([Sent(Commit)], Some(DbError)) else ([Sent(Commit), Responded(status, body)], None)
  {
    var steps := [Send(Commit), Respond(status, body)];
    assert steps[0] == Send(Commit);
    assert steps[1..] == [Respond(status, body)];
    RunRespond(status, body, fails, at + 1);
    if at !in fails {
      RunSendFirst(steps, fails, at);
      assert [Sent(Commit)] + [Responded(status, body)] == [Sent(Commit), Responded(status, body)];
    }
  }

  /** A command that does not fail is recorded and the run goes on. */
  lemma RunSendFirst(steps: seq<Step>, fails: set<nat>, at: nat)
    requires |steps| > 0 && steps[0].Send? && at !in fails
    ensures Run(steps, fails, at) == ([Sent(steps[0].cmd)] + Run(steps[1..], fails, at + 1).0, Run(steps[1..], fails, at + 1).1)
  {
  }

  /** Until the statements are through, no response is produced. */
  lemma {:induction false} RunNoRespond(stmts: seq<Cmd>, tail: seq<Step>, fails: set<nat>, at: nat, status: nat, body: Value)
    requires FailsBefore(fails, at, |stmts|)
    ensures Responded(status, body) !in Run(Sends(stmts) + tail, fails, at).0
    decreases |stmts|
  {
    var steps := Sends(stmts) + tail;
    assert steps[0] == Send(stmts[0]);
    assert steps[1..] == Sends(stmts[1..]) + tail;
    if !(at in fails) {
      assert FailsBefore(fails, at + 1, |stmts| - 1) by {
        var i :| i in fails && at <= i < at + |stmts|;
        assert at + 1 <= i;
      }
      RunNoRespond(stmts[1..], tail, fails, at + 1, status, body);
    }
  }

  /** The events of a failed run from position `at` of a transactional body: no COMMIT, no response. */
  lemma TransactionalFailed(stmts: seq<Cmd>, status: nat, body: Value, fails: set<nat>, at: nat)
    requires AllStmts(stmts)
    requires FailsBefore(fails, at, |stmts| + 2)
    ensures var r := Run(Transactional(stmts, status, body), fails, at);
      && r.1 == Some(DbError)
      && (Sent(Commit) in r.0 ==> at + 1 + |stmts| in fails)
      && Sent(Rollback) !in r.0
      && Responded(status, body) !in r.0
  {
    var n := |stmts|;
    TransactionalRun(stmts, status, body, fails, at);
    TransactionalPlain(stmts, status, body);
    RunNoRollback(Transactional(stmts, status, body), fails, at);
    if !(at in fails) && !FailsBefore(fails, at + 1, n) {
      assert at + 1 + n in fails by {
        var i :| i in fails && at <= i < at + n + 2;
        assert i != at && !(at + 1 <= i < at + 1 + n);
      }
      assert forall i :: 0 <= i < n ==> SentAll(stmts)[i] != Responded(status, body);
    }
  }

  /** The events of a successful run from position `at`: BEGIN, the statements, COMMIT, the response. */
  lemma TransactionalCommitted(stmts: seq<Cmd>, status: nat, body: Value, fails: set<nat>, at: nat)
    requires AllStmts(stmts)
    requires !FailsBefore(fails, at, |stmts| + 2)
    ensures Run(Transactional(stmts, status, body), fails, at) ==
      ([Sent(Begin)] + SentAll(stmts) + [Sent(Commit), Responded(status, body)], None)
  {
    var n := |stmts|;
    assert at !in fails && at + 1 + n !in fails;
    assert !FailsBefore(fails, at + 1, n) by {
      forall i | i in fails ensures !(at + 1 <= i < at + 1 + n) {
        assert !(at <= i < at + n + 2);
      }
    }
    TransactionalRun(stmts, status, body, fails, at);
  }

  /**
   * A handler that sends the statements `pre` and then runs a transactional
   * body commits exactly when none of its commands (`pre`, BEGIN, the
   * statements, COMMIT) fails, and it responds exactly when it commits.
   */
  lemma TransactionalOutcome(pre: seq<Cmd>, stmts: seq<Cmd>, status: nat, body: Value, fails: set<nat>)
    requires AllStmts(pre) && AllStmts(stmts)
    ensures var t := Handle(Sends(pre) + Transactional(stmts, status, body), fails);
      && (Committed(t) <==> !FailsBefore(fails, 0, |pre| + |stmts| + 2))
      && (Committed(t) <==> Responded(status, body) in t)
  {
    var k, n := |pre|, |stmts|;
    var tx := Transactional(stmts, status, body);
    var steps := Sends(pre) + tx;
    var t := Handle(steps, fails);
    RunSends(pre, tx, fails, 0);
    var r := Run(steps, fails, 0);
    assert forall i :: 0 <= i < k ==> SentAll(pre)[i].cmd.Stmt?;
    if FailsBefore(fails, 0, k) {
      RunNoRespond(pre, tx, fails, 0, status, body);
      assert t == r.0 + [Sent(Rollback), NextCalled(DbError), Released];
      assert FailsBefore(fails, 0, k + n + 2) by {
        var i :| i in fails && 0 <= i < k;
      }
    } else {
      var rt := Run(tx, fails, k);
      assert r == (SentAll(pre) + rt.0, rt.1);
      if FailsBefore(fails, k, n + 2) {
        TransactionalFailed(stmts, status, body, fails, k);
        assert t == SentAll(pre) + rt.0 + [Sent(Rollback), NextCalled(DbError), Released];
        assert FailsBefore(fails, 0, k + n + 2) by {
          var i :| i in fails && k <= i < k + n + 2;
        }
      } else {
        TransactionalCommitted(stmts, status, body, fails, k);
        assert t == SentAll(pre) + rt.0 + [Released];
        assert !FailsBefore(fails, 0, k + n + 2) by {
          forall i | i in fails ensures !(0 <= i < k + n + 2) {
            assert !(0 <= i < k) && !(k <= i < k + n + 2);
          }
        }
        assert forall i :: 0 <= i < n ==> SentAll(stmts)[i].cmd.Stmt?;
        assert rt.0[1 + n] == Sent(Commit);
      }
    }
  }

  /** A handler whose whole plan is one transactional body commits exactly when none of its n + 2 commands fails. */
  lemma TransactionalAloneOutcome(stmts: seq<Cmd>, status: nat, body: Value, fails: set<nat>)
    requires AllStmts(stmts)
    ensures var t := Handle(Transactional(stmts, status, body), fails);
      && (Committed(t) <==> !FailsBefore(fails, 0, |stmts| + 2))
      && (Committed(t) <==> Responded(status, body) in t)
  {
    assert Sends([]) + Transactional(stmts, status, body) == Transactional(stmts, status, body);
    TransactionalOutcome([], stmts, status, body, fails);
  }

  /** `TransactionalAloneOutcome` for a plan known to be one transactional body of n - 2 statements. */
  lemma PlanOutcome(plan: seq<Step>, stmts: seq<Cmd>, status: nat, body: Value, fails: set<nat>, n: nat)
    requires AllStmts(stmts) && plan == Transactional(stmts, status, body) && n == |stmts| + 2
    ensures var t := Handle(plan, fails);
      && (Committed(t) <==> !FailsBefore(fails, 0, n))
      && (Committed(t) <==> Responded(status, body) in t)
  {
    TransactionalAloneOutcome(stmts, status, body, fails);
  }
}
