/**
 Commands do not get stuck: in every reachable state an unfinished transaction can take
 its next statement, or waits for another one that holds what it needs, and of those
 some can go on. The waits never form a circle.
 */
module CommandProgress {
  import opened Wrappers
  import opened GoStrings
  import opened OperatorRequests
  import opened OperatorCommands

  /** A step of this transaction other than giving up is possible. */
  ghost predicate CanGoOn(s: State, t: int) {
    exists a: Step :: a.t == t && !a.Begin? && !a.Abort? && Enabled(s, a)
  }

  /** What a transaction has learnt stays true: the row it conflicted with, and that its checks passed. */
  ghost predicate Standing(s: State, tx: Tx) {
    && (tx.pc.Conflicted? ==> tx.request.commandId in s.db.commands)
    && (tx.pc.Guarded? ==> tx.request.params.SetAccess? && Check(tx.request).None?)
    && (tx.pc.Claimed? && tx.locked ==> Check(tx.request).None?)
  }

  ghost predicate AllStanding(s: State) {
    forall t :: t in s.txs ==> Standing(s, s.txs[t])
  }

  lemma StepStanding<D(!new)>(c: Codec<D>, s: State, a: Step)
    requires TxsOk(s) && AllStanding(s) && Enabled(s, a)
    ensures Standing(s, NextTx(c, s, a))
  {
  }

  lemma StepAllStanding<D(!new)>(c: Codec<D>, pre: Db, s: State, a: Step)
    requires Inv(pre, s) && AllStanding(s) && Enabled(s, a)
    ensures AllStanding(Next(c, s, a))
  {
    StepStanding(c, s, a);
    var s' := Next(c, s, a);
    if a.Commit? { CommitIs(c, s, a); } else { NonCommitInv(c, pre, s, a); }
    forall t | t in s'.txs ensures Standing(s', s'.txs[t]) {
      if t != a.t { assert Standing(s, s.txs[t]); }
    }
  }

  lemma {:induction false} RunStanding<D(!new)>(c: Codec<D>, states: seq<State>, steps: seq<Step>, k: nat)
    requires Run(c, states, steps) && k < |states|
    ensures AllStanding(states[k])
  {
    if k == 0 {
      assert states[0].txs == map[];
    } else {
      RunStanding(c, states, steps, k - 1);
      RunInv(c, states, steps, k - 1);
      StepAllStanding(c, states[0].db, states[k - 1], steps[k - 1]);
    }
  }

  /** From its answer on a transaction waits for nobody. */
  lemma AnsweredGoesOn(s: State, t: int)
    requires TxsOk(s) && t in s.txs && s.txs[t].outcome.Some?
    ensures CanGoOn(s, t)
  {
    var tx := s.txs[t];
    assert TxShape(tx);
    if tx.pc.Operated? { assert Enabled(s, Finish(t)) && Finish(t).t == t; }
    else if tx.pc.Finished? { assert Enabled(s, Audit(t)) && Audit(t).t == t; }
    else { assert Enabled(s, Commit(t, true)) && Commit(t, true).t == t; }
  }

  /** A statement that writes waits only for a transaction that has its answer. */
  lemma WriterGoesOn(s: State, t: int) returns (u: int)
    requires TxsOk(s) && AllStanding(s) && t in s.txs
    requires || s.txs[t].pc.Guarded?
             || (s.txs[t].pc.Claimed? && (Check(s.txs[t].request).Some? || !s.txs[t].request.params.SetAccess?))
    ensures u in s.txs && !s.txs[u].pc.Closed? && CanGoOn(s, u)
  {
    var tx := s.txs[t];
    assert Standing(s, tx);
    if Enabled(s, Operate(t)) {
      assert Operate(t).t == t;
      return t;
    }
    if tx.request.params.Create? {
      var name := TrimSpace(tx.request.params.username);
      u :| u in s.txs && u != t && s.txs[u].write.Some? && s.txs[u].write.value.delta.Insert?
           && Fold(s.txs[u].write.value.image.username) == Fold(name);
    } else {
      u :| u in s.txs && u != t && s.txs[u].write.Some? && s.txs[u].write.value.id == tx.request.params.id;
    }
    assert TxShape(s.txs[u]);
    AnsweredGoesOn(s, u);
  }

  /** A transaction that has claimed its command goes on, or the holder of the lock does, or a writer. */
  lemma ClaimedGoesOn(s: State, t: int) returns (u: int)
    requires TxsOk(s) && AllStanding(s) && t in s.txs && Owns(s.txs[t])
    ensures u in s.txs && !s.txs[u].pc.Closed? && CanGoOn(s, u)
  {
    var tx := s.txs[t];
    assert TxShape(tx) && Standing(s, tx);
    if tx.outcome.Some? {
      AnsweredGoesOn(s, t);
      u := t;
    } else if tx.pc.Guarded? || Check(tx.request).Some? || !tx.request.params.SetAccess? {
      u := WriterGoesOn(s, t);
    } else if tx.locked {
      assert Enabled(s, Guard(t)) && Guard(t).t == t;
      u := t;
    } else if Enabled(s, Lock(t)) {
      assert Lock(t).t == t;
      u := t;
    } else {
      var v :| v in s.txs && v != t && s.txs[v].locked;
      u := HolderGoesOn(s, v);
    }
  }

  lemma HolderGoesOn(s: State, v: int) returns (u: int)
    requires TxsOk(s) && AllStanding(s) && v in s.txs && s.txs[v].locked
    ensures u in s.txs && !s.txs[u].pc.Closed? && CanGoOn(s, u)
  {
    var tx := s.txs[v];
    assert TxShape(tx) && Standing(s, tx);
    if tx.outcome.Some? {
      AnsweredGoesOn(s, v);
      u := v;
    } else if tx.pc.Guarded? {
      u := WriterGoesOn(s, v);
    } else {
      assert Enabled(s, Guard(v)) && Guard(v).t == v;
      u := v;
    }
  }

  /** No deadlock, over every run: while a transaction is unfinished, some unfinished transaction can go on. */
  lemma NoDeadlock<D(!new)>(c: Codec<D>, states: seq<State>, steps: seq<Step>, k: nat, t: int)
    requires Run(c, states, steps) && k < |states| && t in states[k].txs && !states[k].txs[t].pc.Closed?
    ensures exists u :: u in states[k].txs && !states[k].txs[u].pc.Closed? && CanGoOn(states[k], u)
  {
    RunInv(c, states, steps, k);
    RunStanding(c, states, steps, k);
    var u := OpenGoesOn(states[k], t);
  }

  lemma OpenGoesOn(s: State, t: int) returns (u: int)
    requires TxsOk(s) && AllStanding(s) && t in s.txs && !s.txs[t].pc.Closed?
    ensures u in s.txs && !s.txs[u].pc.Closed? && CanGoOn(s, u)
  {
    var tx := s.txs[t];
    assert TxShape(tx) && Standing(s, tx);
    if tx.pc.Conflicted? {
      assert Enabled(s, Load(t)) && Load(t).t == t;
      u := t;
    } else if !tx.pc.Begun? {
      u := ClaimedGoesOn(s, t);
    } else if Enabled(s, Claim(t)) {
      assert Claim(t).t == t;
      u := t;
    } else {
      var v :| v in s.txs && v != t && Owns(s.txs[v]);
      u := ClaimedGoesOn(s, v);
    }
  }

  /** Alone, a transaction is never kept waiting. */
  lemma AloneGoesOn<D(!new)>(c: Codec<D>, states: seq<State>, steps: seq<Step>, k: nat, t: int)
    requires Run(c, states, steps) && k < |states| && t in states[k].txs && !states[k].txs[t].pc.Closed?
    requires forall u :: u in states[k].txs && u != t ==> states[k].txs[u].pc.Closed?
    ensures CanGoOn(states[k], t)
  {
    NoDeadlock(c, states, steps, k, t);
  }
}
