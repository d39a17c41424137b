/**
 The last-manager guard over every interleaving of operator transactions: once some
 enabled operator holds admins.manage, one always does, unless the break-glass login
 (acting id 0) commits the edit that removes the last.
 */
module LastManager {
  import opened Permissions
  import opened OperatorRequests
  import opened OperatorCommands

  ghost predicate HasManager(s: State) {
    exists m :: m in s.db.accounts && IsManager(s.db.accounts[m])
  }

  /** A transaction past its guard may still demote: what the guard saw has to stay true until it ends. */
  ghost predicate GuardStands(s: State, tx: Tx) {
    tx.request.params.SetAccess? && (tx.pc.Guarded? || tx.write.Some?) ==>
      GuardPasses(s.db.accounts, tx.request.params, tx.acting)
  }

  ghost predicate GuardsStand(s: State) {
    forall t :: t in s.txs ==> GuardStands(s, s.txs[t])
  }

  lemma StepGuard<D(!new)>(c: Codec<D>, s: State, a: Step)
    requires TxsOk(s) && GuardsStand(s) && Enabled(s, a) && !a.Commit?
    ensures GuardStands(s, NextTx(c, s, a))
  {
  }

  /** A commit that writes nothing, or by a transaction that never took the lock, removes no manager. */
  lemma UnlockedCommitKeepsManagers(s: State, tx: Tx, m: int)
    requires TxShape(tx) && tx.row.Some? && tx.audit.Some? && (tx.locked ==> tx.write.None?)
    requires tx.write.Some? ==> Current(s, tx.write.value)
    requires m in s.db.accounts && IsManager(s.db.accounts[m])
    ensures var accounts := Merge(s.db, tx).accounts; m in accounts && IsManager(accounts[m])
  {
  }

  lemma CommitKeepsGuard(s: State, t: int, u: int)
    requires TxsOk(s) && Exclusive(s) && GuardsStand(s)
    requires t in s.txs && u in s.txs && t != u && s.txs[t].row.Some? && s.txs[t].audit.Some?
    ensures GuardStands(s.(db := Merge(s.db, s.txs[t])), s.txs[u])
  {
    var tx, other := s.txs[t], s.txs[u];
    if other.request.params.SetAccess? && (other.pc.Guarded? || other.write.Some?)
       && OtherManager(s.db.accounts, other.request.params.id) {
      var m :| m in s.db.accounts && m != other.request.params.id && IsManager(s.db.accounts[m]);
      UnlockedCommitKeepsManagers(s, tx, m);
    }
  }

  lemma StepKeepsGuards<D(!new)>(c: Codec<D>, pre: Db, s: State, a: Step)
    requires Inv(pre, s) && GuardsStand(s) && Enabled(s, a)
    ensures GuardsStand(Next(c, s, a))
  {
    if a.Commit? {
      CommitIs(c, s, a);
      CommitKeepsGuards(s, a.t, NextTx(c, s, a), Next(c, s, a));
    } else {
      StepGuard(c, s, a);
    }
  }

  lemma CommitKeepsGuards(s: State, t: int, closed: Tx, s': State)
    requires TxsOk(s) && Exclusive(s) && GuardsStand(s)
    requires t in s.txs && s.txs[t].row.Some? && s.txs[t].audit.Some? && closed.pc.Closed? && closed.write.None?
    requires s'.db == Merge(s.db, s.txs[t]) && s'.txs == s.txs[t := closed]
    ensures GuardsStand(s')
  {
    forall u | u in s'.txs && u != t ensures GuardStands(s', s'.txs[u]) {
      CommitKeepsGuard(s, t, u);
    }
  }

  lemma {:induction false} RunGuards<D(!new)>(c: Codec<D>, states: seq<State>, steps: seq<Step>, k: nat)
    requires Run(c, states, steps) && k < |states|
    ensures GuardsStand(states[k])
  {
    if k == 0 {
      assert states[0].txs == map[];
    } else {
      RunGuards(c, states, steps, k - 1);
      RunInv(c, states, steps, k - 1);
      StepKeepsGuards(c, states[0].db, states[k - 1], steps[k - 1]);
    }
  }

  /** The guard alone is not enough: on one snapshot two managers can each be demoted because of the other. */
  lemma GuardWithoutLockIsNotEnough(a: Account, b: Account)
    requires IsManager(a) && IsManager(b)
    ensures var accounts := map[1 := a, 2 := b];
            var demote1, demote2 := SetAccess(1, [], true), SetAccess(2, [], true);
            var none := Access([], true);
            && GuardPasses(accounts, demote1, 2) && GuardPasses(accounts, demote2, 1)
            && var both := accounts[1 := ApplyDelta(a, none)][2 := ApplyDelta(b, none)];
               forall m :: m in both ==> !IsManager(both[m])
  {
    var accounts := map[1 := a, 2 := b];
    assert 1 in accounts && 2 in accounts && IsManager(accounts[1]) && IsManager(accounts[2]);
  }

  /** The one kind of step that may take the last manager away. */
  ghost predicate BreakGlassDemotion(s: State, a: Step) {
    && a.Commit? && a.t in s.txs
    && var tx := s.txs[a.t];
    && tx.acting == 0 && tx.write.Some?
    && tx.request.params.SetAccess? && !StillManages(tx.request.params)
  }

  lemma StepKeepsManager<D(!new)>(c: Codec<D>, pre: Db, s: State, a: Step)
    requires Inv(pre, s) && GuardsStand(s) && Enabled(s, a) && HasManager(s)
    ensures HasManager(Next(c, s, a)) || BreakGlassDemotion(s, a)
  {
    if !a.Commit? { return; }
    CommitIs(c, s, a);
    var tx := s.txs[a.t];
    var m :| m in s.db.accounts && IsManager(s.db.accounts[m]);
    if tx.write.None? || !tx.request.params.SetAccess? {
      UnlockedCommitKeepsManagers(s, tx, m);
    } else if StillManages(tx.request.params) {
      HoldsAgree(tx.request.params.permissions, ADMINS_MANAGE);
      assert IsManager(Merge(s.db, tx).accounts[tx.write.value.id]);
    } else if OtherManager(s.db.accounts, tx.request.params.id) {
      var o :| o in s.db.accounts && o != tx.request.params.id && IsManager(s.db.accounts[o]);
      assert Merge(s.db, tx).accounts[o] == s.db.accounts[o];
    }
  }

  lemma RunStepKeepsManager<D(!new)>(c: Codec<D>, states: seq<State>, steps: seq<Step>, k: nat)
    requires Run(c, states, steps) && k < |steps| && HasManager(states[k])
    ensures HasManager(states[k + 1]) || BreakGlassDemotion(states[k], steps[k])
  {
    RunInv(c, states, steps, k);
    RunGuards(c, states, steps, k);
    StepKeepsManager(c, states[0].db, states[k], steps[k]);
  }

  /**
   Over every run: if some state has a manager and a later one has none, a break-glass demotion was
   committed in between. Concurrent demotions cannot each rely on the other.
   */
  lemma {:induction false} LastManagerStands<D(!new)>(c: Codec<D>, states: seq<State>, steps: seq<Step>, i: nat, j: nat)
    requires Run(c, states, steps) && i <= j < |states|
    requires HasManager(states[i])
    requires forall k :: i <= k < j ==> !BreakGlassDemotion(states[k], steps[k])
    ensures HasManager(states[j])
  {
    if i < j {
      LastManagerStands(c, states, steps, i, j - 1);
      assert !BreakGlassDemotion(states[j - 1], steps[j - 1]);
      RunStepKeepsManager(c, states, steps, j - 1);
    }
  }
}
