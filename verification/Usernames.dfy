/**
 The unique index on the folded username, over every interleaving: no two accounts ever
 share a name in any case, none takes the break-glass name, and so a login resolves to
 one account at most.
 */
module Usernames {
  import opened Wrappers
  import opened GoStrings
  import opened OperatorRequests
  import opened OperatorCommands
  import opened Sessions

  ghost predicate Clash(a: Account, b: Account) {
    Fold(a.username) == Fold(b.username)
  }

  ghost predicate Unique(accounts: map<int, Account>) {
    forall i, j :: i in accounts && j in accounts && i != j ==> !Clash(accounts[i], accounts[j])
  }

  ghost predicate Inserts(tx: Tx) {
    tx.write.Some? && tx.write.value.delta.Insert?
  }

  /** A pending insert clashes with no committed account and with no other pending insert. */
  ghost predicate PendingUnique(s: State) {
    && (forall t, i :: t in s.txs && Inserts(s.txs[t]) && i in s.db.accounts ==>
          !Clash(s.txs[t].write.value.image, s.db.accounts[i]))
    && (forall t, u :: t in s.txs && u in s.txs && t != u && Inserts(s.txs[t]) && Inserts(s.txs[u]) ==>
          !Clash(s.txs[t].write.value.image, s.txs[u].write.value.image))
  }

  ghost predicate NotReserved(a: Account) {
    Fold(a.username) != BREAK_GLASS
  }

  ghost predicate NoneReserved(s: State) {
    && (forall i :: i in s.db.accounts ==> NotReserved(s.db.accounts[i]))
    && (forall t :: t in s.txs && Inserts(s.txs[t]) ==> NotReserved(s.txs[t].write.value.image))
  }

  ghost predicate NamesOk(s: State) {
    Unique(s.db.accounts) && PendingUnique(s) && NoneReserved(s)
  }

  lemma StepInsert<D(!new)>(c: Codec<D>, s: State, a: Step)
    requires TxsOk(s) && NamesOk(s) && Enabled(s, a) && !a.Commit? && Inserts(NextTx(c, s, a))
    ensures var image := NextTx(c, s, a).write.value.image;
            && NotReserved(image)
            && (forall i :: i in s.db.accounts ==> !Clash(image, s.db.accounts[i]))
            && (forall u :: u in s.txs && u != a.t && Inserts(s.txs[u]) ==> !Clash(image, s.txs[u].write.value.image))
  {
    if a.Operate? {
      var tx := s.txs[a.t];
      ValidIsTrimmed(tx.request.params.username);
    }
  }

  lemma DigitIsNotSpace(c: char)
    ensures IsDigit(c) ==> !IsSpace(c)
  {
  }

  lemma ValidIsTrimmed(u: string)
    ensures ValidUsername(u) ==> TrimSpace(u) == u
  {
    if ValidUsername(u) {
      assert u[0] in u && u[|u| - 1] in u;
      DigitIsNotSpace(u[0]);
      DigitIsNotSpace(u[|u| - 1]);
    }
  }

  /** An edit never renames. */
  lemma CommitNames(s: State, t: int)
    requires TxsOk(s) && Exclusive(s) && NamesOk(s) && t in s.txs && s.txs[t].row.Some? && s.txs[t].audit.Some?
    ensures var after := Merge(s.db, s.txs[t]).accounts;
            && Unique(after)
            && (forall i :: i in after ==> NotReserved(after[i]))
            && (forall u, i :: u in s.txs && u != t && Inserts(s.txs[u]) && i in after ==>
                  !Clash(s.txs[u].write.value.image, after[i]))
  {
  }

  lemma CommitKeepsNames(s: State, t: int, closed: Tx, s': State)
    requires TxsOk(s) && Exclusive(s) && NamesOk(s) && t in s.txs && s.txs[t].row.Some? && s.txs[t].audit.Some?
    requires closed.write.None? && s'.db == Merge(s.db, s.txs[t]) && s'.txs == s.txs[t := closed]
    ensures NamesOk(s')
  {
    CommitNames(s, t);
  }

  lemma ReplaceNames(s: State, t: int, tx: Tx, s': State)
    requires NamesOk(s) && s'.db == s.db && s'.txs == s.txs[t := tx]
    requires Inserts(tx) ==>
               && NotReserved(tx.write.value.image)
               && (forall i :: i in s.db.accounts ==> !Clash(tx.write.value.image, s.db.accounts[i]))
               && (forall u :: u in s.txs && u != t && Inserts(s.txs[u]) ==>
                     !Clash(tx.write.value.image, s.txs[u].write.value.image))
    ensures NamesOk(s')
  {
  }

  lemma StepNames<D(!new)>(c: Codec<D>, pre: Db, s: State, a: Step)
    requires Inv(pre, s) && NamesOk(s) && Enabled(s, a)
    ensures NamesOk(Next(c, s, a))
  {
    if a.Commit? {
      CommitIs(c, s, a);
      CommitKeepsNames(s, a.t, NextTx(c, s, a), Next(c, s, a));
    } else {
      if Inserts(NextTx(c, s, a)) { StepInsert(c, s, a); }
      ReplaceNames(s, a.t, NextTx(c, s, a), Next(c, s, a));
    }
  }

  /** Over every run names stay unique up to case and none is the break-glass name. */
  lemma {:induction false} RunNames<D(!new)>(c: Codec<D>, states: seq<State>, steps: seq<Step>, k: nat)
    requires Run(c, states, steps) && k < |states|
    requires Unique(states[0].db.accounts)
    requires forall i :: i in states[0].db.accounts ==> NotReserved(states[0].db.accounts[i])
    ensures NamesOk(states[k])
  {
    if k > 0 {
      RunNames(c, states, steps, k - 1);
      RunInv(c, states, steps, k - 1);
      StepNames(c, states[0].db, states[k - 1], steps[k - 1]);
    }
  }

  /**
   In every reachable state an account's own name and password log in to that account and no other, in
   any case, exactly when it is enabled; any other password never does.
   */
  lemma LoginFindsItsAccount<D(!new)>(c: Codec<D>, states: seq<State>, steps: seq<Step>, k: nat,
                                      cfg: Config, uid: int, username: string, secret: Bytes)
    requires Run(c, states, steps) && k < |states| && uid in states[k].db.accounts
    requires Unique(states[0].db.accounts)
    requires forall i :: i in states[0].db.accounts ==> NotReserved(states[0].db.accounts[i])
    requires Fold(TrimSpace(username)) == Fold(states[k].db.accounts[uid].username) && TrimSpace(username) != ""
    ensures var a := states[k].db.accounts[uid];
            AuthenticateLogin(cfg, states[k].db.accounts, username, secret) ==
              if a.enabled && a.hash == secret then Some(Claims(a.username, uid, a.epoch, a.permissions)) else None
  {
    RunNames(c, states, steps, k);
    var accounts := states[k].db.accounts;
    assert Named(accounts, uid, TrimSpace(username));
    forall o | Named(accounts, o, TrimSpace(username)) ensures o == uid {
      assert o != uid ==> !Clash(accounts[o], accounts[uid]);
    }
  }
}
