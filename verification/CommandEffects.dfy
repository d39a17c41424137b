/**
 What a command answers and does to the account table, over every run and on the
 fields of the rows: which requests are refused, which rows change and how, when the
 last-manager guard refuses, and what a repeated command_id is told.
 */
module CommandEffects {
  import opened Wrappers
  import opened GoStrings
  import opened Permissions
  import opened OperatorRequests
  import opened OperatorCommands

  // ---- which requests pass the checks ----

  predicate SameLetter(a: char, b: char) {
    || a == b
    || ('a' <= a <= 'z' && b as int == a as int - 32)
    || ('a' <= b <= 'z' && a as int == b as int - 32)
  }

  predicate SameIgnoringCase(a: string, b: string) {
    |a| == |b| && forall i :: 0 <= i < |a| ==> SameLetter(a[i], b[i])
  }

  /** Two names fold alike exactly when they differ in the case of letters at most. */
  lemma FoldExactly(a: string, b: string)
    ensures Fold(a) == Fold(b) <==> SameIgnoringCase(a, b)
  {
    assert |Fold(a)| == |a| && |Fold(b)| == |b|;
    assert forall i :: 0 <= i < |a| && i < |b| ==> (Fold(a)[i] == Fold(b)[i] <==> SameLetter(a[i], b[i]));
    if SameIgnoringCase(a, b) { assert Fold(a) == Fold(b); }
  }

  predicate NameChar(c: char) {
    'a' <= c <= 'z' || 'A' <= c <= 'Z' || IsDigit(c) || c == '.' || c == '_' || c == '-'
  }

  predicate GoodName(name: string) {
    NameShape(name) && !SameIgnoringCase(name, "admin")
  }

  predicate GoodPassword(password: Bytes) {
    |password| <= 72 && exists i :: 0 <= i < |password| && !IsSpace(password[i])
  }

  ghost predicate GoodRights(list: seq<string>) {
    forall x :: Confers(list, x) ==> x in ASSIGNABLE
  }

  /** The request body passes all checks made before the database is touched. */
  ghost predicate Acceptable(body: Request) {
    match body.params
    case Create(username, permissions, _) =>
      GoodName(TrimSpace(username)) && GoodPassword(body.password) && GoodRights(permissions)
    case SetAccess(id, permissions, _) => id > 0 && GoodRights(permissions)
    case SetPassword(id) => id > 0 && GoodPassword(body.password)
  }

  predicate NameShape(name: string) {
    3 <= |name| <= 64 && forall i :: 0 <= i < |name| ==> NameChar(name[i])
  }

  lemma NameShapeExactly(name: string)
    ensures ValidUsername(name) <==> NameShape(name)
  {
    assert forall i :: 0 <= i < |name| ==> name[i] in name;
    assert forall c :: c in "._-" <==> c == '.' || c == '_' || c == '-';
  }

  lemma ReservedExactly(name: string)
    ensures Fold(name) == "admin" <==> SameIgnoringCase(name, "admin")
  {
    FoldExactly(name, "admin");
    assert Fold("admin") == "admin";
  }

  lemma ValidPasswordExactly(password: Bytes)
    ensures ValidPassword(password) <==> GoodPassword(password)
  {
    TrimEmpty(password);
  }

  /** Exactly the acceptable bodies pass the checks. */
  lemma ChecksExactly(body: Request)
    ensures Check(Prepare(body)).None? <==> Acceptable(body)
  {
    ValidPasswordExactly(body.password);
    match body.params
    case Create(username, permissions, _) =>
      NameShapeExactly(TrimSpace(username));
      ReservedExactly(TrimSpace(username));
      AssignableExactly(permissions);
    case SetAccess(_, permissions, _) => AssignableExactly(permissions);
    case SetPassword(_) =>
  }

  // ---- what the commit does ----

  /** The stored list confers what the list in the body does. */
  ghost predicate SameRights(stored: seq<string>, list: seq<string>) {
    forall x :: x != "" ==> (x in stored || ALL in stored <==> Confers(list, x))
  }

  /** One row was added or changed as the body asks, and no other. */
  ghost predicate TookEffect(body: Request, id: int, was: map<int, Account>, now: map<int, Account>) {
    && id in now && now.Keys == was.Keys + {id} && (forall i :: i in was && i != id ==> now[i] == was[i])
    && match body.params
       case Create(username, permissions, enabled) =>
         && id !in was
         && now[id].username == TrimSpace(username) && now[id].hash == body.password
         && now[id].enabled == enabled && now[id].epoch == 1 && SameRights(now[id].permissions, permissions)
       case SetAccess(target, permissions, enabled) =>
         && id == target && id in was
         && now[id].username == was[id].username && now[id].hash == was[id].hash && now[id].epoch == was[id].epoch
         && now[id].enabled == enabled && SameRights(now[id].permissions, permissions)
       case SetPassword(target) =>
         && id == target && id in was
         && now[id].username == was[id].username && now[id].permissions == was[id].permissions
         && now[id].enabled == was[id].enabled
         && now[id].hash == body.password && now[id].epoch == was[id].epoch + 1
  }

  lemma StoredRights(list: seq<string>)
    ensures SameRights(Normalise(Normalise(list)), list)
  {
    NormaliseIdempotent(list);
    forall x | x != "" ensures x in Normalise(list) || ALL in Normalise(list) <==> Confers(list, x) {
      HoldsAgree(list, x);
      HasExactly(list, x);
    }
  }

  /** A committed write is the effect the body asks for. */
  lemma WriteTakesEffect(s: State, tx: Tx, body: Request)
    requires TxShape(tx) && tx.request == Prepare(body) && tx.write.Some? && Current(s, tx.write.value)
    ensures tx.outcome == Some(Done(tx.write.value.id))
    ensures TookEffect(body, tx.write.value.id, s.db.accounts, Merge(s.db, tx).accounts)
  {
    if !body.params.SetPassword? { StoredRights(body.params.permissions); }
  }

  /** The update finds no row. */
  predicate Missing(accounts: map<int, Account>, body: Request) {
    !body.params.Create? && body.params.id !in accounts
  }

  /** The insert meets a name that is taken in any case, or the epoch column has reached its bound. */
  ghost predicate Clashes(accounts: map<int, Account>, body: Request) {
    match body.params
    case Create(username, _, _) =>
      exists i :: i in accounts && SameIgnoringCase(accounts[i].username, TrimSpace(username))
    case SetAccess(_, _, _) => false
    case SetPassword(id) => id in accounts && accounts[id].epoch == 2147483647
  }

  lemma ClashesExactly(s: State, body: Request)
    requires !body.dryRun
    ensures StatementFails(s, Prepare(body)) <==> Clashes(s.db.accounts, body)
  {
    if body.params.Create? {
      var name := TrimSpace(body.params.username);
      forall i | i in s.db.accounts
        ensures Fold(s.db.accounts[i].username) == Fold(name) <==> SameIgnoringCase(s.db.accounts[i].username, name)
      {
        FoldExactly(s.db.accounts[i].username, name);
      }
    }
  }

  /** A refusal names something that is wrong with the body. */
  ghost predicate NamesDefect(body: Request, why: Refusal) {
    match why
    case InvalidUsername => body.params.Create? && !NameShape(TrimSpace(body.params.username))
    case ReservedUsername => body.params.Create? && SameIgnoringCase(TrimSpace(body.params.username), "admin")
    case InvalidPassword => !body.params.SetAccess? && !GoodPassword(body.password)
    case InvalidPermissions => !body.params.SetPassword? && !GoodRights(body.params.permissions)
    case NotFound => !body.params.Create? && body.params.id <= 0
    case LastManager => false
  }

  lemma RefusalNames(body: Request)
    requires Check(Prepare(body)).Some?
    ensures NamesDefect(body, Check(Prepare(body)).value)
  {
    ValidPasswordExactly(body.password);
    if body.params.Create? {
      NameShapeExactly(TrimSpace(body.params.username));
      ReservedExactly(TrimSpace(body.params.username));
    }
    if !body.params.SetPassword? { AssignableExactly(body.params.permissions); }
  }

  /** What the mutation step answers, before anything is committed. */
  ghost predicate Answers(s: State, body: Request, tx: Tx) {
    if !Acceptable(body) then
      tx.outcome.Some? && tx.outcome.value.Refused? && NamesDefect(body, tx.outcome.value.why) && tx.write.None?
    else if body.dryRun then tx.outcome == Some(DryRunOk) && tx.write.None?
    else if Missing(s.db.accounts, body) then tx.outcome == Some(Refused(NotFound)) && tx.write.None?
    else if Clashes(s.db.accounts, body) then tx.pc == Closed(Error)
    else tx.write.Some? && tx.outcome == Some(Done(if body.params.Create? then s.nextId else body.params.id))
  }

  lemma OperateAnswers<D(!new)>(c: Codec<D>, s: State, a: Step, body: Request)
    requires TxsOk(s) && Enabled(s, a) && a.Operate? && s.txs[a.t].request == Prepare(body)
    ensures Answers(s, body, NextTx(c, s, a))
  {
    ChecksExactly(body);
    if Check(Prepare(body)).Some? { RefusalNames(body); }
    if !body.dryRun { ClashesExactly(s, body); }
  }

  /** Once it has its answer, a transaction keeps it until it is closed. */
  ghost predicate Settled(tx: Tx, tx': Tx) {
    tx'.request == tx.request && (tx'.pc.Closed? || (tx'.outcome == tx.outcome && tx'.write == tx.write))
  }

  lemma StepSettles<D(!new)>(c: Codec<D>, s: State, a: Step, t: int)
    requires TxsOk(s) && Enabled(s, a) && t in s.txs && s.txs[t].outcome.Some?
    ensures t in Next(c, s, a).txs && Settled(s.txs[t], Next(c, s, a).txs[t])
    ensures Next(c, s, a).txs[t].outcome.Some? || Next(c, s, a).txs[t].pc.Closed?
  {
  }

  lemma StepAt<D(!new)>(c: Codec<D>, states: seq<State>, steps: seq<Step>, k: nat)
    requires Run(c, states, steps) && k < |steps|
    ensures Enabled(states[k], steps[k]) && states[k + 1] == Next(c, states[k], steps[k])
    ensures TxsOk(states[k])
  {
    RunInv(c, states, steps, k);
  }

  lemma {:induction false} StaysSettled<D(!new)>(c: Codec<D>, states: seq<State>, steps: seq<Step>,
                                                 i: nat, j: nat, t: int)
    requires Run(c, states, steps) && i <= j < |states| && t in states[i].txs && states[i].txs[t].outcome.Some?
    ensures t in states[j].txs && Settled(states[i].txs[t], states[j].txs[t])
  {
    if i < j {
      StaysSettled(c, states, steps, i, j - 1, t);
      StepAt(c, states, steps, j - 1);
      if states[j - 1].txs[t].pc.Closed? {
        ClosedForGood(c, states, steps, j - 1, j, t);
      } else {
        StepSettles(c, states[j - 1], steps[j - 1], t);
      }
    }
  }

  /** The commit of a transaction publishes the answer it settled on. */
  lemma CommitPublishes<D(!new)>(c: Codec<D>, states: seq<State>, steps: seq<Step>, k: nat, m: nat, t: int,
                                 body: Request)
    requires Run(c, states, steps) && k < m < |steps| && steps[m].Commit? && steps[m].t == t
    requires t in states[k + 1].txs && states[k + 1].txs[t].outcome.Some?
    requires states[k + 1].txs[t].request == Prepare(body)
    ensures t in states[m].txs
    ensures var was, now, tx := states[m].db.accounts, states[m + 1].db.accounts, states[k + 1].txs[t];
            var id := TrimSpace(body.commandId);
            && id in states[m + 1].db.commands
            && states[m + 1].db.commands[id] ==
                 CommandRow(Prepare(body), if tx.outcome.value.Refused? then Failed else Completed, tx.outcome)
            && (tx.write.None? ==> now == was)
            && (tx.write.Some? ==>
                  tx.outcome == Some(Done(tx.write.value.id)) && TookEffect(body, tx.write.value.id, was, now))
  {
    StaysSettled(c, states, steps, k + 1, m, t);
    StepAt(c, states, steps, m);
    CommitIs(c, states[m], steps[m]);
    var tx := states[m].txs[t];
    if tx.write.Some? { WriteTakesEffect(states[m], tx, body); }
  }

  /**
   What a command comes to, over every run. A body with a defect is recorded as failed with that defect;
   a dry run as completed; an update of an account that is not there as failed with not-found; each
   leaves the table alone. Any other command that commits is recorded as completed, and the commit
   changes one row exactly as the body asks. One whose statement clashes does not commit.
   */
  lemma CommandTakesEffect<D(!new)>(c: Codec<D>, states: seq<State>, steps: seq<Step>, k: nat, m: nat, body: Request)
    requires Run(c, states, steps) && k < m < |steps|
    requires steps[k].Operate? && steps[m].Commit? && steps[m].t == steps[k].t
    requires steps[k].t in states[k].txs && states[k].txs[steps[k].t].request == Prepare(body)
    ensures var was, now, met := states[m].db.accounts, states[m + 1].db.accounts, states[k].db.accounts;
            var id := TrimSpace(body.commandId);
            && id in states[m + 1].db.commands
            && var row := states[m + 1].db.commands[id];
            && row.request == Prepare(body)
            && if !Acceptable(body) then
                 && row.status == Failed && now == was
                 && row.outcome.Some? && row.outcome.value.Refused? && NamesDefect(body, row.outcome.value.why)
               else if body.dryRun then row.status == Completed && row.outcome == Some(DryRunOk) && now == was
               else if Missing(met, body) then
                 row.status == Failed && row.outcome == Some(Refused(NotFound)) && now == was
               else
                 && !Clashes(met, body) && row.status == Completed
                 && row.outcome.Some? && row.outcome.value.Done?
                 && TookEffect(body, row.outcome.value.account, was, now)
  {
    var t := steps[k].t;
    StepAt(c, states, steps, k);
    OperateAnswers(c, states[k], steps[k], body);
    var tx := states[k + 1].txs[t];
    assert tx == NextTx(c, states[k], steps[k]);
    if tx.pc.Closed? {
      ClosedForGood(c, states, steps, k + 1, m, t);
      StepAt(c, states, steps, m);
    } else {
      NextKeepsRequest(c, states[k], steps[k]);
      CommitPublishes(c, states, steps, k, m, t, body);
    }
  }

  lemma NextKeepsRequest<D(!new)>(c: Codec<D>, s: State, a: Step)
    requires Enabled(s, a) && !a.Begin?
    ensures NextTx(c, s, a).request == s.txs[a.t].request
  {
  }

  // ---- the last-manager guard ----

  /** An enabled account whose stored list has admins.manage or the wildcard. */
  predicate Manages(a: Account) {
    a.enabled && ("admins.manage" in a.permissions || "*" in a.permissions)
  }

  /**
   The guard refuses an access edit if and only if a named operator makes it, no other account manages,
   and the edited one would not manage either; for an account that is there, if and only if the table
   after the edit would have no manager left.
   */
  lemma GuardRefusesExactly<D(!new)>(c: Codec<D>, states: seq<State>, steps: seq<Step>, k: nat, body: Request)
    requires Run(c, states, steps) && k < |steps| && steps[k].Guard?
    requires steps[k].t in states[k].txs && states[k].txs[steps[k].t].request == Prepare(body)
    ensures body.params.SetAccess? && steps[k].t in states[k + 1].txs
    ensures var accounts, asked, acting := states[k].db.accounts, body.params, states[k].txs[steps[k].t].acting;
            var refused := states[k + 1].txs[steps[k].t].outcome == Some(Refused(LastManager));
            && (refused <==>
                  && acting != 0
                  && (forall m :: m in accounts && m != asked.id ==> !Manages(accounts[m]))
                  && !(asked.enabled && Confers(asked.permissions, "admins.manage")))
            && (forall after :: TookEffect(body, asked.id, accounts, after) ==>
                  (refused <==> acting != 0 && forall m :: m in after ==> !Manages(after[m])))
            && (!refused ==> states[k + 1].txs[steps[k].t].pc == Guarded)
  {
    StepAt(c, states, steps, k);
    GuardStep(c, states[k], steps[k], body);
    var accounts, asked := states[k].db.accounts, body.params;
    forall after | TookEffect(body, asked.id, accounts, after)
      ensures (forall m :: m in after ==> !Manages(after[m])) <==>
                && (forall m :: m in accounts && m != asked.id ==> !Manages(accounts[m]))
                && !(asked.enabled && Confers(asked.permissions, "admins.manage"))
    {
      assert Manages(after[asked.id]) <==> asked.enabled && Confers(asked.permissions, "admins.manage");
      assert forall m :: m in accounts && m != asked.id ==> m in after && after[m] == accounts[m];
    }
  }

  lemma GuardStep<D(!new)>(c: Codec<D>, s: State, a: Step, body: Request)
    requires TxsOk(s) && Enabled(s, a) && a.Guard? && s.txs[a.t].request == Prepare(body)
    ensures body.params.SetAccess?
    ensures var refused := NextTx(c, s, a).outcome == Some(Refused(LastManager));
            && (refused <==>
                  && s.txs[a.t].acting != 0
                  && (forall m :: m in s.db.accounts && m != body.params.id ==> !Manages(s.db.accounts[m]))
                  && !(body.params.enabled && Confers(body.params.permissions, "admins.manage")))
            && (!refused ==> NextTx(c, s, a).pc == Guarded)
  {
    HoldsAgree(body.params.permissions, ADMINS_MANAGE);
    HasExactly(body.params.permissions, ADMINS_MANAGE);
    assert forall m :: m in s.db.accounts ==> (Manages(s.db.accounts[m]) <==> IsManager(s.db.accounts[m]));
  }

  /** A refused edit that commits is recorded as failed with that reason, and leaves the table alone. */
  lemma GuardRefusalCommits<D(!new)>(c: Codec<D>, states: seq<State>, steps: seq<Step>, k: nat, m: nat, body: Request)
    requires Run(c, states, steps) && k < m < |steps| && steps[k].Guard? && steps[m].Commit? && steps[m].t == steps[k].t
    requires steps[k].t in states[k].txs && states[k].txs[steps[k].t].request == Prepare(body)
    requires steps[k].t in states[k + 1].txs && states[k + 1].txs[steps[k].t].outcome == Some(Refused(LastManager))
    ensures var id := TrimSpace(body.commandId);
            && id in states[m + 1].db.commands
            && states[m + 1].db.commands[id] == CommandRow(Prepare(body), Failed, Some(Refused(LastManager)))
            && states[m + 1].db.accounts == states[m].db.accounts
  {
    StepAt(c, states, steps, k);
    RunInv(c, states, steps, k + 1);
    NextKeepsRequest(c, states[k], steps[k]);
    assert TxShape(states[k + 1].txs[steps[k].t]);
    CommitPublishes(c, states, steps, k, m, steps[k].t, body);
  }

  // ---- a repeated command_id ----

  /** A repeated command_id is answered with the stored outcome for the identical request, and conflicts otherwise. */
  lemma RepeatAnswers<D(!new)>(c: Codec<D>, states: seq<State>, steps: seq<Step>, k: nat)
    requires c.Sound() && Run(c, states, steps) && k < |steps| && steps[k].Load?
    ensures var tx := states[k].txs[steps[k].t];
            && tx.request.commandId in states[k].db.commands && steps[k].t in states[k + 1].txs
            && var stored := states[k].db.commands[tx.request.commandId];
               states[k + 1].txs[steps[k].t].pc ==
                 Closed(if stored.request == tx.request then Replayed(stored.outcome) else Conflict)
  {
    StepAt(c, states, steps, k);
    var tx := states[k].txs[steps[k].t];
    ReplaysExactlyTheSameRequest(c, states[k].db.commands[tx.request.commandId].request, tx.request);
  }
}
