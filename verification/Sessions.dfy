/**
 Login and per-request session checks on top of the operator transactions. A login
 reads one committed credential row; a request re-reads the row it names. Neither
 changes the database, so both are placed at states of a run.
 */
module Sessions {
  import opened Wrappers
  import opened GoStrings
  import opened Permissions
  import opened OperatorRequests
  import opened OperatorCommands

  const BREAK_GLASS := "admin"

  /** The signed claims a request depends on; uid 0 is the break-glass login. */
  datatype Claims = Claims(actor: string, uid: int, epoch: int, permissions: seq<string>)

  datatype Config = Config(secret: Bytes, permissions: seq<string>)

  /** The credential lookup is by folded username. */
  ghost predicate Named(accounts: map<int, Account>, uid: int, username: string) {
    uid in accounts && Fold(accounts[uid].username) == Fold(username)
  }

  /** The claims are those of an enabled account of this name with this password, as read. */
  ghost predicate ClaimsOf(accounts: map<int, Account>, name: string, secret: Bytes, claims: Claims) {
    && Named(accounts, claims.uid, name)
    && var a := accounts[claims.uid];
    a.enabled && a.hash == secret && claims == Claims(a.username, claims.uid, a.epoch, a.permissions)
  }

  /** authenticateLogin against the table as committed at the credential read. */
  ghost function AuthenticateLogin(cfg: Config, accounts: map<int, Account>, username: string, secret: Bytes)
      : (r: Option<Claims>)
    ensures r.Some? && r.value.uid != 0 ==> ClaimsOf(accounts, TrimSpace(username), secret, r.value)
    ensures Fold(TrimSpace(username)) == BREAK_GLASS ==>
              && (r.Some? <==> secret == cfg.secret)
              && (r.Some? ==> r.value == Claims(BREAK_GLASS, 0, 0, cfg.permissions))
    ensures Fold(TrimSpace(username)) != BREAK_GLASS && r.Some? ==>
              ClaimsOf(accounts, TrimSpace(username), secret, r.value)
  {
    var name := TrimSpace(username);
    if name == "" then None
    else if Fold(name) == BREAK_GLASS then
      if secret == cfg.secret then Some(Claims(BREAK_GLASS, 0, 0, cfg.permissions)) else None
    else if !exists uid :: Named(accounts, uid, name) then None
    else
      var uid :| Named(accounts, uid, name);
      var a := accounts[uid];
      if a.hash != secret || !a.enabled then None
      else Some(Claims(a.username, uid, a.epoch, a.permissions))
  }

  /** currentSessionPermissions against the table as committed at the request. */
  function CurrentPermissions(accounts: map<int, Account>, claims: Claims): Option<Panel> {
    if claims.uid == 0 then Some(PanelOf(claims.permissions))
    else if claims.uid !in accounts then None
    else
      var a := accounts[claims.uid];
      if !a.enabled || a.epoch != claims.epoch then None else Some(PanelOf(a.permissions))
  }

  predicate ChangesPassword(e: Entry, uid: int) {
    e.write.Some? && e.write.value.delta.Password? && e.write.value.id == uid
  }

  function PasswordChanges(log: seq<Entry>, uid: int): nat {
    if log == [] then 0
    else PasswordChanges(log[..|log| - 1], uid) + if ChangesPassword(log[|log| - 1], uid) then 1 else 0
  }

  lemma {:induction false} NoChangesCountZero(log: seq<Entry>, uid: int)
    ensures PasswordChanges(log, uid) == 0 <==> forall i :: 0 <= i < |log| ==> !ChangesPassword(log[i], uid)
  {
    if log != [] {
      NoChangesCountZero(log[..|log| - 1], uid);
      assert forall i :: 0 <= i < |log| - 1 ==> log[..|log| - 1][i] == log[i];
    }
  }

  /** An insert never reuses an id, so an existing account is only ever edited. */
  ghost predicate NoReinsert(log: seq<Entry>, uid: int) {
    forall i :: 0 <= i < |log| && log[i].write.Some? && log[i].write.value.delta.Insert? ==>
      log[i].write.value.id != uid
  }

  lemma {:induction false} EpochCountsChanges(accounts: map<int, Account>, log: seq<Entry>, uid: int)
    requires uid in accounts && NoReinsert(log, uid)
    ensures uid in Replay(accounts, log)
    ensures Replay(accounts, log)[uid].epoch == accounts[uid].epoch + PasswordChanges(log, uid)
  {
    if log != [] {
      var front := log[..|log| - 1];
      assert forall i :: 0 <= i < |front| ==> front[i] == log[i];
      EpochCountsChanges(accounts, front, uid);
    }
  }

  lemma {:induction false} ReplayConcat(accounts: map<int, Account>, a: seq<Entry>, b: seq<Entry>)
    ensures Replay(accounts, a + b) == Replay(Replay(accounts, a), b)
  {
    if b == [] {
      assert a + b == a;
    } else {
      assert (a + b)[..|a + b| - 1] == a + b[..|b| - 1];
      ReplayConcat(accounts, a, b[..|b| - 1]);
    }
  }

  ghost predicate Extends(log: seq<Entry>, log': seq<Entry>, uid: int) {
    log <= log' && NoReinsert(log'[|log|..], uid)
  }

  lemma ExtendsTransitive(a: seq<Entry>, b: seq<Entry>, c: seq<Entry>, uid: int)
    requires Extends(a, b, uid) && Extends(b, c, uid)
    ensures Extends(a, c, uid)
  {
    assert c[|a|..] == b[|a|..] + c[|b|..];
  }

  lemma StepPersists<D(!new)>(c: Codec<D>, s: State, a: Step, uid: int)
    requires TxsOk(s) && Enabled(s, a) && uid in s.db.accounts
    ensures uid in Next(c, s, a).db.accounts && Extends(s.log, Next(c, s, a).log, uid)
  {
    if a.Commit? { CommitIs(c, s, a); }
  }

  lemma RunStepPersists<D(!new)>(c: Codec<D>, states: seq<State>, steps: seq<Step>, k: nat, uid: int)
    requires Run(c, states, steps) && k < |steps| && uid in states[k].db.accounts
    ensures uid in states[k + 1].db.accounts && Extends(states[k].log, states[k + 1].log, uid)
  {
    RunInv(c, states, steps, k);
    StepPersists(c, states[k], steps[k], uid);
  }

  /** Along a run an account keeps existing, and no later insert takes its id. */
  lemma {:induction false} AccountsPersist<D(!new)>(c: Codec<D>, states: seq<State>, steps: seq<Step>,
                                                    i: nat, j: nat, uid: int)
    requires Run(c, states, steps) && i <= j < |states| && uid in states[i].db.accounts
    ensures uid in states[j].db.accounts
    ensures Extends(states[i].log, states[j].log, uid)
  {
    if i == j {
      assert states[i].log[|states[i].log|..] == [];
    } else {
      AccountsPersist(c, states, steps, i, j - 1, uid);
      RunStepPersists(c, states, steps, j - 1, uid);
      ExtendsTransitive(states[i].log, states[j - 1].log, states[j].log, uid);
    }
  }

  /**
   A named session is admitted exactly when its account is enabled now and no password change of it was
   committed since the login read its credential; and then it has exactly the account's current rights.
   */
  lemma AdmittedExactlyWhenUnchanged<D(!new)>(
      c: Codec<D>, states: seq<State>, steps: seq<Step>, cfg: Config,
      i: nat, username: string, secret: Bytes, claims: Claims, j: nat)
    requires Run(c, states, steps) && i <= j < |states|
    requires AuthenticateLogin(cfg, states[i].db.accounts, username, secret) == Some(claims) && claims.uid != 0
    ensures states[i].log <= states[j].log && claims.uid in states[j].db.accounts
    ensures var now := states[j].db.accounts;
            var since := states[j].log[|states[i].log|..];
            && (CurrentPermissions(now, claims).Some? <==>
                  now[claims.uid].enabled && forall k :: 0 <= k < |since| ==> !ChangesPassword(since[k], claims.uid))
            && (CurrentPermissions(now, claims).Some? ==>
                  CurrentPermissions(now, claims).value == PanelOf(now[claims.uid].permissions))
  {
    EpochsOnlyGrow(c, states, steps, i, j, claims.uid);
    NoChangesCountZero(states[j].log[|states[i].log|..], claims.uid);
  }

  /**
   The break-glass login is open to the configured secret alone, whatever the table says, and its session
   has exactly the configured rights at every later request.
   */
  lemma BreakGlassStands(cfg: Config, earlier: map<int, Account>, now: map<int, Account>, username: string,
                         secret: Bytes, permission: string)
    requires Fold(TrimSpace(username)) == BREAK_GLASS && permission != ""
    ensures var login := AuthenticateLogin(cfg, earlier, username, secret);
            && (login.Some? <==> secret == cfg.secret)
            && (login.Some? ==> CurrentPermissions(now, login.value).Some?)
            && (login.Some? ==>
                  (CurrentPermissions(now, login.value).value.Has(permission) <==>
                     Confers(cfg.permissions, permission)))
  {
    HasExactly(cfg.permissions, permission);
  }

  /** Epochs only grow, and equal epochs mean no password change was committed in between. */
  lemma EpochsOnlyGrow<D(!new)>(c: Codec<D>, states: seq<State>, steps: seq<Step>, i: nat, j: nat, uid: int)
    requires Run(c, states, steps) && i <= j < |states| && uid in states[i].db.accounts
    ensures uid in states[j].db.accounts && states[i].log <= states[j].log
    ensures states[j].db.accounts[uid].epoch ==
            states[i].db.accounts[uid].epoch + PasswordChanges(states[j].log[|states[i].log|..], uid)
  {
    AccountsPersist(c, states, steps, i, j, uid);
    RunReplay(c, states, steps, i);
    RunReplay(c, states, steps, j);
    var since := states[j].log[|states[i].log|..];
    assert states[j].log == states[i].log + since;
    ReplayConcat(states[0].db.accounts, states[i].log, since);
    EpochCountsChanges(states[i].db.accounts, since, uid);
  }

  // ---- what the account row says ----

  predicate ChangesAccess(e: Entry, uid: int) {
    e.write.Some? && e.write.value.delta.Access? && e.write.value.id == uid
  }

  /** Only an access edit changes an account's rights and state, only a password change its credential. */
  lemma {:induction false} UneditedStays(accounts: map<int, Account>, log: seq<Entry>, uid: int)
    requires uid in accounts && NoReinsert(log, uid)
    ensures uid in Replay(accounts, log)
    ensures Replay(accounts, log)[uid].username == accounts[uid].username
    ensures (forall k :: 0 <= k < |log| ==> !ChangesAccess(log[k], uid)) ==>
              Replay(accounts, log)[uid].permissions == accounts[uid].permissions
              && Replay(accounts, log)[uid].enabled == accounts[uid].enabled
    ensures (forall k :: 0 <= k < |log| ==> !ChangesPassword(log[k], uid)) ==>
              Replay(accounts, log)[uid].hash == accounts[uid].hash
  {
    if log != [] {
      var front := log[..|log| - 1];
      assert forall k :: 0 <= k < |front| ==> front[k] == log[k];
      UneditedStays(accounts, front, uid);
    }
  }

  /** The same along a run, from any state to any later one. */
  lemma UneditedAlongRun<D(!new)>(c: Codec<D>, states: seq<State>, steps: seq<Step>, i: nat, j: nat, uid: int)
    requires Run(c, states, steps) && i <= j < |states| && uid in states[i].db.accounts
    ensures uid in states[j].db.accounts && states[i].log <= states[j].log
    ensures var was, now := states[i].db.accounts[uid], states[j].db.accounts[uid];
            var since := states[j].log[|states[i].log|..];
            && now.username == was.username
            && ((forall k :: 0 <= k < |since| ==> !ChangesAccess(since[k], uid)) ==>
                  now.permissions == was.permissions && now.enabled == was.enabled)
            && ((forall k :: 0 <= k < |since| ==> !ChangesPassword(since[k], uid)) ==> now.hash == was.hash)
  {
    AccountsPersist(c, states, steps, i, j, uid);
    RunReplay(c, states, steps, i);
    RunReplay(c, states, steps, j);
    var since := states[j].log[|states[i].log|..];
    assert states[j].log == states[i].log + since;
    ReplayConcat(states[0].db.accounts, states[i].log, since);
    UneditedStays(states[i].db.accounts, since, uid);
  }

  /** The step commits a write, so its request is in force from the next state on. */
  ghost predicate CommitsWrite(s: State, a: Step) {
    a.Commit? && a.t in s.txs && s.txs[a.t].write.Some?
  }

  lemma CommittedWriteApplies<D(!new)>(c: Codec<D>, states: seq<State>, steps: seq<Step>, k: nat)
    requires Run(c, states, steps) && k < |steps| && CommitsWrite(states[k], steps[k])
    ensures var r, w := states[k].txs[steps[k].t].request, states[k].txs[steps[k].t].write.value;
            && w.delta == DeltaOf(r) && (!r.params.Create? ==> w.id == r.params.id)
            && w.id in states[k + 1].db.accounts && states[k + 1].db.accounts[w.id] == w.image
            && (if w.delta.Insert? then w.image == w.delta.account
                else w.id in states[k].db.accounts && w.image == ApplyDelta(states[k].db.accounts[w.id], w.delta))
  {
    RunInv(c, states, steps, k);
    CommitIs(c, states[k], steps[k]);
  }

  /**
   An access edit is in force from its commit until the next committed one: the account is enabled as the
   operator asked and confers exactly the rights of the list in the request body, however it was written.
   */
  lemma AccessEditStaysInForce<D(!new)>(c: Codec<D>, states: seq<State>, steps: seq<Step>, k: nat, j: nat,
                                        body: Request)
    requires Run(c, states, steps) && k < j < |states| && CommitsWrite(states[k], steps[k])
    requires states[k].txs[steps[k].t].request == Prepare(body) && body.params.SetAccess?
    ensures states[k + 1].log <= states[j].log
    ensures var asked, since := body.params, states[j].log[|states[k + 1].log|..];
            asked.id in states[j].db.accounts &&
            ((forall i :: 0 <= i < |since| ==> !ChangesAccess(since[i], asked.id)) ==>
               && states[j].db.accounts[asked.id].enabled == asked.enabled
               && forall x :: PanelOf(states[j].db.accounts[asked.id].permissions).Has(x) <==>
                              PanelOf(asked.permissions).Has(x))
  {
    var asked := body.params;
    NormaliseIdempotent(asked.permissions);
    CommittedWriteApplies(c, states, steps, k);
    UneditedAlongRun(c, states, steps, k + 1, j, asked.id);
    forall x ensures PanelOf(Normalise(asked.permissions)).Has(x) <==> PanelOf(asked.permissions).Has(x) {
      HoldsAgree(asked.permissions, x);
    }
  }

  /** A password change is in force from its commit until the next one: no other secret logs the account in. */
  lemma PasswordStaysInForce<D(!new)>(c: Codec<D>, states: seq<State>, steps: seq<Step>, k: nat, j: nat,
                                      cfg: Config, username: string, secret: Bytes)
    requires Run(c, states, steps) && k < j < |states| && CommitsWrite(states[k], steps[k])
    requires states[k].txs[steps[k].t].request.params.SetPassword?
    ensures states[k + 1].log <= states[j].log
    ensures var r, since := states[k].txs[steps[k].t].request, states[j].log[|states[k + 1].log|..];
            var login := AuthenticateLogin(cfg, states[j].db.accounts, username, secret);
            login.Some? && login.value.uid == r.params.id != 0 ==>
              (forall i :: 0 <= i < |since| ==> !ChangesPassword(since[i], r.params.id)) ==> secret == r.password
  {
    CommittedWriteApplies(c, states, steps, k);
    UneditedAlongRun(c, states, steps, k + 1, j, states[k].txs[steps[k].t].request.params.id);
  }
}
