/**
 The operator command runner as a step system: one committed database plus any
 number of open READ COMMITTED transactions, each advancing statement by
 statement and interleaved arbitrarily.

 Database rules assumed: a statement sees committed rows; a unique-key insert and
 a row update wait for an uncommitted writer of the same key or row; a statement
 error aborts the transaction; an advisory transaction lock is held to its end.
 A blocked statement is an action that is not enabled.
 */
module OperatorCommands {
  import opened Wrappers
  import opened GoStrings
  import opened Permissions
  import opened OperatorRequests

  const MAX_EPOCH := 0x7FFF_FFFF  // token_epoch is a 32-bit integer column

  /** One row of admin_console_users. bcrypt is kept abstract: the hash stands for the password. */
  datatype Account = Account(username: string, hash: Bytes, permissions: seq<string>, enabled: bool, epoch: int)

  datatype Refusal = InvalidUsername | ReservedUsername | InvalidPassword | InvalidPermissions | NotFound | LastManager

  datatype Outcome = Done(account: int) | DryRunOk | Refused(why: Refusal)

  datatype Status = Running | Completed | Failed

  datatype CommandRow = CommandRow(request: Request, status: Status, outcome: Option<Outcome>)

  datatype Db = Db(accounts: map<int, Account>, commands: map<string, CommandRow>, audit: seq<CommandRow>)

  /** What a write statement changes, independent of the row it meets. */
  datatype Delta =
    | Insert(account: Account)
    | Access(permissions: seq<string>, enabled: bool)
    | Password(hash: Bytes)

  /** An uncommitted row version: the image the statement computed, and the change it stands for. */
  datatype Write = Write(id: int, image: Account, delta: Delta)

  datatype Reply = Executed(outcome: Outcome) | Replayed(stored: Option<Outcome>) | Conflict | Error

  datatype Pc = Begun | Conflicted | Claimed | Guarded | Operated | Finished | Audited | Closed(reply: Reply)

  datatype Tx = Tx(request: Request, acting: int, pc: Pc, locked: bool,
                   row: Option<CommandRow>, audit: Option<CommandRow>,
                   outcome: Option<Outcome>, write: Option<Write>)

  /** log is the history of commits: the command row as committed, its write, and who acted. */
  datatype Entry = Entry(row: CommandRow, write: Option<Write>, acting: int)

  datatype State = State(db: Db, txs: map<int, Tx>, nextId: int, log: seq<Entry>)

  datatype Step =
    | Begin(t: int, request: Request, acting: int)
    | Claim(t: int)
    | Load(t: int)
    | Lock(t: int)
    | Guard(t: int)
    | Operate(t: int)
    | Finish(t: int)
    | Audit(t: int)
    | Commit(t: int, acknowledged: bool)
    | Abort(t: int)

  // ---- decisions made in Go before or between statements ----

  function Fold(s: string): string {
    seq(|s|, i requires 0 <= i < |s| => if 'A' <= s[i] <= 'Z' then s[i] - 'A' + 'a' else s[i])
  }

  predicate ValidUsername(u: string) {
    3 <= |u| <= 64 &&
    forall c :: c in u ==> 'a' <= c <= 'z' || 'A' <= c <= 'Z' || IsDigit(c) || c in "._-"
  }

  predicate ValidPassword(p: Bytes) {
    TrimSpace(p) != "" && |p| <= 72
  }

  /** The checks a mutation closure makes before it touches the database. */
  function Check(r: Request): Option<Refusal> {
    match r.params
    case Create(username, permissions, _) =>
      if !ValidUsername(username) then Some(InvalidUsername)
      else if Fold(username) == "admin" then Some(ReservedUsername)
      else if !ValidPassword(r.password) then Some(InvalidPassword)
      else if !Assignable(permissions) then Some(InvalidPermissions)
      else None
    case SetAccess(id, permissions, _) =>
      if id <= 0 then Some(NotFound)
      else if !Assignable(permissions) then Some(InvalidPermissions)
      else None
    case SetPassword(id) =>
      if id <= 0 then Some(NotFound)
      else if !ValidPassword(r.password) then Some(InvalidPassword)
      else None
  }

  /** What the route handlers and the runner make of a request before they store or compare it. */
  function Prepare(r: Request): Request {
    var params :=
      match r.params
      case Create(username, permissions, enabled) => Create(TrimSpace(username), Normalise(permissions), enabled)
      case SetAccess(id, permissions, enabled) => SetAccess(id, Normalise(permissions), enabled)
      case SetPassword(id) => SetPassword(id);
    Request(TrimSpace(r.commandId), TrimSpace(r.actor), TrimSpace(r.reason), r.dryRun, params, r.password)
  }

  predicate ValidMeta(r: Request) {
    && r.commandId == TrimSpace(r.commandId) && 0 < |r.commandId| <= 128
    && r.actor == TrimSpace(r.actor) && 0 < |r.actor| <= 128
    && r.reason == TrimSpace(r.reason) && 0 < |r.reason| <= 1000
  }

  predicate StillManages(p: Params)
    requires p.SetAccess?
  {
    p.enabled && PanelOf(p.permissions).Has(ADMINS_MANAGE)
  }

  /** The rows countEnabledAdminConsoleUsersWithOn counts. */
  predicate IsManager(a: Account) {
    a.enabled && SqlHolds(a.permissions, ADMINS_MANAGE)
  }

  ghost predicate OtherManager(accounts: map<int, Account>, id: int) {
    exists m :: m in accounts && m != id && IsManager(accounts[m])
  }

  ghost predicate GuardPasses(accounts: map<int, Account>, p: Params, acting: int)
    requires p.SetAccess?
  {
    StillManages(p) || OtherManager(accounts, p.id) || acting == 0
  }

  function StatusOf(o: Outcome): Status {
    if o.Refused? then Failed else Completed
  }

  function ApplyDelta(a: Account, d: Delta): Account {
    match d
    case Insert(account) => account
    case Access(permissions, enabled) => a.(permissions := permissions, enabled := enabled)
    case Password(hash) => a.(hash := hash, epoch := a.epoch + 1)
  }

  /** The write statement of a request; the store functions normalise the permissions once more. */
  function DeltaOf(r: Request): Delta {
    match r.params
    case Create(username, permissions, enabled) =>
      Insert(Account(TrimSpace(username), r.password, Normalise(permissions), enabled, 1))
    case SetAccess(_, permissions, enabled) => Access(Normalise(permissions), enabled)
    case SetPassword(_) => Password(r.password)
  }

  // ---- the steps ----

  /** The transaction holds the uncommitted admin_commands row of its command_id. */
  predicate Owns(tx: Tx) {
    tx.row.Some?
  }

  function Close(tx: Tx, reply: Reply): Tx {
    Tx(tx.request, tx.acting, Closed(reply), false, None, None, None, None)
  }

  function Decide(tx: Tx, o: Outcome, w: Option<Write>): Tx {
    tx.(pc := Operated, outcome := Some(o), write := w)
  }

  ghost predicate Blocked(s: State, t: int, id: int) {
    exists u :: u in s.txs && u != t && s.txs[u].write.Some? && s.txs[u].write.value.id == id
  }

  ghost predicate NamePending(s: State, t: int, username: string) {
    exists u :: u in s.txs && u != t && s.txs[u].write.Some? && s.txs[u].write.value.delta.Insert?
                && Fold(s.txs[u].write.value.image.username) == Fold(username)
  }

  ghost predicate NameTaken(accounts: map<int, Account>, username: string) {
    exists i :: i in accounts && Fold(accounts[i].username) == Fold(username)
  }

  ghost predicate Enabled(s: State, a: Step) {
    if a.Begin? then a.t !in s.txs && ValidMeta(a.request)
    else
      && a.t in s.txs
      && var tx := s.txs[a.t];
      match a
      case Claim(t) => tx.pc.Begun? &&
        (tx.request.commandId in s.db.commands ||
         forall u :: u in s.txs && u != t && Owns(s.txs[u]) ==> s.txs[u].request.commandId != tx.request.commandId)
      case Load(_) => tx.pc.Conflicted? && tx.request.commandId in s.db.commands
      case Lock(t) => tx.pc.Claimed? && !tx.locked && tx.request.params.SetAccess? && Check(tx.request).None? &&
        forall u :: u in s.txs && u != t ==> !s.txs[u].locked
      case Guard(_) => tx.pc.Claimed? && tx.locked && tx.request.params.SetAccess?
      case Operate(t) =>
        if Check(tx.request).Some? then tx.pc.Claimed?
        else
          && (if tx.request.params.SetAccess? then tx.pc.Guarded? else tx.pc.Claimed?)
          && (tx.request.dryRun ||
              if tx.request.params.Create? then !NamePending(s, t, TrimSpace(tx.request.params.username))
              else tx.request.params.id in s.db.accounts ==> !Blocked(s, t, tx.request.params.id))
      case Finish(_) => tx.pc.Operated?
      case Audit(_) => tx.pc.Finished?
      case Commit(_, _) => tx.pc.Audited?
      case Abort(_) => !tx.pc.Closed?
  }

  /** The mutation closure after its checks: dry run, insert, or row update. */
  ghost function Mutate(s: State, tx: Tx): Tx {
    var r := tx.request;
    var d := DeltaOf(r);
    if r.dryRun then Decide(tx, DryRunOk, None)
    else if r.params.Create? then
      if NameTaken(s.db.accounts, d.account.username) then Close(tx, Error)
      else Decide(tx, Done(s.nextId), Some(Write(s.nextId, d.account, d)))
    else if r.params.id !in s.db.accounts then Decide(tx, Refused(NotFound), None)
    else
      var found := s.db.accounts[r.params.id];
      if d.Password? && found.epoch == MAX_EPOCH then Close(tx, Error)
      else Decide(tx, Done(r.params.id), Some(Write(r.params.id, ApplyDelta(found, d), d)))
  }

  /** Everything a transaction wrote becomes visible at once. */
  ghost function Merge(db: Db, tx: Tx): Db {
    Db(if tx.write.Some? then db.accounts[tx.write.value.id := tx.write.value.image] else db.accounts,
       if tx.row.Some? then db.commands[tx.request.commandId := tx.row.value] else db.commands,
       if tx.audit.Some? then db.audit + [tx.audit.value] else db.audit)
  }

  /** The transaction after its step; for Commit, also what the database becomes is in Next. */
  ghost function NextTx<D(!new)>(c: Codec<D>, s: State, a: Step): Tx
    requires Enabled(s, a)
  {
    if a.Begin? then Tx(a.request, a.acting, Begun, false, None, None, None, None)
    else
      var tx := s.txs[a.t];
      match a
      case Claim(_) =>
        if tx.request.commandId in s.db.commands then tx.(pc := Conflicted)
        else tx.(pc := Claimed, row := Some(CommandRow(tx.request, Running, None)))
      case Load(_) =>
        var row := s.db.commands[tx.request.commandId];
        Close(tx, if Replays(c, row.request, tx.request) then Replayed(row.outcome) else Conflict)
      case Lock(_) => tx.(locked := true)
      case Guard(_) =>
        if GuardPasses(s.db.accounts, tx.request.params, tx.acting) then tx.(pc := Guarded)
        else Decide(tx, Refused(LastManager), None)
      case Operate(_) =>
        if Check(tx.request).Some? then Decide(tx, Refused(Check(tx.request).value), None)
        else Mutate(s, tx)
      case Finish(_) =>
        if tx.outcome.None? then tx
        else tx.(pc := Finished, row := Some(CommandRow(tx.request, StatusOf(tx.outcome.value), tx.outcome)))
      case Audit(_) =>
        // ON CONFLICT (command_id) DO NOTHING against the committed trail
        if exists i :: 0 <= i < |s.db.audit| && s.db.audit[i].request.commandId == tx.request.commandId
        then tx.(pc := Audited)
        else tx.(pc := Audited, audit := tx.row)
      case Commit(_, acknowledged) =>
        Close(tx, if acknowledged && tx.outcome.Some? then Executed(tx.outcome.value) else Error)
      case Abort(_) => Close(tx, Error)
  }

  ghost function Next<D(!new)>(c: Codec<D>, s: State, a: Step): State
    requires Enabled(s, a)
  {
    var tx' := NextTx(c, s, a);
    var s' := s.(txs := s.txs[a.t := tx']);
    if a.Commit? then
      var tx := s.txs[a.t];
      s'.(db := Merge(s.db, tx),
          log := if tx.row.Some? then s.log + [Entry(tx.row.value, tx.write, tx.acting)] else s.log)
    else if a.Operate? && tx'.write.Some? && tx'.write.value.delta.Insert? then s'.(nextId := s.nextId + 1)
    else s'
  }

  // ---- runs ----

  /** The tables as found: accounts with positive ids below the sequence, and the audit foreign key. */
  ghost predicate Initial(s: State) {
    && s.txs == map[] && s.log == []
    && (forall i :: i in s.db.accounts ==> 0 < i < s.nextId)
    && 0 < s.nextId
    && forall i :: 0 <= i < |s.db.audit| ==> s.db.audit[i].request.commandId in s.db.commands
  }

  ghost predicate Run<D(!new)>(c: Codec<D>, states: seq<State>, steps: seq<Step>) {
    && |states| == |steps| + 1
    && Initial(states[0])
    && forall i :: 0 <= i < |steps| ==> Enabled(states[i], steps[i]) && states[i + 1] == Next(c, states[i], steps[i])
  }

  // ---- what every reachable state satisfies ----

  ghost function Replay(accounts: map<int, Account>, log: seq<Entry>): map<int, Account> {
    if log == [] then accounts
    else
      var before := Replay(accounts, log[..|log| - 1]);
      var w := log[|log| - 1].write;
      if w.None? then before
      else if w.value.delta.Insert? then before[w.value.id := w.value.delta.account]
      else if w.value.id in before then before[w.value.id := ApplyDelta(before[w.value.id], w.value.delta)]
      else before
  }

  ghost function Trail(log: seq<Entry>): seq<CommandRow> {
    seq(|log|, i requires 0 <= i < |log| => log[i].row)
  }

  function Id(e: Entry): string {
    e.row.request.commandId
  }

  /** A committed execution: finished, and with a write exactly when it completed a real (non-dry) run. */
  ghost predicate WellFormed(e: Entry) {
    && e.row.status != Running
    && e.row.outcome.Some? && e.row.status == StatusOf(e.row.outcome.value)
    && (e.write.Some? <==> e.row.status == Completed && !e.row.request.dryRun)
    && (e.write.Some? ==> e.write.value.delta == DeltaOf(e.row.request)
                          && e.row.outcome.value == Done(e.write.value.id)
                          && (!e.row.request.params.Create? ==> e.write.value.id == e.row.request.params.id))
  }

  ghost function Ids(log: seq<Entry>): set<string> {
    set i | 0 <= i < |log| :: Id(log[i])
  }

  /** Every execution in the log is well formed, and no command_id occurs in it twice. */
  ghost predicate OncePerId(pre: Db, log: seq<Entry>) {
    && (forall i :: 0 <= i < |log| ==> WellFormed(log[i]) && Id(log[i]) !in pre.commands)
    && (forall i, j :: 0 <= i < j < |log| ==> Id(log[i]) != Id(log[j]))
  }

  /** admin_commands holds the rows found at the start and one row for each logged execution. */
  ghost predicate CommandsAre(pre: Db, commands: map<string, CommandRow>, log: seq<Entry>) {
    && commands.Keys == pre.commands.Keys + Ids(log)
    && (forall id :: id in pre.commands ==> commands[id] == pre.commands[id])
    && (forall i :: 0 <= i < |log| ==> Id(log[i]) in commands && commands[Id(log[i])] == log[i].row)
  }

  /** The tables of a reachable state are the initial ones plus exactly what the log says. */
  ghost predicate Accounted(pre: Db, s: State) {
    && OncePerId(pre, s.log)
    && CommandsAre(pre, s.db.commands, s.log)
    && s.db.audit == pre.audit + Trail(s.log)
    && s.db.accounts == Replay(pre.accounts, s.log)
  }

  /** Where a transaction stands decides what it has written. */
  ghost predicate TxShape(tx: Tx) {
    && (tx.pc.Begun? || tx.pc.Conflicted? || tx.pc.Closed? ==> tx.row.None?)
    && (tx.row.None? ==> tx.audit.None? && tx.outcome.None? && tx.write.None? && !tx.locked)
    && (tx.pc.Claimed? || tx.pc.Guarded? ==> tx.row.Some? && tx.outcome.None? && tx.audit.None?)
    && (tx.pc.Operated? ==> tx.row.Some? && tx.outcome.Some? && tx.audit.None?)
    && (tx.pc.Finished? || tx.pc.Audited? ==>
          tx.outcome.Some? && tx.row == Some(CommandRow(tx.request, StatusOf(tx.outcome.value), tx.outcome)))
    && (tx.pc.Finished? ==> tx.audit.None?)
    && (tx.pc.Audited? ==> tx.audit == tx.row)
    && (tx.outcome.None? ==> tx.write.None?)
    && (tx.outcome.Some? ==> (tx.write.Some? <==> StatusOf(tx.outcome.value) == Completed && !tx.request.dryRun))
    && (tx.write.Some? ==> tx.write.value.delta == DeltaOf(tx.request)
                           && tx.outcome == Some(Done(tx.write.value.id))
                           && (!tx.request.params.Create? ==> tx.write.value.id == tx.request.params.id))
    && (tx.locked ==> tx.request.params.SetAccess?)
    && (tx.request.params.SetAccess? && (tx.pc.Guarded? || tx.write.Some?) ==> tx.locked)
  }

  /** A pending row version is still what the committed row plus its change would give: no lost update. */
  ghost predicate Current(s: State, w: Write) {
    if w.delta.Insert? then w.image == w.delta.account && w.id !in s.db.accounts && 0 < w.id < s.nextId
    else w.id in s.db.accounts && w.image == ApplyDelta(s.db.accounts[w.id], w.delta)
  }

  ghost predicate TxsOk(s: State) {
    && (forall t :: t in s.txs ==> TxShape(s.txs[t]))
    && (forall t :: t in s.txs && Owns(s.txs[t]) ==> s.txs[t].request.commandId !in s.db.commands)
    && (forall t :: t in s.txs && s.txs[t].write.Some? ==> Current(s, s.txs[t].write.value))
  }

  /** Open transactions never share a command_id, a written row, or the advisory lock. */
  ghost predicate Exclusive(s: State) {
    && (forall t, u :: t in s.txs && u in s.txs && t != u && Owns(s.txs[t]) && Owns(s.txs[u])
          ==> s.txs[t].request.commandId != s.txs[u].request.commandId)
    && (forall t, u :: t in s.txs && u in s.txs && t != u && s.txs[t].write.Some? && s.txs[u].write.Some?
          ==> s.txs[t].write.value.id != s.txs[u].write.value.id)
    && (forall t, u :: t in s.txs && u in s.txs && t != u ==> !(s.txs[t].locked && s.txs[u].locked))
  }

  ghost predicate Tables(s: State) {
    && 0 < s.nextId
    && (forall i :: i in s.db.accounts ==> 0 < i < s.nextId)
    && forall i :: 0 <= i < |s.db.audit| ==> s.db.audit[i].request.commandId in s.db.commands
  }

  ghost predicate Inv(pre: Db, s: State) {
    Accounted(pre, s) && TxsOk(s) && Exclusive(s) && Tables(s)
  }

  lemma InitialInv(s: State)
    requires Initial(s)
    ensures Inv(s.db, s)
  {
    assert Trail(s.log) == [];
  }

  // ---- one step, one concern at a time ----

  ghost predicate SoleOwner(s: State, t: int, id: string) {
    id !in s.db.commands &&
    forall u :: u in s.txs && u != t && Owns(s.txs[u]) ==> s.txs[u].request.commandId != id
  }

  ghost predicate SoleLock(s: State, t: int) {
    forall u :: u in s.txs && u != t ==> !s.txs[u].locked
  }

  lemma StepShape<D(!new)>(c: Codec<D>, s: State, a: Step)
    requires TxsOk(s) && Tables(s) && Enabled(s, a)
    requires a.Audit? ==> s.txs[a.t].request.commandId !in s.db.commands
    ensures TxShape(NextTx(c, s, a))
  {
  }

  lemma StepOwner<D(!new)>(c: Codec<D>, s: State, a: Step)
    requires TxsOk(s) && Exclusive(s) && Enabled(s, a)
    ensures var tx := NextTx(c, s, a); Owns(tx) ==> SoleOwner(s, a.t, tx.request.commandId)
    ensures var tx := NextTx(c, s, a); tx.locked ==> SoleLock(s, a.t)
  {
  }

  /** The write of a stepped transaction is fresh or was there before, and nobody else writes that row. */
  lemma StepWrite<D(!new)>(c: Codec<D>, s: State, a: Step)
    requires TxsOk(s) && Exclusive(s) && Tables(s) && Enabled(s, a)
    ensures var tx, s' := NextTx(c, s, a), s.(nextId := Next(c, s, a).nextId);
            tx.write.Some? ==> Current(s', tx.write.value) && !Blocked(s, a.t, tx.write.value.id)
  {
  }

  /** Replacing one transaction by one that keeps to its own command, row and lock keeps the whole state. */
  lemma Replace(s: State, t: int, tx: Tx, n: int)
    requires TxsOk(s) && Exclusive(s) && Tables(s) && s.nextId <= n
    requires TxShape(tx)
    requires Owns(tx) ==> SoleOwner(s, t, tx.request.commandId)
    requires tx.locked ==> SoleLock(s, t)
    requires tx.write.Some? ==> Current(s.(nextId := n), tx.write.value) && !Blocked(s, t, tx.write.value.id)
    ensures var s' := s.(txs := s.txs[t := tx], nextId := n); TxsOk(s') && Exclusive(s') && Tables(s')
  {
    ReplaceTxsOk(s, t, tx, n);
    ReplaceExclusive(s, t, tx, n);
  }

  lemma ReplaceTxsOk(s: State, t: int, tx: Tx, n: int)
    requires TxsOk(s) && s.nextId <= n && TxShape(tx)
    requires Owns(tx) ==> tx.request.commandId !in s.db.commands
    requires tx.write.Some? ==> Current(s.(nextId := n), tx.write.value)
    ensures TxsOk(s.(txs := s.txs[t := tx], nextId := n))
  {
    var s' := s.(txs := s.txs[t := tx], nextId := n);
    forall u | u in s'.txs
      ensures TxShape(s'.txs[u])
      ensures Owns(s'.txs[u]) ==> s'.txs[u].request.commandId !in s'.db.commands
      ensures s'.txs[u].write.Some? ==> Current(s', s'.txs[u].write.value)
    {
      if u != t && s.txs[u].write.Some? { assert Current(s, s.txs[u].write.value); }
    }
  }

  lemma ReplaceExclusive(s: State, t: int, tx: Tx, n: int)
    requires Exclusive(s)
    requires Owns(tx) ==> SoleOwner(s, t, tx.request.commandId)
    requires tx.locked ==> SoleLock(s, t)
    requires tx.write.Some? ==> !Blocked(s, t, tx.write.value.id)
    ensures Exclusive(s.(txs := s.txs[t := tx], nextId := n))
  {
  }

  /** Steps other than Commit leave the database alone. */
  lemma NonCommitInv<D(!new)>(c: Codec<D>, pre: Db, s: State, a: Step)
    requires Inv(pre, s) && Enabled(s, a) && !a.Commit?
    ensures Next(c, s, a).db == s.db && Next(c, s, a).log == s.log
    ensures Inv(pre, Next(c, s, a))
  {
    StepShape(c, s, a);
    StepOwner(c, s, a);
    StepWrite(c, s, a);
    Replace(s, a.t, NextTx(c, s, a), Next(c, s, a).nextId);
  }

  lemma LogGrows(pre: Db, commands: map<string, CommandRow>, log: seq<Entry>, e: Entry)
    requires OncePerId(pre, log) && CommandsAre(pre, commands, log)
    requires WellFormed(e) && Id(e) !in commands
    ensures OncePerId(pre, log + [e]) && CommandsAre(pre, commands[Id(e) := e.row], log + [e])
    ensures Trail(log + [e]) == Trail(log) + [e.row]
  {
    var log' := log + [e];
    assert log'[|log|] == e;
    assert Ids(log') == Ids(log) + {Id(e)} by {
      assert forall i :: 0 <= i < |log| ==> Id(log'[i]) == Id(log[i]);
      assert Id(log'[|log|]) in Ids(log');
      forall id | id in Ids(log) ensures id in Ids(log') {
        var i :| 0 <= i < |log| && Id(log[i]) == id;
        assert Id(log'[i]) == id;
      }
    }
    assert Trail(log') == Trail(log) + [e.row];
  }

  lemma ReplayGrows(accounts: map<int, Account>, s: State, e: Entry)
    requires s.db.accounts == Replay(accounts, s.log)
    requires e.write.Some? ==> Current(s, e.write.value)
    ensures Replay(accounts, s.log + [e]) ==
            if e.write.Some? then s.db.accounts[e.write.value.id := e.write.value.image] else s.db.accounts
  {
    assert (s.log + [e])[..|s.log|] == s.log;
  }

  /** Another transaction's pending row version is untouched by a commit, which writes a different row. */
  lemma OthersStayCurrent(s: State, tx: Tx, w: Write)
    requires Tables(s) && tx.row.Some? && tx.audit.Some?
    requires tx.write.Some? ==> tx.write.value.id != w.id
    requires Current(s, w)
    ensures Current(s.(db := Merge(s.db, tx)), w)
  {
  }

  lemma CommitIs<D(!new)>(c: Codec<D>, s: State, a: Step)
    requires TxsOk(s) && Enabled(s, a) && a.Commit?
    ensures var tx, s' := s.txs[a.t], Next(c, s, a);
            && TxShape(tx) && tx.row.Some? && tx.audit.Some?
            && WellFormed(Entry(tx.row.value, tx.write, tx.acting))
            && s' == State(Merge(s.db, tx), s.txs[a.t := NextTx(c, s, a)], s.nextId,
                           s.log + [Entry(tx.row.value, tx.write, tx.acting)])
  {
  }

  lemma CommitInv<D(!new)>(c: Codec<D>, pre: Db, s: State, a: Step)
    requires Inv(pre, s) && Enabled(s, a) && a.Commit?
    ensures Inv(pre, Next(c, s, a))
  {
    CommitIs(c, s, a);
    var tx, e := s.txs[a.t], Entry(s.txs[a.t].row.value, s.txs[a.t].write, s.txs[a.t].acting);
    var s' := State(Merge(s.db, tx), s.txs[a.t := NextTx(c, s, a)], s.nextId, s.log + [e]);
    CommitTxs(s, a.t, NextTx(c, s, a), s');
    CommitAccounted(pre, s, tx, e, s');
  }

  lemma CommitAccounted(pre: Db, s: State, tx: Tx, e: Entry, s': State)
    requires Accounted(pre, s) && tx.row.Some? && tx.audit == tx.row && tx.row.value.request == tx.request
    requires e == Entry(tx.row.value, tx.write, tx.acting) && WellFormed(e) && tx.request.commandId !in s.db.commands
    requires tx.write.Some? ==> Current(s, tx.write.value)
    requires s'.db == Merge(s.db, tx) && s'.log == s.log + [e]
    ensures Accounted(pre, s')
  {
    LogGrows(pre, s.db.commands, s.log, e);
    ReplayGrows(pre.accounts, s, e);
    assert pre.audit + Trail(s.log) + [e.row] == pre.audit + (Trail(s.log) + [e.row]);
  }

  lemma CommitTxs(s: State, t: int, closed: Tx, s': State)
    requires TxsOk(s) && Exclusive(s) && Tables(s)
    requires t in s.txs && s.txs[t].pc.Audited? && closed.pc.Closed? && closed == Close(s.txs[t], closed.pc.reply)
    requires s.txs[t].row.Some? && s.txs[t].audit.Some?
    requires s'.db == Merge(s.db, s.txs[t]) && s'.txs == s.txs[t := closed] && s'.nextId == s.nextId
    ensures TxsOk(s') && Exclusive(s') && Tables(s')
  {
    var tx := s.txs[t];
    assert TxShape(tx) && TxShape(closed);
    forall u | u in s'.txs && u != t
      ensures TxShape(s'.txs[u])
      ensures Owns(s'.txs[u]) ==> s'.txs[u].request.commandId !in s'.db.commands
      ensures s'.txs[u].write.Some? ==> Current(s', s'.txs[u].write.value)
    {
      if s.txs[u].write.Some? {
        OthersStayCurrent(s, tx, s.txs[u].write.value);
        assert Current(s.(db := s'.db), s.txs[u].write.value);
      }
    }
  }

  lemma {:induction false} RunInv<D(!new)>(c: Codec<D>, states: seq<State>, steps: seq<Step>, k: nat)
    requires Run(c, states, steps) && k < |states|
    ensures Inv(states[0].db, states[k])
  {
    if k == 0 {
      InitialInv(states[0]);
    } else {
      RunInv(c, states, steps, k - 1);
      if steps[k - 1].Commit? {
        CommitInv(c, states[0].db, states[k - 1], steps[k - 1]);
      } else {
        NonCommitInv(c, states[0].db, states[k - 1], steps[k - 1]);
      }
    }
  }

  // ---- theorems over whole runs ----

  lemma {:induction false} ClosedForGood<D(!new)>(c: Codec<D>, states: seq<State>, steps: seq<Step>,
                                                  i: nat, j: nat, t: int)
    requires Run(c, states, steps) && i <= j < |states| && t in states[i].txs && states[i].txs[t].pc.Closed?
    ensures t in states[j].txs && states[j].txs[t] == states[i].txs[t]
  {
    if i < j { ClosedForGood(c, states, steps, i, j - 1, t); }
  }

  /** The statement of a checked command fails: the name is taken, or the epoch column would overflow. */
  ghost predicate StatementFails(s: State, r: Request) {
    !r.dryRun &&
    match r.params
    case Create(username, _, _) => NameTaken(s.db.accounts, TrimSpace(username))
    case SetAccess(_, _, _) => false
    case SetPassword(id) => id in s.db.accounts && s.db.accounts[id].epoch == MAX_EPOCH
  }

  lemma OperateChecked<D(!new)>(c: Codec<D>, s: State, a: Step)
    requires TxsOk(s) && Enabled(s, a) && a.Operate? && Check(s.txs[a.t].request).None?
    ensures StatementFails(s, s.txs[a.t].request) <==> NextTx(c, s, a).row.None?
    ensures StatementFails(s, s.txs[a.t].request) ==> NextTx(c, s, a).pc == Closed(Error)
    ensures s.txs[a.t].request.dryRun ==> NextTx(c, s, a).outcome == Some(DryRunOk)
  {
  }

  lemma OpenThenClosedNeverCommits<D(!new)>(c: Codec<D>, states: seq<State>, steps: seq<Step>, k: nat, t: int, i: nat)
    requires Run(c, states, steps) && k < |steps| && i < |steps| && i != k
    requires t in states[k].txs && t in states[k + 1].txs
    requires !states[k].txs[t].pc.Closed? && states[k + 1].txs[t].pc.Closed?
    ensures steps[i].Commit? ==> steps[i].t != t
  {
    if steps[i].Commit? && steps[i].t == t {
      assert Enabled(states[i], steps[i]);
      if i < k { ClosedForGood(c, states, steps, i + 1, k, t); } else { ClosedForGood(c, states, steps, k + 1, i, t); }
    }
  }

  /**
   A command that passed its checks leaves no row exactly when its statement fails: its transaction then
   never commits, before or after, and the caller is told of an error only. The dry run of any command
   that passed its checks answers that it would work, also for a taken name or a missing account.
   */
  lemma FailedStatementLeavesNoRow<D(!new)>(c: Codec<D>, states: seq<State>, steps: seq<Step>, k: nat, j: nat)
    requires Run(c, states, steps) && k < |steps| && k < j < |states|
    requires steps[k].Operate? && Check(states[k].txs[steps[k].t].request).None?
    ensures var t, r := steps[k].t, states[k].txs[steps[k].t].request;
            && t in states[j].txs && t in states[k + 1].txs
            && (StatementFails(states[k], r) <==> states[k + 1].txs[t].row.None?)
            && (StatementFails(states[k], r) ==>
                  && states[j].txs[t].pc == Closed(Error)
                  && forall i :: 0 <= i < |steps| && steps[i].Commit? ==> steps[i].t != t)
            && (r.dryRun ==> states[k + 1].txs[t].outcome == Some(DryRunOk))
  {
    var t, r := steps[k].t, states[k].txs[steps[k].t].request;
    RunInv(c, states, steps, k);
    OperateChecked(c, states[k], steps[k]);
    TxKept(c, states, steps, k + 1, j, t);
    if StatementFails(states[k], r) {
      ClosedForGood(c, states, steps, k + 1, j, t);
      forall i | 0 <= i < |steps| && i != k ensures steps[i].Commit? ==> steps[i].t != t {
        OpenThenClosedNeverCommits(c, states, steps, k, t, i);
      }
    }
  }

  lemma {:induction false} TxKept<D(!new)>(c: Codec<D>, states: seq<State>, steps: seq<Step>, i: nat, j: nat, t: int)
    requires Run(c, states, steps) && i <= j < |states| && t in states[i].txs
    ensures t in states[j].txs
  {
    if i < j { TxKept(c, states, steps, i, j - 1, t); }
  }

  lemma RunReplay<D(!new)>(c: Codec<D>, states: seq<State>, steps: seq<Step>, k: nat)
    requires Run(c, states, steps) && k < |states|
    ensures states[k].db.accounts == Replay(states[0].db.accounts, states[k].log)
  {
    RunInv(c, states, steps, k);
  }

  /** The commit history only ever grows. */
  lemma {:induction false} LogPrefix<D(!new)>(c: Codec<D>, states: seq<State>, steps: seq<Step>, i: nat, j: nat)
    requires Run(c, states, steps) && i <= j < |states|
    ensures states[i].log <= states[j].log
  {
    if i < j { LogPrefix(c, states, steps, i, j - 1); }
  }

  /** The audit trail holds this row, and no other row of its command. */
  ghost predicate AuditedOnce(audit: seq<CommandRow>, row: CommandRow) {
    exists i :: 0 <= i < |audit| && audit[i] == row &&
      forall j :: 0 <= j < |audit| && audit[j].request.commandId == row.request.commandId ==> j == i
  }

  /**
   Exactly once, over every interleaving with aborts: a command_id is executed at most once; every
   committed row of this runner is finished and has exactly one audit row, equal to it; and the account
   table is the initial one with exactly the writes of the completed non-dry commands, in commit order.
   */
  lemma CommittedExactlyOnce<D(!new)>(c: Codec<D>, states: seq<State>, steps: seq<Step>, k: nat)
    requires Run(c, states, steps) && k < |states|
    ensures var pre, s := states[0].db, states[k];
            && (forall i, j :: 0 <= i < j < |s.log| ==> Id(s.log[i]) != Id(s.log[j]))
            && (forall id :: id in s.db.commands && id !in pre.commands ==>
                  && s.db.commands[id].status != Running
                  && AuditedOnce(s.db.audit, s.db.commands[id])
                  && exists i :: 0 <= i < |s.log| && s.log[i].row == s.db.commands[id])
            && (forall i :: 0 <= i < |s.log| ==>
                  (s.log[i].write.Some? <==> s.log[i].row.status == Completed && !s.log[i].row.request.dryRun))
            && s.db.accounts == Replay(pre.accounts, s.log)
            && |s.db.audit| == |pre.audit| + |s.log|
  {
    RunInv(c, states, steps, k);
    var pre, s := states[0].db, states[k];
    forall id | id in s.db.commands && id !in pre.commands
      ensures s.db.commands[id].status != Running && AuditedOnce(s.db.audit, s.db.commands[id])
              && exists i :: 0 <= i < |s.log| && s.log[i].row == s.db.commands[id]
    {
      assert id in Ids(s.log);
      var i :| 0 <= i < |s.log| && Id(s.log[i]) == id;
      assert WellFormed(s.log[i]) && s.log[i].row == s.db.commands[id];
      LoggedOnce(pre, s, i);
    }
  }

  lemma LoggedOnce(pre: Db, s: State, i: nat)
    requires Accounted(pre, s) && i < |s.log|
    requires forall j :: 0 <= j < |pre.audit| ==> pre.audit[j].request.commandId in pre.commands
    ensures AuditedOnce(s.db.audit, s.log[i].row)
  {
    var n, id := |pre.audit|, Id(s.log[i]);
    assert s.db.audit[n + i] == Trail(s.log)[i] == s.log[i].row;
    forall j | 0 <= j < |s.db.audit| && j != n + i ensures s.db.audit[j].request.commandId != id {
      if j < n {
        assert s.db.audit[j] == pre.audit[j];
      } else {
        assert s.db.audit[j] == Trail(s.log)[j - n] == s.log[j - n].row;
        assert Id(s.log[j - n]) != id;
      }
    }
  }

  /** What a closed transaction told its caller. */
  ghost predicate Truthful(s: State, tx: Tx) {
    tx.pc.Closed? ==>
      match tx.pc.reply
      case Executed(o) => exists i :: 0 <= i < |s.log| && s.log[i].row == CommandRow(tx.request, StatusOf(o), Some(o))
      case Replayed(o) => tx.request.commandId in s.db.commands &&
        s.db.commands[tx.request.commandId].request == tx.request &&
        s.db.commands[tx.request.commandId].outcome == o
      case Conflict => tx.request.commandId in s.db.commands &&
        s.db.commands[tx.request.commandId].request != tx.request
      case Error => true
  }

  lemma TruthGrows(s: State, s': State, tx: Tx)
    requires Truthful(s, tx) && s.log <= s'.log
    requires forall id :: id in s.db.commands ==> id in s'.db.commands && s'.db.commands[id] == s.db.commands[id]
    ensures Truthful(s', tx)
  {
    if tx.pc.Closed? && tx.pc.reply.Executed? {
      var o := tx.pc.reply.outcome;
      var i :| 0 <= i < |s.log| && s.log[i].row == CommandRow(tx.request, StatusOf(o), Some(o));
      assert s'.log[i] == s.log[i];
    }
  }

  lemma StepTruthful<D(!new)>(c: Codec<D>, s: State, a: Step)
    requires c.Sound() && TxsOk(s) && Enabled(s, a)
    requires forall t :: t in s.txs ==> Truthful(s, s.txs[t])
    requires forall id :: id in s.db.commands ==> s.db.commands[id].request.commandId == id
    ensures Truthful(Next(c, s, a), NextTx(c, s, a))
  {
    if a.Load? {
      var tx := s.txs[a.t];
      ReplaysExactlyTheSameRequest(c, s.db.commands[tx.request.commandId].request, tx.request);
    } else if a.Commit? {
      CommitIs(c, s, a);
      assert Next(c, s, a).log[|s.log|].row == s.txs[a.t].row.value;
    }
  }

  /**
   Replies never lie, over every run: success only for a committed execution of this very request; a
   replayed answer only when the committed request equals this one in action, dry-run flag, actor,
   reason, parameters and password, and then with the committed outcome; a conflict only when they differ.
   */
  lemma {:induction false} RepliesAreTruthful<D(!new)>(c: Codec<D>, states: seq<State>, steps: seq<Step>, k: nat)
    requires c.Sound() && Run(c, states, steps) && k < |states|
    requires forall id :: id in states[0].db.commands ==> states[0].db.commands[id].request.commandId == id
    ensures forall t :: t in states[k].txs ==> Truthful(states[k], states[k].txs[t])
  {
    if k > 0 {
      RepliesAreTruthful(c, states, steps, k - 1);
      RunInv(c, states, steps, k - 1);
      KeyedById(states[0].db, states[k - 1]);
      AllTruthful(c, states[k - 1], steps[k - 1]);
    }
  }

  lemma AllTruthful<D(!new)>(c: Codec<D>, s: State, a: Step)
    requires c.Sound() && TxsOk(s) && Enabled(s, a)
    requires forall t :: t in s.txs ==> Truthful(s, s.txs[t])
    requires forall id :: id in s.db.commands ==> s.db.commands[id].request.commandId == id
    ensures forall t :: t in Next(c, s, a).txs ==> Truthful(Next(c, s, a), Next(c, s, a).txs[t])
  {
    StepTruthful(c, s, a);
    if a.Commit? { CommitIs(c, s, a); }
    var s' := Next(c, s, a);
    forall t | t in s'.txs ensures Truthful(s', s'.txs[t]) {
      if t != a.t { TruthGrows(s, s', s.txs[t]); }
    }
  }

  lemma KeyedById(pre: Db, s: State)
    requires Accounted(pre, s)
    requires forall id :: id in pre.commands ==> pre.commands[id].request.commandId == id
    ensures forall id :: id in s.db.commands ==> s.db.commands[id].request.commandId == id
  {
    forall id | id in s.db.commands && id !in pre.commands ensures s.db.commands[id].request.commandId == id {
      assert id in Ids(s.log);
      var i :| 0 <= i < |s.log| && Id(s.log[i]) == id;
    }
  }
}
