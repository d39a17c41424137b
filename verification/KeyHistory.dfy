/**
 The key directory over its whole life: any sequence of starts of the key generator,
 with failing file operations and kills at any point. The signing manifests that appear
 on disk, crash points included, form one chain of rotations, so what holds of every
 run of rotations holds of the directory.
 */
module KeyHistory {
  import opened KeyRotation
  import opened KeyDirectory

  /** One start of the program: its command, where its file operations fail, and whether and when it is killed. */
  datatype Invocation = Invocation(command: Command, faults: seq<Fault>, dies: bool, after: nat)

  /** The manifests in order, the rotations between them, and which one each crash point shows (0: none yet). */
  datatype Trace = Trace(ms: seq<Manifest>, es: seq<Rotation>, at: seq<nat>)

  ghost predicate Shows(d: Disk, ms: seq<Manifest>, k: nat) {
    k <= |ms| && Slot(d, Signing) == if k == 0 then {} else {SigningJson(ms[k - 1])}
  }

  /** The manifests are one run of rotations, none with an id that was ever used before. */
  ghost predicate Chain(t: Trace, ttl: int) {
    if t.ms == [] then t.es == []
    else Rotations(t.ms, t.es, ttl) && FreshKids(t.ms, t.es) && Sound(t.ms[0])
  }

  /** From n on, the history goes through the chain in order. */
  ghost predicate Follows(t: Trace, h: seq<Disk>, n: nat) {
    && n + |t.at| == |h|
    && (forall i :: 0 <= i < |t.at| ==> Shows(h[n + i], t.ms, t.at[i]))
    && (forall i, j :: 0 <= i < j < |t.at| ==> t.at[i] <= t.at[j])
  }

  /** The key file of every key that was ever in a manifest is still there. */
  ghost predicate Recorded(t: Trace, d: Disk) {
    forall i, key :: 0 <= i < |t.ms| && key in t.ms[i].keys ==> PemOf(key.kid) in d
  }

  lemma WholeRecords(d: Disk, key: Key)
    requires Whole(d) && Signing in d && key in d[Signing].manifest.keys
    ensures PemOf(key.kid) in d
  {
    var keys := d[Signing].manifest.keys;
    var i :| 0 <= i < |keys| && keys[i] == key;
    assert keys[i].file == NewKey(keys[i].algorithm, keys[i].kid).file;
  }

  lemma Begin(d: Disk, ttl: int) returns (t: Trace)
    requires Whole(d)
    ensures Chain(t, ttl) && t.at == [] && t.es == [] && Shows(d, t.ms, |t.ms|) && Recorded(t, d)
    ensures Signing in d ==> t.ms != [] && d[Signing] == SigningJson(t.ms[0])
  {
    if Signing in d {
      t := Trace([d[Signing].manifest], [], []);
      forall key | key in t.ms[0].keys ensures PemOf(key.kid) in d { WholeRecords(d, key); }
    } else {
      t := Trace([], [], []);
    }
  }

  function RotationOf(command: Command): Rotation
    requires command.RotateSigningKey?
  {
    Rotation(command.algorithm, command.ttl, command.publishFor, command.now, command.kid)
  }

  /** The rotation is not earlier than any in the trace and was told at least the real token lifetime. */
  ghost predicate InTime(t: Trace, command: Command, ttl: int) {
    command.RotateSigningKey? ==> ttl <= command.ttl && forall x :: 0 <= x < |t.es| ==> t.es[x].now <= command.now
  }

  /** The manifest a command puts in place continues the chain. */
  lemma ChainGrows(t: Trace, before: Disk, command: Command, next: Manifest, ttl: int) returns (t': Trace)
    requires Chain(t, ttl) && Shows(before, t.ms, |t.ms|) && Recorded(t, before)
    requires Replaces(command, before, next) && InTime(t, command, ttl)
    ensures Chain(t', ttl) && t'.ms == t.ms + [next] && t'.at == t.at
    ensures forall e :: e in t'.es ==> e in t.es || (command.RotateSigningKey? && e == RotationOf(command))
  {
    if command.Init? {
      assert t.ms == [];
      FirstIsSound(Kids(command));
      t' := Trace([next], [], t.at);
    } else {
      var e := RotationOf(command);
      assert t.ms != [];
      assert before[Signing] in Slot(before, Signing) && before[Signing].manifest == t.ms[|t.ms| - 1];
      t' := Trace(t.ms + [next], t.es + [e], t.at);
      NewKidIsFresh(t, before, e, next);
      RotationsGrow(t.ms, t.es, e, ttl);
    }
  }

  lemma RotationsGrow(ms: seq<Manifest>, es: seq<Rotation>, e: Rotation, ttl: int)
    requires Rotations(ms, es, ttl) && WindowAllowed(e.ttl, e.publishFor) && ttl <= e.ttl
    requires Rotatable(ms[|es|], e.algorithm) && forall x :: 0 <= x < |es| ==> es[x].now <= e.now
    ensures Rotations(ms + [Rotate(ms[|es|], e.algorithm, e.publishFor, e.now, e.kid)], es + [e], ttl)
  {
    var ms', es' := ms + [Rotate(ms[|es|], e.algorithm, e.publishFor, e.now, e.kid)], es + [e];
    forall i | 0 <= i < |es'|
      ensures WindowAllowed(es'[i].ttl, es'[i].publishFor) && ttl <= es'[i].ttl
      ensures Rotatable(ms'[i], es'[i].algorithm)
      ensures ms'[i + 1] == Rotate(ms'[i], es'[i].algorithm, es'[i].publishFor, es'[i].now, es'[i].kid)
    {
      if i < |es| { assert es'[i] == es[i] && ms'[i] == ms[i] && ms'[i + 1] == ms[i + 1]; }
    }
  }

  lemma NewKidIsFresh(t: Trace, before: Disk, e: Rotation, next: Manifest)
    requires |t.ms| == |t.es| + 1 && FreshKids(t.ms, t.es) && Recorded(t, before) && PemOf(e.kid) !in before
    ensures FreshKids(t.ms + [next], t.es + [e])
  {
  }

  /** Append what one start of the program left in the history. */
  lemma HistoryGrows(t: Trace, t': Trace, h: seq<Disk>, h': seq<Disk>, n: nat, m: nat,
                     before: Disk, next: Manifest) returns (r: Trace)
    requires Follows(t, h, n) && Shows(before, t.ms, |t.ms|) && h <= h'
    requires Switch(h', |h|, m, Signing, Slot(before, Signing), {SigningJson(next)})
    requires t'.at == t.at && t'.ms == if m < |h'| then t.ms + [next] else t.ms
    ensures Follows(r, h', n) && r.ms == t'.ms && r.es == t'.es
  {
    var k := |t.ms|;
    var at := t.at + seq(m - |h|, _ => k) + seq(|h'| - m, _ => k + 1);
    r := Trace(t'.ms, t'.es, at);
    forall i | 0 <= i < |at| ensures Shows(h'[n + i], r.ms, at[i]) {
      if i < |t.at| {
        assert Shows(h[n + i], t.ms, t.at[i]) && h'[n + i] == h[n + i];
      }
    }
    forall i, j | 0 <= i < j < |at| ensures at[i] <= at[j] {
      if i < |t.at| { assert Shows(h[n + i], t.ms, t.at[i]); }
    }
  }

  lemma RecordedGrows(t: Trace, t': Trace, before: Disk, after: Disk, next: Manifest)
    requires Recorded(t, before) && Keeps(before, after) && Whole(after)
    requires t'.ms == t.ms || (t'.ms == t.ms + [next] && Slot(after, Signing) == {SigningJson(next)})
    ensures Recorded(t', after)
  {
    forall i, key | 0 <= i < |t'.ms| && key in t'.ms[i].keys ensures PemOf(key.kid) in after {
      if i < |t.ms| {
        assert t'.ms[i] == t.ms[i] && PemOf(key.kid) in before;
        assert Pem(PemOf(key.kid).name) in after;
      } else {
        assert after[Signing] in Slot(after, Signing);
        WholeRecords(after, key);
      }
    }
  }

  ghost predicate Timely(invocations: seq<Invocation>, ttl: int) {
    && (forall i :: 0 <= i < |invocations| && invocations[i].command.RotateSigningKey? ==>
          ttl <= invocations[i].command.ttl)
    && (forall i, j :: 0 <= i < j < |invocations| ==>
          (invocations[i].command.RotateSigningKey? && invocations[j].command.RotateSigningKey? ==>
             invocations[i].command.now <= invocations[j].command.now))
  }

  /** Every rotation in the trace came from one of the first i starts. */
  ghost predicate From(t: Trace, invocations: seq<Invocation>, i: nat) {
    forall e :: e in t.es ==> exists j :: 0 <= j < i <= |invocations| && invocations[j].command.RotateSigningKey?
                                          && e == RotationOf(invocations[j].command)
  }

  lemma FromInTime(t: Trace, invocations: seq<Invocation>, i: nat, ttl: int)
    requires i < |invocations| && From(t, invocations, i) && Timely(invocations, ttl)
    ensures InTime(t, invocations[i].command, ttl)
  {
    var command := invocations[i].command;
    forall x | 0 <= x < |t.es| && command.RotateSigningKey? ensures t.es[x].now <= command.now {
      assert t.es[x] in t.es;
    }
  }

  /** One start of the program, killed between two file operations or not; a stale lock is then removed by hand. */
  method Start(dir: Directory, i: Invocation) returns (ghost mid: nat, ghost next: Manifest)
    requires Whole(dir.disk) && |i.faults| == 6
    modifies dir
    ensures old(dir.history) <= dir.history
    ensures Whole(dir.disk) && Keeps(old(dir.disk), dir.disk)
    ensures Evolves(dir.history, |old(dir.history)|, old(dir.disk))
    ensures SigningSwitch(dir.history, |old(dir.history)|, mid, i.command, old(dir.disk), next)
    ensures Slot(dir.disk, Signing) == if mid < |dir.history| then {SigningJson(next)} else Slot(old(dir.disk), Signing)
  {
    var n := |dir.history|;
    ghost var spare := SpareTemps(dir.disk);
    assert Temp(spare) !in dir.disk;
    var tag: nat :| Temp(tag) !in dir.disk;
    ghost var before := dir.disk;
    var ok;
    ok, mid, next := dir.Run(i.command, tag, i.faults);
    if i.dies && i.after < |dir.history| - n {
      mid := Kill(dir, n, n + i.after + 1, mid, before, next);
    }
  }

  /** Killed right after the file operation that made history position c - 1. */
  method Kill(dir: Directory, n: nat, c: nat, ghost m: nat, ghost before: Disk, ghost next: Manifest)
    returns (ghost mid: nat)
    requires n < c <= |dir.history| && Evolves(dir.history, n, before)
    requires Switch(dir.history, n, m, Signing, Slot(before, Signing), {SigningJson(next)})
    modifies dir
    ensures old(dir.history)[..n] <= dir.history && Whole(dir.disk) && Keeps(before, dir.disk)
    ensures Evolves(dir.history, n, before)
    ensures Switch(dir.history, n, mid, Signing, Slot(before, Signing), {SigningJson(next)})
    ensures Slot(dir.disk, Signing) == if mid < |dir.history| then {SigningJson(next)} else Slot(before, Signing)
    ensures mid < |dir.history| ==> m < |old(dir.history)|
  {
    ghost var h := dir.history;
    var last := dir.history[c - 1];
    dir.disk := last - {Lock};
    LockAside(dir.disk, last);
    KeepsTransitive(before, last, dir.disk);
    dir.history := dir.history[..c] + [dir.disk];
    Killed(h, n, c, m, before, last, dir.disk, next);
    mid := if c <= m then |dir.history| else m;
  }

  /** Cut short after position c, the history still switches at most once. */
  lemma Killed(h: seq<Disk>, n: nat, c: nat, m: nat, before: Disk, last: Disk, after: Disk, next: Manifest)
    requires n < c <= |h| && last == h[c - 1] && Whole(after) && Keeps(before, after) && Evolves(h, n, before)
    requires Slot(after, Signing) == Slot(last, Signing)
    requires Switch(h, n, m, Signing, Slot(before, Signing), {SigningJson(next)})
    ensures var h' := h[..c] + [after];
            && Evolves(h', n, before)
            && Switch(h', n, if c <= m then |h'| else m, Signing, Slot(before, Signing), {SigningJson(next)})
            && Slot(after, Signing) == if c <= m then Slot(before, Signing) else {SigningJson(next)}
  {
  }

  /**
   Any sequence of starts with any failures and kills. At every crash point each manifest present is whole,
   has one active key per algorithm, stays within its bound and names only key files that are whole; no
   code key has been dropped; and the signing manifests shown form one chain of rotations, in order.
   */
  method Live(dir: Directory, invocations: seq<Invocation>, ghost ttl: int) returns (ghost t: Trace)
    requires Whole(dir.disk) && Timely(invocations, ttl)
    requires forall i :: 0 <= i < |invocations| ==> |invocations[i].faults| == 6
    modifies dir
    ensures old(dir.history) <= dir.history && Whole(dir.disk)
    ensures Evolves(dir.history, |old(dir.history)|, old(dir.disk))
    ensures Chain(t, ttl) && Follows(t, dir.history, |old(dir.history)|) && Shows(dir.disk, t.ms, |t.ms|)
    ensures From(t, invocations, |invocations|)
    ensures Signing in old(dir.disk) ==> t.ms != [] && old(dir.disk)[Signing] == SigningJson(t.ms[0])
  {
    ghost var first := dir.disk;
    t := Begin(dir.disk, ttl);
    SameKeeps(first, first);
    for i := 0 to |invocations|
      invariant old(dir.history) <= dir.history && Whole(dir.disk) && Keeps(first, dir.disk)
      invariant Evolves(dir.history, |old(dir.history)|, first)
      invariant Chain(t, ttl) && Follows(t, dir.history, |old(dir.history)|) && Shows(dir.disk, t.ms, |t.ms|)
      invariant Recorded(t, dir.disk) && From(t, invocations, i)
      invariant Signing in first ==> t.ms != [] && first[Signing] == SigningJson(t.ms[0])
    {
      ghost var before, h := dir.disk, dir.history;
      ghost var mid, next := Start(dir, invocations[i]);
      KeepsTransitive(first, before, dir.disk);
      EvolvesOn(h, dir.history, |old(dir.history)|, first, before);
      FromInTime(t, invocations, i, ttl);
      t := Onward(t, h, dir.history, |old(dir.history)|, mid, invocations, i, before, dir.disk, next, ttl);
    }
  }

  lemma Onward(t: Trace, h: seq<Disk>, h': seq<Disk>, n: nat, m: nat, invocations: seq<Invocation>, i: nat,
               before: Disk, after: Disk, next: Manifest, ttl: int) returns (r: Trace)
    requires i < |invocations| && From(t, invocations, i) && InTime(t, invocations[i].command, ttl)
    requires Chain(t, ttl) && Follows(t, h, n) && Shows(before, t.ms, |t.ms|) && Recorded(t, before) && h <= h'
    requires SigningSwitch(h', |h|, m, invocations[i].command, before, next)
    requires Slot(after, Signing) == if m < |h'| then {SigningJson(next)} else Slot(before, Signing)
    requires Keeps(before, after) && Whole(after)
    ensures Chain(r, ttl) && Follows(r, h', n) && Shows(after, r.ms, |r.ms|) && Recorded(r, after)
    ensures From(r, invocations, i + 1) && t.ms <= r.ms
  {
    var t' := t;
    if m < |h'| { t' := ChainGrows(t, before, invocations[i].command, next, ttl); }
    r := HistoryGrows(t, t', h, h', n, m, before, next);
    RecordedGrows(t, r, before, after, next);
    forall e | e in r.es
      ensures exists j :: 0 <= j < i + 1 <= |invocations| && invocations[j].command.RotateSigningKey?
                          && e == RotationOf(invocations[j].command)
    {
      if e in t.es {
        var j :| 0 <= j < i && invocations[j].command.RotateSigningKey? && e == RotationOf(invocations[j].command);
      }
    }
  }

  // ---- what the chain means for the directory ----

  lemma ChainSound(t: Trace, ttl: int, k: nat)
    requires Chain(t, ttl) && k < |t.ms|
    ensures Sound(t.ms[k])
  {
    assert forall i, j :: 0 <= i < |t.es| && 0 <= j < |t.ms[i].keys| ==> t.ms[i].keys[j] in t.ms[i].keys;
    RotationsStaySound(t.ms, t.es, ttl, k);
  }

  /** Two crash points, the earlier one showing a manifest: the later one shows it or a successor. */
  lemma InOrder(t: Trace, h: seq<Disk>, n: nat, i: nat, j: nat)
    requires Follows(t, h, n) && n <= i <= j < |h| && Signing in h[i]
    ensures 0 < t.at[i - n] <= t.at[j - n] <= |t.ms| && Signing in h[j]
    ensures h[i][Signing] == SigningJson(t.ms[t.at[i - n] - 1]) && h[j][Signing] == SigningJson(t.ms[t.at[j - n] - 1])
  {
    assert Shows(h[n + (i - n)], t.ms, t.at[i - n]) && Shows(h[n + (j - n)], t.ms, t.at[j - n]);
    assert h[i][Signing] in Slot(h[i], Signing);
    assert Slot(h[j], Signing) != {};
    assert h[j][Signing] in Slot(h[j], Signing);
  }

  /**
   Across failures and kills a retired key is never re-stamped, and it is gone from a later manifest only
   if some rotation ran at or after its stamp.
   */
  lemma StampStands(t: Trace, h: seq<Disk>, n: nat, ttl: int, i: nat, j: nat, key: Key)
    requires Chain(t, ttl) && Follows(t, h, n) && n <= i <= j < |h|
    requires Signing in h[i] && h[i][Signing].SigningJson? && key in h[i][Signing].manifest.keys && !key.active
    ensures Signing in h[j] && h[j][Signing].SigningJson?
    ensures forall k :: k in h[j][Signing].manifest.keys && k.kid == key.kid ==> k == key
    ensures key in h[j][Signing].manifest.keys || exists e :: e in t.es && Expired(key, e.now)
  {
    InOrder(t, h, n, i, j);
    var a, b := t.at[i - n] - 1, t.at[j - n] - 1;
    ChainSound(t, ttl, a);
    StampNeverChanges(t.ms, t.es, ttl, a, b, key);
    if key !in t.ms[b].keys {
      var x :| a <= x < b && Expired(key, t.es[x].now);
      assert t.es[x] in t.es;
    }
  }

  /**
   Across failures and kills: once a key active at one crash point has been retired, every later crash
   point serves it exactly at the instants before its stamp.
   */
  lemma RetiredServedExactly(t: Trace, h: seq<Disk>, n: nat, ttl: int, i: nat, j: nat, r: nat, key: Key, at: int)
    requires Chain(t, ttl) && Follows(t, h, n) && n <= i <= j < |h| && Signing in h[i]
    requires t.at[i - n] - 1 == r < t.at[j - n] - 1 && r < |t.es| && Retires(t.ms[r], t.es[r], key)
    requires Reached(t.es, r, t.at[j - n] - 1, at)
    ensures Signing in h[j] && h[j][Signing].SigningJson?
    ensures Served(h[j][Signing].manifest, key.kid, at) <==> at < Deadline(t.es[r].publishFor, t.es[r].now)
  {
    InOrder(t, h, n, i, j);
    ChainSound(t, ttl, r);
    ServedExactlyUntilDeadline(t.ms, t.es, ttl, r, t.at[j - n] - 1, key, at);
  }

  /**
   Across failures and kills: a token signed while its key was active, or up to the margin less one second
   after its retirement, finds its key served at every later crash point up to the token's expiry.
   */
  lemma TokenStands(t: Trace, h: seq<Disk>, n: nat, ttl: int, i: nat, j: nat,
                    kid: string, algorithm: Algorithm, signedAt: int, at: int)
    requires Chain(t, ttl) && Follows(t, h, n) && n <= i <= j < |h|
    requires Signing in h[i] && h[i][Signing].SigningJson? && ActiveIn(h[i][Signing].manifest, kid, algorithm)
    requires forall x :: t.at[i - n] - 1 <= x < t.at[j - n] - 1 && 0 <= x < |t.es| ==>
               && t.es[x].now <= at
               && (t.es[x].algorithm == algorithm && ActiveIn(t.ms[x], kid, algorithm) ==>
                     signedAt <= t.es[x].now + MARGIN - SECOND)
    requires at <= signedAt + ttl
    ensures Signing in h[j] && h[j][Signing].SigningJson? && Served(h[j][Signing].manifest, kid, at)
  {
    InOrder(t, h, n, i, j);
    var a, b := t.at[i - n] - 1, t.at[j - n] - 1;
    TokenOutlivesRotation(t.ms, t.es, ttl, a, b, kid, algorithm, signedAt, at);
  }
}
