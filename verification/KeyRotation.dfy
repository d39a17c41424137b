/**
 Signing-key rotation as a transition on manifests. Times and durations are in
 nanoseconds; publish_until is written with RFC 3339 seconds (section 5.6), which
 drops the fraction.
 */
module KeyRotation {
  import opened GoStrings

  const SECOND := 1_000_000_000
  const MINUTE := 60 * SECOND
  const HOUR := 60 * MINUTE
  const MARGIN := 10 * MINUTE
  const MAX_SIGNING_KEYS := 32

  datatype Algorithm = RS256 | ES256 | EdDSA | ES256K

  /** publish_until: omitted, a whole-second instant, or text that does not parse. */
  datatype Stamp = Absent | At(instant: int) | Garbled

  datatype Key = Key(algorithm: Algorithm, kid: string, file: string, active: bool, publishUntil: Stamp)

  datatype Manifest = Manifest(version: int, keys: seq<Key>)

  function Truncate(instant: int): (r: int)
    ensures r <= instant < r + SECOND && r % SECOND == 0
  {
    instant / SECOND * SECOND
  }

  /** run() checks these bounds before rotateSigning is called. */
  predicate WindowAllowed(ttl: int, publishFor: int) {
    MINUTE <= ttl <= 24 * HOUR && ttl + MARGIN <= publishFor <= 90 * 24 * HOUR
  }

  predicate Expired(key: Key, now: int) {
    !key.active && key.publishUntil.At? && key.publishUntil.instant <= now
  }

  /** The key is served in the key set at this instant: JWKS() skips a retired key from publish_until on. */
  predicate Published(key: Key, at: int) {
    key.active || (key.publishUntil.At? && at < key.publishUntil.instant)
  }

  /** The stamp a rotation at this instant writes on the key it retires. */
  function Deadline(publishFor: int, now: int): int {
    Truncate(now + publishFor)
  }

  function Retired(key: Key, algorithm: Algorithm, until: int): Key {
    if key.algorithm == algorithm && key.active
    then key.(active := false, publishUntil := At(until))
    else key
  }

  /** What survives into the next manifest: unexpired keys in order, the active one of the algorithm retired. */
  function Kept(keys: seq<Key>, algorithm: Algorithm, until: int, now: int): seq<Key> {
    if keys == [] then []
    else
      var last := keys[|keys| - 1];
      Kept(keys[..|keys| - 1], algorithm, until, now) +
      if Expired(last, now) then [] else [Retired(last, algorithm, until)]
  }

  function Actives(keys: seq<Key>, algorithm: Algorithm): nat {
    if keys == [] then 0
    else
      var last := keys[|keys| - 1];
      Actives(keys[..|keys| - 1], algorithm) + if last.algorithm == algorithm && last.active then 1 else 0
  }

  predicate HasGarbled(keys: seq<Key>) {
    exists i :: 0 <= i < |keys| && !keys[i].active && keys[i].publishUntil.Garbled?
  }

  datatype ScanResult = Refused | Scanned(kept: seq<Key>)

  /** The loop of rotateSigning over the old manifest. */
  method ScanKeys(keys: seq<Key>, algorithm: Algorithm, publishFor: int, now: int) returns (r: ScanResult)
    ensures r.Refused? <==> HasGarbled(keys) || Actives(keys, algorithm) != 1
    ensures r.Scanned? ==> r.kept == Kept(keys, algorithm, Deadline(publishFor, now), now)
  {
    var foundActive := false;
    var kept: seq<Key> := [];
    for i := 0 to |keys|
      invariant !HasGarbled(keys[..i])
      invariant Actives(keys[..i], algorithm) == if foundActive then 1 else 0
      invariant kept == Kept(keys[..i], algorithm, Deadline(publishFor, now), now)
    {
      assert keys[..i + 1][..i] == keys[..i];
      GarbledStep(keys, i);
      var key := keys[i];
      if !key.active && key.publishUntil != Absent {
        if key.publishUntil.Garbled? { return Refused; }
        if key.publishUntil.instant <= now { continue; }
      }
      if key.algorithm == algorithm && key.active {
        if foundActive {
          ActivesMonotone(keys, i + 1, algorithm);
          return Refused;
        }
        foundActive := true;
        key := key.(active := false, publishUntil := At(Truncate(now + publishFor)));
      }
      kept := kept + [key];
    }
    assert keys[..|keys|] == keys;
    return if foundActive then Scanned(kept) else Refused;
  }

  lemma GarbledStep(keys: seq<Key>, i: nat)
    requires i < |keys|
    ensures HasGarbled(keys[..i + 1]) <==> HasGarbled(keys[..i]) || (!keys[i].active && keys[i].publishUntil.Garbled?)
    ensures HasGarbled(keys[..i + 1]) ==> HasGarbled(keys)
  {
    assert keys[..i + 1] == keys[..i] + [keys[i]];
    if HasGarbled(keys[..i]) {
      var j :| 0 <= j < i && !keys[..i][j].active && keys[..i][j].publishUntil.Garbled?;
      assert keys[..i + 1][j] == keys[..i][j];
    }
    assert keys[..i + 1][i] == keys[i];
  }

  lemma {:induction false} ActivesMonotone(keys: seq<Key>, i: nat, algorithm: Algorithm)
    requires i <= |keys|
    ensures Actives(keys[..i], algorithm) <= Actives(keys, algorithm)
    decreases |keys| - i
  {
    if i == |keys| {
      assert keys[..i] == keys;
    } else {
      assert keys[..i + 1][..i] == keys[..i];
      ActivesMonotone(keys, i + 1, algorithm);
    }
  }

  function NewKey(algorithm: Algorithm, kid: string): Key {
    Key(algorithm, kid, "signing-" + kid + ".pem", true, Absent)
  }

  predicate Rotatable(m: Manifest, algorithm: Algorithm) {
    && algorithm != ES256K
    && m.version == 1 && 0 < |m.keys| < MAX_SIGNING_KEYS
    && !HasGarbled(m.keys) && Actives(m.keys, algorithm) == 1
  }

  /** The manifest a rotation writes. */
  function Rotate(m: Manifest, algorithm: Algorithm, publishFor: int, now: int, kid: string): Manifest {
    m.(keys := Kept(m.keys, algorithm, Deadline(publishFor, now), now) + [NewKey(algorithm, kid)])
  }

  // ---- what every rotation keeps ----

  /** Whole and ready: bounded, one active key per supported algorithm, every retired key stamped. */
  ghost predicate Sound(m: Manifest) {
    && m.version == 1 && 0 < |m.keys| <= MAX_SIGNING_KEYS
    && (forall a :: a != ES256K ==> Actives(m.keys, a) == 1)
    && (forall i :: 0 <= i < |m.keys| ==> (m.keys[i].active <==> m.keys[i].publishUntil.Absent?))
    && (forall i :: 0 <= i < |m.keys| ==> !m.keys[i].publishUntil.Garbled?)
    && DistinctKids(m.keys)
  }

  predicate DistinctKids(keys: seq<Key>) {
    forall i, j :: 0 <= i < j < |keys| ==> keys[i].kid != keys[j].kid
  }

  lemma ActivesSnoc(keys: seq<Key>, key: Key, a: Algorithm)
    ensures Actives(keys + [key], a) == Actives(keys, a) + if key.algorithm == a && key.active then 1 else 0
  {
    assert (keys + [key])[..|keys|] == keys;
  }

  lemma {:induction false} KeptActives(keys: seq<Key>, algorithm: Algorithm, until: int, now: int, a: Algorithm)
    ensures Actives(Kept(keys, algorithm, until, now), a) == if a == algorithm then 0 else Actives(keys, a)
  {
    if keys != [] {
      KeptActives(keys[..|keys| - 1], algorithm, until, now, a);
      var rest, last := keys[..|keys| - 1], keys[|keys| - 1];
      var front, key := Kept(rest, algorithm, until, now), Retired(last, algorithm, until);
      assert Actives(keys, a) == Actives(rest, a) + if last.algorithm == a && last.active then 1 else 0;
      if Expired(last, now) {
        assert Kept(keys, algorithm, until, now) == front;
      } else {
        assert Kept(keys, algorithm, until, now) == front + [key];
        ActivesSnoc(front, key, a);
      }
    }
  }

  /** Each kept key comes from one old key, in order, and each unexpired old key is kept. */
  ghost predicate KeptFrom(keys: seq<Key>, kept: seq<Key>, algorithm: Algorithm, until: int, now: int) {
    && |kept| <= |keys|
    && (forall k :: k in kept ==> exists o :: o in keys && !Expired(o, now) && k == Retired(o, algorithm, until))
    && (forall o :: o in keys && !Expired(o, now) ==> Retired(o, algorithm, until) in kept)
  }

  lemma {:induction false} KeptIsFrom(keys: seq<Key>, algorithm: Algorithm, until: int, now: int)
    ensures KeptFrom(keys, Kept(keys, algorithm, until, now), algorithm, until, now)
  {
    if keys != [] {
      var last := keys[|keys| - 1];
      assert keys == keys[..|keys| - 1] + [last];
      KeptIsFrom(keys[..|keys| - 1], algorithm, until, now);
    }
  }

  lemma {:induction false} KeptDistinct(keys: seq<Key>, algorithm: Algorithm, until: int, now: int)
    requires DistinctKids(keys)
    ensures DistinctKids(Kept(keys, algorithm, until, now))
  {
    if keys != [] {
      var rest, last := keys[..|keys| - 1], keys[|keys| - 1];
      KeptDistinct(rest, algorithm, until, now);
      KeptIsFrom(rest, algorithm, until, now);
      var front := Kept(rest, algorithm, until, now);
      forall i | 0 <= i < |front| ensures front[i].kid != last.kid {
        assert front[i] in front;
        var o :| o in rest && front[i] == Retired(o, algorithm, until);
        var n :| 0 <= n < |rest| && rest[n] == o;
        assert keys[n] == o;
      }
      if Expired(last, now) { assert Kept(keys, algorithm, until, now) == front; }
    }
  }

  /** Rotation keeps a sound manifest sound: one active key per algorithm and never more than 32 keys. */
  lemma RotateKeepsSound(m: Manifest, algorithm: Algorithm, publishFor: int, now: int, kid: string)
    requires Sound(m) && Rotatable(m, algorithm)
    requires forall i :: 0 <= i < |m.keys| ==> m.keys[i].kid != kid
    ensures Sound(Rotate(m, algorithm, publishFor, now, kid))
  {
    var until := Deadline(publishFor, now);
    var kept := Kept(m.keys, algorithm, until, now);
    var keys' := kept + [NewKey(algorithm, kid)];
    forall a ensures a != ES256K ==> Actives(keys', a) == 1 {
      KeptActives(m.keys, algorithm, until, now, a);
      ActivesSnoc(kept, NewKey(algorithm, kid), a);
    }
    KeptIsFrom(m.keys, algorithm, until, now);
    KeptDistinct(m.keys, algorithm, until, now);
    forall i | 0 <= i < |kept|
      ensures kept[i].kid != kid && (kept[i].active <==> kept[i].publishUntil.Absent?) && !kept[i].publishUntil.Garbled?
    {
      assert kept[i] in kept;
      var o :| o in m.keys && kept[i] == Retired(o, algorithm, until);
    }
    assert DistinctKids(keys');
  }

  /** The instant a whole-second stamp for this instant stands for. */
  predicate WholeSecond(instant: int, stamp: int) {
    stamp % SECOND == 0 && stamp <= instant < stamp + SECOND
  }

  /** The key has a stamp and it has been reached. */
  predicate PastStamp(key: Key, now: int) {
    !key.active && key.publishUntil.At? && key.publishUntil.instant <= now
  }

  /** How a key of the old manifest appears in the new one. */
  predicate CarriedAs(o: Key, k: Key, algorithm: Algorithm, publishFor: int, now: int) {
    && k.algorithm == o.algorithm && k.kid == o.kid && k.file == o.file
    && (if o.active && o.algorithm == algorithm
        then !k.active && k.publishUntil.At? && WholeSecond(now + publishFor, k.publishUntil.instant)
        else k.active == o.active && k.publishUntil == o.publishUntil)
  }

  lemma RetiredIsCarried(key: Key, algorithm: Algorithm, publishFor: int, now: int)
    ensures Expired(key, now) <==> PastStamp(key, now)
    ensures CarriedAs(key, Retired(key, algorithm, Deadline(publishFor, now)), algorithm, publishFor, now)
  {
  }

  /** The keys carried over are the old ones that are not past their stamp. */
  ghost predicate Carried(keys: seq<Key>, carried: seq<Key>, algorithm: Algorithm, publishFor: int, now: int) {
    && |carried| <= |keys|
    && (forall k :: k in carried ==>
          exists o :: o in keys && !PastStamp(o, now) && CarriedAs(o, k, algorithm, publishFor, now))
    && (forall o :: o in keys && !PastStamp(o, now) ==>
          exists k :: k in carried && CarriedAs(o, k, algorithm, publishFor, now))
  }

  /**
   A rotated manifest ends with the new active key; the others are the old ones that are not past their
   stamp, each as it was, but for the active key of the algorithm, which is stamped.
   */
  lemma RotatesExactly(m: Manifest, algorithm: Algorithm, publishFor: int, now: int, kid: string)
    ensures var keys := Rotate(m, algorithm, publishFor, now, kid).keys;
            && keys != []
            && keys[|keys| - 1] == Key(algorithm, kid, "signing-" + kid + ".pem", true, Absent)
            && Carried(m.keys, keys[..|keys| - 1], algorithm, publishFor, now)
  {
    var until := Deadline(publishFor, now);
    var kept := Kept(m.keys, algorithm, until, now);
    var keys := Rotate(m, algorithm, publishFor, now, kid).keys;
    KeptIsFrom(m.keys, algorithm, until, now);
    assert keys[..|keys| - 1] == kept;
    forall o ensures CarriedAs(o, Retired(o, algorithm, until), algorithm, publishFor, now)
                     && (Expired(o, now) <==> PastStamp(o, now))
    {
      RetiredIsCarried(o, algorithm, publishFor, now);
    }
  }

  /** No key past its stamp is in a rotated manifest. */
  lemma RotationPrunes(m: Manifest, algorithm: Algorithm, publishFor: int, now: int, kid: string, key: Key)
    requires SECOND <= publishFor && key in Rotate(m, algorithm, publishFor, now, kid).keys
    ensures !PastStamp(key, now)
  {
    var keys := Rotate(m, algorithm, publishFor, now, kid).keys;
    RotatesExactly(m, algorithm, publishFor, now, kid);
    assert keys == keys[..|keys| - 1] + [keys[|keys| - 1]];
  }

  ghost function ActiveAt(keys: seq<Key>, a: Algorithm): set<int> {
    set i | 0 <= i < |keys| && keys[i].active && keys[i].algorithm == a
  }

  lemma ActiveAtSnoc(keys: seq<Key>, key: Key, a: Algorithm)
    ensures ActiveAt(keys + [key], a) == ActiveAt(keys, a) + if key.active && key.algorithm == a then {|keys|} else {}
  {
    assert forall i :: 0 <= i < |keys| ==> (keys + [key])[i] == keys[i];
  }

  /** Actives counts the positions of active keys. */
  lemma {:induction false} ActivesCounts(keys: seq<Key>, a: Algorithm)
    ensures Actives(keys, a) == |ActiveAt(keys, a)|
  {
    if keys == [] {
      assert ActiveAt(keys, a) == {};
    } else {
      var front, last := keys[..|keys| - 1], keys[|keys| - 1];
      ActivesCounts(front, a);
      assert keys == front + [last] && |front| !in ActiveAt(front, a);
      ActiveAtSnoc(front, last, a);
    }
  }

  /** A sound manifest can be rotated unless it is full: 32 keys are the only obstacle. */
  lemma SoundIsRotatable(m: Manifest, algorithm: Algorithm)
    requires Sound(m) && algorithm != ES256K
    ensures Rotatable(m, algorithm) <==> |m.keys| < 32
  {
  }

  // ---- tokens over runs of rotations ----

  datatype Rotation = Rotation(algorithm: Algorithm, ttl: int, publishFor: int, now: int, kid: string)

  /** Successful rotations at non-decreasing times, each run with an id-token-ttl of at least the real one. */
  ghost predicate Rotations(ms: seq<Manifest>, es: seq<Rotation>, ttl: int) {
    && |ms| == |es| + 1
    && (forall i :: 0 <= i < |es| ==>
          && WindowAllowed(es[i].ttl, es[i].publishFor) && ttl <= es[i].ttl
          && Rotatable(ms[i], es[i].algorithm)
          && ms[i + 1] == Rotate(ms[i], es[i].algorithm, es[i].publishFor, es[i].now, es[i].kid))
    && (forall i, j :: 0 <= i < j < |es| ==> es[i].now <= es[j].now)
  }

  ghost predicate ActiveIn(m: Manifest, kid: string, algorithm: Algorithm) {
    exists k :: k in m.keys && k.active && k.kid == kid && k.algorithm == algorithm
  }

  /** Active, or retired with a stamp beyond the instant. */
  ghost predicate Covers(m: Manifest, kid: string, algorithm: Algorithm, until: int) {
    ActiveIn(m, kid, algorithm) ||
    exists k :: k in m.keys && !k.active && k.kid == kid && k.publishUntil.At? && until < k.publishUntil.instant
  }

  lemma RotateCovers(m: Manifest, e: Rotation, kid: string, algorithm: Algorithm, until: int)
    requires Covers(m, kid, algorithm, until)
    requires e.now <= until
    requires e.algorithm == algorithm && ActiveIn(m, kid, algorithm) ==> until < Deadline(e.publishFor, e.now)
    ensures Covers(Rotate(m, e.algorithm, e.publishFor, e.now, e.kid), kid, algorithm, until)
  {
    KeptIsFrom(m.keys, e.algorithm, Deadline(e.publishFor, e.now), e.now);
    var m' := Rotate(m, e.algorithm, e.publishFor, e.now, e.kid);
    var k :| k in m.keys && k.kid == kid &&
             (|| (k.active && k.algorithm == algorithm)
              || (!k.active && k.publishUntil.At? && until < k.publishUntil.instant));
    assert Retired(k, e.algorithm, Deadline(e.publishFor, e.now)) in m'.keys;
  }

  /**
   A token signed by a key while it was active, or by a not yet restarted instance up to the margin less
   one second after the key was retired, finds its key published at every instant up to the token's expiry.
   */
  lemma {:induction false} TokenOutlivesRotation(
      ms: seq<Manifest>, es: seq<Rotation>, ttl: int, a: nat, k: nat,
      kid: string, algorithm: Algorithm, signedAt: int, at: int)
    requires Rotations(ms, es, ttl) && a <= k < |ms|
    requires ActiveIn(ms[a], kid, algorithm)
    requires forall i :: a <= i < k && es[i].algorithm == algorithm && ActiveIn(ms[i], kid, algorithm)
               ==> signedAt <= es[i].now + MARGIN - SECOND
    requires forall i :: a <= i < k ==> es[i].now <= at
    requires at <= signedAt + ttl
    ensures exists key :: key in ms[k].keys && key.kid == kid && Published(key, at)
  {
    StillCovered(ms, es, ttl, a, k, kid, algorithm, signedAt, at);
  }

  lemma {:induction false} StillCovered(
      ms: seq<Manifest>, es: seq<Rotation>, ttl: int, a: nat, k: nat,
      kid: string, algorithm: Algorithm, signedAt: int, at: int)
    requires Rotations(ms, es, ttl) && a <= k < |ms|
    requires ActiveIn(ms[a], kid, algorithm)
    requires forall i :: a <= i < k && es[i].algorithm == algorithm && ActiveIn(ms[i], kid, algorithm)
               ==> signedAt <= es[i].now + MARGIN - SECOND
    requires forall i :: a <= i < k ==> es[i].now <= at
    requires at <= signedAt + ttl
    ensures Covers(ms[k], kid, algorithm, at)
  {
    if a < k {
      StillCovered(ms, es, ttl, a, k - 1, kid, algorithm, signedAt, at);
      RotateCovers(ms[k - 1], es[k - 1], kid, algorithm, at);
    }
  }

  /** Every manifest along a run of rotations with unused key ids is sound. */
  lemma {:induction false} RotationsStaySound(ms: seq<Manifest>, es: seq<Rotation>, ttl: int, k: nat)
    requires Rotations(ms, es, ttl) && Sound(ms[0]) && k < |ms|
    requires forall i, j :: 0 <= i < |es| && 0 <= j < |ms[i].keys| ==> ms[i].keys[j].kid != es[i].kid
    ensures Sound(ms[k])
  {
    if k > 0 {
      RotationsStaySound(ms, es, ttl, k - 1);
      var e := es[k - 1];
      RotateKeepsSound(ms[k - 1], e.algorithm, e.publishFor, e.now, e.kid);
    }
  }

  lemma RotateKeepsStamp(m: Manifest, e: Rotation, key: Key)
    requires !key.active && e.kid != key.kid && forall k :: k in m.keys && k.kid == key.kid ==> k == key
    ensures var m' := Rotate(m, e.algorithm, e.publishFor, e.now, e.kid);
            && (forall k :: k in m'.keys && k.kid == key.kid ==> k == key)
            && (key in m.keys && !Expired(key, e.now) ==> key in m'.keys)
  {
    KeptIsFrom(m.keys, e.algorithm, Deadline(e.publishFor, e.now), e.now);
  }

  /** Over every run a retired key keeps its stamp, and leaves the manifest only once that stamp has passed. */
  lemma {:induction false} StampNeverChanges(ms: seq<Manifest>, es: seq<Rotation>, ttl: int, i: nat, j: nat, key: Key)
    requires Rotations(ms, es, ttl) && i <= j < |ms|
    requires DistinctKids(ms[i].keys) && key in ms[i].keys && !key.active
    requires forall x :: i <= x < j ==> es[x].kid != key.kid
    ensures forall k :: k in ms[j].keys && k.kid == key.kid ==> k == key
    ensures key in ms[j].keys || exists x :: i <= x < j && Expired(key, es[x].now)
  {
    if i < j {
      StampNeverChanges(ms, es, ttl, i, j - 1, key);
      RotateKeepsStamp(ms[j - 1], es[j - 1], key);
    }
  }

  // ---- exactly how long a retired key serves ----

  /** No drawn key id was in a manifest before. */
  ghost predicate FreshKids(ms: seq<Manifest>, es: seq<Rotation>) {
    |ms| == |es| + 1 &&
    forall i, j, key :: 0 <= i <= j < |es| && key in ms[i].keys ==> es[j].kid != key.kid
  }

  ghost predicate Served(m: Manifest, kid: string, at: int) {
    exists key :: key in m.keys && key.kid == kid && Published(key, at)
  }

  /** At this instant the rotations from r up to manifest k have all happened. */
  ghost predicate Reached(es: seq<Rotation>, r: nat, k: nat, at: int) {
    k <= |es| && forall x :: r <= x < k ==> es[x].now <= at
  }

  /** The rotation stamps this key: it is active in the algorithm being rotated. */
  ghost predicate Retires(m: Manifest, e: Rotation, key: Key) {
    key in m.keys && key.active && key.algorithm == e.algorithm
  }

  lemma RetiringStamps(m: Manifest, e: Rotation, key: Key)
    requires DistinctKids(m.keys) && Retires(m, e, key) && forall k :: k in m.keys ==> k.kid != e.kid
    ensures var m', until := Rotate(m, e.algorithm, e.publishFor, e.now, e.kid), Deadline(e.publishFor, e.now);
            DistinctKids(m'.keys) && Retired(key, e.algorithm, until) in m'.keys
  {
    var until := Deadline(e.publishFor, e.now);
    var kept := Kept(m.keys, e.algorithm, until, e.now);
    KeptIsFrom(m.keys, e.algorithm, until, e.now);
    KeptDistinct(m.keys, e.algorithm, until, e.now);
    forall i | 0 <= i < |kept| ensures kept[i].kid != e.kid {
      assert kept[i] in kept;
    }
  }

  /** From its retirement on, a key is served exactly before the stamp, whatever rotations follow. */
  lemma ServedExactlyUntilDeadline(ms: seq<Manifest>, es: seq<Rotation>, ttl: int, r: nat, k: nat, key: Key, at: int)
    requires Rotations(ms, es, ttl) && FreshKids(ms, es) && r < k < |ms|
    requires DistinctKids(ms[r].keys) && Retires(ms[r], es[r], key) && Reached(es, r, k, at)
    ensures Served(ms[k], key.kid, at) <==> at < Deadline(es[r].publishFor, es[r].now)
  {
    var until := Deadline(es[r].publishFor, es[r].now);
    var stamped := Retired(key, es[r].algorithm, until);
    RetiringStamps(ms[r], es[r], key);
    assert forall x :: r + 1 <= x < k ==> es[x].kid != key.kid;
    StampNeverChanges(ms, es, ttl, r + 1, k, stamped);
  }

  /** Whenever the key is looked up after its retirement and not after the given instant, it is served. */
  ghost predicate ServesUntil(ms: seq<Manifest>, es: seq<Rotation>, r: nat, kid: string, expiry: int) {
    forall k, at :: r < k < |ms| && Reached(es, r, k, at) && at <= expiry ==> Served(ms[k], kid, at)
  }

  /** A token finds its key at every moment up to its expiry if and only if it expires before the stamp. */
  lemma TokenSurvivesExactly(ms: seq<Manifest>, es: seq<Rotation>, ttl: int, r: nat, key: Key, signedAt: int)
    requires Rotations(ms, es, ttl) && FreshKids(ms, es) && r < |es|
    requires DistinctKids(ms[r].keys) && Retires(ms[r], es[r], key)
    ensures ServesUntil(ms, es, r, key.kid, signedAt + ttl) <==> signedAt + ttl < Deadline(es[r].publishFor, es[r].now)
  {
    var expiry, until := signedAt + ttl, Deadline(es[r].publishFor, es[r].now);
    forall k, at | r < k < |ms| && Reached(es, r, k, at) && at <= expiry
      ensures Served(ms[k], key.kid, at) <==> at < until
    {
      ServedExactlyUntilDeadline(ms, es, ttl, r, k, key, at);
    }
    if es[r].now <= expiry { assert Reached(es, r, r + 1, expiry); }
  }

  /** The rotation serves every token signed up to d after it by a key it retires. */
  ghost predicate Covered(now: int, ttl: int, publishFor: int, d: int) {
    now + d + ttl < Deadline(publishFor, now)
  }

  /** What every allowed window guarantees at every instant is the margin less one second, and no more. */
  lemma GuaranteedMargin(d: int)
    ensures (forall now, ttl, publishFor :: WindowAllowed(ttl, publishFor) ==> Covered(now, ttl, publishFor, d))
            <==> d <= MARGIN - SECOND
  {
    if d > MARGIN - SECOND {
      assert WindowAllowed(HOUR, HOUR + MARGIN) && !Covered(SECOND - 1, HOUR, HOUR + MARGIN, d);
    }
  }

  /** How long after a rotation signing is still covered: the window less the lifetime less the lost fraction. */
  lemma MarginBoundary(now: int, ttl: int, publishFor: int, d: int)
    ensures Covered(now, ttl, publishFor, d) <==> d < publishFor - ttl - (now + publishFor) % SECOND
  {
    var instant := now + publishFor;
    assert Truncate(instant) == instant - instant % SECOND;
  }

  /** With the smallest window allowed, signing a full margin after the rotation fails at every instant. */
  lemma FullMarginIsNotEnough(now: int, ttl: int)
    ensures !Covered(now, ttl, ttl + MARGIN, MARGIN)
  {
    MarginBoundary(now, ttl, ttl + MARGIN, MARGIN);
  }

  // ---- the command line ----

  function ToUpper(s: string): (r: string)
    ensures |r| == |s| && forall i :: 0 <= i < |s| ==> !('a' <= r[i] <= 'z')
  {
    seq(|s|, i requires 0 <= i < |s| => if 'a' <= s[i] <= 'z' then s[i] - 'a' + 'A' else s[i])
  }

  function AlgorithmName(a: Algorithm): string {
    match a
    case RS256 => "RS256"
    case ES256 => "ES256"
    case EdDSA => "EdDSA"
    case ES256K => "ES256K"
  }

  /** The -algorithm flag is upper-cased before it is compared, so no flag value selects EdDSA. */
  lemma FlagSelects(flag: string, a: Algorithm)
    ensures a == EdDSA ==> ToUpper(TrimSpace(flag)) != AlgorithmName(a)
    ensures a != EdDSA ==> ToUpper(TrimSpace(AlgorithmName(a))) == AlgorithmName(a)
  {
    assert AlgorithmName(EdDSA)[1] == 'd';
  }
}
