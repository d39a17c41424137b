/**
 The key directory on disk. Every file-system call appends the resulting disk to a
 history, so a property of all history entries is a property of every crash point.
 Renames replace atomically; a file being written holds Partial until it is synced.
 */
module KeyDirectory {
  import opened KeyRotation

  datatype Path = Lock | Signing | Codes | Pepper | Pem(name: string) | Temp(tag: nat)

  datatype CodeManifest = CodeManifest(version: int, active: string, keys: map<string, int>)

  datatype Content = Partial | PrivateKey | Secret | SigningJson(manifest: Manifest) | CodesJson(codes: CodeManifest)

  /** Where a file operation fails, if it does. */
  datatype Fault = NoFault | AtOpen | AtWrite

  type Disk = map<Path, Content>

  const MAX_CODE_KEYS := 16

  predicate HasKeyFiles(d: Disk, keys: seq<Key>) {
    forall i :: 0 <= i < |keys| ==> Pem(keys[i].file) in d && d[Pem(keys[i].file)] == PrivateKey
  }

  /** LoadSigningKeyRing: what the server, and the generator before it renames, accept. */
  predicate LoadsSigning(d: Disk, m: Manifest) {
    && m.version == 1 && 0 < |m.keys| <= MAX_SIGNING_KEYS
    && HasKeyFiles(d, m.keys)
    && (forall i :: 0 <= i < |m.keys| ==> (m.keys[i].active <==> m.keys[i].publishUntil.Absent?)
                                          && !m.keys[i].publishUntil.Garbled? && m.keys[i].algorithm != ES256K)
    && DistinctKids(m.keys)
    && (forall a :: Actives(m.keys, a) <= 1)
    && (exists a :: Actives(m.keys, a) == 1)
  }

  /** LoadCodeSealer. */
  predicate LoadsCodes(c: CodeManifest) {
    c.version == 1 && c.active != "" && c.active in c.keys && 0 < |c.keys| <= MAX_CODE_KEYS
  }

  ghost predicate FilesNamedByKid(keys: seq<Key>) {
    forall i :: 0 <= i < |keys| ==>
      keys[i].file == NewKey(keys[i].algorithm, keys[i].kid).file && keys[i].algorithm != ES256K
  }

  /** Each manifest present is whole and sound, and every private key file it names is whole. */
  ghost predicate Whole(d: Disk) {
    && (Signing in d ==>
          && d[Signing].SigningJson? && Sound(d[Signing].manifest)
          && HasKeyFiles(d, d[Signing].manifest.keys) && FilesNamedByKid(d[Signing].manifest.keys))
    && (Codes in d ==> d[Codes].CodesJson? && LoadsCodes(d[Codes].codes))
  }

  function Slot(d: Disk, p: Path): set<Content> {
    if p in d then {d[p]} else {}
  }

  /** The same files, temporary ones aside. */
  ghost predicate Agree(d: Disk, e: Disk) {
    forall p: Path :: !p.Temp? ==> Slot(d, p) == Slot(e, p)
  }

  lemma TempAside(d: Disk, tag: nat, content: Content)
    requires Temp(tag) !in d
    ensures Agree(d[Temp(tag) := content], d) && Agree(d, d) && d[Temp(tag) := content] - {Temp(tag)} == d
  {
  }

  lemma AgreeWhole(d: Disk, e: Disk)
    requires Agree(d, e)
    ensures Whole(d) <==> Whole(e)
  {
    assert Slot(d, Signing) == Slot(e, Signing) && Slot(d, Codes) == Slot(e, Codes);
    assert forall name :: Slot(d, Pem(name)) == Slot(e, Pem(name));
  }

  lemma {:induction false} ActivesFound(keys: seq<Key>, algorithm: Algorithm)
    requires Actives(keys, algorithm) > 0
    ensures exists i :: 0 <= i < |keys| && keys[i].active && keys[i].algorithm == algorithm
  {
    if !(keys[|keys| - 1].active && keys[|keys| - 1].algorithm == algorithm) {
      ActivesFound(keys[..|keys| - 1], algorithm);
    }
  }

  lemma SoundLoads(d: Disk, m: Manifest)
    requires Sound(m) && HasKeyFiles(d, m.keys) && FilesNamedByKid(m.keys)
    ensures LoadsSigning(d, m)
  {
    forall a ensures Actives(m.keys, a) <= 1 {
      if a == ES256K && Actives(m.keys, a) > 0 { ActivesFound(m.keys, a); }
    }
    assert Actives(m.keys, RS256) == 1;
  }

  /** A rotated manifest loads once the new key file is on disk. */
  lemma RotatedIsWhole(d: Disk, m: Manifest, algorithm: Algorithm, publishFor: int, now: int, kid: string)
    requires Sound(m) && Rotatable(m, algorithm) && HasKeyFiles(d, m.keys) && FilesNamedByKid(m.keys)
    requires Pem(NewKey(algorithm, kid).file) !in d
    ensures var m', d' := Rotate(m, algorithm, publishFor, now, kid), d[Pem(NewKey(algorithm, kid).file) := PrivateKey];
            Sound(m') && HasKeyFiles(d', m'.keys) && FilesNamedByKid(m'.keys) && LoadsSigning(d', m')
  {
    var m', d' := Rotate(m, algorithm, publishFor, now, kid), d[Pem(NewKey(algorithm, kid).file) := PrivateKey];
    RotateKeepsSound(m, algorithm, publishFor, now, kid);
    KeptIsFrom(m.keys, algorithm, Deadline(publishFor, now), now);
    var kept := Kept(m.keys, algorithm, Deadline(publishFor, now), now);
    forall i | 0 <= i < |kept|
      ensures Pem(kept[i].file) in d && d[Pem(kept[i].file)] == PrivateKey
      ensures kept[i].file == NewKey(kept[i].algorithm, kept[i].kid).file && kept[i].algorithm != ES256K
    {
      assert kept[i] in kept;
      var o :| o in m.keys && kept[i] == Retired(o, algorithm, Deadline(publishFor, now));
      var n :| 0 <= n < |m.keys| && m.keys[n] == o;
    }
    SoundLoads(d', m');
  }

  /** A key file that no manifest names yet, whole or half-written, endangers nothing. */
  lemma NewFileWhole(d: Disk, before: Disk, path: Path)
    requires path.Pem? || path.Pepper? || path.Lock?
    requires path !in before && d - {path} == before && Whole(before)
    ensures Whole(d) && forall p: Path :: p != path ==> Slot(d, p) == Slot(before, p)
  {
    assert forall p: Path :: p != path ==> (p in d <==> p in d - {path}) && (p in d ==> d[p] == (d - {path})[p]);
  }

  /** From n on the slot shows the old content up to position m and the new one from there. */
  ghost predicate Switch(h: seq<Disk>, n: nat, m: nat, slot: Path, was: set<Content>, becomes: set<Content>) {
    && n <= m <= |h|
    && (forall i :: n <= i < m ==> Slot(h[i], slot) == was)
    && (forall i :: m <= i < |h| ==> Slot(h[i], slot) == becomes)
  }

  /** Every code key known before is still known, and every private key file is still there. */
  ghost predicate Keeps(before: Disk, after: Disk) {
    && (Codes in before && before[Codes].CodesJson? ==>
          Codes in after && after[Codes].CodesJson? && before[Codes].codes.keys.Keys <= after[Codes].codes.keys.Keys)
    && (forall name: string :: Pem(name) in before ==> Pem(name) in after)
  }

  /** Every crash point since n is whole and has all the keys there were. */
  ghost predicate Evolves(history: seq<Disk>, n: nat, before: Disk) {
    forall i :: n <= i < |history| ==> Whole(history[i]) && Keeps(before, history[i])
  }

  lemma SameKeeps(before: Disk, after: Disk)
    requires Slot(after, Codes) == Slot(before, Codes)
    requires forall name: string :: Pem(name) in before ==> Pem(name) in after
    ensures Keeps(before, after)
  {
    assert Codes in before ==> before[Codes] in Slot(after, Codes);
  }

  lemma NewFileKeeps(before: Disk, after: Disk, path: Path)
    requires path !in before && after - {path} == before && path != Codes
    ensures Keeps(before, after)
  {
    assert forall p: Path :: p in before ==> p in after - {path} && after[p] == (after - {path})[p];
  }

  lemma AgreeKeeps(before: Disk, d: Disk, e: Disk)
    requires Agree(d, e) && Keeps(before, e)
    ensures Keeps(before, d)
  {
    assert Slot(d, Codes) == Slot(e, Codes);
    assert forall name: string :: Slot(d, Pem(name)) == Slot(e, Pem(name));
    assert Codes in e ==> e[Codes] in Slot(d, Codes);
  }

  lemma EvolvesOn(h: seq<Disk>, h': seq<Disk>, n: nat, before: Disk, between: Disk)
    requires h <= h' && n <= |h| && Evolves(h, n, before) && Keeps(before, between) && Evolves(h', |h|, between)
    ensures Evolves(h', n, before)
  {
    forall i | n <= i < |h'| ensures Whole(h'[i]) && Keeps(before, h'[i]) {
      if i < |h| { assert h'[i] == h[i]; }
    }
  }

  /** When rotateSigning goes through: a rotatable manifest, an unused key file name, and a result that loads. */
  predicate CanRotate(d: Disk, algorithm: Algorithm, publishFor: int, now: int, kid: string) {
    var pem := Pem(NewKey(algorithm, kid).file);
    && Signing in d && d[Signing].SigningJson?
    && Rotatable(d[Signing].manifest, algorithm)
    && pem !in d
    && LoadsSigning(d[pem := PrivateKey], Rotate(d[Signing].manifest, algorithm, publishFor, now, kid))
  }

  function RotateCodes(c: CodeManifest, keyId: string, secret: int): CodeManifest {
    CodeManifest(c.version, keyId, c.keys[keyId := secret])
  }

  /** The drawn key is added and made active; every other key is as before. */
  ghost predicate CodeRotated(before: CodeManifest, after: CodeManifest, keyId: string, secret: int) {
    && after.version == before.version && after.active == keyId
    && after.keys.Keys == before.keys.Keys + {keyId}
    && after.keys[keyId] == secret
    && (forall k :: k in before.keys && k != keyId ==> after.keys[k] == before.keys[k])
  }

  lemma RotateCodesExactly(c: CodeManifest, keyId: string, secret: int)
    ensures CodeRotated(c, RotateCodes(c, keyId, secret), keyId, secret)
  {
  }

  predicate CanRotateCodes(d: Disk, keyId: string) {
    && Codes in d && d[Codes].CodesJson?
    && var c := d[Codes].codes;
    c.version == 1 && c.active != "" && 0 < |c.keys| < MAX_CODE_KEYS && keyId != ""
  }

  /** Rotating codes keeps every earlier secret exactly when the drawn key id is not one already in use. */
  lemma CodesNeverDropped(c: CodeManifest, keyId: string, secret: int)
    requires LoadsCodes(c) && |c.keys| < MAX_CODE_KEYS && keyId != ""
    ensures var c' := RotateCodes(c, keyId, secret);
            && LoadsCodes(c') && c'.active == keyId && c.keys.Keys <= c'.keys.Keys
            && ((forall k :: k in c.keys ==> c'.keys[k] == c.keys[k]) <==>
                  (keyId !in c.keys || c.keys[keyId] == secret))
  {
    var c' := RotateCodes(c, keyId, secret);
    assert c'.keys.Keys == c.keys.Keys + {keyId};
  }

  /** From a whole disk only a full manifest, an unsupported algorithm or a used id stands in the way of a rotation. */
  lemma WholeCanRotate(d: Disk, algorithm: Algorithm, publishFor: int, now: int, kid: string)
    requires Whole(d) && Signing in d
    ensures CanRotate(d, algorithm, publishFor, now, kid) <==>
              algorithm != ES256K && |d[Signing].manifest.keys| < 32 && Pem("signing-" + kid + ".pem") !in d
  {
    var m := d[Signing].manifest;
    if algorithm != ES256K {
      SoundIsRotatable(m, algorithm);
      if Rotatable(m, algorithm) && Pem(NewKey(algorithm, kid).file) !in d {
        RotatedIsWhole(d, m, algorithm, publishFor, now, kid);
      }
    }
  }

  /** From a whole disk only a full code manifest stands in the way of a code rotation. */
  lemma WholeCanRotateCodes(d: Disk, keyId: string, secret: int)
    requires Whole(d) && Codes in d && keyId != ""
    ensures CanRotateCodes(d, keyId) && LoadsCodes(RotateCodes(d[Codes].codes, keyId, secret)) <==>
              |d[Codes].codes.keys| < 16
  {
    if |d[Codes].codes.keys| < 16 { CodesNeverDropped(d[Codes].codes, keyId, secret); }
  }

  /** A key file first, then the manifest that names it: safe wherever the crash falls. */
  lemma RotationCrashSafe(h: seq<Disk>, n: nat, mid: nat, before: Disk, pem: Path, next: Content)
    requires n <= mid <= |h| && pem.Pem? && pem !in before && Signing in before
    requires Whole(before) && Whole(before[pem := PrivateKey][Signing := next])
    requires forall i :: n <= i < mid ==> h[i] - {pem} == before
    requires var middle := before[pem := PrivateKey];
             forall i :: mid <= i < |h| ==> Agree(h[i], middle) || Agree(h[i], middle[Signing := next])
    ensures Evolves(h, n, before)
  {
    var middle := before[pem := PrivateKey];
    assert middle - {pem} == before;
    NewFileWhole(middle, before, pem);
    SameKeeps(before, middle);
    SameKeeps(before, middle[Signing := next]);
    forall i | n <= i < |h| ensures Whole(h[i]) && Keeps(before, h[i]) {
      if i < mid {
        NewFileWhole(h[i], before, pem);
        NewFileKeeps(before, h[i], pem);
      } else {
        AgreeWhole(h[i], if Agree(h[i], middle) then middle else middle[Signing := next]);
        AgreeKeeps(before, h[i], if Agree(h[i], middle) then middle else middle[Signing := next]);
      }
    }
  }

  /** The crash points of a rotation: key file up to mid, then the manifest, renamed in the last step if at all. */
  ghost predicate RotationTrace(h: seq<Disk>, n: nat, mid: nat, before: Disk, pem: Path, next: Content, ok: bool) {
    var middle := before[pem := PrivateKey];
    && n <= mid <= |h| && (ok ==> mid < |h|)
    && (forall i :: n <= i < mid ==> h[i] - {pem} == before)
    && (forall i :: mid <= i < |h| ==> Agree(h[i], if ok && i == |h| - 1 then middle[Signing := next] else middle))
  }

  lemma RotationSwitches(h: seq<Disk>, n: nat, mid: nat, before: Disk, pem: Path, next: Content, ok: bool)
    requires pem.Pem? && pem !in before && RotationTrace(h, n, mid, before, pem, next, ok)
    ensures Switch(h, n, if ok then |h| - 1 else |h|, Signing, Slot(before, Signing), {next})
  {
    forall i | n <= i < |h|
      ensures Slot(h[i], Signing) == if ok && i == |h| - 1 then {next} else Slot(before, Signing)
    {
      if i < mid { assert Signing in h[i] - {pem} <==> Signing in h[i]; }
    }
  }

  lemma RotationSafe(before: Disk, h: seq<Disk>, n: nat, mid: nat, ok: bool,
                     algorithm: Algorithm, publishFor: int, now: int, kid: string)
    requires Whole(before) && Signing in before && Rotatable(before[Signing].manifest, algorithm)
    requires Pem(NewKey(algorithm, kid).file) !in before
    requires RotationTrace(h, n, mid, before, Pem(NewKey(algorithm, kid).file),
                           SigningJson(Rotate(before[Signing].manifest, algorithm, publishFor, now, kid)), ok)
    ensures var pem := Pem(NewKey(algorithm, kid).file);
            var next := SigningJson(Rotate(before[Signing].manifest, algorithm, publishFor, now, kid));
            && Evolves(h, n, before)
            && Whole(before[pem := PrivateKey]) && Whole(before[pem := PrivateKey][Signing := next])
  {
    var pem := Pem(NewKey(algorithm, kid).file);
    var next := SigningJson(Rotate(before[Signing].manifest, algorithm, publishFor, now, kid));
    RotatedIsWhole(before, before[Signing].manifest, algorithm, publishFor, now, kid);
    assert before[pem := PrivateKey] - {pem} == before;
    NewFileWhole(before[pem := PrivateKey], before, pem);
    RotationCrashSafe(h, n, mid, before, pem, next);
  }

  const GENERATED: seq<Algorithm> := [RS256, ES256, EdDSA]

  function FirstManifest(kids: seq<string>): Manifest
    requires |kids| == 3
  {
    Manifest(1, [NewKey(RS256, kids[0]), NewKey(ES256, kids[1]), NewKey(EdDSA, kids[2])])
  }

  lemma OneActiveEach(a: Key, b: Key, c: Key, g: Algorithm)
    requires a.algorithm == RS256 && b.algorithm == ES256 && c.algorithm == EdDSA && a.active && b.active && c.active
    ensures g != ES256K ==> Actives([a, b, c], g) == 1
  {
    assert [] + [a] == [a] && [a] + [b] == [a, b] && [a, b] + [c] == [a, b, c];
    ActivesSnoc([], a, g);
    ActivesSnoc([a], b, g);
    ActivesSnoc([a, b], c, g);
  }

  lemma FirstIsSound(kids: seq<string>)
    requires |kids| == 3 && kids[0] != kids[1] && kids[0] != kids[2] && kids[1] != kids[2]
    ensures Sound(FirstManifest(kids)) && FilesNamedByKid(FirstManifest(kids).keys)
  {
    var a, b, c := NewKey(RS256, kids[0]), NewKey(ES256, kids[1]), NewKey(EdDSA, kids[2]);
    forall g: Algorithm ensures g != ES256K ==> Actives([a, b, c], g) == 1 {
      OneActiveEach(a, b, c, g);
    }
    assert DistinctKids([a, b, c]);
  }

  /** The key file a generated key of this id is written to. */
  function PemOf(kid: string): Path {
    Pem(NewKey(RS256, kid).file)
  }

  lemma PemInjective(a: string, b: string)
    requires PemOf(a) == PemOf(b)
    ensures a == b
  {
    var f, g := PemOf(a).name, PemOf(b).name;
    assert f[8..|f| - 4] == a && g[8..|g| - 4] == b;
  }

  /** The disk with the first i generated key files added. */
  function WithKeys(d: Disk, kids: seq<string>, i: nat): Disk
    requires i <= |kids|
  {
    if i == 0 then d else WithKeys(d, kids, i - 1)[PemOf(kids[i - 1]) := PrivateKey]
  }

  predicate Drawn(kids: seq<string>, i: nat, p: Path) {
    exists j :: 0 <= j < i && j < |kids| && p == PemOf(kids[j])
  }

  lemma {:induction false} WithKeysHas(d: Disk, kids: seq<string>, i: nat, p: Path)
    requires i <= |kids|
    ensures p in WithKeys(d, kids, i) <==> p in d || Drawn(kids, i, p)
    ensures p in WithKeys(d, kids, i) ==>
              WithKeys(d, kids, i)[p] == if Drawn(kids, i, p) then PrivateKey else d[p]
  {
    if i > 0 {
      WithKeysHas(d, kids, i - 1, p);
      assert p == PemOf(kids[i - 1]) ==> Drawn(kids, i, p);
      assert Drawn(kids, i - 1, p) ==> Drawn(kids, i, p);
    }
  }

  /** The drawn ids differ, and none has a key file yet. */
  predicate Unused(d: Disk, kids: seq<string>) {
    && (forall j :: 0 <= j < |kids| ==> PemOf(kids[j]) !in d)
    && (forall j, k :: 0 <= j < k < |kids| ==> kids[j] != kids[k])
  }

  lemma UnusedStep(d: Disk, kids: seq<string>, i: nat)
    requires i < |kids| && Unused(d, kids[..i])
    ensures PemOf(kids[i]) !in WithKeys(d, kids, i) <==> Unused(d, kids[..i + 1])
  {
    WithKeysHas(d, kids, i, PemOf(kids[i]));
    if Drawn(kids, i, PemOf(kids[i])) {
      var j :| 0 <= j < i && PemOf(kids[i]) == PemOf(kids[j]);
      PemInjective(kids[i], kids[j]);
      assert kids[..i + 1][j] == kids[..i + 1][i];
    } else if PemOf(kids[i]) !in d {
      forall j | 0 <= j < i ensures kids[j] != kids[i] {
        assert kids[j] == kids[i] ==> Drawn(kids, i, PemOf(kids[i]));
      }
    } else {
      assert kids[..i + 1][i] == kids[i];
    }
  }

  lemma UnusedPrefix(d: Disk, kids: seq<string>, i: nat)
    requires i <= |kids| && Unused(d, kids)
    ensures Unused(d, kids[..i])
  {
  }

  lemma FirstKeyFiles(d: Disk, kids: seq<string>)
    requires |kids| == 3
    ensures HasKeyFiles(WithKeys(d, kids, 3), FirstManifest(kids).keys)
  {
    var keys := FirstManifest(kids).keys;
    forall i | 0 <= i < 3
      ensures Pem(keys[i].file) in WithKeys(d, kids, 3) && WithKeys(d, kids, 3)[Pem(keys[i].file)] == PrivateKey
    {
      assert Pem(keys[i].file) == PemOf(kids[i]);
      assert Drawn(kids, 3, PemOf(kids[i]));
      WithKeysHas(d, kids, 3, PemOf(kids[i]));
    }
  }

  /** A code key id is drawn with a fixed prefix, so it is never empty. */
  type KeyId = s: string | s != "" witness "code"

  datatype Command =
    | Init(rsaKid: string, ecKid: string, edKid: string, codeId: KeyId, secret: int)
    | RotateSigningKey(algorithm: Algorithm, ttl: int, publishFor: int, now: int, kid: string)
    | RotateCodeKey(keyId: KeyId, secret: int)

  function Kids(command: Command): seq<string>
    requires command.Init?
  {
    [command.rsaKid, command.ecKid, command.edKid]
  }

  predicate AllWell(faults: seq<Fault>)
    requires |faults| == 6
  {
    faults[0] == faults[1] == faults[2] == faults[3] == faults[4] == faults[5] == NoFault
  }

  predicate Uninitialised(d: Disk) {
    Signing !in d && Codes !in d && Pepper !in d
  }

  function FirstCodes(codeId: KeyId, secret: int): CodeManifest {
    CodeManifest(1, codeId, map[codeId := secret])
  }

  /** When a command goes through, apart from the lock. */
  ghost predicate Succeeds(command: Command, d: Disk, faults: seq<Fault>)
    requires |faults| == 6
  {
    match command
    case Init(_, _, _, _, _) => Uninitialised(d) && Unused(d, Kids(command)) && AllWell(faults)
    case RotateSigningKey(algorithm, ttl, publishFor, now, kid) =>
      && WindowAllowed(ttl, publishFor) && CanRotate(d, algorithm, publishFor, now, kid)
      && faults[0] == faults[1] == NoFault
    case RotateCodeKey(keyId, secret) =>
      CanRotateCodes(d, keyId) && faults[0] == NoFault && LoadsCodes(RotateCodes(d[Codes].codes, keyId, secret))
  }

  /** What a successful command made of the two manifests. */
  ghost predicate Applied(command: Command, before: Disk, after: Disk) {
    match command
    case Init(_, _, _, codeId, secret) =>
      && Slot(after, Signing) == {SigningJson(FirstManifest(Kids(command)))}
      && Slot(after, Codes) == {CodesJson(CodeManifest(1, codeId, map[codeId := secret]))}
      && Slot(after, Pepper) == {Secret}
    case RotateSigningKey(algorithm, ttl, publishFor, now, kid) =>
      && Signing in before && before[Signing].SigningJson?
      && Slot(after, Signing) == {SigningJson(Rotate(before[Signing].manifest, algorithm, publishFor, now, kid))}
      && Slot(after, Codes) == Slot(before, Codes)
    case RotateCodeKey(keyId, secret) =>
      && Codes in before && before[Codes].CodesJson? && Codes in after && after[Codes].CodesJson?
      && CodeRotated(before[Codes].codes, after[Codes].codes, keyId, secret)
      && Slot(after, Signing) == Slot(before, Signing)
  }

  /** The command may put this signing manifest in place of what is there. */
  ghost predicate Replaces(command: Command, before: Disk, m: Manifest) {
    match command
    case Init(_, _, _, _, _) => Signing !in before && Unused(before, Kids(command)) && m == FirstManifest(Kids(command))
    case RotateSigningKey(algorithm, ttl, publishFor, now, kid) =>
      && WindowAllowed(ttl, publishFor) && PemOf(kid) !in before
      && Signing in before && before[Signing].SigningJson? && Rotatable(before[Signing].manifest, algorithm)
      && m == Rotate(before[Signing].manifest, algorithm, publishFor, now, kid)
    case RotateCodeKey(_, _) => false
  }

  /** The signing manifest along the crash points since n: the old one, then perhaps the one the command makes. */
  ghost predicate SigningSwitch(h: seq<Disk>, n: nat, m: nat, command: Command, before: Disk, next: Manifest) {
    && Switch(h, n, m, Signing, Slot(before, Signing), {SigningJson(next)})
    && (m < |h| ==> Replaces(command, before, next))
  }

  /** No manifest changed. */
  ghost predicate Untouched(before: Disk, after: Disk) {
    Slot(after, Signing) == Slot(before, Signing) && Slot(after, Codes) == Slot(before, Codes)
  }

  /** The same files, the lock aside. */
  lemma LockAside(d: Disk, e: Disk)
    requires d == e - {Lock}
    ensures Whole(d) <==> Whole(e)
    ensures Keeps(e, d) && Keeps(d, e)
    ensures Slot(d, Signing) == Slot(e, Signing) && Slot(d, Codes) == Slot(e, Codes)
    ensures Slot(d, Pepper) == Slot(e, Pepper)
    ensures Uninitialised(d) <==> Uninitialised(e)
  {
    assert forall p: Path :: p != Lock ==> Slot(d, p) == Slot(e, p);
  }

  lemma KeepsTransitive(a: Disk, b: Disk, c: Disk)
    requires Keeps(a, b) && Keeps(b, c)
    ensures Keeps(a, c)
  {
  }

  /** The lock file changes nothing about what a command will do. */
  lemma SucceedsLocked(command: Command, d: Disk, faults: seq<Fault>)
    requires |faults| == 6 && Lock !in d
    ensures Succeeds(command, d[Lock := Secret], faults) <==> Succeeds(command, d, faults)
    ensures forall m :: Replaces(command, d[Lock := Secret], m) <==> Replaces(command, d, m)
  {
    if command.RotateSigningKey? && Signing in d && d[Signing].SigningJson? {
      var pem := Pem(NewKey(command.algorithm, command.kid).file);
      var m := Rotate(d[Signing].manifest, command.algorithm, command.publishFor, command.now, command.kid);
      assert HasKeyFiles(d[Lock := Secret][pem := PrivateKey], m.keys) <==> HasKeyFiles(d[pem := PrivateKey], m.keys);
    }
  }

  /** Some temporary name is always unused. */
  lemma {:induction false} SpareTemps(d: Disk) returns (n: nat)
    ensures forall m: nat :: m >= n ==> Temp(m) !in d
    decreases |d|
  {
    n := 0;
    if p: Path :| p in d {
      assert |(d - {p}).Keys| < |d.Keys| by { assert (d - {p}).Keys == d.Keys - {p}; }
      n := SpareTemps(d - {p});
      if p.Temp? && n <= p.tag { n := p.tag + 1; }
      assert forall m: nat :: m >= n ==> Temp(m) !in d - {p};
    }
  }

  class Directory {
    var disk: Disk
    var history: seq<Disk>

    constructor (found: Disk)
      ensures disk == found && history == [found]
    {
      disk, history := found, [found];
    }

    method Put(path: Path, content: Content)
      modifies this
      ensures disk == old(disk)[path := content] && history == old(history) + [disk]
    {
      disk := disk[path := content];
      history := history + [disk];
    }

    method Remove(path: Path)
      modifies this
      ensures disk == old(disk) - {path} && history == old(history) + [disk]
    {
      disk := disk - {path};
      history := history + [disk];
    }

    /** O_EXCL create, write, sync; on failure the half-written file is removed. */
    method WriteExclusive(path: Path, content: Content, fault: Fault) returns (ok: bool)
      modifies this
      ensures old(history) <= history
      ensures ok <==> path !in old(disk) && fault == NoFault
      ensures disk == if ok then old(disk)[path := content] else old(disk)
      ensures path in old(disk) ==> history == old(history)
      ensures forall i :: |old(history)| <= i < |history| ==> history[i] - {path} == old(disk)
    {
      if path in disk || fault == AtOpen { return false; }
      ghost var before := disk;
      Put(path, Partial);
      assert disk - {path} == before;
      if fault == AtWrite {
        Remove(path);
        assert disk == before && disk - {path} == before;
        return false;
      }
      Put(path, content);
      assert disk == before[path := content] && disk - {path} == before;
      return true;
    }

    /** Temporary file, write, sync, validate, rename over the manifest. */
    method WriteValidated(path: Path, content: Content, tag: nat, valid: bool, fault: Fault) returns (ok: bool)
      requires Temp(tag) !in disk && !path.Temp?
      modifies this
      ensures old(history) <= history
      ensures ok <==> valid && fault == NoFault
      ensures disk == if ok then old(disk)[path := content] else old(disk)
      ensures ok ==> |history| > |old(history)|
      ensures forall i :: |old(history)| <= i < |history| ==>
                Agree(history[i], if ok && i == |history| - 1 then old(disk)[path := content] else old(disk))
    {
      if fault == AtOpen { return false; }
      ghost var before := disk;
      TempAside(before, tag, Partial);
      TempAside(before, tag, content);
      Put(Temp(tag), Partial);
      if fault == AtWrite {
        Remove(Temp(tag));
        return false;
      }
      Put(Temp(tag), content);
      assert disk == before[Temp(tag) := content];
      if !valid {
        Remove(Temp(tag));
        return false;
      }
      // rename(2): one step from the old manifest to the new one
      disk := disk[path := content] - {Temp(tag)};
      history := history + [disk];
      assert disk == before[path := content];
      return true;
    }

    /** The two writes of a rotation: the key file up to history position mid, then the manifest. */
    method WriteRotation(m: Manifest, key: Key, tag: nat, keyFault: Fault, manifestFault: Fault)
      returns (ok: bool, ghost mid: nat)
      requires Temp(tag) !in disk
      modifies this
      ensures old(history) <= history
      ensures var pem := Pem(key.file);
              && (ok <==> pem !in old(disk) && LoadsSigning(old(disk)[pem := PrivateKey], m)
                          && keyFault == manifestFault == NoFault)
              && (disk == if ok then old(disk)[pem := PrivateKey][Signing := SigningJson(m)]
                          else if pem !in old(disk) && keyFault == NoFault then old(disk)[pem := PrivateKey]
                          else old(disk))
              && (pem in old(disk) ==> history == old(history))
              && RotationTrace(history, |old(history)|, mid, old(disk), pem, SigningJson(m), ok)
    {
      ok := WriteExclusive(Pem(key.file), PrivateKey, keyFault);
      mid := |history|;
      ghost var first := history;
      assert forall i :: |old(history)| <= i < mid ==> first[i] - {Pem(key.file)} == old(disk);
      if ok {
        ok := WriteValidated(Signing, SigningJson(m), tag, LoadsSigning(disk, m), manifestFault);
      }
    }

    /** The new key and the manifest with it, once the old manifest has been scanned. */
    method WriteRotated(m: Manifest, algorithm: Algorithm, publishFor: int, now: int, kid: string, tag: nat,
                        keyFault: Fault, manifestFault: Fault) returns (ok: bool)
      requires Temp(tag) !in disk && Signing in disk && disk[Signing].SigningJson?
      requires Rotatable(disk[Signing].manifest, algorithm)
      requires m == Rotate(disk[Signing].manifest, algorithm, publishFor, now, kid)
      modifies this
      ensures old(history) <= history && (ok ==> |history| > |old(history)|)
      ensures ok <==> CanRotate(old(disk), algorithm, publishFor, now, kid) && keyFault == manifestFault == NoFault
      ensures ok ==> disk == old(disk)[Pem(NewKey(algorithm, kid).file) := PrivateKey][Signing := SigningJson(m)]
      ensures !ok ==> Slot(disk, Signing) == Slot(old(disk), Signing)
      ensures Temp(tag) !in disk && Slot(disk, Codes) == Slot(old(disk), Codes) && Keeps(old(disk), disk)
      ensures Whole(old(disk)) ==> Whole(disk) && Evolves(history, |old(history)|, old(disk))
      ensures Switch(history, |old(history)|, if ok then |history| - 1 else |history|, Signing,
                     Slot(old(disk), Signing), {SigningJson(m)})
    {
      ghost var before, n := disk, |history|;
      var key := NewKey(algorithm, kid);
      ghost var mid;
      ok, mid := WriteRotation(m, key, tag, keyFault, manifestFault);
      SameKeeps(before, disk);
      if Pem(key.file) !in before {
        RotationSwitches(history, n, mid, before, Pem(key.file), SigningJson(m), ok);
        if Whole(before) { RotationSafe(before, history, n, mid, ok, algorithm, publishFor, now, kid); }
      }
    }

    method RotateSigning(algorithm: Algorithm, publishFor: int, now: int, kid: string, tag: nat,
                         keyFault: Fault, manifestFault: Fault) returns (ok: bool)
      requires Temp(tag) !in disk
      modifies this
      ensures old(history) <= history && (ok ==> |history| > |old(history)|)
      ensures ok <==> CanRotate(old(disk), algorithm, publishFor, now, kid) && keyFault == manifestFault == NoFault
      ensures ok ==> var m := Rotate(old(disk)[Signing].manifest, algorithm, publishFor, now, kid);
                     disk == old(disk)[Pem(NewKey(algorithm, kid).file) := PrivateKey][Signing := SigningJson(m)]
      ensures !ok ==> Slot(disk, Signing) == Slot(old(disk), Signing)
      ensures Temp(tag) !in disk && Slot(disk, Codes) == Slot(old(disk), Codes) && Keeps(old(disk), disk)
      ensures Whole(old(disk)) ==> Whole(disk) && Evolves(history, |old(history)|, old(disk))
      ensures Switch(history, |old(history)|, if ok then |history| - 1 else |history|, Signing,
                     Slot(old(disk), Signing), Slot(disk, Signing))
    {
      SameKeeps(disk, disk);
      if algorithm == ES256K || Signing !in disk || !disk[Signing].SigningJson? { return false; }
      var m := disk[Signing].manifest;
      if m.version != 1 || |m.keys| == 0 || |m.keys| >= MAX_SIGNING_KEYS { return false; }
      var scan := ScanKeys(m.keys, algorithm, publishFor, now);
      if scan.Refused? { return false; }
      ok := WriteRotated(m.(keys := scan.kept + [NewKey(algorithm, kid)]), algorithm, publishFor, now, kid, tag,
                         keyFault, manifestFault);
    }

    method RotateCode(keyId: string, secret: int, tag: nat, fault: Fault) returns (ok: bool)
      requires Temp(tag) !in disk
      modifies this
      ensures old(history) <= history && (ok ==> |history| > |old(history)|)
      ensures ok <==> CanRotateCodes(old(disk), keyId) && fault == NoFault
                      && LoadsCodes(RotateCodes(old(disk)[Codes].codes, keyId, secret))
      ensures ok ==> disk == old(disk)[Codes := CodesJson(RotateCodes(old(disk)[Codes].codes, keyId, secret))]
                     && CodeRotated(old(disk)[Codes].codes, disk[Codes].codes, keyId, secret)
      ensures !ok ==> disk == old(disk)
      ensures Whole(old(disk)) ==>
                Whole(disk) && Keeps(old(disk), disk) && Evolves(history, |old(history)|, old(disk))
      ensures Switch(history, |old(history)|, if ok then |history| - 1 else |history|, Codes,
                     Slot(old(disk), Codes), Slot(disk, Codes))
      ensures Switch(history, |old(history)|, |history|, Signing, Slot(old(disk), Signing), {})
    {
      if Codes !in disk || !disk[Codes].CodesJson? || keyId == "" { return false; }
      var c := disk[Codes].codes;
      if c.version != 1 || c.active == "" || |c.keys| == 0 || |c.keys| >= MAX_CODE_KEYS { return false; }
      var c' := CodeManifest(c.version, keyId, c.keys[keyId := secret]);
      ghost var before, after := disk, disk[Codes := CodesJson(c')];
      RotateCodesExactly(c, keyId, secret);
      ok := WriteValidated(Codes, CodesJson(c'), tag, LoadsCodes(c'), fault);
      if Whole(before) {
        CodesNeverDropped(c, keyId, secret);
        assert Whole(after) && Keeps(before, after) && Keeps(before, before);
        forall i | |old(history)| <= i < |history| ensures Whole(history[i]) && Keeps(before, history[i]) {
          AgreeWhole(history[i], if Agree(history[i], before) then before else after);
          AgreeKeeps(before, history[i], if Agree(history[i], before) then before else after);
        }
      }
    }

    /** From an empty directory: three keys, the signing manifest, the code manifest, the pepper, in that order. */
    method Initialize(kids: seq<string>, codeId: KeyId, secret: int, tag: nat, faults: seq<Fault>)
      returns (ok: bool, ghost mid: nat)
      requires |kids| == 3 && |faults| == 6 && Temp(tag) !in disk
      modifies this
      ensures old(history) <= history && Temp(tag) !in disk
      ensures !Uninitialised(old(disk)) ==> disk == old(disk) && history == old(history)
      ensures ok <==> Uninitialised(old(disk)) && Unused(old(disk), kids) && AllWell(faults)
      ensures ok ==> disk == WithKeys(old(disk), kids, 3)[Signing := SigningJson(FirstManifest(kids))]
                               [Codes := CodesJson(CodeManifest(1, codeId, map[codeId := secret]))][Pepper := Secret]
      ensures Whole(old(disk)) ==>
                Whole(disk) && Keeps(old(disk), disk) && Evolves(history, |old(history)|, old(disk))
      ensures Switch(history, |old(history)|, mid, Signing,
                     Slot(old(disk), Signing), {SigningJson(FirstManifest(kids))})
      ensures Slot(disk, Signing) ==
                if mid < |history| then {SigningJson(FirstManifest(kids))} else Slot(old(disk), Signing)
      ensures mid < |history| ==> Unused(old(disk), kids) && Uninitialised(old(disk))
    {
      ok, mid := false, |history|;
      SameKeeps(disk, disk);
      if Signing in disk || Codes in disk || Pepper in disk { return; }
      ghost var before := disk;
      var generated := GenerateAll(kids, tag, faults);
      mid := |history|;
      if !generated { return; }
      ghost var between, h := disk, history;
      FirstKeyFiles(before, kids);
      ok, mid := WriteInitial(kids, codeId, secret, tag, faults);
      EvolvesOn(h, history, |old(history)|, before, between);
      SwitchOn(h, history, |old(history)|, mid, {SigningJson(FirstManifest(kids))});
      KeepsTransitive(before, between, disk);
    }

    /** What follows the three keys; the pepper is loaded once more at the end. */
    method WriteInitial(kids: seq<string>, codeId: KeyId, secret: int, tag: nat, faults: seq<Fault>)
      returns (ok: bool, ghost mid: nat)
      requires |kids| == 3 && |faults| == 6 && Uninitialised(disk) && Temp(tag) !in disk
      requires HasKeyFiles(disk, FirstManifest(kids).keys) && forall j, k :: 0 <= j < k < 3 ==> kids[j] != kids[k]
      modifies this
      ensures old(history) <= history && Whole(disk) && Temp(tag) !in disk
      ensures Keeps(old(disk), disk) && Evolves(history, |old(history)|, old(disk))
      ensures ok <==> faults[3] == faults[4] == faults[5] == NoFault
      ensures ok ==> disk == old(disk)[Signing := SigningJson(FirstManifest(kids))]
                               [Codes := CodesJson(FirstCodes(codeId, secret))][Pepper := Secret]
      ensures Switch(history, |old(history)|, mid, Signing, {}, {SigningJson(FirstManifest(kids))})
      ensures Slot(disk, Signing) == if mid < |history| then {SigningJson(FirstManifest(kids))} else {}
    {
      FirstIsSound(kids);
      SoundLoads(disk, FirstManifest(kids));
      var codes := FirstCodes(codeId, secret);
      assert codes.keys.Keys == {codeId};
      ok, mid := WriteFirstManifests(FirstManifest(kids), codes, tag, faults[3], faults[4], faults[5]);
      ok := ok && disk[Pepper] == Secret;
    }

    /** One private key file per algorithm; a repeated key id hits the exclusive create. */
    method GenerateAll(kids: seq<string>, tag: nat, faults: seq<Fault>) returns (ok: bool)
      requires |kids| == 3 && |faults| == 6 && Temp(tag) !in disk && Uninitialised(disk)
      modifies this
      ensures old(history) <= history && Uninitialised(disk) && Temp(tag) !in disk
      ensures ok <==> Unused(old(disk), kids) && faults[0] == faults[1] == faults[2] == NoFault
      ensures ok ==> disk == WithKeys(old(disk), kids, 3)
      ensures Keeps(old(disk), disk) && Evolves(history, |old(history)|, old(disk))
      ensures Switch(history, |old(history)|, |history|, Signing, {}, {})
    {
      ghost var before := disk;
      SameKeeps(before, before);
      for i := 0 to 3
        invariant old(history) <= history && disk == WithKeys(before, kids, i)
        invariant Uninitialised(disk) && Temp(tag) !in disk
        invariant Unused(before, kids[..i]) && forall j :: 0 <= j < i ==> faults[j] == NoFault
        invariant Keeps(before, disk) && Evolves(history, |old(history)|, before)
        invariant Switch(history, |old(history)|, |history|, Signing, {}, {})
      {
        var written := GenerateKey(kids[i], GENERATED[i], tag, faults[i], before, |old(history)|);
        UnusedStep(before, kids, i);
        if !written {
          if Unused(before, kids) { UnusedPrefix(before, kids, i + 1); }
          return false;
        }
      }
      assert kids[..3] == kids;
      ok := true;
    }

    /** generateSigningKey, with what it adds to a stretch that began at n from an uninitialised disk. */
    method GenerateKey(kid: string, algorithm: Algorithm, ghost tag: nat, fault: Fault,
                       ghost before: Disk, ghost n: nat)
      returns (ok: bool)
      requires Uninitialised(disk) && Temp(tag) !in disk && n <= |history|
      requires Keeps(before, disk) && Evolves(history, n, before) && Switch(history, n, |history|, Signing, {}, {})
      modifies this
      ensures old(history) <= history
      ensures ok <==> PemOf(kid) !in old(disk) && fault == NoFault
      ensures disk == if ok then old(disk)[PemOf(kid) := PrivateKey] else old(disk)
      ensures Uninitialised(disk) && Temp(tag) !in disk
      ensures Keeps(before, disk) && Evolves(history, n, before) && Switch(history, n, |history|, Signing, {}, {})
    {
      var key := NewKey(algorithm, kid);
      assert Pem(key.file) == PemOf(kid);
      ghost var d, h := disk, history;
      ok := WriteExclusive(Pem(key.file), PrivateKey, fault);
      forall i | |h| <= i < |history|
        ensures Whole(history[i]) && Keeps(d, history[i]) && Slot(history[i], Signing) == {}
      {
        NewFileWhole(history[i], d, PemOf(kid));
        NewFileKeeps(d, history[i], PemOf(kid));
      }
      EvolvesOn(h, history, n, before, d);
    }

    method WriteFirstManifests(m: Manifest, codes: CodeManifest, tag: nat, f: Fault, g: Fault, p: Fault)
      returns (ok: bool, ghost mid: nat)
      requires Uninitialised(disk) && Temp(tag) !in disk
      requires Sound(m) && HasKeyFiles(disk, m.keys) && FilesNamedByKid(m.keys)
      requires LoadsSigning(disk, m) && LoadsCodes(codes)
      modifies this
      ensures old(history) <= history && Whole(disk) && Temp(tag) !in disk
      ensures Keeps(old(disk), disk) && Evolves(history, |old(history)|, old(disk))
      ensures ok <==> f == g == p == NoFault
      ensures ok ==> disk == old(disk)[Signing := SigningJson(m)][Codes := CodesJson(codes)][Pepper := Secret]
      ensures Switch(history, |old(history)|, mid, Signing, {}, {SigningJson(m)})
      ensures Slot(disk, Signing) == if mid < |history| then {SigningJson(m)} else {}
    {
      ghost var d0, d1 := disk, disk[Signing := SigningJson(m)];
      ghost var d2, h0 := d1[Codes := CodesJson(codes)], history;
      assert Whole(d0) && Whole(d1) && Whole(d2) && Keeps(d0, d0) && Keeps(d0, d1) && Keeps(d0, d2);
      ok := WriteValidated(Signing, SigningJson(m), tag, LoadsSigning(disk, m), f);
      mid := if ok then |history| - 1 else |history|;
      ghost var h1 := history;
      StretchAgrees(h1, |h0|, d0, d0, d1);
      if !ok { return; }
      ok := WriteValidated(Codes, CodesJson(codes), tag, LoadsCodes(codes), g);
      ghost var h2 := history;
      StretchAgrees(h2, |h1|, d0, d1, d2);
      if !ok { return; }
      ok := WriteExclusive(Pepper, Secret, p);
      forall i | |h2| <= i < |history|
        ensures Whole(history[i]) && Keeps(d0, history[i]) && Slot(history[i], Signing) == {SigningJson(m)}
      {
        NewFileWhole(history[i], d2, Pepper);
        NewFileKeeps(d2, history[i], Pepper);
        KeepsTransitive(d0, d2, history[i]);
      }
    }

    /**
     run(): one process at a time; the window is checked before anything is read; the lock goes last. At
     every crash point the signing manifest is the old one, or from position mid on the one the command makes.
     */
    method Run(command: Command, tag: nat, faults: seq<Fault>) returns (ok: bool, ghost mid: nat, ghost next: Manifest)
      requires |faults| == 6 && Temp(tag) !in disk
      modifies this
      ensures old(history) <= history && Temp(tag) !in disk
      ensures Lock in old(disk) ==> disk == old(disk) && history == old(history)
      ensures Lock !in old(disk) ==> Lock !in disk
      ensures ok <==> Lock !in old(disk) && Succeeds(command, old(disk), faults)
      ensures ok ==> Applied(command, old(disk), disk)
      ensures !ok && !command.Init? ==> Untouched(old(disk), disk)
      ensures Whole(old(disk)) ==>
                Whole(disk) && Keeps(old(disk), disk) && Evolves(history, |old(history)|, old(disk))
      ensures SigningSwitch(history, |old(history)|, mid, command, old(disk), next)
      ensures Slot(disk, Signing) == if mid < |history| then {SigningJson(next)} else Slot(old(disk), Signing)
    {
      ok, mid, next := false, |history|, Manifest(0, []);
      SameKeeps(disk, disk);
      if Lock in disk { return; }
      ghost var before, h0 := disk, history;
      Put(Lock, Secret);
      ghost var locked := disk;
      assert locked - {Lock} == before;
      LockAside(before, locked);
      SucceedsLocked(command, before, faults);
      ok, mid, next := Dispatch(command, tag, faults);
      ghost var done, h2 := disk, history;
      Remove(Lock);
      LockAside(disk, done);
      AppliedAside(command, before, locked, done, disk);
      AroundSwitch(h0, h2, history, mid, before, locked, done, disk, next);
      if Whole(before) { AroundEvolves(h0, h2, history, before, locked, done, disk); }
      if mid == |h2| { mid := |history|; }
    }

    method Dispatch(command: Command, tag: nat, faults: seq<Fault>)
      returns (ok: bool, ghost mid: nat, ghost next: Manifest)
      requires |faults| == 6 && Temp(tag) !in disk
      modifies this
      ensures old(history) <= history && Temp(tag) !in disk
      ensures ok <==> Succeeds(command, old(disk), faults)
      ensures ok ==> Applied(command, old(disk), disk)
      ensures !ok && !command.Init? ==> Untouched(old(disk), disk)
      ensures Whole(old(disk)) ==>
                Whole(disk) && Keeps(old(disk), disk) && Evolves(history, |old(history)|, old(disk))
      ensures SigningSwitch(history, |old(history)|, mid, command, old(disk), next)
      ensures Slot(disk, Signing) == if mid < |history| then {SigningJson(next)} else Slot(old(disk), Signing)
    {
      ok, mid, next := false, |history|, Manifest(0, []);
      SameKeeps(disk, disk);
      match command
      case Init(_, _, _, codeId, secret) =>
        next := FirstManifest(Kids(command));
        ok, mid := Initialize(Kids(command), codeId, secret, tag, faults);
      case RotateSigningKey(algorithm, ttl, publishFor, now, kid) =>
        if !WindowAllowed(ttl, publishFor) { return; }
        ghost var before := disk;
        ok := RotateSigning(algorithm, publishFor, now, kid, tag, faults[0], faults[1]);
        mid := if ok then |history| - 1 else |history|;
        if ok {
          next := Rotate(before[Signing].manifest, algorithm, publishFor, now, kid);
          assert Pem(NewKey(algorithm, kid).file) == PemOf(kid);
        }
      case RotateCodeKey(keyId, secret) =>
        ok := RotateCode(keyId, secret, tag, faults[0]);
        mid := |history|;
    }
  }

  lemma SwitchOn(h: seq<Disk>, h': seq<Disk>, n: nat, m: nat, becomes: set<Content>)
    requires h <= h' && Switch(h, n, |h|, Signing, {}, {}) && Switch(h', |h|, m, Signing, {}, becomes)
    ensures Switch(h', n, m, Signing, {}, becomes)
  {
    assert forall i :: n <= i < |h| ==> h'[i] == h[i];
  }

  lemma AppliedAside(command: Command, before: Disk, locked: Disk, done: Disk, after: Disk)
    requires Slot(before, Signing) == Slot(locked, Signing) && Slot(after, Signing) == Slot(done, Signing)
    requires Slot(before, Codes) == Slot(locked, Codes) && Slot(after, Codes) == Slot(done, Codes)
    requires Slot(before, Pepper) == Slot(locked, Pepper) && Slot(after, Pepper) == Slot(done, Pepper)
    ensures Applied(command, locked, done) ==> Applied(command, before, after)
    ensures Untouched(locked, done) ==> Untouched(before, after)
  {
    assert Signing in locked ==> locked[Signing] in Slot(before, Signing);
    assert Codes in locked ==> locked[Codes] in Slot(before, Codes);
    assert Codes in done ==> done[Codes] in Slot(after, Codes);
  }

  /** Taking the lock before and releasing it after leaves the signing manifest alone. */
  lemma AroundSwitch(h0: seq<Disk>, h2: seq<Disk>, h3: seq<Disk>, mid: nat,
                     before: Disk, locked: Disk, done: Disk, after: Disk, next: Manifest)
    requires h0 + [locked] <= h2 && h3 == h2 + [after]
    requires Slot(locked, Signing) == Slot(before, Signing) && Slot(after, Signing) == Slot(done, Signing)
    requires Switch(h2, |h0| + 1, mid, Signing, Slot(locked, Signing), {SigningJson(next)})
    requires Slot(done, Signing) == if mid < |h2| then {SigningJson(next)} else Slot(locked, Signing)
    ensures Switch(h3, |h0|, if mid == |h2| then |h3| else mid, Signing, Slot(before, Signing), {SigningJson(next)})
  {
    assert h2[|h0|] == locked;
  }

  lemma AroundEvolves(h0: seq<Disk>, h2: seq<Disk>, h3: seq<Disk>, before: Disk, locked: Disk, done: Disk, after: Disk)
    requires h0 + [locked] <= h2 && h3 == h2 + [after] && Whole(locked) && Whole(after)
    requires Keeps(before, locked) && Keeps(locked, done) && Keeps(done, after) && Evolves(h2, |h0| + 1, locked)
    ensures Evolves(h3, |h0|, before) && Keeps(before, after)
  {
    KeepsTransitive(before, locked, done);
    KeepsTransitive(before, done, after);
    assert h2[|h0|] == locked;
    EvolvesOn(h0 + [locked], h2, |h0|, before, locked);
  }

  /** Crash points that agree with one of two disks, both whole and keeping everything. */
  lemma StretchAgrees(h: seq<Disk>, n: nat, before: Disk, d: Disk, e: Disk)
    requires forall i :: n <= i < |h| ==> Agree(h[i], d) || Agree(h[i], e)
    requires Whole(d) && Whole(e) && Keeps(before, d) && Keeps(before, e)
    ensures Evolves(h, n, before)
  {
    forall i | n <= i < |h| ensures Whole(h[i]) && Keeps(before, h[i]) {
      AgreeWhole(h[i], if Agree(h[i], d) then d else e);
      AgreeKeeps(before, h[i], if Agree(h[i], d) then d else e);
    }
  }
}
