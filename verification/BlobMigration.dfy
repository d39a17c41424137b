/**
 The offline blob migration: a keyset-paged loop over the distinct object keys still
 on the source backend, which copies, reads back, and only then relabels each object,
 shrinking the very set it pages over. Object keys are represented by their rank in
 the database's collation; 0 is the empty key.
 */
module BlobMigration {
  import opened BlobRange

  type Key = nat
  type Backend = string

  datatype Row = Row(backend: Backend, key: Key, size: int, sha: Bytes)

  /** file_blobs by location_key, and the two object stores. */
  datatype World = World(rows: map<int, Row>, source: map<Key, Bytes>, target: map<Key, Bytes>)

  /** digest is SHA-256; hex maps a digest to the object key it is stored under. */
  datatype Hashing = Hashing(digest: Bytes -> Bytes, hex: Bytes -> Key) {
    ghost predicate CollisionFree() {
      && (forall a, b :: digest(a) == digest(b) ==> a == b)
      && (forall a, b :: hex(a) == hex(b) ==> a == b)
    }
  }

  /** One page entry of ListBlobMigrationObjects. */
  datatype Object = Object(key: Key, size: int, sha: Bytes, locations: nat)

  // ---- the metadata store ----

  function Locations(rows: map<int, Row>, backend: Backend, key: Key): set<int> {
    set l | l in rows && rows[l].backend == backend && rows[l].key == key
  }

  function KeysOn(rows: map<int, Row>, backend: Backend): set<Key> {
    set l | l in rows && rows[l].backend == backend :: rows[l].key
  }

  /** A key's rows agree on size and digest, and the key is the digest's name. */
  predicate Consistent(h: Hashing, rows: map<int, Row>, backend: Backend, key: Key) {
    forall l, m :: l in Locations(rows, backend, key) && m in Locations(rows, backend, key) ==>
      rows[l].size == rows[m].size && rows[l].sha == rows[m].sha && |rows[l].sha| == 32 && h.hex(rows[l].sha) == key
  }

  ghost predicate Describes(h: Hashing, rows: map<int, Row>, backend: Backend, o: Object) {
    && o.key in KeysOn(rows, backend) && o.locations == |Locations(rows, backend, o.key)|
    && (forall l :: l in Locations(rows, backend, o.key) ==> rows[l].size == o.size && rows[l].sha == o.sha)
    && h.hex(o.sha) == o.key
  }

  /** The page entries describe the first keys, in order. */
  ghost predicate Listed(h: Hashing, rows: map<int, Row>, backend: Backend, keys: seq<Key>, page: seq<Object>) {
    |page| <= |keys| && forall i :: 0 <= i < |page| ==> page[i].key == keys[i] && Describes(h, rows, backend, page[i])
  }

  lemma ListedNext(h: Hashing, rows: map<int, Row>, backend: Backend, keys: seq<Key>, page: seq<Object>, o: Object)
    requires Listed(h, rows, backend, keys, page) && |page| < |keys|
    requires o.key == keys[|page|] && Describes(h, rows, backend, o)
    ensures Listed(h, rows, backend, keys, page + [o])
  {
  }

  lemma SomeLocation(rows: map<int, Row>, backend: Backend, key: Key) returns (l: int)
    requires key in KeysOn(rows, backend)
    ensures l in Locations(rows, backend, key)
  {
    l :| l in rows && rows[l].backend == backend && rows[l].key == key;
  }

  function Relabel(rows: map<int, Row>, from: Backend, to: Backend, keys: set<Key>): map<int, Row> {
    map l | l in rows :: if rows[l].backend == from && rows[l].key in keys then rows[l].(backend := to) else rows[l]
  }

  /** The rows are the same but for the backend of those of these keys on the one, which is now the other. */
  ghost predicate RowsMoved(before: map<int, Row>, after: map<int, Row>, from: Backend, to: Backend, keys: set<Key>) {
    && after.Keys == before.Keys
    && (forall l :: l in before ==>
          && after[l].key == before[l].key && after[l].size == before[l].size && after[l].sha == before[l].sha
          && after[l].backend == if before[l].backend == from && before[l].key in keys then to else before[l].backend)
  }

  lemma RelabelMoves(rows: map<int, Row>, from: Backend, to: Backend, keys: set<Key>)
    ensures RowsMoved(rows, Relabel(rows, from, to, keys), from, to, keys)
  {
  }

  function Above(keys: set<Key>, after: Key): set<Key> {
    set k | k in keys && k > after
  }

  function Least(keys: set<Key>): (m: Key)
    requires keys != {}
    ensures m in keys && forall k :: k in keys ==> m <= k
  {
    ghost var x :| x in keys;
    HasLeast(keys, x);
    var m :| m in keys && forall k :: k in keys ==> m <= k;
    m
  }

  lemma {:induction false} HasLeast(keys: set<Key>, x: Key)
    requires x in keys
    ensures exists m :: m in keys && forall k :: k in keys ==> m <= k
    decreases x
  {
    if y: Key :| y in keys && y < x { HasLeast(keys, y); }
  }

  /** `object_key > $after ORDER BY object_key LIMIT $limit` over the distinct keys. */
  function Page(keys: set<Key>, after: Key, limit: nat): seq<Key>
    decreases limit
  {
    if limit == 0 || Above(keys, after) == {} then []
    else
      var m := Least(Above(keys, after));
      [m] + Page(keys, m, limit - 1)
  }

  /** Each entry of a page is the least remaining key above its predecessor. */
  lemma {:induction false} PageStep(keys: set<Key>, after: Key, limit: nat, i: nat)
    requires i < |Page(keys, after, limit)|
    ensures var page := Page(keys, after, limit);
            var prev := if i == 0 then after else page[i - 1];
            page[i] in keys && page[i] > prev && forall k :: k in keys ==> !(prev < k < page[i])
    decreases limit
  {
    var m := Least(Above(keys, after));
    if i == 0 {
      assert forall k :: k in keys && after < k ==> k in Above(keys, after);
    } else {
      PageStep(keys, m, limit - 1, i - 1);
    }
  }

  /** A page is as long as the limit and the remaining keys allow. */
  lemma {:induction false} PageFull(keys: set<Key>, after: Key, limit: nat)
    ensures |Page(keys, after, limit)| == if limit < |Above(keys, after)| then limit else |Above(keys, after)|
    decreases limit
  {
    if limit > 0 && Above(keys, after) != {} {
      var m := Least(Above(keys, after));
      PageFull(keys, m, limit - 1);
      assert Above(keys, m) == Above(keys, after) - {m};
    }
  }

  /** A key is consistent exactly when one size and one 32-byte digest, whose name it is, describe all its rows. */
  lemma ConsistentExactly(h: Hashing, rows: map<int, Row>, backend: Backend, key: Key)
    requires key in KeysOn(rows, backend)
    ensures Consistent(h, rows, backend, key) <==>
            exists o: Object :: o.key == key && |o.sha| == 32 && Describes(h, rows, backend, o)
  {
    var l := SomeLocation(rows, backend, key);
    var o := Object(key, rows[l].size, rows[l].sha, |Locations(rows, backend, key)|);
    if Consistent(h, rows, backend, key) { assert Describes(h, rows, backend, o); }
  }

  /** Relabelled keys lie at or below the cursor, so paging does not notice that the set shrank. */
  lemma {:induction false} PageIgnoresBelow(keys: set<Key>, gone: set<Key>, after: Key, limit: nat)
    requires forall k :: k in gone ==> k <= after
    ensures Page(keys - gone, after, limit) == Page(keys, after, limit)
    decreases limit
  {
    assert Above(keys - gone, after) == Above(keys, after);
    if limit > 0 && Above(keys, after) != {} {
      PageIgnoresBelow(keys, gone, Least(Above(keys, after)), limit - 1);
    }
  }

  lemma RelabelKeys(rows: map<int, Row>, from: Backend, to: Backend, gone: set<Key>)
    requires from != to
    ensures KeysOn(Relabel(rows, from, to, gone), from) == KeysOn(rows, from) - gone
  {
    var after := Relabel(rows, from, to, gone);
    forall k | k in KeysOn(rows, from) - gone ensures k in KeysOn(after, from) {
      var l :| l in rows && rows[l].backend == from && rows[l].key == k;
      assert after[l] == rows[l];
    }
  }

  lemma RelabelTwice(rows: map<int, Row>, from: Backend, to: Backend, a: set<Key>, b: set<Key>)
    requires from != to
    ensures Relabel(Relabel(rows, from, to, a), from, to, b) == Relabel(rows, from, to, a + b)
  {
  }

  lemma RelabelLocations(rows: map<int, Row>, from: Backend, to: Backend, gone: set<Key>, key: Key)
    requires from != to && key !in gone
    ensures Locations(Relabel(rows, from, to, gone), from, key) == Locations(rows, from, key)
  {
  }

  // ---- what a run accounts for ----

  ghost function SetOf(s: seq<Key>): set<Key> {
    set k | k in s
  }

  ghost predicate Ascending(s: seq<Key>) {
    forall i, j :: 0 <= i < j < |s| ==> s[i] < s[j]
  }

  /** The source rows of these keys. */
  function RowsOf(rows: map<int, Row>, backend: Backend, keys: set<Key>): set<int> {
    set l | l in rows && rows[l].backend == backend && rows[l].key in keys
  }

  /** The recorded size of a key on a backend. */
  ghost function SizeOf(rows: map<int, Row>, backend: Backend, key: Key): int {
    if l: int :| l in Locations(rows, backend, key) then rows[l].size else 0
  }

  ghost function SumSizes(rows: map<int, Row>, backend: Backend, keys: seq<Key>): int {
    if keys == [] then 0
    else SumSizes(rows, backend, keys[..|keys| - 1]) + SizeOf(rows, backend, keys[|keys| - 1])
  }

  lemma RowsOfGrow(rows: map<int, Row>, backend: Backend, keys: set<Key>, key: Key)
    requires key !in keys
    ensures |RowsOf(rows, backend, keys + {key})| == |RowsOf(rows, backend, keys)| + |Locations(rows, backend, key)|
  {
    assert RowsOf(rows, backend, keys + {key}) == RowsOf(rows, backend, keys) + Locations(rows, backend, key);
    assert RowsOf(rows, backend, keys) !! Locations(rows, backend, key);
  }

  /** Progress through the distinct keys: visited in order, nothing skipped up to the cursor, totals exact. */
  datatype Progress = Progress(after: Key, objects: nat, locations: nat, bytes: int)

  /** The keys visited so far are, in ascending order, all non-empty keys up to the cursor. */
  ghost predicate Walked(keys: set<Key>, visited: seq<Key>, after: Key) {
    && Ascending(visited)
    && after == (if visited == [] then 0 else visited[|visited| - 1])
    && forall k :: k in visited <==> k in keys && 0 < k <= after
  }

  ghost predicate Covers(rows: map<int, Row>, from: Backend, visited: seq<Key>, p: Progress) {
    && Walked(KeysOn(rows, from), visited, p.after)
    && p.objects == |visited|
    && p.locations == |RowsOf(rows, from, SetOf(visited))|
    && p.bytes == SumSizes(rows, from, visited)
  }

  lemma WalkedGrow(keys: set<Key>, visited: seq<Key>, after: Key, key: Key)
    requires Walked(keys, visited, after)
    requires key in keys && key > after && forall k :: k in keys ==> !(after < k < key)
    ensures Walked(keys, visited + [key], key) && SetOf(visited + [key]) == SetOf(visited) + {key}
  {
    var next := visited + [key];
    forall i, j | 0 <= i < j < |next| ensures next[i] < next[j] {
      assert next[i] in visited;
    }
    forall k ensures k in next <==> k in visited || k == key {
      assert next[|visited|] == key;
    }
  }

  lemma CoversGrow(rows: map<int, Row>, from: Backend, visited: seq<Key>, p: Progress, o: Object)
    requires Covers(rows, from, visited, p)
    requires o.key in KeysOn(rows, from) && o.key > p.after
    requires forall k :: k in KeysOn(rows, from) ==> !(p.after < k < o.key)
    requires o.locations == |Locations(rows, from, o.key)| && o.size == SizeOf(rows, from, o.key)
    ensures Covers(rows, from, visited + [o.key],
                   Progress(o.key, p.objects + 1, p.locations + o.locations, p.bytes + o.size))
    ensures SetOf(visited + [o.key]) == SetOf(visited) + {o.key}
  {
    WalkedGrow(KeysOn(rows, from), visited, p.after, o.key);
    assert (visited + [o.key])[..|visited|] == visited;
    assert o.key !in SetOf(visited);
    RowsOfGrow(rows, from, SetOf(visited), o.key);
  }

  /** When the page is empty everything but the empty key has been visited. */
  lemma CoversAll(rows: map<int, Row>, from: Backend, visited: seq<Key>, p: Progress)
    requires Covers(rows, from, visited, p) && Above(KeysOn(rows, from), p.after) == {}
    ensures SetOf(visited) == KeysOn(rows, from) - {0}
  {
    forall k | k in KeysOn(rows, from) && k != 0 ensures k in visited {
      assert k !in Above(KeysOn(rows, from), p.after);
    }
  }

  // ---- safety ----

  ghost predicate Holds(h: Hashing, store: map<Key, Bytes>, r: Row) {
    r.key in store && |store[r.key]| == r.size && h.digest(store[r.key]) == r.sha
  }

  /** Every row names a backend that holds bytes of the recorded size and digest. */
  ghost predicate Safe(h: Hashing, w: World, from: Backend, to: Backend) {
    forall l :: l in w.rows ==>
      && (w.rows[l].backend == from ==> Holds(h, w.source, w.rows[l]))
      && (w.rows[l].backend == to ==> Holds(h, w.target, w.rows[l]))
  }

  /** The part of safety that is about the source. */
  ghost predicate SourceSafe(h: Hashing, rows: map<int, Row>, source: map<Key, Bytes>, from: Backend) {
    forall l :: l in rows && rows[l].backend == from ==> Holds(h, source, rows[l])
  }

  /** The destination store is content addressed. */
  ghost predicate Addressed(h: Hashing, store: map<Key, Bytes>) {
    forall k :: k in store ==> h.hex(h.digest(store[k])) == k
  }

  /** The one entry no read-back looks at: under the name of the empty object there is nothing but it. */
  ghost predicate EmptyStored(h: Hashing, store: map<Key, Bytes>) {
    var k := h.hex(h.digest([]));
    k in store ==> store[k] == []
  }

  ghost predicate NoEmptyObjects(rows: map<int, Row>, from: Backend) {
    forall l :: l in rows && rows[l].backend == from && rows[l].key > 0 ==> rows[l].size > 0
  }

  /** What safety rests on beside the read-backs: no collisions, and no stale entry for an empty object to move. */
  ghost predicate Guarded(h: Hashing, rows: map<int, Row>, w: World, from: Backend, to: Backend) {
    h.CollisionFree() && Safe(h, w, from, to) && (EmptyStored(h, w.target) || NoEmptyObjects(rows, from))
  }

  ghost predicate AllSafe(h: Hashing, history: seq<World>, n: nat, from: Backend, to: Backend) {
    forall i :: n <= i < |history| ==> Safe(h, history[i], from, to)
  }

  lemma SafeStretches(h: Hashing, first: seq<World>, whole: seq<World>, n: nat, from: Backend, to: Backend)
    requires first <= whole && AllSafe(h, first, n, from, to) && AllSafe(h, whole, |first|, from, to)
    ensures AllSafe(h, whole, n, from, to)
  {
    assert forall i :: n <= i < |first| ==> whole[i] == first[i];
  }

  ghost predicate Grown(store: map<Key, Bytes>, store': map<Key, Bytes>) {
    forall k :: k in store ==> k in store' && store'[k] == store[k]
  }

  lemma GrowSafe(h: Hashing, w: World, target: map<Key, Bytes>, from: Backend, to: Backend)
    requires Safe(h, w, from, to) && from != to && Grown(w.target, target)
    ensures Safe(h, w.(target := target), from, to)
  {
  }

  lemma RelabelSafe(h: Hashing, w: World, from: Backend, to: Backend, o: Object)
    requires Safe(h, w, from, to) && from != to && Describes(h, w.rows, from, o)
    requires Holds(h, w.target, Row(to, o.key, o.size, o.sha))
    ensures Safe(h, w.(rows := Relabel(w.rows, from, to, {o.key})), from, to)
  {
    forall l | l in w.rows && w.rows[l].backend == from && w.rows[l].key == o.key
      ensures Holds(h, w.target, w.rows[l])
    {
      assert l in Locations(w.rows, from, o.key);
    }
  }

  /** A described source object is what its rows say it is. */
  lemma DescribedHolds(h: Hashing, rows: map<int, Row>, source: map<Key, Bytes>, from: Backend, o: Object)
    requires SourceSafe(h, rows, source, from) && Describes(h, rows, from, o)
    ensures Holds(h, source, Row(from, o.key, o.size, o.sha))
  {
    var l := SomeLocation(rows, from, o.key);
  }

  // ---- what the destination comes to hold ----

  /** The copy was read back: it is what the rows record, except that nothing is read for a size of zero. */
  ghost predicate ReadBack(h: Hashing, target: map<Key, Bytes>, o: Object) {
    o.key in target &&
    (Holds(h, target, Row("", o.key, o.size, o.sha)) <==> o.size > 0 || target[o.key] == [])
  }

  /** The same said of a key's rows. */
  ghost predicate Verified(h: Hashing, rows: map<int, Row>, from: Backend, target: map<Key, Bytes>, key: Key) {
    key in target && forall l :: l in Locations(rows, from, key) ==>
      && h.hex(rows[l].sha) == key
      && (Holds(h, target, rows[l]) <==> rows[l].size > 0 || target[key] == [])
  }

  /** Every key that has lost its source rows was read back first. */
  ghost predicate MovedVerified(h: Hashing, rows: map<int, Row>, from: Backend, w: World) {
    forall k :: k in KeysOn(rows, from) && k !in KeysOn(w.rows, from) ==> Verified(h, rows, from, w.target, k)
  }

  ghost predicate AllReadBack(h: Hashing, rows: map<int, Row>, from: Backend, history: seq<World>, n: nat) {
    forall i :: n <= i < |history| ==> MovedVerified(h, rows, from, history[i])
  }

  lemma ReadBackStretches(h: Hashing, rows: map<int, Row>, from: Backend, first: seq<World>, whole: seq<World>, n: nat)
    requires first <= whole && AllReadBack(h, rows, from, first, n) && AllReadBack(h, rows, from, whole, |first|)
    ensures AllReadBack(h, rows, from, whole, n)
  {
    assert forall i :: n <= i < |first| ==> whole[i] == first[i];
  }

  lemma VerifiedObject(h: Hashing, rows: map<int, Row>, from: Backend, target: map<Key, Bytes>, o: Object)
    requires Describes(h, rows, from, o) && ReadBack(h, target, o)
    ensures Verified(h, rows, from, target, o.key)
  {
  }

  /** A state whose rows are as before, or lack one object that was read back, over a grown destination. */
  ghost predicate OneMove(h: Hashing, from: Backend, to: Backend, o: Object, w: World, w': World) {
    && Grown(w.target, w'.target)
    && (w'.rows == w.rows || (w'.rows == Relabel(w.rows, from, to, {o.key}) && ReadBack(h, w'.target, o)))
  }

  lemma MoveVerified(h: Hashing, rows: map<int, Row>, from: Backend, to: Backend, o: Object, w: World, w': World)
    requires from != to && MovedVerified(h, rows, from, w)
    requires Describes(h, rows, from, o) && OneMove(h, from, to, o, w, w')
    ensures MovedVerified(h, rows, from, w')
  {
    RelabelKeys(w.rows, from, to, {o.key});
    forall k | k in KeysOn(rows, from) && k !in KeysOn(w'.rows, from) ensures Verified(h, rows, from, w'.target, k) {
      if k !in KeysOn(w.rows, from) {
        assert Verified(h, rows, from, w.target, k);
      } else {
        VerifiedObject(h, rows, from, w'.target, o);
      }
    }
  }

  /** Nothing was added but copies of source objects under these keys. */
  ghost predicate Copied(before: map<Key, Bytes>, source: map<Key, Bytes>, keys: set<Key>, after: map<Key, Bytes>) {
    forall k :: k in after && k !in before ==> k in keys && k in source && after[k] == source[k]
  }

  /** What every stretch of the migration does to the stores. */
  ghost predicate Advances(h: Hashing, rows: map<int, Row>, from: Backend, keys: set<Key>, w: World, w': World) {
    && w'.source == w.source && Grown(w.target, w'.target)
    && (Addressed(h, w.target) ==> Addressed(h, w'.target))
    && (h.CollisionFree() && EmptyStored(h, w.target) ==> EmptyStored(h, w'.target))
    && (SourceSafe(h, rows, w.source, from) ==> Copied(w.target, w.source, keys, w'.target))
  }

  lemma AdvancesTransitive(h: Hashing, rows: map<int, Row>, from: Backend, a: set<Key>, b: set<Key>,
                           w: World, w': World, w'': World)
    requires Advances(h, rows, from, a, w, w') && Advances(h, rows, from, b, w', w'') && a <= b
    ensures Advances(h, rows, from, b, w, w'')
  {
  }

  /** No object still to be moved has other bytes waiting under its key at the destination. */
  ghost predicate Clean(rows: map<int, Row>, from: Backend, source: map<Key, Bytes>, target: map<Key, Bytes>) {
    forall l :: l in rows && rows[l].backend == from && rows[l].key > 0 && rows[l].size > 0 ==>
      (rows[l].key in target && rows[l].key in source ==> target[rows[l].key] == source[rows[l].key])
  }

  /** What the destination holds when these keys have been moved: what was there, and copies of the rest. */
  ghost function Filled(target: map<Key, Bytes>, source: map<Key, Bytes>, keys: set<Key>): map<Key, Bytes> {
    (map k | k in keys && k in source :: source[k]) + target
  }

  /** GetRange of a healthy or failing backend. */
  function Respond(store: map<Key, Bytes>, key: Key, total: int, failing: bool): int -> Range {
    o => if failing || key !in store || !(0 <= o <= |store[key]|) then Failed
         else Range(store[key][o..][..Max0(Min(Limit(total, o), |store[key]| - o))], |store[key]|)
  }

  function Max0(n: int): nat {
    if n < 0 then 0 else n
  }

  lemma RespondFaithful(store: map<Key, Bytes>, key: Key, total: int, failing: bool)
    ensures forall o :: Faithful(if key in store then store[key] else [], o, Respond(store, key, total, failing)(o))
  {
  }

  /** Drain a range reader on one stored object. */
  method ReadObject(store: map<Key, Bytes>, key: Key, total: int, failing: bool) returns (ok: bool, bytes: Bytes)
    ensures ok && total > 0 ==> key in store && bytes == store[key] && |bytes| == total
    ensures total <= 0 ==> ok && bytes == []
    ensures !failing && key in store && |store[key]| == total ==> ok
  {
    RespondFaithful(store, key, total, failing);
    ghost var blob := if key in store then store[key] else [];
    ok, bytes := CopyAll(blob, total, Respond(store, key, total, failing), _ => 0x8000);
  }

  class Migration {
    const h: Hashing
    const from: Backend
    const to: Backend
    var world: World
    ghost var history: seq<World>

    constructor (h: Hashing, from: Backend, to: Backend, world: World)
      ensures this.h == h && this.from == from && this.to == to && this.world == world && history == [world]
    {
      this.h, this.from, this.to, this.world := h, from, to, world;
      history := [world];
    }

    /** Every state passed through since position n, up to now, is safe. */
    ghost predicate SafeSince(n: nat)
      reads this
    {
      n <= |history| && Safe(h, world, from, to) && AllSafe(h, history, n, from, to)
    }

    /** Here and in every state since position n, no row had moved before its object was read back. */
    ghost predicate ReadBackSince(rows0: map<int, Row>, n: nat)
      reads this
    {
      n <= |history| && MovedVerified(h, rows0, from, world) && AllReadBack(h, rows0, from, history, n)
    }

    /** Copy one object, check what the store reports, read it back, check again. */
    method MigrateObject(o: Object, sourceFails: bool, putFails: bool, targetFails: bool) returns (ok: bool)
      requires from != to
      modifies this
      ensures old(history) <= history && |history| <= |old(history)| + 1
      ensures world.rows == old(world).rows && world.source == old(world).source
      ensures forall i :: |old(history)| <= i < |history| ==> history[i] == world
      ensures |history| == |old(history)| ==> world == old(world)
      ensures Grown(old(world).target, world.target)
      ensures Addressed(h, old(world).target) ==> Addressed(h, world.target)
      ensures h.CollisionFree() && EmptyStored(h, old(world).target) ==> EmptyStored(h, world.target)
      ensures Holds(h, world.source, Row(from, o.key, o.size, o.sha)) && h.hex(o.sha) == o.key ==>
                Copied(old(world).target, world.source, {o.key}, world.target)
      ensures ok ==> h.hex(o.sha) == o.key && ReadBack(h, world.target, o)
      ensures ok && o.size <= 0 ==> o.sha == h.digest([])
      ensures (&& !sourceFails && !putFails && !targetFails
               && Holds(h, world.source, Row(from, o.key, o.size, o.sha)) && h.hex(o.sha) == o.key
               && (o.size > 0 && o.key in old(world).target ==>
                     old(world).target[o.key] == world.source[o.key])) ==> ok
    {
      var read, bytes := ReadObject(world.source, o.key, o.size, sourceFails);
      if !read || putFails { return false; }
      var digest := h.digest(bytes);
      var key := h.hex(digest);
      if key !in world.target {
        world := world.(target := world.target[key := bytes]);
        history := history + [world];
      }
      var sameDigest := EqualBytes(digest, o.sha);
      if key != o.key || |bytes| != o.size || !sameDigest { return false; }
      var back, copy := ReadObject(world.target, o.key, o.size, targetFails);
      if !back { return false; }
      var sameCopy := EqualBytes(h.digest(copy), o.sha);
      return |copy| == o.size && sameCopy;
    }

    /** Verify the copy, then relabel all rows of the object in one statement. */
    method MigrateAndMove(o: Object, sourceFails: bool, putFails: bool, targetFails: bool, moveFails: bool)
      returns (ok: bool)
      requires from != to && Describes(h, world.rows, from, o)
      modifies this
      ensures old(history) <= history
      ensures world.rows == if ok then Relabel(old(world).rows, from, to, {o.key}) else old(world).rows
      ensures ok ==> RowsMoved(old(world).rows, world.rows, from, to, {o.key})
      ensures ok ==> ReadBack(h, world.target, o)
      ensures OneMove(h, from, to, o, old(world), world)
      ensures forall i :: |old(history)| <= i < |history| ==> OneMove(h, from, to, o, old(world), history[i])
      ensures Advances(h, old(world).rows, from, {o.key}, old(world), world)
      ensures (&& h.CollisionFree() && Safe(h, old(world), from, to)
               && (o.size > 0 || EmptyStored(h, old(world).target))) ==> SafeSince(|old(history)|)
      ensures (&& !sourceFails && !putFails && !targetFails && !moveFails
               && SourceSafe(h, old(world).rows, old(world).source, from)
               && (o.size > 0 && o.key in old(world).target && o.key in old(world).source ==>
                     old(world).target[o.key] == old(world).source[o.key])) ==> ok
    {
      ghost var before := world;
      if SourceSafe(h, before.rows, before.source, from) { DescribedHolds(h, before.rows, before.source, from, o); }
      var copied := MigrateObject(o, sourceFails, putFails, targetFails);
      ghost var after := world;
      if Safe(h, before, from, to) {
        GrowSafe(h, before, after.target, from, to);
        assert before.(target := after.target) == after;
      }
      if !copied || moveFails { return false; }
      ok := MoveRows(o);
      if Safe(h, before, from, to) && Holds(h, after.target, Row(to, o.key, o.size, o.sha)) {
        RelabelSafe(h, after, from, to, o);
      }
    }

    /** One statement relabels all rows of the object; the count is compared only after it took effect. */
    method MoveRows(o: Object) returns (ok: bool)
      requires Describes(h, world.rows, from, o)
      modifies this
      ensures ok && history == old(history) + [world]
      ensures world == old(world).(rows := Relabel(old(world).rows, from, to, {o.key}))
      ensures RowsMoved(old(world).rows, world.rows, from, to, {o.key})
    {
      var affected := |Locations(world.rows, from, o.key)|;
      RelabelMoves(world.rows, from, to, {o.key});
      world := world.(rows := Relabel(world.rows, from, to, {o.key}));
      history := history + [world];
      return affected == o.locations;
    }

    /** The aggregate row of one key: size and digest variants must be one each. */
    method DescribeKey(key: Key) returns (ok: bool, o: Object)
      requires key in KeysOn(world.rows, from)
      ensures ok <==> Consistent(h, world.rows, from, key)
      ensures o.key == key && (ok ==> Describes(h, world.rows, from, o))
    {
      var locations := Locations(world.rows, from, key);
      ghost var some := SomeLocation(world.rows, from, key);
      var l :| l in locations;
      o := Object(key, world.rows[l].size, world.rows[l].sha, |locations|);
      ok := Consistent(h, world.rows, from, key);
    }

    /** One keyset page with its consistency checks; an inconsistent key fails the whole page. */
    method ListPage(after: Key, limit: nat, fails: bool) returns (ok: bool, page: seq<Object>)
      ensures var keys := Page(KeysOn(world.rows, from), after, limit);
              && (ok <==> !fails && forall i :: 0 <= i < |keys| ==> Consistent(h, world.rows, from, keys[i]))
              && (ok ==> |page| == |keys| && Listed(h, world.rows, from, keys, page))
    {
      if fails { return false, []; }
      var keys := Page(KeysOn(world.rows, from), after, limit);
      page := [];
      for i := 0 to |keys|
        invariant |page| == i && Listed(h, world.rows, from, keys, page)
        invariant forall j :: 0 <= j < i ==> Consistent(h, world.rows, from, keys[j])
      {
        PageStep(KeysOn(world.rows, from), after, limit, i);
        var consistent, o := DescribeKey(keys[i]);
        if !consistent { return false, page; }
        ListedNext(h, world.rows, from, keys, page, o);
        page := page + [o];
      }
      return true, page;
    }

    /** From here a run without failures succeeds. */
    ghost predicate Ready()
      reads this
    {
      && h.CollisionFree() && SourceSafe(h, world.rows, world.source, from)
      && Clean(world.rows, from, world.source, world.target)
      && AllConsistent(h, world.rows, from)
    }

    /** One object: counted, then copied, verified and relabelled unless this is a dry run. */
    method RunObject(o: Object, dryRun: bool, fails: nat -> bool, clock: nat, start: Progress,
                     ghost rows0: map<int, Row>, ghost visited0: seq<Key>)
      returns (ok: bool, p: Progress, ghost visited: seq<Key>)
      requires from != to && Covers(rows0, from, visited0, start)
      requires world.rows == Relabel(rows0, from, to, if dryRun then {} else SetOf(visited0))
      requires Describes(h, rows0, from, o) && o.key > start.after
      requires forall k :: k in KeysOn(rows0, from) ==> !(start.after < k < o.key)
      requires MovedVerified(h, rows0, from, world)
      modifies this
      ensures old(history) <= history
      ensures Covers(rows0, from, visited, p)
      ensures if ok then visited == visited0 + [o.key] && p.after == o.key
              else visited == visited0 || visited == visited0 + [o.key]
      ensures world.rows == Relabel(rows0, from, to, if dryRun then {} else SetOf(if ok then visited else visited0))
      ensures dryRun ==> world == old(world) && history == old(history)
      ensures Advances(h, rows0, from, SetOf(visited), old(world), world)
      ensures ReadBackSince(rows0, |old(history)|)
      ensures Guarded(h, rows0, old(world), from, to) ==> SafeSince(|old(history)|)
      ensures (&& (forall n :: !fails(n)) && SourceSafe(h, rows0, old(world).source, from)
               && Clean(rows0, from, old(world).source, old(world).target)) ==> ok
    {
      p, visited := start, visited0;
      if fails(clock) { return false, p, visited; }
      DescribedSize(h, rows0, from, o);
      CoversGrow(rows0, from, visited, p, o);
      p := Progress(o.key, p.objects + 1, p.locations + o.locations, p.bytes + o.size);
      visited := visited + [o.key];
      ok := true;
      if !dryRun {
        ok := MoveDescribed(o, fails, clock, rows0, visited0);
        assert o.key in SetOf(visited);
        RelabelTwice(rows0, from, to, SetOf(visited0), {o.key});
      }
    }

    /** The object was described by the initial rows and none of its own rows has moved. */
    method MoveDescribed(o: Object, fails: nat -> bool, clock: nat, ghost rows0: map<int, Row>, ghost gone: seq<Key>)
      returns (ok: bool)
      requires from != to && Describes(h, rows0, from, o) && o.key > 0 && o.key !in gone
      requires world.rows == Relabel(rows0, from, to, SetOf(gone)) && MovedVerified(h, rows0, from, world)
      modifies this
      ensures old(history) <= history
      ensures world.rows == if ok then Relabel(old(world).rows, from, to, {o.key}) else old(world).rows
      ensures Advances(h, rows0, from, {o.key}, old(world), world)
      ensures ReadBackSince(rows0, |old(history)|)
      ensures Guarded(h, rows0, old(world), from, to) ==> SafeSince(|old(history)|)
      ensures (&& (forall n :: !fails(n)) && SourceSafe(h, rows0, old(world).source, from)
               && Clean(rows0, from, old(world).source, old(world).target)) ==> ok
    {
      ghost var before := world;
      RelabelDescribes(h, rows0, from, to, SetOf(gone), o);
      ghost var l := SomeLocation(rows0, from, o.key);
      assert SourceSafe(h, rows0, world.source, from) ==> SourceSafe(h, world.rows, world.source, from);
      ok := MigrateAndMove(o, fails(clock + 1), fails(clock + 2), fails(clock + 3), fails(clock + 4));
      MoveVerified(h, rows0, from, to, o, before, world);
      forall i | |old(history)| <= i < |history| ensures MovedVerified(h, rows0, from, history[i]) {
        MoveVerified(h, rows0, from, to, o, before, history[i]);
      }
    }

    /** The inner loop over one page. */
    method RunPage(page: seq<Object>, dryRun: bool, fails: nat -> bool, clock: nat, start: Progress,
                   ghost limit: nat, ghost rows0: map<int, Row>, ghost visited0: seq<Key>)
      returns (ok: bool, p: Progress, ghost visited: seq<Key>, ghost moved: seq<Key>)
      requires from != to && Covers(rows0, from, visited0, start)
      requires world.rows == Relabel(rows0, from, to, if dryRun then {} else SetOf(visited0))
      requires MovedVerified(h, rows0, from, world)
      requires var keys := Page(KeysOn(rows0, from), start.after, limit);
               |page| == |keys| && Listed(h, rows0, from, keys, page)
      modifies this
      ensures old(history) <= history
      ensures Covers(rows0, from, visited, p) && visited0 <= visited && moved <= visited
      ensures world.rows == Relabel(rows0, from, to, if dryRun then {} else SetOf(moved))
      ensures RowsMoved(rows0, world.rows, from, to, if dryRun then {} else SetOf(moved))
      ensures dryRun ==> world == old(world) && history == old(history)
      ensures ok ==> moved == visited && p.after == (if page == [] then start.after else page[|page| - 1].key)
      ensures Advances(h, rows0, from, SetOf(visited), old(world), world)
      ensures ReadBackSince(rows0, |old(history)|)
      ensures Guarded(h, rows0, old(world), from, to) ==> SafeSince(|old(history)|)
      ensures (&& (forall n :: !fails(n)) && SourceSafe(h, rows0, old(world).source, from)
               && Clean(rows0, from, old(world).source, old(world).target)) ==> ok
    {
      p, visited, moved := start, visited0, visited0;
      for i := 0 to |page|
        invariant old(history) <= history
        invariant Covers(rows0, from, visited, p) && visited0 <= visited && moved == visited
        invariant p.after == if i == 0 then start.after else page[i - 1].key
        invariant world.rows == Relabel(rows0, from, to, if dryRun then {} else SetOf(visited))
        invariant dryRun ==> world == old(world) && history == old(history)
        invariant Advances(h, rows0, from, SetOf(visited), old(world), world)
        invariant ReadBackSince(rows0, |old(history)|)
        invariant Guarded(h, rows0, old(world), from, to) ==> SafeSince(|old(history)|)
      {
        PageStep(KeysOn(rows0, from), start.after, limit, i);
        ghost var before, h0, v0 := world, history, visited;
        ok, p, visited := RunObject(page[i], dryRun, fails, clock + 5 * i, p, rows0, visited);
        Onward(h, rows0, from, to, v0, visited, old(world), before, world);
        ReadBackStretches(h, rows0, from, h0, history, |old(history)|);
        if Guarded(h, rows0, old(world), from, to) {
          SafeStretches(h, h0, history, |old(history)|, from, to);
        }
        if !ok {
          RelabelMoves(rows0, from, to, if dryRun then {} else SetOf(moved));
          return;
        }
        moved := visited;
      }
      RelabelMoves(rows0, from, to, if dryRun then {} else SetOf(moved));
      ok := true;
    }

    /** The page listed now is the one the initial rows would give, although keys up to the cursor are gone. */
    method ListFrom(ghost rows0: map<int, Row>, ghost gone: set<Key>, after: Key, limit: nat, fails: bool)
      returns (ok: bool, page: seq<Object>)
      requires from != to && world.rows == Relabel(rows0, from, to, gone) && forall k :: k in gone ==> k <= after
      ensures var keys := Page(KeysOn(rows0, from), after, limit);
              && (ok <==> !fails && forall i :: 0 <= i < |keys| ==> Consistent(h, rows0, from, keys[i]))
              && (ok ==> |page| == |keys| && Listed(h, rows0, from, keys, page))
      ensures !fails && AllConsistent(h, rows0, from) ==> ok
      ensures ok && page == [] && limit > 0 ==> Above(KeysOn(rows0, from), after) == {}
      ensures ok && page != [] ==> PageEnds(KeysOn(rows0, from), after, page[|page| - 1].key)
    {
      PageUnchanged(h, rows0, from, to, gone, after, limit);
      ok, page := ListPage(after, limit, fails);
      if ok {
        DescribesBack(h, rows0, from, to, gone, page, after);
        if page != [] { PageAdvances(KeysOn(rows0, from), after, limit, page[|page| - 1].key); }
      }
    }

    /** List one page and work through it; finished when the page is empty. */
    method RunNextPage(batch: nat, dryRun: bool, fails: nat -> bool, clock: nat, start: Progress,
                       ghost rows0: map<int, Row>, ghost visited0: seq<Key>)
      returns (ok: bool, finished: bool, p: Progress, used: nat, ghost visited: seq<Key>, ghost moved: seq<Key>)
      requires from != to && batch > 0 && Covers(rows0, from, visited0, start)
      requires world.rows == Relabel(rows0, from, to, if dryRun then {} else SetOf(visited0))
      requires MovedVerified(h, rows0, from, world)
      modifies this
      ensures old(history) <= history
      ensures Covers(rows0, from, visited, p) && visited0 <= visited && moved <= visited
      ensures world.rows == Relabel(rows0, from, to, if dryRun then {} else SetOf(moved))
      ensures dryRun ==> world == old(world) && history == old(history)
      ensures ok ==> moved == visited
      ensures ok && finished ==> SetOf(visited) == KeysOn(rows0, from) - {0}
      ensures ok && !finished ==> PageEnds(KeysOn(rows0, from), start.after, p.after)
      ensures Advances(h, rows0, from, SetOf(visited), old(world), world)
      ensures ReadBackSince(rows0, |old(history)|)
      ensures Guarded(h, rows0, old(world), from, to) ==> SafeSince(|old(history)|)
      ensures (&& (forall n :: !fails(n)) && SourceSafe(h, rows0, old(world).source, from)
               && Clean(rows0, from, old(world).source, old(world).target) && AllConsistent(h, rows0, from)) ==> ok
    {
      p, used, finished, visited, moved := start, 1, false, visited0, visited0;
      ghost var gone := if dryRun then {} else SetOf(visited0);
      var page;
      ok, page := ListFrom(rows0, gone, p.after, batch, fails(clock));
      if !ok { return; }
      if |page| == 0 {
        CoversAll(rows0, from, visited, p);
        finished := true;
        return;
      }
      ok, p, visited, moved := RunPage(page, dryRun, fails, clock + 1, p, batch, rows0, visited);
      used := 1 + 5 * |page|;
    }

    /** The paging loop. */
    method RunPages(batch: nat, dryRun: bool, fails: nat -> bool)
      returns (ok: bool, p: Progress, ghost visited: seq<Key>, ghost moved: seq<Key>)
      requires from != to && batch > 0
      modifies this
      ensures old(history) <= history
      ensures Covers(old(world).rows, from, visited, p) && moved <= visited
      ensures world.rows == Relabel(old(world).rows, from, to, if dryRun then {} else SetOf(moved))
      ensures dryRun ==> world == old(world)
      ensures ok ==> moved == visited && SetOf(visited) == KeysOn(old(world).rows, from) - {0}
      ensures Advances(h, old(world).rows, from, SetOf(visited), old(world), world)
      ensures ReadBackSince(old(world).rows, |old(history)|)
      ensures Guarded(h, old(world).rows, old(world), from, to) ==> SafeSince(|old(history)|)
      ensures old(Ready()) && (forall n :: !fails(n)) ==> ok
    {
      p, visited, moved := Progress(0, 0, 0, 0), [], [];
      ghost var rows0 := world.rows;
      NothingYet(rows0, from, to);
      var clock: nat, finished, used := 0, false, 0;
      ok := true;
      while ok && !finished
        invariant old(history) <= history
        invariant Covers(rows0, from, visited, p) && moved <= visited && (ok ==> moved == visited)
        invariant world.rows == Relabel(rows0, from, to, if dryRun then {} else SetOf(moved))
        invariant dryRun ==> world == old(world)
        invariant ok && finished ==> SetOf(visited) == KeysOn(rows0, from) - {0}
        invariant Advances(h, rows0, from, SetOf(visited), old(world), world)
        invariant ReadBackSince(rows0, |old(history)|)
        invariant Guarded(h, rows0, old(world), from, to) ==> SafeSince(|old(history)|)
        invariant old(Ready()) && (forall n :: !fails(n)) ==> ok
        decreases ok, !finished, |Above(KeysOn(rows0, from), p.after)|
      {
        ghost var before, h0, v0 := world, history, visited;
        ok, finished, p, used, visited, moved := RunNextPage(batch, dryRun, fails, clock, p, rows0, visited);
        Onward(h, rows0, from, to, v0, visited, old(world), before, world);
        ReadBackStretches(h, rows0, from, h0, history, |old(history)|);
        if Guarded(h, rows0, old(world), from, to) {
          SafeStretches(h, h0, history, |old(history)|, from, to);
        }
        clock := clock + used;
      }
    }

    /**
     The migration. Whatever happens, the rows are the initial ones with some visited keys relabelled, no
     row moved before its object was read back, nothing but copies of visited objects reached the
     destination, and the migration can be run again. On success every non-empty source key was visited
     once, in order, its rows moved, and the destination holds exactly the missing copies in addition.
     */
    method Run(batch: int, dryRun: bool, fails: nat -> bool)
      returns (ok: bool, p: Progress, ghost visited: seq<Key>, ghost moved: seq<Key>)
      modifies this
      ensures old(history) <= history
      ensures Covers(old(world).rows, from, visited, p) && moved <= visited
      ensures world.rows == Relabel(old(world).rows, from, to, if dryRun then {} else SetOf(moved))
      ensures RowsMoved(old(world).rows, world.rows, from, to, if dryRun then {} else SetOf(moved))
      ensures dryRun ==> world == old(world)
      ensures from == to || !(0 < batch <= 10000) ==> !ok && world == old(world)
      ensures ok ==> moved == visited && SetOf(visited) == KeysOn(old(world).rows, from) - {0}
      ensures Advances(h, old(world).rows, from, SetOf(visited), old(world), world)
      ensures ReadBackSince(old(world).rows, |old(history)|)
      ensures Guarded(h, old(world).rows, old(world), from, to) ==> SafeSince(|old(history)|)
      ensures old(Ready()) ==> Ready()
      ensures old(Ready()) && from != to && 0 < batch <= 10000 && (forall n :: !fails(n)) ==> ok
      ensures ok && !dryRun ==> Migrated(h, from, to, old(world), world)
    {
      if from == to || !(0 < batch <= 10000) {
        NothingYet(world.rows, from, to);
        return false, Progress(0, 0, 0, 0), [], [];
      }
      ghost var before := world;
      ok, p, visited, moved := RunPages(batch, dryRun, fails);
      RelabelMoves(before.rows, from, to, if dryRun then {} else SetOf(moved));
      if h.CollisionFree() && SourceSafe(h, before.rows, before.source, from) {
        ReadyAgain(h, before, world, from, to, if dryRun then {} else SetOf(moved), SetOf(visited));
      }
      if ok && !dryRun { FinallyMigrated(h, before, world, from, to); }
    }

    /** Stopped anywhere, then run again without failures: the rows and both stores are those of one clean run. */
    method RunAgain(batch: int, fails: nat -> bool)
      requires from != to && 0 < batch <= 10000 && Ready()
      modifies this
      ensures world.rows == Relabel(old(world).rows, from, to, KeysOn(old(world).rows, from) - {0})
      ensures RowsMoved(old(world).rows, world.rows, from, to, KeysOn(old(world).rows, from) - {0})
      ensures world.source == old(world).source
      ensures world.target == Filled(old(world).target, world.source, KeysOn(old(world).rows, from) - {0})
    {
      ghost var first := world;
      ghost var visited, moved;
      var ok, p;
      ok, p, visited, moved := Run(batch, false, fails);
      VisitedAreKeys(first.rows, from, visited, p);
      SetOfPrefix(moved, visited);
      ResumeReachesSameState(h, first, world, from, to, SetOf(moved), SetOf(visited));
      ok, p, visited, moved := Run(batch, false, _ => false);
      RelabelMoves(first.rows, from, to, KeysOn(first.rows, from) - {0});
    }
  }

  /** Every non-empty key has consistent metadata. */
  ghost predicate AllConsistent(h: Hashing, rows: map<int, Row>, from: Backend) {
    forall k :: k in KeysOn(rows, from) && k > 0 ==> Consistent(h, rows, from, k)
  }

  ghost predicate OnlyOn(rows: map<int, Row>, from: Backend, to: Backend) {
    forall l :: l in rows ==> rows[l].backend == from || rows[l].backend == to
  }

  /** What holds once all non-empty keys have moved. */
  ghost predicate Migrated(h: Hashing, from: Backend, to: Backend, w: World, w': World) {
    var keys := KeysOn(w.rows, from) - {0};
    && (SourceSafe(h, w.rows, w.source, from) ==> w'.target == Filled(w.target, w.source, keys))
    && (h.CollisionFree() && SourceSafe(h, w.rows, w.source, from) ==> Clean(w.rows, from, w.source, w.target))
    && (h.CollisionFree() && Safe(h, w, from, to) ==>
          (Safe(h, w', from, to) <==> EmptyStored(h, w.target) || NoEmptyObjects(w.rows, from)))
    && (Accepts(Counts(w'.rows), to) <==> 0 !in KeysOn(w.rows, from) && OnlyOn(w.rows, from, to))
  }

  /** Two stretches in a row, and what the first leaves for the second. */
  lemma Onward(h: Hashing, rows: map<int, Row>, from: Backend, to: Backend, a: seq<Key>, b: seq<Key>,
               w: World, w': World, w'': World)
    requires Advances(h, rows, from, SetOf(a), w, w') && Advances(h, rows, from, SetOf(b), w', w'') && a <= b
    ensures Advances(h, rows, from, SetOf(b), w, w'')
    ensures Guarded(h, rows, w, from, to) && Safe(h, w', from, to) ==> Guarded(h, rows, w', from, to)
    ensures SourceSafe(h, rows, w.source, from) && Clean(rows, from, w.source, w.target) ==>
              Clean(rows, from, w'.source, w'.target)
  {
    SetOfPrefix(a, b);
    AdvancesTransitive(h, rows, from, SetOf(a), SetOf(b), w, w', w'');
  }

  lemma SetOfPrefix(a: seq<Key>, b: seq<Key>)
    requires a <= b
    ensures SetOf(a) <= SetOf(b)
  {
  }

  lemma VisitedAreKeys(rows: map<int, Row>, from: Backend, visited: seq<Key>, p: Progress)
    requires Covers(rows, from, visited, p)
    ensures SetOf(visited) <= KeysOn(rows, from) - {0}
  {
  }

  /** Wherever it stops, a migration that was ready can be started again. */
  lemma ReadyAgain(h: Hashing, w: World, w': World, from: Backend, to: Backend, gone: set<Key>, keys: set<Key>)
    requires from != to && SourceSafe(h, w.rows, w.source, from) && Advances(h, w.rows, from, keys, w, w')
    requires w'.rows == Relabel(w.rows, from, to, gone)
    ensures SourceSafe(h, w'.rows, w'.source, from)
    ensures Clean(w.rows, from, w.source, w.target) ==> Clean(w'.rows, from, w'.source, w'.target)
    ensures AllConsistent(h, w.rows, from) ==> AllConsistent(h, w'.rows, from)
  {
    RelabelConsistent(h, w.rows, from, to, gone);
  }

  /** A verified copy of a safe object is that object. */
  lemma VerifiedIsCopy(h: Hashing, w: World, target: map<Key, Bytes>, from: Backend, l: int)
    requires h.CollisionFree() && SourceSafe(h, w.rows, w.source, from)
    requires l in w.rows && w.rows[l].backend == from && Verified(h, w.rows, from, target, w.rows[l].key)
    ensures w.rows[l].key in w.source && w.rows[l].key in target
    ensures w.rows[l].size > 0 ==> target[w.rows[l].key] == w.source[w.rows[l].key]
    ensures w.rows[l].size <= 0 ==> w.rows[l].size == 0 && w.rows[l].key == h.hex(h.digest([]))
  {
    assert l in Locations(w.rows, from, w.rows[l].key);
    assert Holds(h, w.source, w.rows[l]);
    if w.rows[l].size <= 0 { assert w.source[w.rows[l].key] == []; }
  }

  lemma FilledTarget(h: Hashing, w: World, w': World, from: Backend, keys: set<Key>)
    requires SourceSafe(h, w.rows, w.source, from) && Advances(h, w.rows, from, keys, w, w')
    requires forall k :: k in keys ==> k in w'.target
    ensures w'.target == Filled(w.target, w.source, keys)
  {
    var filled := Filled(w.target, w.source, keys);
    forall k ensures k in w'.target <==> k in filled {
      if k in w'.target && k !in w.target { assert k in keys; }
    }
  }

  /** Safe at the end exactly when no empty object was moved onto a stale entry, which no read-back notices. */
  lemma SafeExactly(h: Hashing, w: World, w': World, from: Backend, to: Backend)
    requires from != to && h.CollisionFree() && Safe(h, w, from, to) && Grown(w.target, w'.target)
    requires w'.rows == Relabel(w.rows, from, to, KeysOn(w.rows, from) - {0})
    requires forall k :: k in KeysOn(w.rows, from) - {0} ==> Verified(h, w.rows, from, w'.target, k)
    ensures Safe(h, w', from, to) ==> EmptyStored(h, w.target) || NoEmptyObjects(w.rows, from)
  {
    if Safe(h, w', from, to) && !NoEmptyObjects(w.rows, from) {
      var l :| l in w.rows && w.rows[l].backend == from && w.rows[l].key > 0 && w.rows[l].size <= 0;
      assert w.rows[l].key in KeysOn(w.rows, from) - {0};
      VerifiedIsCopy(h, w, w'.target, from, l);
      assert w'.rows[l] == w.rows[l].(backend := to);
      assert Holds(h, w'.target, w'.rows[l]);
    }
  }

  lemma FinallyMigrated(h: Hashing, w: World, w': World, from: Backend, to: Backend)
    requires from != to && Advances(h, w.rows, from, KeysOn(w.rows, from) - {0}, w, w')
    requires w'.rows == Relabel(w.rows, from, to, KeysOn(w.rows, from) - {0}) && MovedVerified(h, w.rows, from, w')
    requires Guarded(h, w.rows, w, from, to) ==> Safe(h, w', from, to)
    ensures Migrated(h, from, to, w, w')
  {
    var keys := KeysOn(w.rows, from) - {0};
    RelabelKeys(w.rows, from, to, keys);
    assert forall k :: k in keys ==> Verified(h, w.rows, from, w'.target, k);
    StartupAcceptsAfterMigration(w.rows, from, to);
    if SourceSafe(h, w.rows, w.source, from) {
      FilledTarget(h, w, w', from, keys);
      if h.CollisionFree() { CleanBefore(h, w, w', from); }
    }
    if h.CollisionFree() && Safe(h, w, from, to) { SafeExactly(h, w, w', from, to); }
  }

  /** A run that succeeded found no other bytes under the keys it moved. */
  lemma CleanBefore(h: Hashing, w: World, w': World, from: Backend)
    requires h.CollisionFree() && SourceSafe(h, w.rows, w.source, from) && Grown(w.target, w'.target)
    requires forall k :: k in KeysOn(w.rows, from) - {0} ==> Verified(h, w.rows, from, w'.target, k)
    ensures Clean(w.rows, from, w.source, w.target)
  {
    forall l | l in w.rows && w.rows[l].backend == from && w.rows[l].key > 0 && w.rows[l].size > 0
               && w.rows[l].key in w.target
      ensures w.rows[l].key in w.source && w.target[w.rows[l].key] == w.source[w.rows[l].key]
    {
      assert w.rows[l].key in KeysOn(w.rows, from) - {0};
      VerifiedIsCopy(h, w, w'.target, from, l);
    }
  }

  /** Keys still to be moved keep consistent metadata, so a stopped run can be started again. */
  lemma RelabelConsistent(h: Hashing, rows: map<int, Row>, from: Backend, to: Backend, gone: set<Key>)
    requires from != to
    ensures AllConsistent(h, rows, from) ==> AllConsistent(h, Relabel(rows, from, to, gone), from)
  {
    var now := Relabel(rows, from, to, gone);
    RelabelKeys(rows, from, to, gone);
    forall k | k in KeysOn(now, from) && k > 0 && Consistent(h, rows, from, k) ensures Consistent(h, now, from, k) {
      RelabelLocations(rows, from, to, gone, k);
    }
  }

  lemma NothingYet(rows: map<int, Row>, from: Backend, to: Backend)
    ensures Covers(rows, from, [], Progress(0, 0, 0, 0)) && Relabel(rows, from, to, {}) == rows && SetOf([]) == {}
  {
    assert SetOf([]) == {};
    assert RowsOf(rows, from, {}) == {};
  }

  /** The page and its consistency are those of the initial rows. */
  lemma PageUnchanged(h: Hashing, rows: map<int, Row>, from: Backend, to: Backend, gone: set<Key>,
                      after: Key, limit: nat)
    requires from != to && forall k :: k in gone ==> k <= after
    ensures var now := Relabel(rows, from, to, gone);
            var page := Page(KeysOn(rows, from), after, limit);
            && Page(KeysOn(now, from), after, limit) == page
            && (forall i :: 0 <= i < |page| ==> page[i] in KeysOn(rows, from) && page[i] > after)
            && (forall i :: 0 <= i < |page| ==>
                  (Consistent(h, now, from, page[i]) <==> Consistent(h, rows, from, page[i])))
  {
    RelabelKeys(rows, from, to, gone);
    PageIgnoresBelow(KeysOn(rows, from), gone, after, limit);
    var page := Page(KeysOn(rows, from), after, limit);
    forall i | 0 <= i < |page|
      ensures page[i] in KeysOn(rows, from) && page[i] > after
      ensures Consistent(h, Relabel(rows, from, to, gone), from, page[i]) <==> Consistent(h, rows, from, page[i])
    {
      PageAbove(KeysOn(rows, from), after, limit, i);
      RelabelLocations(rows, from, to, gone, page[i]);
    }
  }

  lemma {:induction false} PageAbove(keys: set<Key>, after: Key, limit: nat, i: nat)
    requires i < |Page(keys, after, limit)|
    ensures Page(keys, after, limit)[i] in keys && Page(keys, after, limit)[i] > after
  {
    PageStep(keys, after, limit, i);
    if i > 0 { PageAbove(keys, after, limit, i - 1); }
  }

  lemma DescribesBack(h: Hashing, rows: map<int, Row>, from: Backend, to: Backend, gone: set<Key>,
                      page: seq<Object>, after: Key)
    requires from != to && (forall k :: k in gone ==> k <= after)
    requires forall i :: 0 <= i < |page| ==>
               page[i].key > after && Describes(h, Relabel(rows, from, to, gone), from, page[i])
    ensures forall i :: 0 <= i < |page| ==> Describes(h, rows, from, page[i])
  {
    RelabelKeys(rows, from, to, gone);
    forall i | 0 <= i < |page| ensures Describes(h, rows, from, page[i]) {
      RelabelLocations(rows, from, to, gone, page[i].key);
    }
  }

  /** Fewer keys are still to come after the page than before it. */
  ghost predicate PageEnds(keys: set<Key>, after: Key, last: Key) {
    |Above(keys, last)| < |Above(keys, after)|
  }

  /** A non-empty page moves the cursor past a key that was still to come. */
  lemma PageAdvances(keys: set<Key>, after: Key, limit: nat, next: Key)
    requires var page := Page(keys, after, limit); page != [] && next == page[|page| - 1]
    ensures PageEnds(keys, after, next)
  {
    var page := Page(keys, after, limit);
    PageAbove(keys, after, limit, |page| - 1);
    assert Above(keys, next) <= Above(keys, after) - {next};
    Smaller(Above(keys, next), Above(keys, after), next);
  }

  lemma {:induction false} Subset(a: set<Key>, b: set<Key>)
    requires a <= b
    ensures |a| <= |b|
  {
    if a != {} {
      var x :| x in a;
      Subset(a - {x}, b - {x});
    }
  }

  lemma Smaller(a: set<Key>, b: set<Key>, x: Key)
    requires a <= b - {x} && x in b
    ensures |a| < |b|
  {
    Subset(a, b - {x});
  }

  lemma RelabelDescribes(h: Hashing, rows: map<int, Row>, from: Backend, to: Backend, gone: set<Key>, o: Object)
    requires from != to && o.key !in gone && Describes(h, rows, from, o)
    ensures Describes(h, Relabel(rows, from, to, gone), from, o)
  {
    RelabelKeys(rows, from, to, gone);
    RelabelLocations(rows, from, to, gone, o.key);
  }

  lemma DescribedSize(h: Hashing, rows: map<int, Row>, backend: Backend, o: Object)
    requires Describes(h, rows, backend, o)
    ensures SizeOf(rows, backend, o.key) == o.size && o.key in KeysOn(rows, backend)
  {
    var l := SomeLocation(rows, backend, o.key);
  }

  // ---- after the run ----

  /** Stopped anywhere and run again: rows and destination end up as one uninterrupted run would leave them. */
  lemma ResumeReachesSameState(h: Hashing, first: World, second: World, from: Backend, to: Backend,
                               moved: set<Key>, visited: set<Key>)
    requires from != to && moved <= visited <= KeysOn(first.rows, from) - {0}
    requires second.rows == Relabel(first.rows, from, to, moved) && MovedVerified(h, first.rows, from, second)
    requires SourceSafe(h, first.rows, first.source, from) && Advances(h, first.rows, from, visited, first, second)
    ensures var all, rest := KeysOn(first.rows, from) - {0}, KeysOn(second.rows, from) - {0};
            && Relabel(second.rows, from, to, rest) == Relabel(first.rows, from, to, all)
            && Filled(second.target, second.source, rest) == Filled(first.target, first.source, all)
  {
    var all, rest := KeysOn(first.rows, from) - {0}, KeysOn(second.rows, from) - {0};
    RelabelKeys(first.rows, from, to, moved);
    RelabelTwice(first.rows, from, to, moved, rest);
    assert moved + rest == all;
    assert forall k :: k in moved ==> Verified(h, first.rows, from, second.target, k);
    FilledTwice(first.target, second.target, first.source, moved, visited, rest);
  }

  /** Filling up in two goes is filling up in one. */
  lemma FilledTwice(before: map<Key, Bytes>, between: map<Key, Bytes>, source: map<Key, Bytes>,
                    moved: set<Key>, visited: set<Key>, rest: set<Key>)
    requires Grown(before, between) && Copied(before, source, visited, between) && visited <= moved + rest
    requires forall k :: k in moved ==> k in between
    ensures Filled(between, source, rest) == Filled(before, source, moved + rest)
  {
    var once, twice := Filled(before, source, moved + rest), Filled(between, source, rest);
    forall k ensures k in once <==> k in twice {
      if k in between && k !in before { assert k in visited && between[k] == source[k]; }
    }
    forall k | k in once && k in twice ensures once[k] == twice[k] {
      if k in between && k !in before { assert k in visited && between[k] == source[k]; }
    }
  }

  function BackendsOf(rows: map<int, Row>): set<Backend> {
    set l | l in rows :: rows[l].backend
  }

  function RowsOn(rows: map<int, Row>, backend: Backend): set<int> {
    set l | l in rows && rows[l].backend == backend
  }

  /** FileBlobBackendCounts. */
  function Counts(rows: map<int, Row>): map<Backend, int> {
    map b | b in BackendsOf(rows) :: |RowsOn(rows, b)|
  }

  predicate Accepts(counts: map<Backend, int>, configured: Backend) {
    forall b :: b in counts && counts[b] > 0 ==> b == configured
  }

  /** requireConfiguredBlobBackend: the loop over the counts collects the mismatches. */
  method RequireConfiguredBackend(counts: map<Backend, int>, configured: Backend)
    returns (ok: bool, mismatches: set<Backend>)
    ensures ok <==> Accepts(counts, configured)
    ensures mismatches == set b | b in counts && counts[b] > 0 && b != configured
  {
    mismatches := {};
    var todo := counts.Keys;
    while todo != {}
      invariant todo <= counts.Keys
      invariant mismatches == set b | b in counts.Keys - todo && counts[b] > 0 && b != configured
      decreases todo
    {
      var b :| b in todo;
      todo := todo - {b};
      if counts[b] > 0 && b != configured { mismatches := mismatches + {b}; }
    }
    ok := mismatches == {};
    assert forall b :: b in counts && counts[b] > 0 && b != configured <==> b in mismatches;
  }

  lemma AcceptsRows(rows: map<int, Row>, configured: Backend)
    ensures Accepts(Counts(rows), configured) <==> forall l :: l in rows ==> rows[l].backend == configured
  {
    forall l | l in rows ensures rows[l].backend in Counts(rows) && Counts(rows)[rows[l].backend] > 0 {
      assert l in RowsOn(rows, rows[l].backend);
    }
    forall b | b in Counts(rows) ensures exists l :: l in rows && rows[l].backend == b {
      assert b in BackendsOf(rows);
    }
  }

  /**
   After a successful migration the startup check accepts the destination exactly when only the two
   backends were present and no source row has an empty object key, which the keyset never reaches.
   */
  lemma StartupAcceptsAfterMigration(rows: map<int, Row>, from: Backend, to: Backend)
    requires from != to
    ensures Accepts(Counts(Relabel(rows, from, to, KeysOn(rows, from) - {0})), to) <==>
            0 !in KeysOn(rows, from) && OnlyOn(rows, from, to)
  {
    var moved := Relabel(rows, from, to, KeysOn(rows, from) - {0});
    AcceptsRows(moved, to);
    if Accepts(Counts(moved), to) {
      forall l | l in rows
        ensures rows[l].backend == from || rows[l].backend == to
        ensures !(rows[l].backend == from && rows[l].key == 0)
      {
        assert moved[l].backend == to;
      }
    } else {
      var l :| l in moved && moved[l].backend != to;
      if rows[l].backend == from { assert rows[l].key in KeysOn(rows, from); }
    }
  }
}
