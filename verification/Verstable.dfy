/** The label table: open addressing in arrays that are relinked in place, refining a map. */
module Verstable {
  import opened Word
  import opened Chains

  const MIN_NONZERO_BUCKET_COUNT := 8

  /** So many buckets have a place for every key as long as there are no more keys than this,
      whatever their hashes. */
  const SAFE_BUCKETS := 1024
  const SAFE_KEYS := 921

  /** The displacement after `d` is reached by adding `d + 1`. */
  lemma QuadraticNext(d: nat)
    ensures Quadratic(d + 1) == Quadratic(d) + d + 1
  {
    QuadraticDouble(d);
    QuadraticDouble(d + 1);
    hide Quadratic;
    assert (d + 1) * (d + 1) == d * d + 2 * d + 1;
  }

  class Table {
    const h: Hash
    /** The allocator refuses more buckets than this. */
    const limit: nat
    var keyCount: nat
    var bucketCount: nat
    var buckets: array<Bucket>
    var metadata: array<Meta>
    ghost var model: map<string, u16>
    ghost var pos: seq<nat>
    ghost var bits: nat

    ghost function L(): Layout
      reads this, buckets, metadata
    {
      Layout(h, buckets[..], metadata[..], pos)
    }

    /** The buckets hold the map, however they are linked. A table without buckets has one
        vacant placeholder. */
    ghost predicate Sound()
      reads this, buckets, metadata
    {
      && buckets.Length == metadata.Length == |pos|
      && metadata.Length == (if bucketCount == 0 then 1 else bucketCount)
      && (bucketCount == 0 || bucketCount == Pow2(bits)) && bucketCount <= limit
      && (bucketCount == 0 ==> metadata[0] == VACANT)
      && L().Unique() && L().Holds(model) && keyCount == |model|
    }

    /** In addition every key can be reached from its home bucket. */
    ghost predicate Valid()
      reads this, buckets, metadata
    {
      Sound() && L().Chained()
    }

    constructor (h: Hash, limit: nat)
      ensures this.h == h && this.limit == limit && Valid()
      ensures model == map[] && bucketCount == 0 && fresh(buckets) && fresh(metadata)
    {
      this.h, this.limit := h, limit;
      keyCount, bucketCount := 0, 0;
      buckets := new Bucket[1](_ => Bucket("", 0));
      metadata := new Meta[1](_ => VACANT);
      model, pos, this.bits := map[], [0], 0;
      new;
      AllVacant(L());
    }

    /** A table of vacant buckets. */
    constructor WithBuckets(h: Hash, limit: nat, count: nat, ghost bits: nat)
      requires count == Pow2(bits) <= limit
      ensures this.h == h && this.limit == limit && Valid()
      ensures model == map[] && bucketCount == count && fresh(buckets) && fresh(metadata)
    {
      this.h, this.limit := h, limit;
      keyCount, bucketCount := 0, count;
      buckets := new Bucket[count](_ => Bucket("", 0));
      metadata := new Meta[count](_ => VACANT);
      model, pos, this.bits := map[], seq(count, _ => 0), bits;
      new;
      AllVacant(L());
    }

    /** The nearest vacant bucket that a key of the home bucket can be placed in. */
    method FindFirstEmpty(home: nat) returns (ok: bool, e: nat, d: nat)
      requires home < metadata.Length
      ensures ok ==> 1 <= d < LIMIT && e == Probe(home, d, metadata.Length) && metadata[e] == VACANT
      ensures !ok ==> forall d' :: 1 <= d' < LIMIT ==> metadata[Probe(home, d', metadata.Length)] != VACANT
    {
      hide Quadratic;
      var n := metadata.Length;
      d := 1;
      var linear := 1;
      QuadraticDouble(1);
      while true
        invariant 1 <= d < LIMIT && linear == Quadratic(d)
        invariant forall d' :: 1 <= d' < d ==> metadata[Probe(home, d', n)] != VACANT
        decreases LIMIT - d
      {
        e := (home + linear) % n;
        if metadata[e] == VACANT {
          return true, e, d;
        }
        QuadraticNext(d);
        d := d + 1;
        if d == LIMIT {
          return false, e, d;
        }
        linear := linear + d;
      }
    }

    /** The key of the home bucket's chain after which a key at displacement `d` belongs; `v` is
        the layout with the keys that are in chains. */
    method FindInsertLocation(ghost v: Layout, home: nat, d: nat) returns (prev: nat)
      requires v.Sized() && v.Chained() && |v.meta| == metadata.Length
      requires forall b :: 0 <= b < |v.meta| && v.Occ(b) ==> metadata[b] == v.meta[b]
      requires v.Occ(home) && v.meta[home].inHome && v.HomeAt(home) == home
      requires 1 <= d < LIMIT && !v.Occ(Probe(home, d, metadata.Length))
      ensures v.Occ(prev) && v.HomeAt(prev) == home && v.pos[prev] < d < v.meta[prev].disp
    {
      hide Layout.Chained, Probe;
      prev := home;
      ChainedAt(v, home);
      while true
        invariant v.Occ(prev) && v.HomeAt(prev) == home && v.pos[prev] < d
        decreases d - v.pos[prev]
      {
        ChainedAt(v, prev);
        var displacement := metadata[prev].disp;
        if displacement > d {
          return;
        }
        prev := (home + Quadratic(displacement)) % metadata.Length;
        assert prev == Probe(home, displacement, metadata.Length) by {
          ProbeIs(home, displacement, metadata.Length);
        }
      }
    }

    /** The key's bucket in the chain of its home bucket. */
    method Traverse(key: string, home: nat) returns (found: bool, bucket: nat)
      requires Valid() && home == Home(h, key, metadata.Length) && metadata[home].inHome
      ensures found == (key in model)
      ensures found ==> bucket < metadata.Length && L().Occ(bucket) && buckets[bucket] == Bucket(key, model[key])
    {
      hide Layout.Chained, Probe, Layout.Holds;
      ghost var l := L();
      var n := metadata.Length;
      bucket := home;
      HeldAt(l, model, key);
      HomeIsRoot(l, home);
      var frag := HashFrag(h(key));
      while true
        invariant l.Occ(bucket) && l.HomeAt(bucket) == home
        invariant forall b :: 0 <= b < n && l.Occ(b) && l.slots[b].key == key ==> l.HomeAt(b) == home && l.pos[bucket] <= l.pos[b]
        decreases LIMIT - l.pos[bucket]
      {
        ChainedAt(l, bucket);
        if metadata[bucket].frag == frag && buckets[bucket].key == key {
          return true, bucket;
        }
        forall b | 0 <= b < n && l.Occ(b) && l.slots[b].key == key
          ensures metadata[bucket].disp <= l.pos[b] < LIMIT
        {
          ChainedAt(l, b);
          FartherOut(l, bucket, b);
        }
        var displacement := metadata[bucket].disp;
        if displacement == LIMIT {
          return false, bucket;
        }
        bucket := (home + Quadratic(displacement)) % n;
        ProbeIs(home, displacement, n);
      }
    }

    /** get: the bucket of a key. */
    method Get(key: string) returns (found: bool, bucket: nat)
      requires Valid()
      ensures found == (key in model)
      ensures found ==> bucket < metadata.Length && L().Occ(bucket) && buckets[bucket] == Bucket(key, model[key])
    {
      var home := h(key) % metadata.Length;
      if !metadata[home].inHome {
        NotInHome(L(), model, key);
        return false, home;
      }
      found, bucket := Traverse(key, home);
    }

    /** The bucket is still marked as occupied, but its key has been linked in elsewhere. */
    ghost predicate Vacated(bucket: nat)
      reads this, buckets, metadata
    {
      && buckets.Length == metadata.Length == |pos|
      && metadata.Length == (if bucketCount == 0 then 1 else bucketCount)
      && (bucketCount == 0 || bucketCount == Pow2(bits)) && bucketCount <= limit
      && bucket < metadata.Length
      && L().SetMeta(bucket, VACANT).Chained() && L().SetMeta(bucket, VACANT).Holds(model)
    }

    /** The key before an occupied bucket in its chain. */
    method FindPrevious(bucket: nat, home: nat) returns (prev: nat)
      requires Valid() && L().Occ(bucket) && home == L().HomeAt(bucket) && !metadata[bucket].inHome
      ensures L().Occ(prev) && L().HomeAt(prev) == home && metadata[prev].disp != LIMIT && L().Next(prev) == bucket
    {
      hide Layout.Chained, Probe;
      ghost var l := L();
      ChainedAt(l, bucket);
      HomeIsRoot(l, home);
      prev := home;
      while true
        invariant l.Occ(prev) && l.HomeAt(prev) == home && l.pos[prev] < l.pos[bucket]
        decreases l.pos[bucket] - l.pos[prev]
      {
        ChainedAt(l, prev);
        ChainedPair(l, prev, bucket);
        var next := (home + Quadratic(metadata[prev].disp)) % metadata.Length;
        ProbeIs(home, metadata[prev].disp, metadata.Length);
        if next == bucket {
          return;
        }
        ApartIfEqual(l, next, bucket);
        prev := next;
      }
    }

    /** The second half of evicting: a key cut out of its chain is linked in at another bucket. */
    method Move(ghost v: Layout, bucket: nat, home: nat, e: nat, d: nat)
      requires buckets.Length == metadata.Length == |pos|
      requires metadata.Length == (if bucketCount == 0 then 1 else bucketCount) && (bucketCount == 0 || bucketCount == Pow2(bits)) && bucketCount <= limit
      requires L().Occ(bucket) && home == L().HomeAt(bucket) && v == L().SetMeta(bucket, VACANT)
      requires v.Chained() && v.Absent(buckets[bucket].key) && v.Occ(home) && v.meta[home].inHome && v.HomeAt(home) == home
      requires metadata[bucket].frag == HashFrag(h(buckets[bucket].key))
      requires buckets[bucket].key in model && model[buckets[bucket].key] == buckets[bucket].val
      requires v.Holds(model - {buckets[bucket].key})
      requires 1 <= d < LIMIT && e == Probe(home, d, metadata.Length) && metadata[e] == VACANT
      modifies buckets, metadata, this`pos
      ensures Vacated(bucket)
    {
      hide Layout.Chained, Layout.Unique, Layout.Holds, Layout.Absent, Probe, Quadratic, HashFrag;
      ghost var key, val := buckets[bucket].key, buckets[bucket].val;
      var prev := FindInsertLocation(v, home, d);
      buckets[e] := buckets[bucket];
      metadata[e] := Meta(metadata[bucket].frag, false, metadata[prev].disp);
      metadata[prev] := metadata[prev].(disp := d);
      pos := pos[e := d];
      LinkAfter(v, prev, e, d, key, val);
      LinkHolds(v, model - {key}, prev, e, d, key, val);
      assert L().SetMeta(bucket, VACANT) == LinkedAfter(v, prev, e, d, key, val);
      assert (model - {key})[key := val] == model;
    }

    /** A key that is not in its home bucket is cut out of its chain. */
    method Unlink(bucket: nat, home: nat)
      requires Valid() && L().Occ(bucket) && !metadata[bucket].inHome && home == L().HomeAt(bucket)
      modifies metadata
      ensures Sound() && L().Occ(bucket) && metadata[bucket] == old(metadata[bucket]) && Unreached(L(), bucket)
      ensures var v := L().SetMeta(bucket, VACANT);
              && v.Chained() && v.Holds(model - {buckets[bucket].key}) && v.Absent(buckets[bucket].key)
              && v.Occ(home) && v.meta[home].inHome && v.HomeAt(home) == home
      ensures metadata[bucket].frag == HashFrag(h(buckets[bucket].key))
      ensures forall b :: 0 <= b < metadata.Length ==> L().Occ(b) == old(L().Occ(b))
    {
      hide Layout.Chained, Layout.Unique, Layout.Holds, Layout.Absent, Probe, HashFrag, Unreached;
      ghost var l := L();
      ValidFacts(l);
      ChainedAt(l, bucket);
      HomeIsRoot(l, home);
      var prev := FindPrevious(bucket, home);
      metadata[prev] := metadata[prev].(disp := metadata[bucket].disp);
      assert L() == l.SetMeta(prev, l.meta[prev].(disp := l.meta[bucket].disp));
      Unlinked(l, L(), prev, bucket, model);
    }

    /** evict: moves a key out of a home bucket that is not its own. When no place is found the
        key has been cut out of its chain, though it is still in the bucket. */
    method Evict(bucket: nat) returns (ok: bool)
      requires Valid() && L().Occ(bucket) && !metadata[bucket].inHome
      modifies buckets, metadata, this`pos
      ensures ok ==> Vacated(bucket)
      ensures !ok ==> Sound() && buckets[..] == old(buckets[..])
      ensures !ok ==> Unreached(L(), bucket) && L().SetMeta(bucket, VACANT).Chained()
      ensures ok == !old(L().HomeFull(L().HomeAt(bucket)))
      ensures !ok && |model| < bucketCount ==> bucketCount > 1024
    {
      hide Layout.Chained, Layout.Unique, Layout.Holds, Layout.Absent, Probe, Quadratic, HashFrag, Unreached;
      var home := h(buckets[bucket].key) % metadata.Length;
      Unlink(bucket, home);
      ghost var v := L().SetMeta(bucket, VACANT);
      var found, e, d := FindFirstEmpty(home);
      if !found {
        if |model| < bucketCount <= 1024 {
          NeverFull(L(), model, home, bits);
        }
        return false;
      }
      HeldBucket(L(), model, bucket);
      Move(v, bucket, home, e, d);
      ok := true;
    }

    /** The load factor allows one more key. */
    predicate Room()
      reads this
    {
      10 * (keyCount + 1) <= 9 * bucketCount
    }

    /** What a failed insertion leaves: no place for the key, and the entries as they were. */
    ghost predicate Failed(key: string)
      reads this, buckets, metadata
    {
      Sound() && key !in model && (Room() ==> bucketCount > 1024)
    }

    /** What a successful one leaves: the key where it was or where it has been placed. */
    ghost predicate Inserted(key: string, bucket: nat)
      reads this, buckets, metadata
    {
      && Valid() && bucket < metadata.Length && L().Occ(bucket)
      && key in model && buckets[bucket] == Bucket(key, model[key])
    }

    /** insert_raw into a home bucket without a chain, which any other key there has left. */
    method StartChain(key: string, val: u16) returns (ok: bool, bucket: nat)
      requires Valid() && !metadata[Home(h, key, metadata.Length)].inHome
      modifies this`keyCount, this`model, this`pos, buckets, metadata
      ensures key !in old(model)
      ensures ok ==> Inserted(key, bucket) && model == old(model)[key := val]
      ensures !ok ==> Failed(key) && model == old(model) && keyCount == old(keyCount)
    {
      hide Layout.Chained, Layout.Unique, Layout.Holds, Layout.Absent, Probe, Quadratic, HashFrag;
      bucket := h(key) % metadata.Length;
      NotInHome(L(), model, key);
      if !Room() {
        return false, bucket;
      }
      assert keyCount < bucketCount;
      if metadata[bucket] != VACANT {
        ok := Evict(bucket);
        if !ok {
          return;
        }
      } else {
        VacateVacant(L(), bucket);
      }
      Begin(bucket, key, val);
      ok := true;
    }

    /** A key written into its home bucket. */
    method Begin(bucket: nat, key: string, val: u16)
      requires Vacated(bucket) && keyCount == |model| && key !in model && bucketCount > 0
      requires bucket == Home(h, key, metadata.Length)
      modifies this`keyCount, this`model, this`pos, buckets, metadata
      ensures Inserted(key, bucket) && model == old(model)[key := val]
    {
      hide Layout.Chained, Layout.Unique, Layout.Holds, Layout.Absent, Probe, HashFrag;
      ghost var v := L().SetMeta(bucket, VACANT);
      buckets[bucket] := Bucket(key, val);
      metadata[bucket] := Meta(HashFrag(h(key)), true, LIMIT);
      pos := pos[bucket := 0];
      keyCount := keyCount + 1;
      HeldAbsent(v, model, key);
      PlaceHome(v, key, val);
      FillHolds(v, model, bucket, key, val, metadata[bucket], 0);
      assert L() == PlacedHome(v, key, val);
      model := model[key := val];
      ChainedUnique(L());
    }

    /** insert_raw into an existing chain, when the key is not there yet. */
    method ExtendChain(key: string, val: u16) returns (ok: bool, bucket: nat)
      requires Valid() && metadata[Home(h, key, metadata.Length)].inHome && key !in model
      modifies this`keyCount, this`model, this`pos, buckets, metadata
      ensures ok ==> Inserted(key, bucket) && model == old(model)[key := val]
      ensures !ok ==> Failed(key) && model == old(model) && keyCount == old(keyCount)
    {
      hide Layout.Chained, Layout.Unique, Layout.Holds, Layout.Absent, Probe, Quadratic, HashFrag;
      ghost var l := L();
      var home := h(key) % metadata.Length;
      ValidFacts(l);
      HomeIsRoot(l, home);
      HeldAbsent(l, model, key);
      if !Room() {
        return false, home;
      }
      var d;
      ok, bucket, d := FindFirstEmpty(home);
      if !ok {
        if bucketCount <= 1024 {
          NeverFull(l, model, home, bits);
        }
        return;
      }
      var prev := FindInsertLocation(l, home, d);
      LinkIn(prev, bucket, d, key, val);
    }

    /** A key written into a vacant bucket and linked in after another one of its home. */
    method LinkIn(prev: nat, bucket: nat, d: nat, key: string, val: u16)
      requires Valid() && CanLink(L(), prev, bucket, d, key) && key !in model && bucketCount > 0
      modifies this`keyCount, this`model, this`pos, buckets, metadata
      ensures Inserted(key, bucket) && model == old(model)[key := val]
    {
      hide Layout.Chained, Layout.Unique, Layout.Holds, Layout.Absent, Probe, HashFrag;
      ghost var l := L();
      HeldAbsent(l, model, key);
      buckets[bucket] := Bucket(key, val);
      metadata[bucket] := Meta(HashFrag(h(key)), false, metadata[prev].disp);
      metadata[prev] := metadata[prev].(disp := d);
      pos := pos[bucket := d];
      keyCount := keyCount + 1;
      LinkAfter(l, prev, bucket, d, key, val);
      LinkHolds(l, model, prev, bucket, d, key, val);
      assert L() == LinkedAfter(l, prev, bucket, d, key, val);
      model := model[key := val];
      ChainedUnique(L());
    }

    /** Another value for a key that is there. */
    method Replace(bucket: nat, key: string, val: u16)
      requires Inserted(key, bucket)
      modifies this`model, buckets
      ensures Inserted(key, bucket) && model == old(model)[key := val]
    {
      hide Layout.Chained, Layout.Unique, Layout.Holds, Probe, HashFrag;
      ghost var l := L();
      ValidFacts(l);
      ChainedAt(l, bucket);
      OnlyBucket(l, bucket);
      buckets[bucket] := Bucket(key, val);
      Rekey(l, bucket, key, val);
      RekeyHolds(l, model, bucket, key, val);
      assert L() == Rekeyed(l, bucket, key, val);
      assert (model - {key})[key := val] == model[key := val];
      SizeKept(model, key, val);
      model := model[key := val];
      ChainedUnique(L());
    }

    /** insert_raw: a key that is new for certain when `unique`, and that keeps its value when it
        is there already and `replace` is not asked for. */
    method InsertRaw(key: string, val: u16, unique: bool, replace: bool) returns (ok: bool, bucket: nat)
      requires Valid() && (unique ==> key !in model)
      modifies this`keyCount, this`model, this`pos, buckets, metadata
      ensures ok ==> Inserted(key, bucket) && model == if key in old(model) && !replace then old(model) else old(model)[key := val]
      ensures !ok ==> Failed(key) && model == old(model) && keyCount == old(keyCount)
    {
      hide Layout.Chained, Layout.Unique, Layout.Holds, Layout.Absent, HashFrag;
      var home := h(key) % metadata.Length;
      if !metadata[home].inHome {
        ok, bucket := StartChain(key, val);
        return;
      }
      if !unique {
        ok, bucket := Traverse(key, home);
        if ok {
          if replace {
            Replace(bucket, key, val);
          }
          return;
        }
      }
      ok, bucket := ExtendChain(key, val);
    }

    /** The entry of one bucket, if there is one, in the other table. */
    method CopyBucket(t: Table, b: nat) returns (ok: bool)
      requires Sound() && t.Valid() && b < bucketCount && Copied(L(), t.model, b)
      requires t != this && t.h == h && t.buckets != buckets && t.metadata != metadata
      modifies t`keyCount, t`model, t`pos, t.buckets, t.metadata
      ensures Sound() && L() == old(L())
      ensures if ok then t.Valid() && Copied(L(), t.model, b + 1) else t.keyCount < keyCount
      ensures !ok ==> t.bucketCount > SAFE_BUCKETS || !t.Room()
    {
      hide Layout.Chained, Layout.Unique, Layout.Holds, Copied;
      ghost var l := L();
      ok := true;
      if metadata[b] != VACANT {
        NotYetCopied(l, t.model, b);
        CopiedFewer(l, t.model, model, b);
        var inserted, _ := t.InsertRaw(buckets[b].key, buckets[b].val, true, false);
        ok := inserted;
      } else {
        CopiedNext(l, t.model, b);
      }
    }

    /** The entries of this table put into a new one, as far as they find a place. */
    method Reinsert(t: Table)
      requires Sound() && t.Valid() && t.model == map[]
      requires t != this && t.h == h && t.buckets != buckets && t.metadata != metadata
      modifies t`keyCount, t`model, t`pos, t.buckets, t.metadata
      ensures t.keyCount <= keyCount
      ensures t.keyCount == keyCount ==> t.Valid() && t.model == model
      ensures t.keyCount < keyCount ==> t.bucketCount > SAFE_BUCKETS || !t.Room()
    {
      hide Layout.Chained, Layout.Unique, Layout.Holds, Copied;
      ghost var l := L();
      CopiedNone(l);
      var b := 0;
      while b < bucketCount
        invariant 0 <= b <= bucketCount
        invariant t.Valid() && L() == l && Sound()
        invariant Copied(l, t.model, b)
      {
        var ok := CopyBucket(t, b);
        if !ok {
          return;
        }
        b := b + 1;
      }
      if bucketCount == 0 {
        CopiedNext(l, t.model, 0);
      }
      CopiedAll(l, t.model, model);
    }

    /** The entries of this table in a new one of `count` buckets, if they all find a place. */
    method Rebuilt(count: nat, ghost b: nat) returns (ok: bool, t: Table)
      requires Sound() && count == Pow2(b) <= limit
      ensures ok ==> fresh(t) && fresh(t.buckets) && fresh(t.metadata)
      ensures ok ==> t.h == h && t.limit == limit && t.Valid() && t.model == model && t.bucketCount == count
      ensures count <= SAFE_BUCKETS && 10 * keyCount <= 9 * count ==> ok
    {
      t := new Table.WithBuckets(h, limit, count, b);
      Reinsert(t);
      ok := t.keyCount >= keyCount;
    }

    /** rehash: entries are found by occupancy and not by links, so they survive even when the
        table has a key that no link leads to. */
    method Rehash(newCount: nat, ghost newBits: nat) returns (ok: bool)
      requires Sound() && newCount == Pow2(newBits)
      modifies this
      ensures model == old(model)
      ensures ok ==> Valid() && bucketCount >= newCount && fresh(buckets) && fresh(metadata)
      ensures !ok ==> unchanged(this)
      ensures newCount <= limit && newCount <= SAFE_BUCKETS && 10 * old(keyCount) <= 9 * newCount ==> ok && bucketCount == newCount
    {
      hide Layout.Chained, Layout.Unique, Layout.Holds, Table.Sound, Table.Valid;
      var count := newCount;
      ghost var b := newBits;
      while true
        invariant count == Pow2(b) && count >= newCount
        invariant Sound() && unchanged(this)
        invariant newCount <= SAFE_BUCKETS && 10 * keyCount <= 9 * newCount ==> count == newCount
        decreases limit - count
      {
        if count > limit {
          return false;
        }
        var done, t := Rebuilt(count, b);
        if !done {
          count := 2 * count;
          b := b + 1;
          continue;
        }
        Adopt(t);
        return true;
      }
    }

    method Adopt(t: Table)
      requires t.Valid() && t.h == h && t.limit == limit
      modifies this
      ensures Valid() && model == old(t.model) && bucketCount == old(t.bucketCount)
      ensures buckets == old(t.buckets) && metadata == old(t.metadata)
    {
      hide Layout.Chained, Layout.Unique, Layout.Holds;
      keyCount, bucketCount, buckets, metadata := t.keyCount, t.bucketCount, t.buckets, t.metadata;
      model, pos, bits := t.model, t.pos, t.bits;
      assert L() == t.L();
    }

    /** The bucket count to try when a key finds no place. */
    method Grow() returns (ok: bool)
      requires Sound()
      modifies this
      ensures model == old(model)
      ensures ok ==> Valid() && bucketCount > old(bucketCount) && fresh(buckets) && fresh(metadata)
      ensures !ok ==> unchanged(this)
      ensures 2 * old(bucketCount) <= SAFE_BUCKETS <= limit ==> ok && bucketCount <= SAFE_BUCKETS
    {
      KeysFit(L(), model);
      if bucketCount == 0 {
        ok := Rehash(MIN_NONZERO_BUCKET_COUNT, 3);
      } else {
        ok := Rehash(2 * bucketCount, bits + 1);
      }
    }

    /** insert: the key has the value afterwards, unless memory for more buckets is refused. */
    method Insert(key: string, val: u16) returns (ok: bool, bucket: nat)
      requires Valid()
      modifies this, buckets, metadata
      ensures ok ==> Inserted(key, bucket) && model == old(model)[key := val]
      ensures !ok ==> Sound() && model == old(model) && key !in model
    {
      hide Layout.Chained, Layout.Unique, Layout.Holds;
      while true
        invariant Valid() && model == old(model)
        invariant buckets == old(buckets) || fresh(buckets)
        invariant metadata == old(metadata) || fresh(metadata)
        decreases limit - bucketCount
      {
        ok, bucket := InsertRaw(key, val, false, true);
        if ok {
          return;
        }
        ok := Grow();
        if !ok {
          return;
        }
      }
    }

    /** get_or_insert: a key that is there keeps its value. */
    method GetOrInsert(key: string, val: u16) returns (ok: bool, bucket: nat)
      requires Valid()
      modifies this, buckets, metadata
      ensures ok ==> Inserted(key, bucket) && model == if key in old(model) then old(model) else old(model)[key := val]
      ensures !ok ==> Sound() && model == old(model) && key !in model
      ensures (key in old(model) || old(keyCount) < SAFE_KEYS) && old(bucketCount) <= SAFE_BUCKETS <= limit ==>
                ok && bucketCount <= SAFE_BUCKETS
      ensures (buckets == old(buckets) || fresh(buckets)) && (metadata == old(metadata) || fresh(metadata))
    {
      hide Layout.Chained, Layout.Unique, Layout.Holds;
      while true
        invariant Valid() && model == old(model)
        invariant (key in model || keyCount < SAFE_KEYS) && old(bucketCount) <= SAFE_BUCKETS <= limit ==> bucketCount <= SAFE_BUCKETS
        invariant buckets == old(buckets) || fresh(buckets)
        invariant metadata == old(metadata) || fresh(metadata)
        decreases limit - bucketCount
      {
        ok, bucket := InsertRaw(key, val, false, false);
        if ok {
          return;
        }
        if 0 < bucketCount < SAFE_BUCKETS {
          SmallPower(bits);
        }
        ok := Grow();
        if !ok {
          return;
        }
      }
    }

    /** The end of a chain, from a bucket that is not at its end, and the bucket before it. */
    method FindLast(bucket: nat, home: nat) returns (prev: nat, last: nat)
      requires Valid() && L().Occ(bucket) && home == L().HomeAt(bucket) && metadata[bucket].disp != LIMIT
      ensures L().Occ(prev) && L().Occ(last) && L().HomeAt(prev) == L().HomeAt(last) == home
      ensures metadata[prev].disp != LIMIT && L().Next(prev) == last && metadata[last].disp == LIMIT
      ensures L().pos[bucket] <= L().pos[prev] < L().pos[last]
    {
      hide Layout.Chained, Probe;
      ghost var l := L();
      last := bucket;
      while true
        invariant l.Occ(last) && l.HomeAt(last) == home && metadata[last].disp != LIMIT && l.pos[bucket] <= l.pos[last]
        decreases LIMIT - l.pos[last]
      {
        ChainedAt(l, last);
        prev := last;
        last := (home + Quadratic(metadata[last].disp)) % metadata.Length;
        ProbeIs(home, metadata[prev].disp, metadata.Length);
        ChainedAt(l, last);
        if metadata[last].disp == LIMIT {
          return;
        }
      }
    }

    /** The buckets after a key is gone from them. */
    ghost predicate Without(key: string)
      reads this, buckets, metadata
    {
      && buckets.Length == metadata.Length == |pos| == (if bucketCount == 0 then 1 else bucketCount)
      && L().Chained() && L().Holds(model - {key})
    }

    /** A key alone in its chain. */
    method EraseSingle(bucket: nat)
      requires Valid() && L().Occ(bucket) && metadata[bucket].inHome && metadata[bucket].disp == LIMIT
      modifies metadata
      ensures Without(buckets[bucket].key)
    {
      hide Layout.Chained, Layout.Unique, Layout.Holds;
      ghost var l := L();
      RemoveSingle(l, bucket);
      ValidFacts(l);
      VacateHolds(l, model, bucket);
      metadata[bucket] := VACANT;
      assert L() == l.SetMeta(bucket, VACANT);
    }

    /** The last key of a longer chain. */
    method EraseLast(bucket: nat, home: nat)
      requires Valid() && L().Occ(bucket) && !metadata[bucket].inHome && metadata[bucket].disp == LIMIT
      requires home == L().HomeAt(bucket)
      modifies metadata
      ensures Without(buckets[bucket].key)
    {
      hide Layout.Chained, Layout.Unique, Layout.Holds;
      ghost var l := L();
      ValidFacts(l);
      var prev := FindPrevious(bucket, home);
      Detach(l, prev, bucket);
      DetachHolds(l, model, prev, bucket);
      metadata[prev] := metadata[prev].(disp := LIMIT);
      metadata[bucket] := VACANT;
      assert L() == Detached(l, prev, bucket);
    }

    /** Any other key: the last one of the chain takes its place. */
    method EraseMiddle(bucket: nat, home: nat)
      requires Valid() && L().Occ(bucket) && metadata[bucket].disp != LIMIT && home == L().HomeAt(bucket)
      modifies buckets, metadata
      ensures Without(old(buckets[bucket].key))
    {
      hide Layout.Chained, Layout.Unique, Layout.Holds, HashFrag;
      ghost var l := L();
      var prev, last := FindLast(bucket, home);
      SwappedOut(l, model, bucket, prev, last);
      ChainedAt(l, last);
      buckets[bucket] := buckets[last];
      metadata[bucket] := metadata[bucket].(frag := metadata[last].frag);
      metadata[prev] := metadata[prev].(disp := LIMIT);
      metadata[last] := VACANT;
      assert L() == Rekeyed(Detached(l, prev, last), bucket, l.slots[last].key, l.slots[last].val);
    }

    /** erase_itr_raw: the chain gives up its last bucket, whose key moves to the erased one. */
    method EraseAt(bucket: nat)
      requires Valid() && L().Occ(bucket)
      modifies this`keyCount, this`model, buckets, metadata
      ensures Valid() && model == old(model) - {old(buckets[bucket].key)}
    {
      hide Layout.Chained, Layout.Unique, Layout.Holds, HashFrag;
      ghost var key := buckets[bucket].key;
      HeldBucket(L(), model, bucket);
      OneKeyLess(model, key);
      if metadata[bucket].inHome && metadata[bucket].disp == LIMIT {
        EraseSingle(bucket);
      } else {
        var home := if metadata[bucket].inHome then bucket else h(buckets[bucket].key) % metadata.Length;
        if metadata[bucket].inHome {
          HomeIsRoot(L(), bucket);
        }
        if metadata[bucket].disp == LIMIT {
          EraseLast(bucket, home);
        } else {
          EraseMiddle(bucket, home);
        }
      }
      keyCount := keyCount - 1;
      model := model - {key};
      ChainedUnique(L());
    }

    /** erase: true when the key was there. */
    method Erase(key: string) returns (erased: bool)
      requires Valid()
      modifies this`keyCount, this`model, buckets, metadata
      ensures Valid() && erased == (key in old(model)) && model == old(model) - {key}
    {
      var found, bucket := Get(key);
      if !found {
        return false;
      }
      EraseAt(bucket);
      erased := true;
    }
  }

  lemma OneKeyLess(m: map<string, u16>, key: string)
    requires key in m
    ensures |m - {key}| == |m| - 1
  {
    assert (m - {key}).Keys == m.Keys - {key};
  }

  /** The last key of a chain put in place of another one. */
  lemma SwappedOut(l: Layout, m: map<string, u16>, b: nat, prev: nat, last: nat)
    requires l.Sized() && l.Chained() && l.Holds(m) && l.Occ(b) && l.Occ(prev) && l.Occ(last)
    requires l.HomeAt(b) == l.HomeAt(prev) == l.HomeAt(last)
    requires l.meta[prev].disp != LIMIT && l.Next(prev) == last && l.meta[last].disp == LIMIT
    requires l.pos[b] <= l.pos[prev] < l.pos[last]
    ensures var r := Rekeyed(Detached(l, prev, last), b, l.slots[last].key, l.slots[last].val);
            r.Chained() && r.Holds(m - {l.slots[b].key})
  {
    hide Layout.Chained, Layout.Unique, Layout.Holds, Probe, HashFrag;
    var key, val := l.slots[last].key, l.slots[last].val;
    var v := Detached(l, prev, last);
    ChainedUnique(l);
    ChainedAt(l, last);
    Detach(l, prev, last);
    DetachHolds(l, m, prev, last);
    RemovedAbsent(v, m, key);
    Rekey(v, b, key, val);
    ChainedUnique(v);
    ChainedAt(v, b);
    RekeyHolds(v, m - {key}, b, key, val);
    HeldBucket(l, m, last);
    UniquePair(l, b, last);
    assert ((m - {key}) - {l.slots[b].key})[key := val] == m - {l.slots[b].key};
  }

  /** The labels of the program: a thin layer over the table. */
  class LabelTable {
    const t: Table

    constructor (h: Hash, limit: nat)
      ensures t.limit == limit && t.bucketCount == 0
      ensures t.Valid() && t.model == map[] && fresh(t) && fresh(t.buckets) && fresh(t.metadata)
    {
      t := new Table(h, limit);
    }

    /** insert_key: 0 for a new label, 1 for one that was there, and -1 without memory. */
    method InsertKey(key: string, nr: u16) returns (r: int)
      requires t.Valid()
      modifies t, t.buckets, t.metadata
      ensures r == 0 <==> key !in old(t.model) && t.Valid() && t.model == old(t.model)[key := nr]
      ensures r == 1 <==> key in old(t.model)
      ensures r == 1 ==> t.Valid() && t.model == old(t.model)
      ensures r == 0 || r == 1 || (r == -1 && t.Sound() && t.model == old(t.model) && key !in t.model)
      ensures (r == 1 || |old(t.model)| < SAFE_KEYS) && old(t.bucketCount) <= SAFE_BUCKETS <= t.limit ==>
                r != -1 && t.bucketCount <= SAFE_BUCKETS
      ensures t.buckets == old(t.buckets) || fresh(t.buckets)
      ensures t.metadata == old(t.metadata) || fresh(t.metadata)
    {
      var previous := t.keyCount;
      var ok, _ := t.GetOrInsert(key, nr);
      if !ok {
        return -1;
      }
      CountGrows(old(t.model), key, nr);
      r := if previous == t.keyCount then 1 else 0;
    }

    /** find_key: all ones for a label that is not there. */
    method FindKey(key: string) returns (nr: u16)
      requires t.Valid()
      ensures nr == if key in t.model then t.model[key] else 0xffff
    {
      var found, bucket := t.Get(key);
      nr := if found then t.buckets[bucket].val else 0xffff;
    }
  }

  lemma {:induction false} SmallPower(b: nat)
    requires Pow2(b) < SAFE_BUCKETS
    ensures 2 * Pow2(b) <= SAFE_BUCKETS
  {
    assert Pow2(10) == SAFE_BUCKETS;
    if b > 9 {
      if b > 10 {
        Pow2Monotone(10, b);
      }
    } else if b < 9 {
      Pow2Monotone(b, 9);
    }
  }

  /** There are no more keys than buckets. */
  lemma KeysFit(l: Layout, m: map<string, u16>)
    requires l.Sized() && l.Holds(m)
    ensures |m| <= |l.meta| && (l.meta == [VACANT] ==> |m| == 0)
  {
    hide Layout.Occ;
    forall k | k in m
      ensures k in KeysBefore(l, |l.meta|)
    {
      assert l.Has(k, m[k]);
      var b :| 0 <= b < |l.meta| && l.Occ(b) && l.slots[b].key == k && l.slots[b].val == m[k];
      KeyBefore(l, |l.meta|, b);
    }
    KeysBeforeSize(l, |l.meta|);
    SubsetSmaller(m.Keys, KeysBefore(l, |l.meta|));
    if l.meta == [VACANT] {
      NothingHeld(l, m);
    }
  }

  lemma NothingHeld(l: Layout, m: map<string, u16>)
    requires l.Sized() && l.Holds(m) && l.meta == [VACANT]
    ensures |m| == 0
  {
    assert forall k, v :: !l.Has(k, v);
    assert m == map[];
  }

  lemma CountGrows(m: map<string, u16>, key: string, val: u16)
    ensures key !in m ==> |m[key := val]| == |m| + 1
  {
    assert m[key := val].Keys == m.Keys + {key};
  }

  /** The first `n` buckets' entries, and no others, are in the map. */
  ghost predicate Copied(l: Layout, m: map<string, u16>, n: nat)
    requires l.Sized() && n <= |l.meta|
  {
    && (forall b :: 0 <= b < n && l.Occ(b) ==> l.slots[b].key in m && m[l.slots[b].key] == l.slots[b].val)
    && (forall k :: k in m ==> exists b :: 0 <= b < n && l.Occ(b) && l.slots[b].key == k)
  }

  lemma CopiedNone(l: Layout)
    requires l.Sized()
    ensures Copied(l, map[], 0)
  {
  }

  lemma UniquePair(l: Layout, a: nat, b: nat)
    requires l.Unique() && a < |l.meta| && b < |l.meta|
    ensures l.UniqueAt(a, b)
  {
  }

  lemma NotYetCopied(l: Layout, m: map<string, u16>, b: nat)
    requires l.Sized() && l.Unique() && l.Occ(b) && Copied(l, m, b)
    ensures l.slots[b].key !in m
    ensures Copied(l, m[l.slots[b].key := l.slots[b].val], b + 1)
  {
    hide Layout.Unique;
    var key := l.slots[b].key;
    forall c | 0 <= c < b && l.Occ(c)
      ensures l.slots[c].key != key
    {
      UniquePair(l, c, b);
    }
    var m' := m[key := l.slots[b].val];
    forall k | k in m'
      ensures exists c :: 0 <= c < b + 1 && l.Occ(c) && l.slots[c].key == k
    {
      if k == key {
        assert l.Occ(b) && l.slots[b].key == k;
      } else {
        var c :| 0 <= c < b && l.Occ(c) && l.slots[c].key == k;
      }
    }
  }

  lemma CopiedNext(l: Layout, m: map<string, u16>, b: nat)
    requires l.Sized() && b < |l.meta| && !l.Occ(b) && Copied(l, m, b)
    ensures Copied(l, m, b + 1)
  {
    forall k | k in m
      ensures exists c :: 0 <= c < b + 1 && l.Occ(c) && l.slots[c].key == k
    {
      var c :| 0 <= c < b && l.Occ(c) && l.slots[c].key == k;
    }
  }

  lemma SubMap(l: Layout, m: map<string, u16>, all: map<string, u16>, n: nat)
    requires l.Sized() && n <= |l.meta| && l.Holds(all) && Copied(l, m, n)
    ensures forall k :: k in m ==> k in all && m[k] == all[k]
    ensures m.Keys <= all.Keys
  {
    forall k | k in m
      ensures k in all && m[k] == all[k]
    {
      var b :| 0 <= b < n && l.Occ(b) && l.slots[b].key == k;
    }
  }

  lemma CopiedFewer(l: Layout, m: map<string, u16>, all: map<string, u16>, b: nat)
    requires l.Sized() && l.Holds(all) && l.Occ(b) && Copied(l, m, b) && l.slots[b].key !in m
    ensures |m| < |all|
  {
    SubMap(l, m, all, b);
    SubsetSmaller(m.Keys, all.Keys - {l.slots[b].key});
    assert |all.Keys| == |all|;
  }

  lemma CopiedAll(l: Layout, m: map<string, u16>, all: map<string, u16>)
    requires l.Sized() && l.Holds(all) && Copied(l, m, |l.meta|)
    ensures m == all
  {
    SubMap(l, m, all, |l.meta|);
    forall k | k in all
      ensures k in m
    {
      assert l.Has(k, all[k]);
    }
  }

  lemma VacateVacant(l: Layout, b: nat)
    requires l.Sized() && b < |l.meta| && l.meta[b] == VACANT
    ensures l.SetMeta(b, VACANT) == l
  {
  }

  lemma OnlyBucket(l: Layout, b: nat)
    requires l.Unique() && l.Occ(b)
    ensures forall c :: 0 <= c < |l.meta| && l.Occ(c) && l.slots[c].key == l.slots[b].key ==> c == b
  {
    forall c | 0 <= c < |l.meta| && l.Occ(c) && l.slots[c].key == l.slots[b].key
      ensures c == b
    {
      assert l.UniqueAt(c, b);
    }
  }

  lemma SizeKept(m: map<string, u16>, key: string, val: u16)
    requires key in m
    ensures |m[key := val]| == |m|
  {
    assert m[key := val].Keys == m.Keys;
  }

  /** No link from another key of its home leads to a bucket. */
  predicate Unreached(l: Layout, b: nat)
    requires l.Sized() && b < |l.meta|
  {
    forall p :: 0 <= p < |l.meta| && p != b && l.Occ(p) && l.HomeAt(p) == l.HomeAt(b) && l.meta[p].disp != LIMIT ==> l.Next(p) != b
  }

  /** The bucket that following `n` links from `a` leads to, or the end of the chain before. */
  function Walk(l: Layout, a: nat, n: nat): (b: nat)
    requires l.Sized() && a < |l.meta|
    ensures b < |l.meta|
    decreases n
  {
    if n == 0 || l.meta[a].disp == LIMIT then a else Walk(l, l.Next(a), n - 1)
  }

  /** After an eviction that found no place, no search along links comes to the key, although it
      is still in its bucket: the table only keeps it if it is rehashed. */
  lemma {:induction false} NeverReached(l: Layout, b: nat, a: nat, n: nat)
    requires l.Sized() && b < |l.meta| && l.SetMeta(b, VACANT).Chained()
    requires a != b && l.Occ(a) && l.HomeAt(a) == l.HomeAt(b)
    ensures Walk(l, a, n) != b
    decreases n
  {
    hide Layout.Chained, Probe;
    var v := l.SetMeta(b, VACANT);
    ChainedAt(v, a);
    if n > 0 && l.meta[a].disp != LIMIT {
      NeverReached(l, b, l.Next(a), n - 1);
    }
  }

  lemma ValidFacts(l: Layout)
    requires l.Chained()
    ensures l.Sized() && l.Unique()
  {
  }

  lemma NotInHome(l: Layout, m: map<string, u16>, key: string)
    requires l.Sized() && l.Chained() && l.Holds(m) && !l.meta[Home(l.h, key, |l.meta|)].inHome
    ensures key !in m
  {
    HeldAt(l, m, key);
    if key in m {
      KeyHome(l, m, key);
    }
  }

  lemma ApartIfEqual(l: Layout, a: nat, b: nat)
    requires l.Sized() && l.Chained() && l.Occ(a) && l.Occ(b) && l.HomeAt(a) == l.HomeAt(b) && a != b
    ensures l.pos[a] != l.pos[b]
  {
    if l.pos[a] == l.pos[b] {
      SamePlace(l, a, b);
    }
  }

  lemma DetachHolds(l: Layout, m: map<string, u16>, prev: nat, b: nat)
    requires l.Sized() && l.Unique() && l.Holds(m) && l.Occ(prev) && l.Occ(b) && prev != b && l.meta[b].disp > 0
    ensures Detached(l, prev, b).Holds(m - {l.slots[b].key})
  {
    var r := l.SetMeta(prev, l.meta[prev].(disp := l.meta[b].disp));
    RelinkHolds(l, m, prev, l.meta[prev].(disp := l.meta[b].disp));
    RelinkUnique(l, prev, l.meta[prev].(disp := l.meta[b].disp));
    VacateHolds(r, m, b);
  }

  lemma RelinkUnique(l: Layout, b: nat, meta: Meta)
    requires l.Unique() && l.Occ(b) && meta != VACANT
    ensures l.SetMeta(b, meta).Unique()
  {
    var r := l.SetMeta(b, meta);
    forall a, c | 0 <= a < |r.meta| && 0 <= c < |r.meta|
      ensures r.UniqueAt(a, c)
    {
      assert l.UniqueAt(a, c);
    }
  }

  lemma LinkHolds(l: Layout, m: map<string, u16>, prev: nat, e: nat, d: nat, key: string, val: u16)
    requires l.Sized() && l.Holds(m) && l.Absent(key) && CanLink(l, prev, e, d, key)
    ensures LinkedAfter(l, prev, e, d, key, val).Holds(m[key := val])
  {
    hide Layout.Holds, Layout.Absent, HashFrag;
    var meta := Meta(HashFrag(l.h(key)), false, l.meta[prev].disp);
    FillHolds(l, m, e, key, val, meta, d);
    RelinkHolds(l.Fill(e, key, val, meta, d), m[key := val], prev, l.meta[prev].(disp := d));
  }

  lemma HeldBucket(l: Layout, m: map<string, u16>, b: nat)
    requires l.Sized() && l.Holds(m) && l.Occ(b)
    ensures l.slots[b].key in m && m[l.slots[b].key] == l.slots[b].val
  {
  }

  lemma RemovedAbsent(l: Layout, m: map<string, u16>, key: string)
    requires l.Sized() && l.Holds(m - {key})
    ensures l.Absent(key)
  {
    HeldAbsent(l, m - {key}, key);
  }

  /** What is left when a key has been cut out of its chain: the same keys and no link to it, and
      the chains of all the others. */
  lemma Unlinked(l: Layout, r: Layout, prev: nat, b: nat, m: map<string, u16>)
    requires l.Sized() && l.Chained() && l.Unique() && l.Holds(m) && l.Occ(prev) && l.Occ(b) && prev != b
    requires l.HomeAt(prev) == l.HomeAt(b) && l.meta[prev].disp != LIMIT && l.Next(prev) == b
    requires r == l.SetMeta(prev, l.meta[prev].(disp := l.meta[b].disp))
    ensures r.Unique() && r.Holds(m)
    ensures Unreached(r, b)
    ensures r.SetMeta(b, VACANT) == Detached(l, prev, b)
    ensures var v := Detached(l, prev, b); v.Chained() && v.Holds(m - {l.slots[b].key}) && v.Absent(l.slots[b].key)
  {
    hide Layout.Chained, Layout.Unique, Layout.Holds, Layout.Absent, Probe;
    ChainedAt(l, b);
    Detach(l, prev, b);
    DetachHolds(l, m, prev, b);
    RemovedAbsent(Detached(l, prev, b), m, l.slots[b].key);
    RelinkHolds(l, m, prev, l.meta[prev].(disp := l.meta[b].disp));
    RelinkUnique(l, prev, l.meta[prev].(disp := l.meta[b].disp));
    var v := Detached(l, prev, b);
    forall p | 0 <= p < |r.meta| && p != b && r.Occ(p) && r.HomeAt(p) == r.HomeAt(b) && r.meta[p].disp != LIMIT
      ensures r.Next(p) != b
    {
      ChainedAt(v, p);
    }
  }

  /** A table of at most 1024 buckets that is not full has a vacant one for every home. */
  lemma {:induction false} NeverFull(l: Layout, m: map<string, u16>, home: nat, bits: nat)
    requires l.Unique() && l.Holds(m) && |m| < |l.meta| == Pow2(bits) <= 1024 && l.Occ(home)
    ensures exists d :: 1 <= d < LIMIT && !l.Occ(Probe(home, d, |l.meta|))
  {
    HasVacancy(l, m);
    var e :| 0 <= e < |l.meta| && !l.Occ(e);
    VacancyFound(l, home, e, bits);
  }

  lemma ProbeIs(home: nat, d: nat, n: nat)
    requires n > 0
    ensures Probe(home, d, n) == (home + Quadratic(d)) % n
  {
  }

  /** The link of a bucket does not skip a key farther out in the same chain. */
  lemma FartherOut(l: Layout, a: nat, b: nat)
    requires l.Sized() && l.Chained() && l.Occ(a) && l.Occ(b) && l.HomeAt(a) == l.HomeAt(b)
    requires l.pos[a] <= l.pos[b] && a != b
    ensures l.meta[a].disp <= l.pos[b] < LIMIT
  {
    ChainedAt(l, b);
    ChainedPair(l, a, b);
    if l.pos[b] == l.pos[a] {
      SamePlace(l, b, a);
    }
  }

  lemma AllVacant(l: Layout)
    requires l.Sized() && forall b :: 0 <= b < |l.meta| ==> l.meta[b] == VACANT
    ensures l.Chained() && l.Holds(map[])
  {
  }

  /** Where a key of the map is, and that buckets with other keys do not matter to it. */
  lemma HeldAt(l: Layout, m: map<string, u16>, key: string)
    requires l.Sized() && l.Holds(m)
    ensures key in m ==> l.Has(key, m[key])
    ensures forall b :: 0 <= b < |l.meta| && l.Occ(b) && l.slots[b].key == key ==> key in m && l.slots[b].val == m[key]
  {
  }

  lemma KeyHome(l: Layout, m: map<string, u16>, key: string)
    requires l.Sized() && l.Chained() && key in m && l.Has(key, m[key])
    ensures l.meta[Home(l.h, key, |l.meta|)].inHome
  {
    var b :| 0 <= b < |l.meta| && l.Occ(b) && l.slots[b].key == key && l.slots[b].val == m[key];
    ChainedAt(l, b);
  }

  /** A key marked as in its home bucket begins that bucket's chain. */
  lemma HomeIsRoot(l: Layout, home: nat)
    requires l.Sized() && l.Chained() && home < |l.meta| && l.meta[home].inHome
    ensures l.Occ(home) && l.HomeAt(home) == home && l.pos[home] == 0
  {
    ChainedAt(l, home);
    ProbeZero(l.HomeAt(home), |l.meta|);
  }
}
