/** The cache in front of the block files and the undo files: a list in order of use and a map into it. */
module BlockCache {

  type Hash = nat
  type Pos = nat

  /** The content of a block or of its undo data. */
  type Data = nat

  datatype Option = None | Some(value: Data)

  /** What is on disk: a block or its undo data, under the hash that identifies it. */
  datatype Record = Record(hash: Hash, value: Data)

  /** A list node; the map holds its identity, as an iterator does. */
  datatype Cell = Cell(id: nat, hash: Hash, value: Data)

  // ---------------------------------------------------------------- order of use

  ghost function Remove(s: seq<Hash>, h: Hash): (r: seq<Hash>)
    ensures forall x :: x in r <==> x in s && x != h
  {
    if s == [] then []
    else
      assert s == [s[0]] + s[1..];
      if s[0] == h then Remove(s[1..], h) else [s[0]] + Remove(s[1..], h)
  }

  /** The different hashes of a history of reads, the latest read first. */
  ghost function Recent(history: seq<Hash>): seq<Hash> {
    if history == [] then []
    else
      var h := history[|history| - 1];
      [h] + Remove(Recent(history[..|history| - 1]), h)
  }

  ghost function Take(s: seq<Hash>, n: nat): seq<Hash> {
    if |s| <= n then s else s[..n]
  }

  lemma {:induction false} RemoveAbsent(s: seq<Hash>, h: Hash)
    requires h !in s
    ensures Remove(s, h) == s
  {
    if s != [] {
      RemoveAbsent(s[1..], h);
      assert s == [s[0]] + s[1..];
    }
  }

  lemma {:induction false} RemoveSum(a: seq<Hash>, b: seq<Hash>, h: Hash)
    ensures Remove(a + b, h) == Remove(a, h) + Remove(b, h)
    decreases |a|
  {
    if a == [] {
      assert a + b == b;
    } else {
      assert (a + b)[1..] == a[1..] + b;
      RemoveSum(a[1..], b, h);
      if a[0] != h {
        assert [a[0]] + (Remove(a[1..], h) + Remove(b, h)) == [a[0]] + Remove(a[1..], h) + Remove(b, h);
      }
    }
  }

  ghost predicate Distinct(s: seq<Hash>) {
    forall i, j :: 0 <= i < j < |s| ==> s[i] != s[j]
  }

  lemma {:induction false} RemoveAt(s: seq<Hash>, i: nat)
    requires Distinct(s) && i < |s|
    ensures Remove(s, s[i]) == s[..i] + s[i + 1..]
    decreases i
  {
    var t := s[1..];
    if i == 0 {
      RemoveAbsent(t, s[0]);
    } else {
      assert t[i - 1] == s[i];
      RemoveAt(t, i - 1);
      assert s[..i] == [s[0]] + t[..i - 1];
    }
  }

  /** Moving a cached hash to the front. */
  lemma HitOrder(recent: seq<Hash>, n: nat, i: nat)
    requires n >= 1 && i < |Take(recent, n)| && Distinct(Take(recent, n))
    ensures var c := Take(recent, n);
            Take([c[i]] + Remove(recent, c[i]), n) == [c[i]] + c[..i] + c[i + 1..]
  {
    var c := Take(recent, n);
    var h, rest := c[i], recent[|c|..];
    assert recent == c + rest;
    RemoveSum(c, rest, h);
    RemoveAt(c, i);
    assert [h] + (c[..i] + c[i + 1..] + Remove(rest, h)) == ([h] + c[..i] + c[i + 1..]) + Remove(rest, h);
  }

  /** Putting a new hash in front, and dropping the last if the cache is full. */
  lemma MissOrder(recent: seq<Hash>, n: nat, h: Hash)
    requires n >= 1 && h !in Take(recent, n)
    ensures var c := Take(recent, n);
            Take([h] + Remove(recent, h), n) == [h] + (if |c| >= n then c[..|c| - 1] else c)
  {
    var c := Take(recent, n);
    var rest := recent[|c|..];
    assert recent == c + rest;
    RemoveSum(c, rest, h);
    RemoveAbsent(c, h);
    if |c| < n {
      assert rest == [];
    } else {
      assert ([h] + (c + Remove(rest, h)))[..n] == [h] + c[..n - 1];
    }
  }

  // ---------------------------------------------------------------- the list and the map

  ghost function Hashes(list: seq<Cell>): (s: seq<Hash>)
    ensures |s| == |list| && forall i :: 0 <= i < |s| ==> s[i] == list[i].hash
  {
    seq(|list|, i requires 0 <= i < |list| => list[i].hash)
  }

  /** The map leads from the hash of every list node to that node. */
  ghost predicate Named(list: seq<Cell>, index: map<Hash, nat>, nextId: nat) {
    forall i :: 0 <= i < |list| ==> list[i].id < nextId && list[i].hash in index && index[list[i].hash] == list[i].id
  }

  ghost predicate DistinctIds(list: seq<Cell>) {
    forall i, j :: 0 <= i < j < |list| ==> list[i].id != list[j].id
  }

  ghost predicate Covered(list: seq<Cell>, index: map<Hash, nat>) {
    forall h :: h in index ==> h in Hashes(list)
  }

  /** The list and the map are in bijection. */
  ghost predicate Linked(list: seq<Cell>, index: map<Hash, nat>, nextId: nat) {
    Named(list, index, nextId) && DistinctIds(list) && Covered(list, index)
  }

  lemma LinkedDistinct(list: seq<Cell>, index: map<Hash, nat>, nextId: nat)
    requires Linked(list, index, nextId)
    ensures Distinct(Hashes(list))
  {
  }

  /** Every cached value is the one last written. */
  ghost predicate Current(list: seq<Cell>, written: map<Hash, Data>) {
    forall i :: 0 <= i < |list| ==> list[i].hash in written && written[list[i].hash] == list[i].value
  }

  /** Every record that the index leads to is the one last written. */
  ghost predicate Stored(disk: map<Pos, Record>, position: map<Hash, Pos>, written: map<Hash, Data>) {
    forall h :: h in position && position[h] in disk && disk[position[h]].hash == h ==>
      h in written && written[h] == disk[position[h]].value
  }

  ghost function Erased(list: seq<Cell>, i: nat): (r: seq<Cell>)
    requires i < |list|
    ensures |r| == |list| - 1 && forall k :: 0 <= k < |r| ==> r[k] == if k < i then list[k] else list[k + 1]
  {
    list[..i] + list[i + 1..]
  }

  lemma ErasedHashes(list: seq<Cell>, i: nat)
    requires i < |list|
    ensures Hashes(Erased(list, i)) == Hashes(list)[..i] + Hashes(list)[i + 1..]
    ensures forall h :: h in Hashes(list) && h != list[i].hash ==> h in Hashes(Erased(list, i))
  {
    forall h | h in Hashes(list) && h != list[i].hash ensures h in Hashes(Erased(list, i)) {
      var k :| 0 <= k < |list| && Hashes(list)[k] == h;
      assert Hashes(Erased(list, i))[if k < i then k else k - 1] == h;
    }
  }

  lemma ErasedNamed(list: seq<Cell>, index: map<Hash, nat>, nextId: nat, i: nat)
    requires Named(list, index, nextId) && DistinctIds(list) && i < |list|
    ensures Named(Erased(list, i), index - {list[i].hash}, nextId) && DistinctIds(Erased(list, i))
  {
    var list' := Erased(list, i);
    forall k | 0 <= k < |list'|
      ensures list'[k].id < nextId && list'[k].hash != list[i].hash && list'[k].hash in index && index[list'[k].hash] == list'[k].id
    {
      var k' := if k < i then k else k + 1;
      assert list'[k] == list[k'] && list[k'].id != list[i].id;
    }
  }

  lemma ErasedLinked(list: seq<Cell>, index: map<Hash, nat>, nextId: nat, i: nat)
    requires Linked(list, index, nextId) && i < |list|
    ensures Linked(Erased(list, i), index - {list[i].hash}, nextId)
  {
    ErasedNamed(list, index, nextId, i);
    ErasedHashes(list, i);
  }

  lemma PushedHashes(list: seq<Cell>, c: Cell)
    ensures Hashes([c] + list) == [c.hash] + Hashes(list)
  {
  }

  lemma PushedLinked(list: seq<Cell>, index: map<Hash, nat>, nextId: nat, h: Hash, v: Data)
    requires Linked(list, index, nextId) && h !in index
    ensures Linked([Cell(nextId, h, v)] + list, index[h := nextId], nextId + 1)
    ensures Hashes([Cell(nextId, h, v)] + list) == [h] + Hashes(list)
  {
    var list' := [Cell(nextId, h, v)] + list;
    PushedHashes(list, Cell(nextId, h, v));
    assert Named(list', index[h := nextId], nextId + 1);
    assert DistinctIds(list');
    assert forall x :: x in [h] + Hashes(list) <==> x == h || x in Hashes(list);
  }

  ghost predicate CacheOk(n: nat, list: seq<Cell>, index: map<Hash, nat>, nextId: nat, history: seq<Hash>, written: map<Hash, Data>) {
    n >= 1 && Linked(list, index, nextId) && Hashes(list) == Take(Recent(history), n) && Current(list, written)
  }

  lemma HitLinked(list: seq<Cell>, index: map<Hash, nat>, nextId: nat, i: nat)
    requires Linked(list, index, nextId) && i < |list|
    ensures Linked([list[i].(id := nextId)] + Erased(list, i), index[list[i].hash := nextId], nextId + 1)
    ensures Hashes([list[i].(id := nextId)] + Erased(list, i)) == [list[i].hash] + Hashes(Erased(list, i))
  {
    var h := list[i].hash;
    ErasedLinked(list, index, nextId, i);
    PushedLinked(Erased(list, i), index - {h}, nextId, h, list[i].value);
    assert (index - {h})[h := nextId] == index[h := nextId];
  }

  lemma HitCurrent(list: seq<Cell>, written: map<Hash, Data>, id: nat, i: nat)
    requires Current(list, written) && i < |list|
    ensures Current([list[i].(id := id)] + Erased(list, i), written)
  {
  }

  lemma HitRecent(history: seq<Hash>, n: nat, c: seq<Hash>, i: nat)
    requires n >= 1 && c == Take(Recent(history), n) && Distinct(c) && i < |c|
    ensures Take(Recent(history + [c[i]]), n) == [c[i]] + (c[..i] + c[i + 1..])
  {
    HitOrder(Recent(history), n, i);
    RecentSnoc(history, c[i]);
    assert [c[i]] + (c[..i] + c[i + 1..]) == [c[i]] + c[..i] + c[i + 1..];
  }

  lemma HitOk(n: nat, list: seq<Cell>, index: map<Hash, nat>, nextId: nat, history: seq<Hash>, written: map<Hash, Data>, i: nat)
    requires CacheOk(n, list, index, nextId, history, written) && i < |list|
    ensures var h := list[i].hash;
            CacheOk(n, [list[i].(id := nextId)] + Erased(list, i), index[h := nextId], nextId + 1, history + [h], written)
  {
    var h, c := list[i].hash, Hashes(list);
    HitLinked(list, index, nextId, i);
    HitCurrent(list, written, nextId, i);
    LinkedDistinct(list, index, nextId);
    ErasedHashes(list, i);
    HitRecent(history, n, c, i);
  }

  /** What stays in the list and in the map when room is made for one more. */
  ghost function Room(n: nat, list: seq<Cell>): seq<Cell>
    requires n >= 1
  {
    if |list| >= n then Erased(list, |list| - 1) else list
  }

  ghost function RoomIndex(n: nat, list: seq<Cell>, index: map<Hash, nat>): map<Hash, nat>
    requires n >= 1
  {
    if |list| >= n then index - {list[|list| - 1].hash} else index
  }

  lemma RoomLinked(n: nat, list: seq<Cell>, index: map<Hash, nat>, nextId: nat)
    requires n >= 1 && Linked(list, index, nextId)
    ensures Linked(Room(n, list), RoomIndex(n, list, index), nextId)
    ensures Hashes(Room(n, list)) == if |list| >= n then Hashes(list)[..|list| - 1] else Hashes(list)
  {
    if |list| >= n {
      var last := |list| - 1;
      ErasedLinked(list, index, nextId, last);
      ErasedHashes(list, last);
      assert Hashes(list)[..last] + Hashes(list)[last + 1..] == Hashes(list)[..last];
    }
  }

  lemma RoomCurrent(n: nat, list: seq<Cell>, written: map<Hash, Data>, id: nat, h: Hash)
    requires n >= 1 && Current(list, written) && h in written
    ensures Current([Cell(id, h, written[h])] + Room(n, list), written)
  {
  }

  lemma InsertRecent(history: seq<Hash>, n: nat, c: seq<Hash>, h: Hash)
    requires n >= 1 && c == Take(Recent(history), n) && h !in c
    ensures Take(Recent(history + [h]), n) == [h] + if |c| >= n then c[..|c| - 1] else c
  {
    MissOrder(Recent(history), n, h);
    RecentSnoc(history, h);
  }

  lemma InsertOk(n: nat, list: seq<Cell>, index: map<Hash, nat>, nextId: nat, history: seq<Hash>, written: map<Hash, Data>, h: Hash)
    requires CacheOk(n, list, index, nextId, history, written) && h !in index && h in written
    ensures CacheOk(n, [Cell(nextId, h, written[h])] + Room(n, list), RoomIndex(n, list, index)[h := nextId],
                    nextId + 1, history + [h], written)
  {
    Absent(list, index, nextId, h);
    InsertRecent(history, n, Hashes(list), h);
    RoomLinked(n, list, index, nextId);
    RoomCurrent(n, list, written, nextId, h);
    PushedLinked(Room(n, list), RoomIndex(n, list, index), nextId, h, written[h]);
  }

  // ---------------------------------------------------------------- the cache

  class RecordCache {
    const CACHE_SIZE: nat
    var list: seq<Cell>
    var index: map<Hash, nat>
    var nextId: nat
    var disk: map<Pos, Record>
    /** Where the block index says that the record of a hash is. */
    var position: map<Hash, Pos>
    ghost var written: map<Hash, Data>
    /** The hashes read so far, the latest last. */
    ghost var history: seq<Hash>

    ghost predicate Valid()
      reads this
    {
      CacheOk(CACHE_SIZE, list, index, nextId, history, written) && Stored(disk, position, written)
    }

    constructor (size: nat)
      requires size >= 1
      ensures CACHE_SIZE == size && list == [] && disk == map[] && position == map[] && written == map[] && Valid()
    {
      CACHE_SIZE, list, index, nextId, disk, position := size, [], map[], 0, map[], map[];
      written, history := map[], [];
    }

    /** The place of the list node that an iterator leads to. */
    method Deref(id: nat) returns (i: nat)
      requires exists k :: 0 <= k < |list| && list[k].id == id
      ensures i < |list| && list[i].id == id
    {
      i := 0;
      while list[i].id != id
        invariant i < |list| && exists k :: i <= k < |list| && list[k].id == id
        decreases |list| - i
      {
        i := i + 1;
      }
    }

    /** The record of a hash, from the cache or else from the disk. */
    method Read(h: Hash) returns (r: Option)
      requires Valid()
      modifies `list, `index, `nextId, `history
      ensures Valid()
      ensures r.Some? <==> h in old(index) || (h in position && position[h] in disk && disk[position[h]].hash == h)
      ensures r.Some? ==> h in written && r.value == written[h] && history == old(history) + [h] && list[0].hash == h
      ensures r.None? ==> list == old(list) && index == old(index) && history == old(history)
    {
      if h in index {
        r := Hit(h);
        return;
      }
      if h !in position || position[h] !in disk || disk[position[h]].hash != h {
        return None;
      }
      var value := disk[position[h]].value;
      Insert(h, value);
      r := Some(value);
    }

    /** Move the node of a cached hash to the front. */
    method Hit(h: Hash) returns (r: Option)
      requires Valid() && h in index
      modifies `list, `index, `nextId, `history
      ensures Valid() && r.Some? && h in written && r.value == written[h]
      ensures history == old(history) + [h] && list[0].hash == h
    {
      assert h in Hashes(list);
      var i := Deref(index[h]);
      LinkedAt(list, index, nextId, i, h);
      HitOk(CACHE_SIZE, list, index, nextId, history, written, i);
      var value := list[i].value;
      list := [list[i].(id := nextId)] + (list[..i] + list[i + 1..]);
      index := index[h := nextId];
      nextId := nextId + 1;
      history := history + [h];
      r := Some(value);
    }

    /** Put a record in front; if the cache is full the one longest unused makes room. */
    method Insert(h: Hash, value: Data)
      requires Valid() && h !in index && h in written && written[h] == value
      modifies `list, `index, `nextId, `history
      ensures Valid() && history == old(history) + [h] && list[0].hash == h
    {
      InsertOk(CACHE_SIZE, list, index, nextId, history, written, h);
      MakeRoom();
      list := [Cell(nextId, h, value)] + list;
      index := index[h := nextId];
      nextId := nextId + 1;
      history := history + [h];
    }

    /** Drop the last of a full list. */
    method MakeRoom()
      requires CACHE_SIZE >= 1
      modifies `list, `index
      ensures list == Room(CACHE_SIZE, old(list)) && index == RoomIndex(CACHE_SIZE, old(list), old(index))
    {
      if |list| >= CACHE_SIZE {
        var back := list[|list| - 1];
        list := list[..|list| - 1];
        index := index - {back.hash};
      }
    }

    /** Append a record to a file, and bring the cached copy up to date. */
    method WriteToDisk(h: Hash, value: Data, pos: Pos, openable: bool) returns (ok: bool)
      requires Valid() && pos !in disk
      modifies `list, `disk, `written
      ensures ok <==> openable
      ensures !ok ==> list == old(list) && disk == old(disk) && written == old(written)
      ensures ok ==> disk == old(disk)[pos := Record(h, value)] && written == old(written)[h := value]
      ensures Linked(list, index, nextId) && Hashes(list) == old(Hashes(list)) && Current(list, written)
    {
      if !openable {
        return false;
      }
      disk := disk[pos := Record(h, value)];
      written := written[h := value];
      if h in index {
        assert h in Hashes(list);
        var i := Deref(index[h]);
        LinkedAt(list, index, nextId, i, h);
        LinkedDistinct(list, index, nextId);
        Rewritten(list, index, nextId, i, value, old(written));
        list := list[i := list[i].(value := value)];
      } else {
        Absent(list, index, nextId, h);
      }
      ok := true;
    }

    /** A write followed by the update of the position in the block index. */
    method Store(h: Hash, value: Data, pos: Pos, openable: bool) returns (ok: bool)
      requires Valid() && pos !in disk
      modifies `list, `disk, `written, `position
      ensures Valid() && (ok <==> openable)
      ensures ok ==> written == old(written)[h := value] && disk == old(disk)[pos := Record(h, value)] && position == old(position)[h := pos]
      ensures !ok ==> written == old(written) && list == old(list) && disk == old(disk) && position == old(position)
    {
      ok := WriteToDisk(h, value, pos, openable);
      if ok {
        position := position[h := pos];
      }
    }

    /** Files may vanish from the disk. */
    method Lose(gone: set<Pos>)
      requires Valid()
      modifies `disk
      ensures Valid() && disk == old(disk) - gone
    {
      disk := disk - gone;
    }

    /** One operation; pos is where a write goes. */
    method Perform(op: Op, pos: Pos) returns (r: Option)
      requires Valid() && DiskBelow(disk, pos)
      modifies this
      ensures Valid() && DiskBelow(disk, pos + 1) && written == After(old(written), op)
      ensures op.Get? && r.Some? ==> op.hash in written && r.value == written[op.hash]
      ensures op.Get? && r.None? ==> !Held(disk, position, op.hash)
      ensures !op.Vanish? && Kept(old(disk), old(position), old(written)) ==> Kept(disk, position, written)
    {
      match op
      case Get(h) => r := Read(h);
      case Put(h, value, openable) =>
        r := None;
        var ok := Store(h, value, pos, openable);
      case Vanish(gone) =>
        r := None;
        Lose(gone);
    }
  }

  // ---------------------------------------------------------------- runs

  /** Reading a record, writing one, and files going away. */
  datatype Op = Get(hash: Hash) | Put(hash: Hash, value: Data, openable: bool) | Vanish(gone: set<Pos>)

  ghost function After(written: map<Hash, Data>, op: Op): map<Hash, Data> {
    if op.Put? && op.openable then written[op.hash := op.value] else written
  }

  /** What was last written under each hash. */
  ghost function Writes(ops: seq<Op>): map<Hash, Data> {
    if ops == [] then map[] else After(Writes(ops[..|ops| - 1]), ops[|ops| - 1])
  }

  ghost predicate DiskBelow(disk: map<Pos, Record>, pos: Pos) {
    forall p :: p in disk ==> p < pos
  }

  /** The index leads to a record of the hash. */
  ghost predicate Held(disk: map<Pos, Record>, position: map<Hash, Pos>, h: Hash) {
    h in position && position[h] in disk && disk[position[h]].hash == h
  }

  ghost predicate Kept(disk: map<Pos, Record>, position: map<Hash, Pos>, written: map<Hash, Data>) {
    forall h :: h in written ==> Held(disk, position, h)
  }

  /** What a read returns is right after the given operations, and found for certain if no file went away. */
  ghost predicate ReadOk(before: seq<Op>, op: Op, r: Option) {
    op.Get? ==>
      && (r.Some? ==> op.hash in Writes(before) && r.value == Writes(before)[op.hash])
      && (r.None? && op.hash in Writes(before) ==> Lost(before))
  }

  /** Some file went away. */
  ghost predicate Lost(ops: seq<Op>) {
    exists i :: 0 <= i < |ops| && ops[i].Vanish?
  }

  lemma OneMore(ops: seq<Op>, n: nat)
    requires n < |ops|
    ensures Writes(ops[..n + 1]) == After(Writes(ops[..n]), ops[n])
    ensures Lost(ops[..n]) || ops[n].Vanish? ==> Lost(ops[..n + 1])
  {
    var part := ops[..n + 1];
    assert part[..n] == ops[..n] && part[n] == ops[n];
    if i :| 0 <= i < n && ops[..n][i].Vanish? {
      assert part[i].Vanish?;
    }
  }

  /** In every run from an empty cache each read returns what was last written under its hash. */
  method Run(size: nat, ops: seq<Op>) returns (results: seq<Option>)
    requires size >= 1
    ensures |results| == |ops| && forall i :: 0 <= i < |ops| ==> ReadOk(ops[..i], ops[i], results[i])
  {
    var cache := new RecordCache(size);
    results := [];
    for n := 0 to |ops|
      invariant fresh(cache) && cache.Valid() && DiskBelow(cache.disk, n) && cache.written == Writes(ops[..n])
      invariant Kept(cache.disk, cache.position, cache.written) || Lost(ops[..n])
      invariant |results| == n && forall i :: 0 <= i < n ==> ReadOk(ops[..i], ops[i], results[i])
    {
      OneMore(ops, n);
      var r := cache.Perform(ops[n], n);
      results := results + [r];
    }
  }

  lemma Rewritten(list: seq<Cell>, index: map<Hash, nat>, nextId: nat, i: nat, value: Data, written: map<Hash, Data>)
    requires Linked(list, index, nextId) && i < |list| && Distinct(Hashes(list)) && Current(list, written)
    ensures var list' := list[i := list[i].(value := value)];
            && Linked(list', index, nextId) && Hashes(list') == Hashes(list)
            && Current(list', written[list[i].hash := value])
  {
    var list' := list[i := list[i].(value := value)];
    assert Hashes(list') == Hashes(list);
    forall k | 0 <= k < |list| && k != i ensures list[k].hash != list[i].hash {
      assert Hashes(list)[k] != Hashes(list)[i];
    }
  }

  lemma Absent(list: seq<Cell>, index: map<Hash, nat>, nextId: nat, h: Hash)
    requires Linked(list, index, nextId) && h !in index
    ensures h !in Hashes(list)
  {
  }

  lemma LinkedAt(list: seq<Cell>, index: map<Hash, nat>, nextId: nat, i: nat, h: Hash)
    requires Linked(list, index, nextId) && i < |list| && h in index && list[i].id == index[h]
    ensures list[i].hash == h
  {
    var k :| 0 <= k < |list| && Hashes(list)[k] == h;
    assert list[k].id == list[i].id;
  }

  lemma RecentSnoc(history: seq<Hash>, h: Hash)
    ensures Recent(history + [h]) == [h] + Remove(Recent(history), h)
  {
    assert (history + [h])[..|history|] == history;
  }
}
