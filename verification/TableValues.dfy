/** HashTable.c as values: buckets of entries in insertion order, and the map they stand for. */
module TableValues {
  import opened Common

  /** A char of the platform the program is written for, where char is signed. */
  newtype Char = x: int | -128 <= x < 128

  /** A C string without its terminating zero. */
  type Key = seq<Char>

  datatype Entry = Entry(key: Key, value: int)
  type Buckets = seq<seq<Entry>>

  /** key[0] % size, with C's remainder, which has the sign of its left operand. */
  function Index(key: Key, size: int): int
    requires size > 0
  {
    var first := if key == [] then 0 else key[0] as int;
    if first >= 0 then first % size else -((-first) % size)
  }

  /** The remainder is an index exactly for the keys that do not start with a negative char, and those whose
      negative first char is a multiple of the size. */
  lemma IndexInRange(key: Key, size: int)
    requires size > 0
    ensures Index(key, size) < size
    ensures 0 <= Index(key, size) <==> key == [] || key[0] >= 0 || (-(key[0] as int)) % size == 0
  {
  }

  /** The bucket of a key is its first char up to a multiple of the size: with IndexInRange, that is
      one bucket. */
  lemma IndexIsRemainder(key: Key, size: int)
    requires size > 0
    ensures ((if key == [] then 0 else key[0] as int) - Index(key, size)) % size == 0
    ensures key != [] && 0 <= key[0] as int < size ==> Index(key, size) == key[0] as int
  {
    var first := if key == [] then 0 else key[0] as int;
    if first >= 0 {
      Quotient(first, size);
      ModOf(first - first % size, first / size, 0, size);
    } else {
      Quotient(-first, size);
      ModOf(first + (-first) % size, 0 - (-first) / size, 0, size);
    }
    if 0 <= first < size {
      ModOf(first, 0, first, size);
    }
  }

  lemma Quotient(x: nat, d: nat)
    requires d >= 1
    ensures x - x % d == x / d * d + 0 && x % d - x == (0 - x / d) * d + 0
  {
    var q := x / d;
    assert x == q * d + x % d;
    assert 0 - q * d == (0 - q) * d;
  }

  /** For instance, not for the key "\xff" in a table of fifty. */
  lemma NegativeIndex()
    ensures Index([-1], 50) == -1
  {
  }

  /** Where key is in a bucket; its length if it is not there. */
  function Position(es: seq<Entry>, key: Key): (j: nat)
    ensures j <= |es|
    ensures j < |es| ==> es[j].key == key
    ensures forall k :: 0 <= k < j ==> es[k].key != key
  {
    if es == [] || es[0].key == key then 0 else Position(es[1..], key) + 1
  }

  /** Each key at most once, and only in its own bucket. */
  predicate BucketOk(es: seq<Entry>, i: int, size: int)
    requires size > 0
  {
    && (forall j :: 0 <= j < |es| ==> Index(es[j].key, size) == i)
    && (forall j, k :: 0 <= j < k < |es| ==> es[j].key != es[k].key)
  }

  predicate WellFormed(v: Buckets) {
    |v| > 0 && forall i {:trigger v[i]} :: 0 <= i < |v| ==> BucketOk(v[i], i, |v|)
  }

  // What the three operations do to a bucket.

  function Put(es: seq<Entry>, key: Key, value: int): seq<Entry> {
    var j := Position(es, key);
    if j < |es| then es[j := Entry(key, value)] else es + [Entry(key, value)]
  }

  function Removed(es: seq<Entry>, key: Key): seq<Entry> {
    var j := Position(es, key);
    if j < |es| then es[..j] + es[j + 1..] else es
  }

  function Got(es: seq<Entry>, key: Key): Option<int> {
    var j := Position(es, key);
    if j < |es| then Some(es[j].value) else None
  }

  predicate Hashable(key: Key, v: Buckets) {
    |v| > 0 && 0 <= Index(key, |v|) < |v|
  }

  function Inserted(v: Buckets, key: Key, value: int): Buckets
    requires Hashable(key, v)
  {
    var i := Index(key, |v|);
    v[i := Put(v[i], key, value)]
  }

  function Deleted(v: Buckets, key: Key): Buckets
    requires Hashable(key, v)
  {
    var i := Index(key, |v|);
    v[i := Removed(v[i], key)]
  }

  function Found(v: Buckets, key: Key): Option<int>
    requires Hashable(key, v)
  {
    Got(v[Index(key, |v|)], key)
  }

  /** A bucket has at most one position for a key, so any position is the one. */
  lemma PositionIsUnique(es: seq<Entry>, key: Key, j: nat)
    requires j < |es| && es[j].key == key
    requires forall k :: 0 <= k < j ==> es[k].key != key
    ensures Position(es, key) == j
  {
  }

  /** Insertion of a key that is there, and of one that is not. */
  lemma InsertedIs(v: Buckets, key: Key, value: int)
    requires Hashable(key, v)
    ensures var i := Index(key, |v|);
            var j := Position(v[i], key);
            && (Found(v, key).Some? <==> j < |v[i]|)
            && Inserted(v, key, value) ==
                 v[i := if j < |v[i]| then v[i][j := Entry(v[i][j].key, value)] else v[i] + [Entry(key, value)]]
  {
  }

  /** Deletion of a key that is there, and of one that is not. */
  lemma DeletedIs(v: Buckets, key: Key)
    requires Hashable(key, v)
    ensures var i := Index(key, |v|);
            var j := Position(v[i], key);
            && (Found(v, key).Some? <==> j < |v[i]|)
            && Deleted(v, key) == if j < |v[i]| then v[i := v[i][..j] + v[i][j + 1..]] else v
  {
    var i := Index(key, |v|);
    assert v[i := v[i]] == v;
  }

  lemma InsertKeepsWellFormed(v: Buckets, key: Key, value: int)
    requires WellFormed(v) && Hashable(key, v)
    ensures WellFormed(Inserted(v, key, value))
  {
  }

  lemma RemovedAt(es: seq<Entry>, key: Key, k: nat)
    requires k < |Removed(es, key)|
    ensures |Removed(es, key)| <= |es|
    ensures Removed(es, key)[k] == if k < Position(es, key) then es[k] else es[k + 1]
  {
  }

  lemma RemovedOk(es: seq<Entry>, key: Key, i: int, size: int)
    requires size > 0 && BucketOk(es, i, size)
    ensures BucketOk(Removed(es, key), i, size)
  {
    var es' := Removed(es, key);
    forall k | 0 <= k < |es'| ensures Index(es'[k].key, size) == i {
      RemovedAt(es, key, k);
    }
    forall j, k | 0 <= j < k < |es'| ensures es'[j].key != es'[k].key {
      RemovedAt(es, key, j);
      RemovedAt(es, key, k);
    }
  }

  lemma DeleteKeepsWellFormed(v: Buckets, key: Key)
    requires WellFormed(v) && Hashable(key, v)
    ensures WellFormed(Deleted(v, key))
  {
    var i := Index(key, |v|);
    RemovedOk(v[i], key, i, |v|);
  }

  // The map.

  function Flatten<T>(v: seq<seq<T>>): seq<T> {
    if v == [] then [] else Flatten(v[..|v| - 1]) + v[|v| - 1]
  }

  function ToMap(es: seq<Entry>): map<Key, int> {
    if es == [] then map[] else ToMap(es[..|es| - 1])[es[|es| - 1].key := es[|es| - 1].value]
  }

  /** What the table stands for. */
  function Contents(v: Buckets): map<Key, int> {
    ToMap(Flatten(v))
  }

  function MapGet(m: map<Key, int>, key: Key): Option<int> {
    if key in m then Some(m[key]) else None
  }

  /** Appending a bucket to a list of entries overrides what the list says of the bucket's keys. */
  lemma {:induction false} ToMapAppend(a: seq<Entry>, b: seq<Entry>, key: Key)
    requires forall j, k :: 0 <= j < k < |b| ==> b[j].key != b[k].key
    ensures MapGet(ToMap(a + b), key) == if Position(b, key) < |b| then Got(b, key) else MapGet(ToMap(a), key)
  {
    if b == [] {
      assert a + b == a;
    } else {
      var n := |b| - 1;
      assert (a + b)[..|a + b| - 1] == a + b[..n];
      ToMapAppend(a, b[..n], key);
      if b[n].key == key {
        PositionIsUnique(b, key, n);
      } else if Position(b[..n], key) < n {
        PositionIsUnique(b, key, Position(b[..n], key));
      }
    }
  }

  lemma OnlyInItsBucket(v: Buckets, i: nat, key: Key)
    requires WellFormed(v) && i < |v|
    ensures BucketOk(v[i], i, |v|)
    ensures Position(v[i], key) < |v[i]| ==> Index(key, |v|) == i
  {
    var j := Position(v[i], key);
    assert BucketOk(v[i], i, |v|);
    assert j < |v[i]| ==> v[i][j].key == key;
  }

  lemma {:induction false} PrefixMap(v: Buckets, n: nat, key: Key)
    requires WellFormed(v) && Hashable(key, v) && n <= |v|
    ensures MapGet(ToMap(Flatten(v[..n])), key) == if Index(key, |v|) < n then Found(v, key) else None
  {
    if n > 0 {
      PrefixMap(v, n - 1, key);
      assert v[..n][..n - 1] == v[..n - 1];
      OnlyInItsBucket(v, n - 1, key);
      ToMapAppend(Flatten(v[..n - 1]), v[n - 1], key);
    }
  }

  /** Finding a key in its bucket is looking it up in the map. */
  lemma FindRefinesMap(v: Buckets, key: Key)
    requires WellFormed(v) && Hashable(key, v)
    ensures Found(v, key) == MapGet(Contents(v), key)
  {
    PrefixMap(v, |v|, key);
    assert v[..|v|] == v;
  }

  lemma {:induction false} UnhashableMissing(v: Buckets, n: nat, key: Key)
    requires WellFormed(v) && n <= |v| && key in ToMap(Flatten(v[..n]))
    ensures Hashable(key, v)
  {
    if n > 0 {
      assert v[..n][..n - 1] == v[..n - 1];
      var a, b := Flatten(v[..n - 1]), v[n - 1];
      OnlyInItsBucket(v, n - 1, key);
      ToMapAppend(a, b, key);
      if Position(b, key) == |b| {
        UnhashableMissing(v, n - 1, key);
      }
    }
  }

  /** What the map can hold: only keys with an index. */
  lemma KeysAreHashable(v: Buckets, key: Key)
    requires WellFormed(v) && key in Contents(v)
    ensures Hashable(key, v)
  {
    assert v[..|v|] == v;
    UnhashableMissing(v, |v|, key);
  }

  /** What a lookup finds after an insertion. */
  lemma FoundAfterInsert(v: Buckets, key: Key, value: int, other: Key)
    requires WellFormed(v) && Hashable(key, v) && Hashable(other, v)
    ensures Found(Inserted(v, key, value), other) == if other == key then Some(value) else Found(v, other)
  {
    var i := Index(key, |v|);
    var es, es' := v[i], Put(v[i], key, value);
    if other == key {
      PositionIsUnique(es', key, Position(es, key));
    } else if Position(es, other) < |es| {
      PositionIsUnique(es', other, Position(es, other));
    }
  }

  lemma GotRemoved(es: seq<Entry>, key: Key, other: Key)
    requires forall j, k :: 0 <= j < k < |es| ==> es[j].key != es[k].key
    ensures Got(Removed(es, key), other) == if other == key then None else Got(es, other)
  {
    var es', p := Removed(es, key), Position(es, other);
    var p' := Position(es', other);
    if p' < |es'| {
      RemovedAt(es, key, p');
      PositionIsUnique(es, other, if p' < Position(es, key) then p' else p' + 1);
    } else if other != key && p < |es| {
      RemovedAt(es, key, if p < Position(es, key) then p else p - 1);
    }
  }

  /** What a lookup finds after a deletion. */
  lemma FoundAfterDelete(v: Buckets, key: Key, other: Key)
    requires WellFormed(v) && Hashable(key, v) && Hashable(other, v)
    ensures Found(Deleted(v, key), other) == if other == key then None else Found(v, other)
  {
    GotRemoved(v[Index(key, |v|)], key, other);
  }

  lemma SameMap(m: map<Key, int>, n: map<Key, int>)
    requires forall key {:trigger MapGet(m, key)} :: MapGet(m, key) == MapGet(n, key)
    ensures m == n
  {
    forall key ensures key in m <==> key in n {
      assert MapGet(m, key) == MapGet(n, key);
    }
    forall key | key in m ensures m[key] == n[key] {
      assert MapGet(m, key) == MapGet(n, key);
    }
  }

  /** Insertion is map update. */
  lemma InsertRefinesMap(v: Buckets, key: Key, value: int)
    requires WellFormed(v) && Hashable(key, v)
    ensures Contents(Inserted(v, key, value)) == Contents(v)[key := value]
  {
    var w := Inserted(v, key, value);
    InsertKeepsWellFormed(v, key, value);
    forall k {:trigger MapGet(Contents(w), k)}
      ensures MapGet(Contents(w), k) == MapGet(Contents(v)[key := value], k)
    {
      if Hashable(k, v) {
        FoundAfterInsert(v, key, value, k);
        FindRefinesMap(v, k);
        FindRefinesMap(w, k);
      } else {
        if k in Contents(w) { KeysAreHashable(w, k); }
        if k in Contents(v) { KeysAreHashable(v, k); }
      }
    }
    SameMap(Contents(w), Contents(v)[key := value]);
  }

  /** Deletion removes the key from the map, and nothing else. */
  lemma DeleteRefinesMap(v: Buckets, key: Key)
    requires WellFormed(v) && Hashable(key, v)
    ensures Contents(Deleted(v, key)) == Contents(v) - {key}
  {
    var w := Deleted(v, key);
    DeleteKeepsWellFormed(v, key);
    forall k {:trigger MapGet(Contents(w), k)}
      ensures MapGet(Contents(w), k) == MapGet(Contents(v) - {key}, k)
    {
      if Hashable(k, v) {
        FoundAfterDelete(v, key, k);
        FindRefinesMap(v, k);
        FindRefinesMap(w, k);
      } else {
        if k in Contents(w) { KeysAreHashable(w, k); }
        if k in Contents(v) { KeysAreHashable(v, k); }
      }
    }
    SameMap(Contents(w), Contents(v) - {key});
  }

  // Histories.

  /** A call that changes the table: `ok` says that memory could be allocated. */
  datatype Op = DoInsert(key: Key, value: int, ok: bool) | DoDelete(key: Key)

  predicate OpFits(op: Op, size: int) {
    size > 0 && 0 <= Index(op.key, size) < size
  }

  function Do(v: Buckets, op: Op): Buckets
    requires Hashable(op.key, v)
  {
    match op
    case DoInsert(key, value, ok) => if ok || Found(v, key).Some? then Inserted(v, key, value) else v
    case DoDelete(key) => Deleted(v, key)
  }

  function DoAll(v: Buckets, ops: seq<Op>): (w: Buckets)
    requires |v| > 0 && forall k :: 0 <= k < |ops| ==> OpFits(ops[k], |v|)
    ensures |w| == |v|
    decreases |ops|
  {
    if ops == [] then v else
      var w := DoAll(v, ops[..|ops| - 1]);
      assert OpFits(ops[|ops| - 1], |v|);
      Do(w, ops[|ops| - 1])
  }

  function MapAll(ops: seq<Op>): map<Key, int>
    decreases |ops|
  {
    if ops == [] then map[] else
      var m := MapAll(ops[..|ops| - 1]);
      match ops[|ops| - 1]
      case DoInsert(key, value, ok) => if ok || key in m then m[key := value] else m
      case DoDelete(key) => m - {key}
  }

  lemma {:induction false} EmptyContents(v: Buckets)
    requires forall i :: 0 <= i < |v| ==> v[i] == []
    ensures Contents(v) == map[]
  {
    if v != [] {
      EmptyContents(v[..|v| - 1]);
      assert Flatten(v[..|v| - 1]) + [] == Flatten(v[..|v| - 1]);
    }
  }

  /** Under every sequence of insertions and deletions, starting from an empty table, each key
      occurs at most once and only in its own bucket, and the table stands for the map that the
      same calls produce. */
  lemma {:induction false} HistoryRefinesMap(v: Buckets, ops: seq<Op>)
    requires |v| > 0 && forall i :: 0 <= i < |v| ==> v[i] == []
    requires forall k :: 0 <= k < |ops| ==> OpFits(ops[k], |v|)
    ensures WellFormed(DoAll(v, ops)) && Contents(DoAll(v, ops)) == MapAll(ops)
    decreases |ops|
  {
    if ops == [] {
      EmptyContents(v);
    } else {
      assert OpFits(ops[|ops| - 1], |v|);
      HistoryRefinesMap(v, ops[..|ops| - 1]);
      var w := DoAll(v, ops[..|ops| - 1]);
      match ops[|ops| - 1]
      case DoInsert(key, value, ok) =>
        FindRefinesMap(w, key);
        InsertKeepsWellFormed(w, key, value);
        InsertRefinesMap(w, key, value);
      case DoDelete(key) =>
        DeleteKeepsWellFormed(w, key);
        DeleteRefinesMap(w, key);
    }
  }

  lemma FlattenSnoc<T>(v: seq<seq<T>>, last: seq<T>)
    ensures Flatten(v + [last]) == Flatten(v) + last
  {
    assert (v + [last])[..|v|] == v;
  }

  lemma {:induction false} FlattenAppend<T>(a: seq<seq<T>>, b: seq<seq<T>>)
    ensures Flatten(a + b) == Flatten(a) + Flatten(b)
  {
    if b == [] {
      assert a + b == a;
    } else {
      var init, last := b[..|b| - 1], b[|b| - 1];
      assert b == init + [last] && a + b == (a + init) + [last];
      FlattenAppend(a, init);
      FlattenSnoc(a + init, last);
      FlattenSnoc(init, last);
      assert (Flatten(a) + Flatten(init)) + last == Flatten(a) + (Flatten(init) + last);
    }
  }

  /** The first k elements of list i come after all of those before. */
  lemma FlattenAt<T>(v: seq<seq<T>>, i: nat, k: nat)
    requires i < |v| && k <= |v[i]|
    ensures Flatten(v[..i + 1]) == Flatten(v[..i]) + v[i]
    ensures Flatten(v) == Flatten(v[..i]) + v[i] + Flatten(v[i + 1..])
    ensures |Flatten(v[..i])| + k <= |Flatten(v)|
    ensures Flatten(v)[..|Flatten(v[..i])| + k] == Flatten(v[..i]) + v[i][..k]
  {
    assert v[..i + 1][..i] == v[..i];
    assert v == v[..i + 1] + v[i + 1..];
    FlattenAppend(v[..i + 1], v[i + 1..]);
  }

  lemma {:induction false} FlattenLengths<S, T>(a: seq<seq<S>>, b: seq<seq<T>>)
    requires |a| == |b| && forall i :: 0 <= i < |a| ==> |a[i]| == |b[i]|
    ensures |Flatten(a)| == |Flatten(b)|
  {
    if a != [] {
      FlattenLengths(a[..|a| - 1], b[..|b| - 1]);
    }
  }

  // Ht_for_each.

  /** What a callback returns and does: its status, the value it leaves in the node, and what it
      leaves in the caller's variable. */
  datatype Visit<A> = Visit(status: int, value: int, acc: A)

  type Callback<!A> = (Key, int, A) -> Visit<A>

  /** The end of a walk: the last status, the caller's variable, the entries, how many were visited. */
  datatype Outcome<A> = Outcome(status: int, acc: A, after: seq<Entry>, visited: nat)

  /** Visits the entries in order, until a callback returns nonzero. */
  function Walk<A>(es: seq<Entry>, f: Callback<A>, acc: A): Outcome<A> {
    if es == [] then Outcome(0, acc, [], 0)
    else
      var v := f(es[0].key, es[0].value, acc);
      var e := Entry(es[0].key, v.value);
      if v.status != 0 then Outcome(v.status, v.acc, [e] + es[1..], 1)
      else
        var o := Walk(es[1..], f, v.acc);
        Outcome(o.status, o.acc, [e] + o.after, o.visited + 1)
  }

  /** A walk over es that has got to entry j, with `now` in the nodes and acc in the variable. */
  ghost predicate WalkedTo<A>(es: seq<Entry>, f: Callback<A>, acc0: A, now: seq<Entry>, j: nat, acc: A) {
    && j <= |es| == |now| && now[j..] == es[j..]
    && var o := Walk(es[j..], f, acc);
       Walk(es, f, acc0) == Outcome(o.status, o.acc, now[..j] + o.after, j + o.visited)
  }

  lemma UpdatedAt(es: seq<Entry>, now: seq<Entry>, j: nat, e: Entry)
    requires j < |es| == |now| && now[j..] == es[j..]
    ensures es[j] == now[j] && es[j..] != [] && es[j..][0] == es[j] && es[j..][1..] == es[j + 1..]
    ensures now[j := e][..j + 1] == now[..j] + [e] && now[j := e][j + 1..] == es[j + 1..]
    ensures now[j := e] == now[..j] + ([e] + es[j + 1..])
  {
    assert now[j..][0] == now[j] && now[j..][1..] == now[j + 1..];
    assert es[j..][0] == es[j] && es[j..][1..] == es[j + 1..];
  }

  lemma WalkGoesOn<A>(es: seq<Entry>, f: Callback<A>, acc0: A, now: seq<Entry>, j: nat, acc: A)
    requires WalkedTo(es, f, acc0, now, j, acc) && j < |es|
    ensures es[j] == now[j]
    ensures var v := f(es[j].key, es[j].value, acc);
            var now' := now[j := Entry(es[j].key, v.value)];
            if v.status == 0 then WalkedTo(es, f, acc0, now', j + 1, v.acc)
            else Walk(es, f, acc0) == Outcome(v.status, v.acc, now', j + 1)
  {
    var v := f(es[j].key, es[j].value, acc);
    var e := Entry(es[j].key, v.value);
    UpdatedAt(es, now, j, e);
    if v.status == 0 {
      var o := Walk(es[j + 1..], f, v.acc);
      assert Walk(es[j..], f, acc) == Outcome(o.status, o.acc, [e] + o.after, o.visited + 1);
      assert (now[..j] + [e]) + o.after == now[..j] + ([e] + o.after);
    }
  }

  lemma WalkIsOver<A>(es: seq<Entry>, f: Callback<A>, acc0: A, now: seq<Entry>, acc: A)
    requires WalkedTo(es, f, acc0, now, |es|, acc)
    ensures Walk(es, f, acc0) == Outcome(0, acc, now, |es|)
  {
    assert now[..|es|] + [] == now;
  }

  /** The walk goes on over b if it gets through a. */
  lemma {:induction false} WalkAppend<A>(a: seq<Entry>, b: seq<Entry>, f: Callback<A>, acc: A)
    ensures var o := Walk(a, f, acc);
            Walk(a + b, f, acc) ==
              if o.status != 0 then Outcome(o.status, o.acc, o.after + b, o.visited)
              else var p := Walk(b, f, o.acc); Outcome(p.status, p.acc, o.after + p.after, |a| + p.visited)
    ensures Walk(a, f, acc).status == 0 ==> Walk(a, f, acc).visited == |a|
    ensures |Walk(a, f, acc).after| == |a|
  {
    if a == [] {
      assert a + b == b;
    } else {
      var v := f(a[0].key, a[0].value, acc);
      var e := Entry(a[0].key, v.value);
      assert (a + b)[0] == a[0] && (a + b)[1..] == a[1..] + b;
      WalkAppend(a[1..], b, f, v.acc);
      assert [e] + (a[1..] + b) == ([e] + a[1..]) + b;
      var o := Walk(a[1..], f, v.acc);
      assert [e] + (o.after + b) == ([e] + o.after) + b;
      var p := Walk(b, f, o.acc);
      assert [e] + (o.after + p.after) == ([e] + o.after) + p.after;
    }
  }

  /** The caller's variable before visit number j. */
  function Before<A>(es: seq<Entry>, f: Callback<A>, acc: A, j: nat): A
    requires j <= |es|
  {
    if j == 0 then acc
    else var a := Before(es, f, acc, j - 1); f(es[j - 1].key, es[j - 1].value, a).acc
  }

  /** Visit number j. */
  function VisitAt<A>(es: seq<Entry>, f: Callback<A>, acc: A, j: nat): Visit<A>
    requires j < |es|
  {
    f(es[j].key, es[j].value, Before(es, f, acc, j))
  }

  /** The walk ended as o after a prefix of es: everything, if every status is zero, and otherwise
      up to and with the first entry whose status is not. Each visit starts from what the one before
      left, and sets the value of its own entry alone; no key and nothing behind the prefix changes. */
  ghost predicate VisitedPrefix<A>(es: seq<Entry>, f: Callback<A>, acc: A, o: Outcome<A>) {
    && o.visited <= |es| == |o.after|
    && o.acc == Before(es, f, acc, o.visited)
    && (forall j {:trigger VisitAt(es, f, acc, j)} :: 0 <= j < o.visited ==>
          VisitAt(es, f, acc, j).status == if j == o.visited - 1 then o.status else 0)
    && (o.status == 0 ==> o.visited == |es|)
    && (o.visited == 0 ==> o.status == 0)
    && (forall j {:trigger o.after[j]} :: 0 <= j < |es| ==>
          o.after[j] == if j < o.visited then Entry(es[j].key, VisitAt(es, f, acc, j).value) else es[j])
  }

  lemma {:induction false} BeforeInPrefix<A>(a: seq<Entry>, b: seq<Entry>, f: Callback<A>, acc: A, j: nat)
    requires j <= |a|
    ensures Before(a + b, f, acc, j) == Before(a, f, acc, j)
  {
    if j > 0 {
      BeforeInPrefix(a, b, f, acc, j - 1);
      assert (a + b)[j - 1] == a[j - 1];
    }
  }

  lemma VisitsInPrefix<A>(a: seq<Entry>, b: seq<Entry>, f: Callback<A>, acc: A)
    ensures forall j {:trigger VisitAt(a + b, f, acc, j)} :: 0 <= j < |a| ==> VisitAt(a + b, f, acc, j) == VisitAt(a, f, acc, j)
  {
    forall j: nat | j < |a| ensures VisitAt(a + b, f, acc, j) == VisitAt(a, f, acc, j) {
      BeforeInPrefix(a, b, f, acc, j);
      assert (a + b)[j] == a[j];
    }
  }

  /** One more entry. */
  lemma OneMoreVisit<A>(a: seq<Entry>, e: Entry, f: Callback<A>, acc: A)
    requires VisitedPrefix(a, f, acc, Walk(a, f, acc))
    ensures VisitedPrefix(a + [e], f, acc, Walk(a + [e], f, acc))
  {
    var o, o' := Walk(a, f, acc), Walk(a + [e], f, acc);
    WalkAppend(a, [e], f, acc);
    VisitsInPrefix(a, [e], f, acc);
    BeforeInPrefix(a, [e], f, acc, |a|);
    BeforeInPrefix(a, [e], f, acc, o.visited);
    if o.status == 0 {
      assert VisitAt(a + [e], f, acc, |a|) == f(e.key, e.value, o.acc);
      assert o.visited > 0 ==> VisitAt(a, f, acc, o.visited - 1).status == 0;
    }
  }

  /** Walk visits a prefix of the entries, in order. */
  lemma {:induction false} WalkVisitsPrefix<A>(es: seq<Entry>, f: Callback<A>, acc: A)
    ensures VisitedPrefix(es, f, acc, Walk(es, f, acc))
  {
    if es != [] {
      var n := |es| - 1;
      WalkVisitsPrefix(es[..n], f, acc);
      OneMoreVisit(es[..n], es[n], f, acc);
      assert es == es[..n] + [es[n]];
    }
  }

  /** A walk over the buckets of v0 that has got to bucket i, with v in the nodes. */
  ghost predicate BucketsWalkedTo<A>(v0: Buckets, f: Callback<A>, acc0: A, v: Buckets, i: nat, acc: A) {
    && i <= |v0| == |v| && v[i..] == v0[i..] && |Flatten(v[..i])| == |Flatten(v0[..i])|
    && Walk(Flatten(v0[..i]), f, acc0) == Outcome(0, acc, Flatten(v[..i]), |Flatten(v0[..i])|)
  }

  lemma BucketWalkGoesOn<A>(v0: Buckets, f: Callback<A>, acc0: A, v: Buckets, i: nat, acc: A)
    requires BucketsWalkedTo(v0, f, acc0, v, i, acc) && i < |v0|
    ensures v[i] == v0[i]
    ensures var o := Walk(v0[i], f, acc);
            var v' := v[i := o.after];
            && (o.status == 0 ==> o.visited == |v0[i]|) && o.visited <= |v0[i]|
            && if o.status == 0 then BucketsWalkedTo(v0, f, acc0, v', i + 1, o.acc)
               else Walk(Flatten(v0), f, acc0) == Outcome(o.status, o.acc, Flatten(v'), |Flatten(v[..i])| + o.visited)
  {
    assert v[i] == v[i..][0] && v0[i] == v0[i..][0];
    assert v0[i + 1..] == v0[i..][1..] && v[i + 1..] == v[i..][1..];
    var o := Walk(v0[i], f, acc);
    var v' := v[i := o.after];
    assert v'[..i] == v[..i] && v'[i + 1..] == v[i + 1..];
    FlattenAt(v0, i, 0);
    FlattenAt(v', i, 0);
    WalkAppend(Flatten(v0[..i]), v0[i], f, acc0);
    WalkAppend(v0[i], [], f, acc);
    WalkVisitsPrefix(v0[i], f, acc);
    if o.status != 0 {
      WalkAppend(Flatten(v0[..i]) + v0[i], Flatten(v0[i + 1..]), f, acc0);
    }
  }

  lemma BucketWalkIsOver<A>(v0: Buckets, f: Callback<A>, acc0: A, v: Buckets, acc: A)
    requires BucketsWalkedTo(v0, f, acc0, v, |v0|, acc)
    ensures Walk(Flatten(v0), f, acc0) == Outcome(0, acc, Flatten(v), |Flatten(v0)|)
    ensures |Flatten(v)| == |Flatten(v0)|
  {
    assert v0[..|v0|] == v0 && v[..|v0|] == v;
  }
}
