/** A JavaScript object used as a dictionary with string keys (`Record<string, V>`,
    and a `Map` keyed by string): entries keep the position of their first
    insertion, assignment to a present key replaces its value in place, `delete`
    drops the entry, and spreading `{...t, ...u}` assigns every entry of `u`
    over `t` in `u`'s order. Iteration order (`Object.entries`, `forEach`) is
    the order of the entries. */
module Tables {

  datatype Option<T> = None | Some(value: T)

  datatype Entry<V> = Entry(key: string, value: V)

  type Table<V> = seq<Entry<V>>

  function Keys<V>(t: Table<V>): seq<string> {
    seq(|t|, i requires 0 <= i < |t| => t[i].key)
  }

  function Values<V>(t: Table<V>): seq<V> {
    seq(|t|, i requires 0 <= i < |t| => t[i].value)
  }

  /** A JavaScript object never holds two entries with the same key. */
  ghost predicate Keyed<V>(t: Table<V>) {
    forall i, j :: 0 <= i < j < |t| ==> t[i].key != t[j].key
  }

  predicate Has<V>(t: Table<V>, k: string) {
    exists i :: 0 <= i < |t| && t[i].key == k
  }

  /** The first position of `k` among the keys of `t`, or `|t|`. */
  function IndexOfKey<V>(t: Table<V>, k: string): (i: nat)
    ensures i <= |t|
    ensures i < |t| ==> t[i].key == k
    ensures forall j :: 0 <= j < i ==> t[j].key != k
    ensures i == |t| <==> !Has(t, k)
  {
    if t == [] then 0 else if t[0].key == k then 0 else 1 + IndexOfKey(t[1..], k)
  }

  /** `t[k]`: the value of the first entry with key `k`, if any. */
  function Get<V>(t: Table<V>, k: string): (r: Option<V>)
    ensures r.None? <==> !Has(t, k)
  {
    var i := IndexOfKey(t, k);
    if i < |t| then Some(t[i].value) else None
  }

  /** Any position that satisfies the three facts of IndexOfKey is it. */
  lemma IndexOfKeyUnique<V>(t: Table<V>, k: string, j: nat)
    requires j <= |t|
    requires j < |t| ==> t[j].key == k
    requires forall l :: 0 <= l < j ==> t[l].key != k
    ensures IndexOfKey(t, k) == j
  {
  }

  /** Two tables with the same keys in the same order place every key alike. */
  lemma SameKeysSameIndex<V>(a: Table<V>, b: Table<V>, k: string)
    requires |a| == |b|
    requires forall i :: 0 <= i < |a| ==> a[i].key == b[i].key
    ensures IndexOfKey(a, k) == IndexOfKey(b, k)
  {
    IndexOfKeyUnique(b, k, IndexOfKey(a, k));
  }

  /** The facts Put promises, for a key already present at position `i`. */
  lemma PutInPlace<V>(t: Table<V>, i: nat, k: string, v: V)
    requires i == IndexOfKey(t, k) < |t|
    ensures var r := t[i := Entry(k, v)];
      && Get(r, k) == Some(v)
      && (forall k' :: k' != k ==> Get(r, k') == Get(t, k'))
      && (forall k' :: Has(r, k') <==> Has(t, k'))
      && Keys(r) == Keys(t)
      && (Keyed(t) ==> Keyed(r))
  {
    var r := t[i := Entry(k, v)];
    forall k' ensures IndexOfKey(r, k') == IndexOfKey(t, k') {
      SameKeysSameIndex(r, t, k');
    }
    forall k' ensures Has(r, k') <==> Has(t, k') {
      if Has(r, k') { var j :| 0 <= j < |r| && r[j].key == k'; assert t[j].key == k'; }
      if Has(t, k') { var j :| 0 <= j < |t| && t[j].key == k'; assert r[j].key == k'; }
    }
    assert Keys(r) == Keys(t);
  }

  /** The facts Put promises, for a key not yet present. */
  lemma PutAppend<V>(t: Table<V>, k: string, v: V)
    requires !Has(t, k)
    ensures var r := t + [Entry(k, v)];
      && Get(r, k) == Some(v)
      && (forall k' :: k' != k ==> Get(r, k') == Get(t, k'))
      && (forall k' :: Has(r, k') <==> Has(t, k') || k' == k)
      && Keys(r) == Keys(t) + [k]
      && (Keyed(t) ==> Keyed(r))
  {
    var r := t + [Entry(k, v)];
    forall k' | k' != k ensures Get(r, k') == Get(t, k') {
      var j := IndexOfKey(t, k');
      IndexOfKeyUnique(r, k', if j < |t| then j else |r|);
    }
    IndexOfKeyUnique(r, k, |t|);
    forall k' ensures Has(r, k') <==> Has(t, k') || k' == k {
      if Has(r, k') { var j :| 0 <= j < |r| && r[j].key == k'; if j < |t| { assert t[j].key == k'; } }
      if Has(t, k') { var j :| 0 <= j < |t| && t[j].key == k'; assert r[j].key == k'; }
      assert r[|t|].key == k;
    }
    assert Keys(r) == Keys(t) + [k];
  }

  /** `t[k] = v`. */
  function Put<V>(t: Table<V>, k: string, v: V): (r: Table<V>)
    ensures Get(r, k) == Some(v)
    ensures forall k' :: k' != k ==> Get(r, k') == Get(t, k')
    ensures forall k' :: Has(r, k') <==> Has(t, k') || k' == k
    ensures Has(t, k) ==> Keys(r) == Keys(t)
    ensures !Has(t, k) ==> Keys(r) == Keys(t) + [k]
    ensures Keyed(t) ==> Keyed(r)
  {
    var i := IndexOfKey(t, k);
    if i < |t| then
      PutInPlace(t, i, k, v);
      t[i := Entry(k, v)]
    else
      PutAppend(t, k, v);
      t + [Entry(k, v)]
  }

  /** `delete t[k]`. */
  function Remove<V>(t: Table<V>, k: string): (r: Table<V>)
    ensures |r| <= |t|
    ensures forall e :: e in r ==> e in t && e.key != k
    decreases |t|
  {
    if t == [] then []
    else if t[0].key == k then Remove(t[1..], k)
    else [t[0]] + Remove(t[1..], k)
  }

  /** Deleting a key keeps the other entries in order, so keys stay unique. */
  lemma {:induction false} RemoveKeyed<V>(t: Table<V>, k: string)
    requires Keyed(t)
    ensures Keyed(Remove(t, k))
    decreases |t|
  {
    if t != [] {
      assert Keyed(t[1..]) by {
        forall i, j | 0 <= i < j < |t[1..]| ensures t[1..][i].key != t[1..][j].key {
          assert t[1..][i] == t[i + 1] && t[1..][j] == t[j + 1];
        }
      }
      RemoveKeyed(t[1..], k);
      if t[0].key != k {
        var r := Remove(t[1..], k);
        forall e | e in r ensures e.key != t[0].key {
          var j :| 0 <= j < |t[1..]| && t[1..][j] == e;
          assert t[j + 1] == e;
        }
        forall i, j | 0 <= i < j < |[t[0]] + r| ensures ([t[0]] + r)[i].key != ([t[0]] + r)[j].key {
          if i == 0 {
            assert ([t[0]] + r)[j] == r[j - 1];
            assert r[j - 1] in r;
          } else {
            assert ([t[0]] + r)[i] == r[i - 1] && ([t[0]] + r)[j] == r[j - 1];
          }
        }
      }
    }
  }

  /** Reading a key of a table that starts with a given entry. */
  lemma GetCons<V>(e: Entry<V>, rest: Table<V>, k: string)
    ensures Get([e] + rest, k) == if e.key == k then Some(e.value) else Get(rest, k)
  {
    var t := [e] + rest;
    assert t[1..] == rest;
  }

  /** After `delete t[k]` the key is gone and every other key reads as before. */
  lemma {:induction false} RemoveGet<V>(t: Table<V>, k: string, k': string)
    ensures !Has(Remove(t, k), k)
    ensures k' != k ==> Get(Remove(t, k), k') == Get(t, k')
    decreases |t|
  {
    if t != [] {
      RemoveGet(t[1..], k, k');
      assert t == [t[0]] + t[1..];
      GetCons(t[0], t[1..], k');
      if t[0].key != k {
        GetCons(t[0], Remove(t[1..], k), k');
      }
    }
  }

  /** `{ ...t, ...u }`. */
  function Spread<V>(t: Table<V>, u: Table<V>): Table<V>
    decreases |u|
  {
    if u == [] then t else Spread(Put(t, u[0].key, u[0].value), u[1..])
  }

  /** Spreading `u` over `t` gives `u`'s value for every key of `u` and
      keeps `t`'s value for every other key. */
  lemma {:induction false} SpreadGet<V>(t: Table<V>, u: Table<V>, k: string)
    requires Keyed(u)
    ensures Get(Spread(t, u), k) == if Has(u, k) then Get(u, k) else Get(t, k)
    decreases |u|
  {
    if u != [] {
      KeyedTail(u, k);
      SpreadGet(Put(t, u[0].key, u[0].value), u[1..], k);
    }
  }

  /** The tail of a keyed table is keyed and lacks the head's key; a read
      looks at the head first. */
  lemma KeyedTail<V>(u: Table<V>, k: string)
    requires Keyed(u) && u != []
    ensures Keyed(u[1..]) && !Has(u[1..], u[0].key)
    ensures Get(u, k) == if u[0].key == k then Some(u[0].value) else Get(u[1..], k)
  {
    assert u == [u[0]] + u[1..];
    GetCons(u[0], u[1..], k);
    forall i | 0 <= i < |u[1..]| ensures u[1..][i].key != u[0].key {
      assert u[1..][i] == u[i + 1];
    }
  }

  /** Spreading keeps `t`'s keys in place and appends the keys of `u` that
      `t` lacks; so the result still has one entry per key. */
  lemma {:induction false} SpreadKeyed<V>(t: Table<V>, u: Table<V>)
    requires Keyed(t)
    ensures Keyed(Spread(t, u))
    ensures forall k :: Has(t, k) ==> Has(Spread(t, u), k)
    decreases |u|
  {
    if u != [] {
      var t' := Put(t, u[0].key, u[0].value);
      SpreadKeyed(t', u[1..]);
      forall k | Has(t, k) ensures Has(t', k) {
        if k != u[0].key {
          assert Get(t', k) == Get(t, k);
        }
      }
    }
  }

}
