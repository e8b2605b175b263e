/**
 * The round data of one protocol run (BGWData): the registry, this
 * participant's private parameters, and the shares and partial products
 * recorded so far, each under the evaluation point of its sender.
 *
 * A table keeps at most one entry per key, in ascending key order; recording
 * under a key that is already present replaces that entry.
 */
module BGWData {
  import opened BGWTypes

  predicate Ascending<V>(t: seq<(Key, V)>) {
    forall i, j | 0 <= i < j < |t| :: KeyLt(t[i].0, t[j].0)
  }

  /** A map from keys to values, enumerated in ascending key order. */
  type Table<V> = t: seq<(Key, V)> | Ascending(t)

  function Keys<V>(t: seq<(Key, V)>): set<Key> {
    set i | 0 <= i < |t| :: t[i].0
  }

  lemma KeysCons<V>(x: (Key, V), t: seq<(Key, V)>)
    ensures Keys([x] + t) == {x.0} + Keys(t)
  {
    var r := [x] + t;
    assert r[0] == x;
    forall k | k in Keys(t) ensures k in Keys(r) {
      var i :| 0 <= i < |t| && t[i].0 == k;
      assert r[i + 1] == t[i];
    }
    forall k | k in Keys(r) ensures k in {x.0} + Keys(t) {
      var i :| 0 <= i < |r| && r[i].0 == k;
      if i > 0 { assert r[i] == t[i - 1]; }
    }
  }

  /** A key smaller than every key of an ascending table can be put in front of it. */
  lemma AscendingCons<V>(x: (Key, V), t: seq<(Key, V)>)
    requires Ascending(t)
    requires forall k | k in Keys(t) :: KeyLt(x.0, k)
    ensures Ascending([x] + t)
  {
    var r := [x] + t;
    forall i, j | 0 <= i < j < |r| ensures KeyLt(r[i].0, r[j].0) {
      assert r[j] == t[j - 1];
      assert t[j - 1].0 in Keys(t);
      if i > 0 { assert r[i] == t[i - 1]; }
    }
  }

  /** The head of an ascending table is smaller than every key of its tail. */
  lemma HeadBelowTail<V>(t: Table<V>)
    requires t != []
    ensures forall k | k in Keys(t[1..]) :: KeyLt(t[0].0, k)
    ensures Keys(t) == {t[0].0} + Keys(t[1..])
  {
    forall k | k in Keys(t[1..]) ensures KeyLt(t[0].0, k) {
      var i :| 0 <= i < |t[1..]| && t[1..][i].0 == k;
      assert t[1..][i] == t[i + 1];
    }
    KeysCons(t[0], t[1..]);
    assert [t[0]] + t[1..] == t;
  }

  /** The recorded values in enumeration order (`entries().map(e -> e.getValue())`). */
  function Values<V>(t: seq<(Key, V)>): seq<V> {
    seq(|t|, i requires 0 <= i < |t| => t[i].1)
  }

  /** The value recorded under `k`, if any. */
  function Get<V>(t: Table<V>, k: Key): (r: Option<V>)
    ensures r.Some? <==> k in Keys(t)
    ensures r.Some? ==> (k, r.value) in t
  {
    if t == [] then None
    else if t[0].0 == k then Some(t[0].1)
    else
      HeadBelowTail(t);
      Get(t[1..], k)
  }

  /** Records `v` under `k`, replacing an entry already recorded under `k`. */
  function Put<V>(t: Table<V>, k: Key, v: V): (r: Table<V>)
    ensures Keys(r) == Keys(t) + {k}
    decreases |t|
  {
    if t == [] then
      assert [(k, v)][0] == (k, v);
      [(k, v)]
    else if t[0].0 == k then
      HeadBelowTail(t);
      AscendingCons((k, v), t[1..]);
      KeysCons((k, v), t[1..]);
      [(k, v)] + t[1..]
    else if KeyLt(k, t[0].0) then
      HeadBelowTail(t);
      AscendingCons((k, v), t);
      KeysCons((k, v), t);
      [(k, v)] + t
    else
      var rest := Put(t[1..], k, v);
      HeadBelowTail(t);
      assert KeyLt(t[0].0, k);
      AscendingCons(t[0], rest);
      KeysCons(t[0], rest);
      [t[0]] + rest
  }

  /**
   * Recording overwrites, it never accumulates: afterwards `k` holds `v`,
   * every other key holds what it held, and the table grew by one entry
   * exactly when `k` was new.
   */
  lemma {:induction false} PutOverwrites<V>(t: Table<V>, k: Key, v: V)
    ensures Get(Put(t, k, v), k) == Some(v)
    ensures forall k' | k' != k :: Get(Put(t, k, v), k') == Get(t, k')
    ensures |Put(t, k, v)| == if k in Keys(t) then |t| else |t| + 1
    decreases |t|
  {
    if t != [] {
      HeadBelowTail(t);
      if t[0].0 != k && !KeyLt(k, t[0].0) {
        PutOverwrites(t[1..], k, v);
        var r := Put(t, k, v);
        assert r[1..] == Put(t[1..], k, v);
      } else {
        var r := Put(t, k, v);
        assert r[1..] == if t[0].0 == k then t[1..] else t;
      }
    }
  }

  /** The round data held between two events. */
  datatype RoundData = RoundData(
    participants: Registry,
    privateParameters: Option<PrivateParameters>,
    shares: Table<Share>,
    nis: Table<int>)
  {
    /** `withParticipants(actors)`: the registry is replaced. */
    function WithParticipants(reg: Registry): RoundData {
      this.(participants := reg)
    }

    /** `withPrivateParameters(p)`: the private parameters are set. */
    function WithPrivateParameters(p: PrivateParameters): RoundData {
      this.(privateParameters := Some(p))
    }

    /** `withNewShare(share, id)`: the share of `id` is recorded or overwritten. */
    function WithNewShare(s: Share, id: Key): (d: RoundData)
      ensures Get(d.shares, id) == Some(s) && |d.shares| <= |shares| + 1
      ensures forall k | k != id :: Get(d.shares, k) == Get(shares, k)
      ensures Keys(d.shares) == Keys(shares) + {id}
      ensures d.participants == participants && d.privateParameters == privateParameters && d.nis == nis
    {
      PutOverwrites(shares, id, s);
      this.(shares := Put(shares, id, s))
    }

    /** `withNewNi(ni, id)`: the partial product of `id` is recorded or overwritten. */
    function WithNewNi(ni: int, id: Key): (d: RoundData)
      ensures Get(d.nis, id) == Some(ni) && |d.nis| <= |nis| + 1
      ensures forall k | k != id :: Get(d.nis, k) == Get(nis, k)
      ensures Keys(d.nis) == Keys(nis) + {id}
      ensures d.participants == participants && d.privateParameters == privateParameters && d.shares == shares
    {
      PutOverwrites(nis, id, ni);
      this.(nis := Put(nis, id, ni))
    }

    /** `hasShareOf(actors.values())`. */
    predicate HasShareOf(reg: seq<(Actor, Point)>) {
      Covers(shares, reg)
    }

    /** `hasNiOf(actors.values())`. */
    predicate HasNiOf(reg: seq<(Actor, Point)>) {
      Covers(nis, reg)
    }
  }

  /** Every registered point has an entry in `t`. */
  predicate Covers<V>(t: seq<(Key, V)>, reg: seq<(Actor, Point)>) {
    forall i | 0 <= i < |reg| :: Some(reg[i].1) in Keys(t)
  }

  /** `BGWData.init()`: an empty registry, no private parameters, no shares, no partial products. */
  function Init(): RoundData {
    RoundData([], None, [], [])
  }
}
