/**
 The shared status table: a map from worker to a free-form state string
 (generic in how a worker is identified). Entries are only ever
 overwritten, never deleted. A table is described here
 as the replay of the writes made to it, in the order they were made, so
 that what a concurrent reader could have observed (every intermediate
 state) is part of the model.
 */
module StatusTable {

  datatype Write<K> = Write(key: K, value: string)

  /** The table obtained by applying the writes `ws`, oldest first, to `m`. */
  function Replay<K>(m: map<K, string>, ws: seq<Write<K>>): map<K, string> {
    if ws == [] then m
    else
      var w := ws[|ws| - 1];
      Replay(m, ws[..|ws| - 1])[w.key := w.value]
  }

  /** The keys that some write of `ws` assigns. */
  function WrittenKeys<K>(ws: seq<Write<K>>): set<K> {
    set i | 0 <= i < |ws| :: ws[i].key
  }

  /** The writes that store `values`, in order, under the single key `key`. */
  function WritesTo<K>(key: K, values: seq<string>): (ws: seq<Write<K>>)
    ensures |ws| == |values|
    ensures forall i :: 0 <= i < |ws| ==> ws[i] == Write(key, values[i])
  {
    seq(|values|, i requires 0 <= i < |values| => Write(key, values[i]))
  }

  /** A second write to an entry hides the first. */
  lemma OverwriteTwice<K>(m: map<K, string>, k: K, a: string, b: string)
    ensures m[k := a][k := b] == m[k := b]
  {
  }

  /** One more write updates one entry. */
  lemma ReplayOneMore<K>(m: map<K, string>, ws: seq<Write<K>>, w: Write<K>)
    ensures Replay(m, ws + [w]) == Replay(m, ws)[w.key := w.value]
  {
    assert (ws + [w])[..|ws|] == ws;
  }

  /** Replaying writes never loses a key: the result holds the old keys and every written one. */
  lemma {:induction false} ReplayKeys<K>(m: map<K, string>, ws: seq<Write<K>>)
    ensures Replay(m, ws).Keys == m.Keys + WrittenKeys(ws)
  {
    if ws != [] {
      var init := ws[..|ws| - 1];
      ReplayKeys(m, init);
      assert WrittenKeys(ws) == WrittenKeys(init) + {ws[|ws| - 1].key} by {
        forall k | k in WrittenKeys(ws) ensures k in WrittenKeys(init) + {ws[|ws| - 1].key} {
          var i :| 0 <= i < |ws| && ws[i].key == k;
          if i < |ws| - 1 { assert init[i].key == k; }
        }
        forall k | k in WrittenKeys(init) ensures k in WrittenKeys(ws) {
          var i :| 0 <= i < |init| && init[i].key == k;
          assert ws[i].key == k;
        }
      }
    }
  }

  /** An entry that no write touches keeps its presence and its value. */
  lemma {:induction false} ReplayUnwritten<K>(m: map<K, string>, ws: seq<Write<K>>, k: K)
    requires forall i :: 0 <= i < |ws| ==> ws[i].key != k
    ensures k in Replay(m, ws) <==> k in m
    ensures k in m ==> Replay(m, ws)[k] == m[k]
  {
    if ws != [] {
      ReplayUnwritten(m, ws[..|ws| - 1], k);
    }
  }

  /** Replaying two batches of writes one after the other is replaying their concatenation. */
  lemma {:induction false} ReplayAppend<K>(m: map<K, string>, a: seq<Write<K>>, b: seq<Write<K>>)
    ensures Replay(m, a + b) == Replay(Replay(m, a), b)
  {
    if b == [] {
      assert a + b == a;
    } else {
      var b' := b[..|b| - 1];
      assert (a + b)[..|a + b| - 1] == a + b';
      ReplayAppend(m, a, b');
    }
  }

  /** After a run of writes to one key, that entry holds the last value written and nothing else changed. */
  lemma {:induction false} ReplayWritesTo<K>(m: map<K, string>, key: K, values: seq<string>)
    requires values != []
    ensures Replay(m, WritesTo(key, values)) == m[key := values[|values| - 1]]
  {
    var ws := WritesTo(key, values);
    var init := values[..|values| - 1];
    assert ws[..|ws| - 1] == WritesTo(key, init);
    if init == [] {
      assert Replay(m, WritesTo(key, init)) == m;
    } else {
      ReplayWritesTo(m, key, init);
    }
  }
}
