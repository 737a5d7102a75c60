/** Small facts about sequences and maps, stated once for any element type
    so that the proofs about lines, orders and files can cite them instead
    of re-deriving them for strings of strings. */
module Collections {

  lemma TakeAppend<T>(a: seq<T>, b: seq<T>)
    ensures (a + b)[..|a|] == a
  {
  }

  /** Dropping the last element of `a + b` drops the last element of `b`. */
  lemma AppendLast<T>(a: seq<T>, b: seq<T>)
    requires b != []
    ensures (a + b)[..|a + b| - 1] == a + b[..|b| - 1]
    ensures (a + b)[|a + b| - 1] == b[|b| - 1]
  {
  }

  lemma AppendAssoc<T>(a: seq<T>, b: seq<T>, c: seq<T>)
    ensures (a + b) + c == a + (b + c)
  {
  }

  lemma SplitAround<T>(s: seq<T>, i: nat)
    requires i < |s|
    ensures s == s[..i] + [s[i]] + s[i + 1..]
  {
  }

  lemma UpdateTwice<K, V>(m: map<K, V>, k: K, a: V, b: V)
    ensures m[k := a][k := b] == m[k := b]
  {
  }

  lemma AppendUnderKey<K, V>(data: map<K, seq<V>>, key: K, vs: seq<V>, v: V)
    requires data == map[key := vs]
    ensures data[key := data[key] + [v]] == map[key := vs + [v]]
  {
  }

  /** Prepending one element to a short display gives the longer display. */
  lemma PrependDisplays<T>(w: T, x: T, y: T, z: T)
    ensures [y] + [z] == [y, z]
    ensures [x] + [y, z] == [x, y, z]
    ensures [w] + [x, y, z] == [w, x, y, z]
  {
  }
}
