/**
  A Python dict as the correlator uses it: a sequence of (key, value) entries with
  distinct keys, kept in insertion order. Assigning to a key that is already there
  replaces its value where it stands; a new key goes to the end.
 */
module PyDict {
  import opened Wrappers

  predicate KeysDistinct<K(==), V>(d: seq<(K, V)>) {
    forall i, j :: 0 <= i < j < |d| ==> d[i].0 != d[j].0
  }

  /** The position of key `k`, if it is in the dict (`k in d`). */
  function IndexOf<K(==), V>(d: seq<(K, V)>, k: K): (r: Option<nat>)
    ensures r.Some? ==> r.value < |d| && d[r.value].0 == k
    ensures r.None? ==> forall i :: 0 <= i < |d| ==> d[i].0 != k
  {
    if |d| == 0 then None
    else if d[|d| - 1].0 == k then Some(|d| - 1)
    else IndexOf(d[..|d| - 1], k)
  }

  predicate HasKey<K(==), V>(d: seq<(K, V)>, k: K) {
    IndexOf(d, k).Some?
  }

  /** `d[k] = v` */
  function Put<K(==), V>(d: seq<(K, V)>, k: K, v: V): (r: seq<(K, V)>)
    ensures KeysDistinct(d) ==> KeysDistinct(r)
    ensures HasKey(d, k) ==> |r| == |d| && forall i :: 0 <= i < |d| ==> r[i].0 == d[i].0
    ensures HasKey(d, k) ==> forall i :: 0 <= i < |d| && d[i].0 != k ==> r[i] == d[i]
    ensures !HasKey(d, k) ==> r == d + [(k, v)]
    ensures (k, v) in r
  {
    match IndexOf(d, k)
    case Some(i) => d[i := (k, v)]
    case None => d + [(k, v)]
  }

  /** `del d[k]` when `k in d`; the dict unchanged otherwise. The other entries keep their order. */
  function Remove<K(==), V>(d: seq<(K, V)>, k: K): (r: seq<(K, V)>)
    ensures KeysDistinct(d) ==> KeysDistinct(r)
    ensures forall i :: 0 <= i < |r| ==> r[i] in d
    ensures KeysDistinct(d) ==> forall i :: 0 <= i < |r| ==> r[i].0 != k
    ensures forall i :: 0 <= i < |d| && d[i].0 != k ==> d[i] in r
    ensures !HasKey(d, k) ==> r == d
    ensures HasKey(d, k) ==> exists i :: 0 <= i < |d| && d[i].0 == k && r == d[..i] + d[i + 1..]
  {
    match IndexOf(d, k)
    case Some(i) =>
      assert d == d[..i] + [d[i]] + d[i + 1..];
      d[..i] + d[i + 1..]
    case None => d
  }

  /** `list(d.keys())[-1]`: the most recently inserted key. */
  function LastKey<K, V>(d: seq<(K, V)>): K
    requires |d| > 0
  {
    d[|d| - 1].0
  }

  /**
    The first position, in insertion order, whose value is `v` (the loop
    `for key, value in d.items(): if value == v: ... break`).
   */
  function FirstIndexWith<K, V(==)>(d: seq<(K, V)>, v: V): (r: Option<nat>)
    ensures r.None? ==> forall i :: 0 <= i < |d| ==> d[i].1 != v
    ensures r.Some? ==> r.value < |d| && d[r.value].1 == v
    ensures r.Some? ==> forall j :: 0 <= j < r.value ==> d[j].1 != v
  {
    if |d| == 0 then None
    else if d[0].1 == v then Some(0)
    else
      match FirstIndexWith(d[1..], v)
      case None => None
      case Some(i) => Some(i + 1)
  }

  /** The key at that position. */
  function FirstKeyWith<K, V(==)>(d: seq<(K, V)>, v: V): Option<K> {
    match FirstIndexWith(d, v)
    case None => None
    case Some(i) => Some(d[i].0)
  }

  /** Assigning to the most recent key leaves it the most recent key. */
  lemma PutKeepsLastKey<K, V>(d: seq<(K, V)>, v: V)
    requires |d| > 0 && KeysDistinct(d)
    ensures var r := Put(d, LastKey(d), v);
      |r| == |d| && LastKey(r) == LastKey(d) && r[|d| - 1] == (LastKey(d), v)
  {
    assert IndexOf(d, LastKey(d)) == Some(|d| - 1);
  }

  /** A key assigned for the first time becomes the most recent key; re-assigning an old key does not move it. */
  lemma PutOrder<K, V>(d: seq<(K, V)>, k: K, v: V)
    requires KeysDistinct(d)
    ensures !HasKey(d, k) ==> LastKey(Put(d, k, v)) == k
    ensures HasKey(d, k) && |d| > 0 && LastKey(d) != k ==> LastKey(Put(d, k, v)) == LastKey(d)
  {
  }
}
