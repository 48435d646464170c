/** A Python `dict` with string keys: an insertion-ordered list of
    (key, value) pairs in which no key occurs twice. Order matters to the
    handlers because they iterate over `items()`. */
module PyDict {

  import opened Results

  predicate KeysDistinct<V>(d: seq<(string, V)>) {
    forall i, j :: 0 <= i < j < |d| ==> d[i].0 != d[j].0
  }

  type Dict<V> = d: seq<(string, V)> | KeysDistinct(d) witness []

  /** The position of key `k` in `d`, or -1 when `k` is absent. */
  function IndexOf<V>(d: Dict<V>, k: string): (r: int)
    ensures -1 <= r < |d|
    ensures r >= 0 ==> d[r].0 == k
    ensures r == -1 <==> forall j :: 0 <= j < |d| ==> d[j].0 != k
  {
    if d == [] then -1
    else if d[|d| - 1].0 == k then |d| - 1
    else IndexOf(d[..|d| - 1], k)
  }

  /** `k in d` */
  predicate HasKey<V>(d: Dict<V>, k: string) {
    IndexOf(d, k) >= 0
  }

  /** The value stored under `k`, if any. */
  function Lookup<V>(d: Dict<V>, k: string): (o: Option<V>)
    ensures forall i :: 0 <= i < |d| && d[i].0 == k ==> o == Some(d[i].1)
    ensures o.None? <==> !HasKey(d, k)
  {
    var i := IndexOf(d, k);
    if i >= 0 then Some(d[i].1) else None
  }

  /** `d.get(k, default)`: the value stored under `k`, or the default when
      `k` is absent. */
  function Get<V>(d: Dict<V>, k: string, default: V): (v: V)
    ensures forall i :: 0 <= i < |d| && d[i].0 == k ==> v == d[i].1
    ensures !HasKey(d, k) ==> v == default
  {
    match Lookup(d, k)
    case Some(x) => x
    case None => default
  }

  /** `d[k] = v`: overwrite in place when `k` is present, otherwise append;
      `k` now maps to `v` and every other key keeps its value. */
  function SetItem<V>(d: Dict<V>, k: string, v: V): (r: Dict<V>)
    ensures Lookup(r, k) == Some(v)
    ensures forall k' :: k' != k ==> Lookup(r, k') == Lookup(d, k')
    ensures !HasKey(d, k) ==> r == d + [(k, v)]
    ensures HasKey(d, k) ==> |r| == |d| && forall j :: 0 <= j < |d| ==> r[j].0 == d[j].0
  {
    var i := IndexOf(d, k);
    var r := if i >= 0 then d[i := (k, v)] else d + [(k, v)];
    assert KeysDistinct(r);
    assert r[if i >= 0 then i else |d|] == (k, v);
    SetItemKeepsOthers(d, k, v, r);
    r
  }

  lemma SetItemKeepsOthers<V>(d: Dict<V>, k: string, v: V, r: Dict<V>)
    requires IndexOf(d, k) >= 0 ==> r == d[IndexOf(d, k) := (k, v)]
    requires IndexOf(d, k) < 0 ==> r == d + [(k, v)]
    ensures forall k' :: k' != k ==> Lookup(r, k') == Lookup(d, k')
  {
    forall k' | k' != k
      ensures Lookup(r, k') == Lookup(d, k')
    {
      var j := IndexOf(d, k');
      if j >= 0 {
        assert r[j] == d[j];
      } else {
        assert forall m :: 0 <= m < |r| ==> r[m].0 != k';
      }
    }
  }
}
