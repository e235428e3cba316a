/**
 * Python dictionaries as insertion-ordered sequences of (key, value) pairs,
 * so that the order of `dict.keys()` (which fixes a CSV header) is
 * observable, and the one `csv.DictWriter` operation both filters rely on:
 * projecting a dictionary onto the writer's field names.
 */
module Dicts {
  import opened Wrappers

  type Dict<V> = seq<(string, V)>

  /** `d.keys()`, in insertion order. */
  function Keys<V>(d: Dict<V>): (r: seq<string>)
    ensures |r| == |d|
    ensures forall j :: 0 <= j < |d| ==> r[j] == d[j].0
  {
    seq(|d|, j requires 0 <= j < |d| => d[j].0)
  }

  /** Dictionaries whose entries have the same keys position by position have the same key sequence. */
  lemma SameKeys<V, W>(d: Dict<V>, e: Dict<W>)
    requires |d| == |e| && forall j :: 0 <= j < |d| ==> d[j].0 == e[j].0
    ensures Keys(d) == Keys(e)
  {
  }

  /** `d.values()`, in insertion order. */
  function Values<V>(d: Dict<V>): (r: seq<V>)
    ensures |r| == |d|
    ensures forall j :: 0 <= j < |d| ==> r[j] == d[j].1
  {
    seq(|d|, j requires 0 <= j < |d| => d[j].1)
  }

  /** No key occurs twice, as in every Python dictionary. */
  predicate Distinct(keys: seq<string>) {
    forall i, j :: 0 <= i < j < |keys| ==> keys[i] != keys[j]
  }

  predicate DistinctKeys<V>(d: Dict<V>) {
    Distinct(Keys(d))
  }

  /** `d[k]` if `k` is a key, else nothing. */
  function Lookup<V>(d: Dict<V>, k: string): Option<V> {
    if d == [] then None
    else if d[0].0 == k then Some(d[0].1)
    else Lookup(d[1..], k)
  }

  /** `k in d` decides whether `d[k]` succeeds. */
  lemma {:induction false} LookupFindsKeys<V>(d: Dict<V>, k: string)
    ensures Lookup(d, k).None? <==> k !in Keys(d)
  {
    if d != [] && d[0].0 != k {
      assert Keys(d) == [d[0].0] + Keys(d[1..]);
      LookupFindsKeys(d[1..], k);
    }
  }

  /** `d.get(k, default)`. */
  function Get<V>(d: Dict<V>, k: string, default: V): V {
    match Lookup(d, k)
    case Some(v) => v
    case None => default
  }

  /** In a dictionary, looking up the key of an entry yields that entry's value. */
  lemma {:induction false} LookupEntry<V>(d: Dict<V>, j: nat)
    requires DistinctKeys(d) && j < |d|
    ensures Lookup(d, d[j].0) == Some(d[j].1)
  {
    if j > 0 {
      assert Keys(d)[0] != Keys(d)[j];
      assert Keys(d[1..]) == Keys(d)[1..];
      LookupEntry(d[1..], j - 1);
    }
  }

  lemma KeysCons<V>(x: (string, V), d: Dict<V>)
    ensures Keys([x] + d) == [x.0] + Keys(d)
  {
  }

  /**
   * `d[k] = v`: an existing key keeps its position and takes the new value,
   * a new key goes at the end.
   */
  function Put<V>(d: Dict<V>, k: string, v: V): (r: Dict<V>)
    ensures Keys(r) == if k in Keys(d) then Keys(d) else Keys(d) + [k]
    ensures Lookup(r, k) == Some(v)
  {
    if d == [] then [(k, v)]
    else if d[0].0 == k then
      KeysCons(d[0], d[1..]);
      KeysCons((k, v), d[1..]);
      assert [d[0]] + d[1..] == d;
      [(k, v)] + d[1..]
    else
      KeysCons(d[0], d[1..]);
      assert [d[0]] + d[1..] == d;
      var rest := Put(d[1..], k, v);
      KeysCons(d[0], rest);
      [d[0]] + rest
  }

  /** Assigning one key leaves the value of every other key as it was. */
  lemma {:induction false} PutKeepsOthers<V>(d: Dict<V>, k: string, v: V, k': string)
    requires k' != k
    ensures Lookup(Put(d, k, v), k') == Lookup(d, k')
  {
    if d != [] && d[0].0 != k {
      PutKeepsOthers(d[1..], k, v, k');
    }
  }

  /** Assigning a key the dictionary does not hold appends the pair. */
  lemma {:induction false} PutNewKeyAppends<V>(d: Dict<V>, k: string, v: V)
    requires k !in Keys(d)
    ensures Put(d, k, v) == d + [(k, v)]
  {
    if d != [] {
      assert Keys(d)[0] == d[0].0;
      assert d[0].0 != k;
      assert Keys(d[1..]) == Keys(d)[1..];
      PutNewKeyAppends(d[1..], k, v);
      calc {
        Put(d, k, v);
        [d[0]] + Put(d[1..], k, v);
        [d[0]] + (d[1..] + [(k, v)]);
        { assert [d[0]] + d[1..] == d; }
        d + [(k, v)];
      }
    }
  }

  /**
   * The row `csv.DictWriter.writerow(d)` writes under the field names
   * `header`: one cell per field name, the dictionary's value for it, or
   * `blank` (the writer's `restval`) where the dictionary lacks that key.
   * Keys outside the header contribute nothing (`extrasaction='ignore'`).
   */
  function Project<V>(d: Dict<V>, header: seq<string>, blank: V): (r: seq<V>)
    ensures |r| == |header|
  {
    seq(|header|, j requires 0 <= j < |header| => Get(d, header[j], blank))
  }

  /** Writing a dictionary under its own keys writes its values, in order. */
  lemma ProjectOwnKeys<V>(d: Dict<V>, blank: V)
    requires DistinctKeys(d)
    ensures Project(d, Keys(d), blank) == Values(d)
  {
    forall j | 0 <= j < |d| ensures Project(d, Keys(d), blank)[j] == Values(d)[j] {
      LookupEntry(d, j);
    }
  }

  /** A header key the dictionary lacks is written as the blank cell. */
  lemma ProjectMissingKey<V>(d: Dict<V>, header: seq<string>, blank: V, j: nat)
    requires j < |header| && header[j] !in Keys(d)
    ensures Project(d, header, blank)[j] == blank
  {
    LookupFindsKeys(d, header[j]);
  }

  /**
   * Only the header keys matter: two dictionaries that agree on every header
   * key are written as the same row, whatever else they hold.
   */
  lemma ProjectIgnoresExtraKeys<V>(d: Dict<V>, e: Dict<V>, header: seq<string>, blank: V)
    requires forall h :: h in header ==> Lookup(d, h) == Lookup(e, h)
    ensures Project(d, header, blank) == Project(e, header, blank)
  {
    forall j | 0 <= j < |header|
      ensures Project(d, header, blank)[j] == Project(e, header, blank)[j]
    {
      assert header[j] in header;
    }
  }
}
