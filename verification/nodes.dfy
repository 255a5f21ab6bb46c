/** The document produced by the parser: nested lists and insertion-ordered
    dictionaries whose leaves are uninterpreted strings. */
module Nodes {
  import opened Results

  /** The two kinds of block collection (the source's `'s'` and `'m'`). */
  datatype Kind = SeqKind | MapKind

  /** A parsed value. Mapping entries keep insertion order. */
  datatype Node =
    | Scalar(text: string)
    | Sequence(items: seq<Node>)
    | Mapping(entries: seq<(string, Node)>)

  /** No key occurs twice in an entry list. */
  predicate UniqueKeys(entries: seq<(string, Node)>) {
    forall i, j :: 0 <= i < j < |entries| ==> entries[i].0 != entries[j].0
  }

  /** `k` is one of the keys of `entries` (Python's `key in d`). */
  predicate HasKey(entries: seq<(string, Node)>, k: string) {
    exists i :: 0 <= i < |entries| && entries[i].0 == k
  }

  /** The value stored under `k`, if any (Python's `d[k]`). */
  function Lookup(entries: seq<(string, Node)>, k: string): (r: Option<Node>)
    ensures r.Some? <==> HasKey(entries, k)
    ensures r.Some? ==> exists i :: 0 <= i < |entries| && entries[i] == (k, r.value)
  {
    if |entries| == 0 then None
    else if entries[0].0 == k then Some(entries[0].1)
    else
      var r := Lookup(entries[1..], k);
      assert r.Some? ==> exists i :: 0 <= i < |entries[1..]| && entries[1..][i] == (k, r.value);
      assert HasKey(entries[1..], k) ==> HasKey(entries, k) by {
        if HasKey(entries[1..], k) {
          var i :| 0 <= i < |entries[1..]| && entries[1..][i].0 == k;
          assert entries[i + 1].0 == k;
        }
      }
      assert HasKey(entries, k) ==> HasKey(entries[1..], k) by {
        if HasKey(entries, k) {
          var i :| 0 <= i < |entries| && entries[i].0 == k;
          assert i > 0 && entries[1..][i - 1].0 == k;
        }
      }
      r
  }

  /** Every mapping anywhere inside `n` has unique keys. */
  predicate WellFormed(n: Node)
    decreases n
  {
    match n
    case Scalar(_) => true
    case Sequence(items) => forall i :: 0 <= i < |items| ==> WellFormed(items[i])
    case Mapping(entries) =>
      && UniqueKeys(entries)
      && forall i :: 0 <= i < |entries| ==> WellFormed(entries[i].1)
  }

  /** Python truthiness of the value: a non-empty string or a non-empty collection. */
  predicate Truthy(n: Node) {
    match n
    case Scalar(s) => s != ""
    case Sequence(items) => items != []
    case Mapping(entries) => entries != []
  }
}
