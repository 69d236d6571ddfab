/** `compute_changes`: the walk over the current and the future statistics
    dictionaries that flattens them into one map from
    `"<key>_<key>_..._<key>_change"` to `future - current`. */
module Changes {
  import opened Common

  /** A nested statistics dictionary: a number (or NaN) at a leaf, an ordered
      dictionary (insertion order, as Python keeps it) at an inner node. */
  datatype Tree = Leaf(v: Value) | Dict(entries: seq<(string, Tree)>)

  /** The position of the first entry with key `k`, or `|es|` when there is none. */
  function IndexOf(es: seq<(string, Tree)>, k: string): (j: nat)
    ensures j <= |es|
    ensures j < |es| ==> es[j].0 == k
    ensures forall i :: 0 <= i < j ==> es[i].0 != k
  {
    if |es| == 0 then 0
    else if es[0].0 == k then 0
    else 1 + IndexOf(es[1..], k)
  }

  function Lookup(es: seq<(string, Tree)>, k: string): Option<Tree>
  {
    var j := IndexOf(es, k);
    if j < |es| then Some(es[j].1) else None
  }

  /** Python's `future[key]`: a number is not subscriptable, a missing key
      is a `KeyError`. */
  function Subscript(t: Tree, k: string): (r: Result<Tree>)
    ensures r.Err? <==> t.Leaf? || Lookup(t.entries, k).None?
    ensures t.Leaf? ==> r == Err(TypeError)
    ensures r.Err? && t.Dict? ==> r.error == KeyError(k)
    ensures r.Ok? ==> r.value == Lookup(t.entries, k).value
  {
    if t.Leaf? then Err(TypeError)
    else match Lookup(t.entries, k)
      case None => Err(KeyError(k))
      case Some(c) => Ok(c)
  }

  predicate DistinctKeys(es: seq<(string, Tree)>)
  {
    forall i, j :: 0 <= i < j < |es| ==> es[i].0 != es[j].0
  }

  /** A tree every dictionary of which has distinct keys, as every Python
      dictionary has. */
  predicate WellFormed(t: Tree)
  {
    t.Dict? ==> DistinctKeys(t.entries) && forall i :: 0 <= i < |t.entries| ==> WellFormed(t.entries[i].1)
  }

  /** The specification of `compute_changes(cur, fut, prefix)`: the loop over
      the keys of `cur` from position `i` on, with `acc` the map built so
      far. A nested dictionary's changes are merged in (`update`), a
      number's change is stored under `prefix + key + "_change"`. */
  function Fold(cur: Tree, i: nat, fut: Tree, prefix: string, acc: map<string, Value>): Result<map<string, Value>>
    requires cur.Dict? && i <= |cur.entries|
    decreases cur, |cur.entries| - i
  {
    if i == |cur.entries| then Ok(acc)
    else
      var (key, child) := cur.entries[i];
      match Subscript(fut, key)
      case Err(e) => Err(e)
      case Ok(f) =>
        if child.Dict? then
          match Fold(child, 0, f, prefix + key + "_", map[])
          case Err(e) => Err(e)
          case Ok(sub) => Fold(cur, i + 1, fut, prefix, acc + sub)
        else if f.Dict? then Err(TypeError)
        else Fold(cur, i + 1, fut, prefix, acc[prefix + key + "_change" := Minus(f.v, child.v)])
  }

  /** `compute_changes`, with its loop and the recursive calls for nested
      dictionaries. */
  method ComputeChanges(current: Tree, future: Tree, prefix: string) returns (r: Result<map<string, Value>>)
    requires current.Dict?
    ensures r == Fold(current, 0, future, prefix, map[])
    decreases current
  {
    var changes: map<string, Value> := map[];
    var i := 0;
    while i < |current.entries|
      invariant 0 <= i <= |current.entries|
      invariant Fold(current, 0, future, prefix, map[]) == Fold(current, i, future, prefix, changes)
      decreases |current.entries| - i
    {
      var (key, child) := current.entries[i];
      var f :- Subscript(future, key);
      if child.Dict? {
        var sub :- ComputeChanges(child, f, prefix + key + "_");
        changes := changes + sub;
      } else {
        if f.Dict? {
          return Err(TypeError);
        }
        changes := changes[prefix + key + "_change" := Minus(f.v, child.v)];
      }
      i := i + 1;
    }
    return Ok(changes);
  }

  // ---------------------------------------------------------------------
  // Paths and flattened keys

  /** The subtree at a path of keys, if every key along it exists. */
  function At(t: Tree, p: seq<string>): Option<Tree>
    decreases |p|
  {
    if |p| == 0 then Some(t)
    else if t.Leaf? then None
    else match Lookup(t.entries, p[0])
      case None => None
      case Some(c) => At(c, p[1..])
  }

  predicate IsLeafPath(t: Tree, p: seq<string>)
  {
    |p| > 0 && At(t, p).Some? && At(t, p).value.Leaf?
  }

  /** The flattened name of the change at leaf path `k1, ..., kn`:
      `prefix + "k1_" + ... + "kn_change"`. */
  function FlatKey(prefix: string, p: seq<string>): string
    requires |p| > 0
    decreases |p|
  {
    if |p| == 1 then prefix + p[0] + "_change"
    else FlatKey(prefix + p[0] + "_", p[1..])
  }

  /** The flattened names of the leaves of `t` under the keys from position
      `i` on, in traversal order. */
  function FlatKeys(t: Tree, i: nat, prefix: string): seq<string>
    requires t.Dict? && i <= |t.entries|
    decreases t, |t.entries| - i, 1
  {
    if i == |t.entries| then []
    else EntryKeys(t, i, prefix) + FlatKeys(t, i + 1, prefix)
  }

  /** The flattened names of the leaves under the entry at position `i`. */
  function EntryKeys(t: Tree, i: nat, prefix: string): seq<string>
    requires t.Dict? && i < |t.entries|
    decreases t, |t.entries| - i, 0
  {
    var (key, child) := t.entries[i];
    if child.Leaf? then [prefix + key + "_change"] else FlatKeys(child, 0, prefix + key + "_")
  }

  predicate Distinct(s: seq<string>)
  {
    forall a, b :: 0 <= a < b < |s| ==> s[a] != s[b]
  }

  lemma DistinctConcat(x: seq<string>, y: seq<string>)
    requires Distinct(x + y)
    ensures Distinct(x) && Distinct(y)
    ensures forall k :: k in x ==> k !in y
  {
    assert forall a :: 0 <= a < |x| ==> (x + y)[a] == x[a];
    assert forall b :: 0 <= b < |y| ==> (x + y)[|x| + b] == y[b];
  }
}
