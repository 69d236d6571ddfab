/** What `compute_changes` computes, stated through paths of keys: one
    change per leaf path of the current dictionary, named by joining the
    path with `_`, holding `future - current` at that path; nothing else;
    success exactly when the future dictionary has every path the current
    one has. */
module ChangesLaws {
  import opened Common
  import opened Changes

  /** The future dictionary has every key path of the current one, and a
      number wherever the current one has a number. */
  ghost predicate Compatible(cur: Tree, fut: Tree)
  {
    forall p :: |p| > 0 && At(cur, p).Some? ==>
      At(fut, p).Some? && (At(cur, p).value.Leaf? ==> At(fut, p).value.Leaf?)
  }

  lemma FlatKeysSplit(t: Tree, i: nat, prefix: string)
    requires t.Dict? && i < |t.entries|
    ensures FlatKeys(t, i, prefix) == EntryKeys(t, i, prefix) + FlatKeys(t, i + 1, prefix)
  {
  }

  /** The entry at position `i` can be visited: its key is found, a number
      meets a number, and a dictionary's own fold succeeds. */
  ghost predicate CanVisit(cur: Tree, i: nat, fut: Tree, prefix: string)
    requires cur.Dict? && i < |cur.entries|
  {
    var (key, child) := cur.entries[i];
    && Subscript(fut, key).Ok?
    && (child.Leaf? ==> Subscript(fut, key).value.Leaf?)
    && (child.Dict? ==> Fold(child, 0, Subscript(fut, key).value, prefix + key + "_", map[]).Ok?)
  }

  /** The accumulator once the fold has visited entry `i`. */
  ghost function After(cur: Tree, i: nat, fut: Tree, prefix: string, acc: map<string, Value>): map<string, Value>
    requires cur.Dict? && i < |cur.entries| && CanVisit(cur, i, fut, prefix)
  {
    var (key, child) := cur.entries[i];
    var f := Subscript(fut, key).value;
    if child.Dict? then acc + Fold(child, 0, f, prefix + key + "_", map[]).value
    else acc[prefix + key + "_change" := Minus(f.v, child.v)]
  }

  /** One step of the fold: it succeeds from entry `i` exactly when that
      entry can be visited and the fold succeeds from the next one. */
  lemma FoldStep(cur: Tree, i: nat, fut: Tree, prefix: string, acc: map<string, Value>)
    requires cur.Dict? && i < |cur.entries|
    ensures Fold(cur, i, fut, prefix, acc).Ok? ==> CanVisit(cur, i, fut, prefix)
    ensures CanVisit(cur, i, fut, prefix) ==>
      Fold(cur, i, fut, prefix, acc) == Fold(cur, i + 1, fut, prefix, After(cur, i, fut, prefix, acc))
  {
    var (key, child) := cur.entries[i];
    if CanVisit(cur, i, fut, prefix) {
      var f := Subscript(fut, key).value;
      assert Subscript(fut, key) == Ok(f);
      if child.Dict? {
        var sub := Fold(child, 0, f, prefix + key + "_", map[]).value;
        assert Fold(child, 0, f, prefix + key + "_", map[]) == Ok(sub);
      }
    }
  }

  /** The fold adds exactly the flattened keys of the entries it visits and
      leaves every other key of the accumulator as it was. */
  lemma {:induction false} FoldKeys(cur: Tree, i: nat, fut: Tree, prefix: string, acc: map<string, Value>)
    requires cur.Dict? && i <= |cur.entries|
    requires Fold(cur, i, fut, prefix, acc).Ok?
    ensures var m := Fold(cur, i, fut, prefix, acc).value;
      forall k :: k in m <==> k in acc || k in FlatKeys(cur, i, prefix)
    ensures var m := Fold(cur, i, fut, prefix, acc).value;
      forall k :: k in acc && k !in FlatKeys(cur, i, prefix) ==> m[k] == acc[k]
    decreases cur, |cur.entries| - i
  {
    if i < |cur.entries| {
      var (key, child) := cur.entries[i];
      FlatKeysSplit(cur, i, prefix);
      FoldStep(cur, i, fut, prefix, acc);
      if child.Dict? {
        FoldKeys(child, 0, Subscript(fut, key).value, prefix + key + "_", map[]);
      }
      FoldKeys(cur, i + 1, fut, prefix, After(cur, i, fut, prefix, acc));
    }
  }

  /** Following a path whose first key is found: the subtree of the child. */
  lemma AtStep(t: Tree, p: seq<string>)
    requires t.Dict? && |p| > 0 && Lookup(t.entries, p[0]).Some?
    ensures At(t, p) == At(Lookup(t.entries, p[0]).value, p[1..])
  {
  }

  /** A path through a number ends there. */
  lemma AtLeaf(t: Tree, p: seq<string>)
    requires t.Leaf? && |p| > 0
    ensures At(t, p).None?
  {
  }

  /** A leaf path ends at its first key when that key holds a number, and
      continues as a leaf path of the child when it holds a dictionary. */
  lemma LeafPathStep(t: Tree, p: seq<string>)
    requires t.Dict? && IsLeafPath(t, p)
    ensures Lookup(t.entries, p[0]).Some?
    ensures Lookup(t.entries, p[0]).value.Leaf? ==> |p| == 1
    ensures Lookup(t.entries, p[0]).value.Dict? ==> |p| > 1 && IsLeafPath(Lookup(t.entries, p[0]).value, p[1..])
  {
    AtStep(t, p);
  }

  /** Every leaf path of the current dictionary has its flattened key among
      the keys the fold visits. */
  lemma {:induction false} LeafPathKey(t: Tree, i: nat, prefix: string, p: seq<string>)
    requires t.Dict? && i <= |t.entries|
    requires IsLeafPath(t, p) && i <= IndexOf(t.entries, p[0])
    ensures FlatKey(prefix, p) in FlatKeys(t, i, prefix)
    decreases t, |t.entries| - i
  {
    var j := IndexOf(t.entries, p[0]);
    LeafPathStep(t, p);
    FlatKeysSplit(t, i, prefix);
    if i < j {
      LeafPathKey(t, i + 1, prefix, p);
    } else if t.entries[j].1.Dict? {
      LeafPathKey(t.entries[j].1, 0, prefix + p[0] + "_", p[1..]);
    }
  }

  /** On success, every leaf path of `cur` (from position `i` on) is a leaf
      path of `fut`, and the result holds `future - current` under its
      flattened key, provided the flattened keys do not collide. */
  lemma {:induction false} FoldValues(cur: Tree, i: nat, fut: Tree, prefix: string, acc: map<string, Value>, p: seq<string>)
    requires cur.Dict? && i <= |cur.entries|
    requires Fold(cur, i, fut, prefix, acc).Ok?
    requires IsLeafPath(cur, p) && i <= IndexOf(cur.entries, p[0])
    requires Distinct(FlatKeys(cur, i, prefix))
    ensures IsLeafPath(fut, p)
    ensures var m := Fold(cur, i, fut, prefix, acc).value;
      FlatKey(prefix, p) in m && m[FlatKey(prefix, p)] == Minus(At(fut, p).value.v, At(cur, p).value.v)
    decreases cur, |cur.entries| - i
  {
    LeafPathStep(cur, p);
    var (key, child) := cur.entries[i];
    FoldStep(cur, i, fut, prefix, acc);
    DistinctSplit(cur, i, prefix);
    if i < IndexOf(cur.entries, p[0]) {
      FoldValues(cur, i + 1, fut, prefix, After(cur, i, fut, prefix, acc), p);
    } else if child.Leaf? {
      FoldValuesAtLeaf(cur, i, fut, prefix, acc, p);
    } else {
      FoldValues(child, 0, Subscript(fut, key).value, prefix + key + "_", map[], p[1..]);
      FoldValuesAtDict(cur, i, fut, prefix, acc, p);
    }
  }

  /** The flattened keys of entry `i` and those of the later entries, when
      all of them are distinct. */
  lemma DistinctSplit(cur: Tree, i: nat, prefix: string)
    requires cur.Dict? && i < |cur.entries| && Distinct(FlatKeys(cur, i, prefix))
    ensures Distinct(EntryKeys(cur, i, prefix)) && Distinct(FlatKeys(cur, i + 1, prefix))
    ensures forall k :: k in EntryKeys(cur, i, prefix) ==> k !in FlatKeys(cur, i + 1, prefix)
  {
    FlatKeysSplit(cur, i, prefix);
    DistinctConcat(EntryKeys(cur, i, prefix), FlatKeys(cur, i + 1, prefix));
  }

  /** The leaf path ends at entry `i`, which holds a number. */
  lemma FoldValuesAtLeaf(cur: Tree, i: nat, fut: Tree, prefix: string, acc: map<string, Value>, p: seq<string>)
    requires cur.Dict? && i < |cur.entries| && cur.entries[i].1.Leaf?
    requires Fold(cur, i, fut, prefix, acc).Ok?
    requires IsLeafPath(cur, p) && i == IndexOf(cur.entries, p[0])
    requires Distinct(FlatKeys(cur, i, prefix))
    ensures IsLeafPath(fut, p)
    ensures var m := Fold(cur, i, fut, prefix, acc).value;
      FlatKey(prefix, p) in m && m[FlatKey(prefix, p)] == Minus(At(fut, p).value.v, At(cur, p).value.v)
  {
    var (key, child) := cur.entries[i];
    var f := Subscript(fut, key).value;
    var k := FlatKey(prefix, p);
    LeafPathStep(cur, p);
    assert k == prefix + key + "_change";
    FoldStep(cur, i, fut, prefix, acc);
    var next := After(cur, i, fut, prefix, acc);
    assert k in next && next[k] == Minus(f.v, child.v);
    assert k !in FlatKeys(cur, i + 1, prefix) by {
      DistinctSplit(cur, i, prefix);
      assert EntryKeys(cur, i, prefix) == [k];
      assert k in EntryKeys(cur, i, prefix);
    }
    FoldKeys(cur, i + 1, fut, prefix, next);
    assert At(cur, p) == Some(child) by {
      AtStep(cur, p);
    }
    assert At(fut, p) == Some(f) by {
      AtStep(fut, p);
    }
  }

  /** The leaf path goes on into the dictionary at entry `i`, whose own
      fold already has the value. */
  lemma FoldValuesAtDict(cur: Tree, i: nat, fut: Tree, prefix: string, acc: map<string, Value>, p: seq<string>)
    requires cur.Dict? && i < |cur.entries| && cur.entries[i].1.Dict?
    requires Fold(cur, i, fut, prefix, acc).Ok?
    requires IsLeafPath(cur, p) && i == IndexOf(cur.entries, p[0])
    requires Distinct(FlatKeys(cur, i, prefix))
    requires var (key, child) := cur.entries[i];
      var f := Subscript(fut, key).value;
      Fold(child, 0, f, prefix + key + "_", map[]).Ok? &&
      |p| > 1 && IsLeafPath(f, p[1..]) &&
      var sub := Fold(child, 0, f, prefix + key + "_", map[]).value;
      FlatKey(prefix + key + "_", p[1..]) in sub &&
      sub[FlatKey(prefix + key + "_", p[1..])] == Minus(At(f, p[1..]).value.v, At(child, p[1..]).value.v)
    ensures IsLeafPath(fut, p)
    ensures var m := Fold(cur, i, fut, prefix, acc).value;
      FlatKey(prefix, p) in m && m[FlatKey(prefix, p)] == Minus(At(fut, p).value.v, At(cur, p).value.v)
  {
    var (key, child) := cur.entries[i];
    var f := Subscript(fut, key).value;
    var sub := Fold(child, 0, f, prefix + key + "_", map[]).value;
    var k := FlatKey(prefix, p);
    assert k == FlatKey(prefix + key + "_", p[1..]);
    FoldStep(cur, i, fut, prefix, acc);
    var next := After(cur, i, fut, prefix, acc);
    assert k in next && next[k] == sub[k];
    assert k !in FlatKeys(cur, i + 1, prefix) by {
      DistinctSplit(cur, i, prefix);
      LeafPathKey(child, 0, prefix + key + "_", p[1..]);
    }
    FoldKeys(cur, i + 1, fut, prefix, next);
    assert At(cur, p) == At(child, p[1..]) by {
      AtStep(cur, p);
    }
    assert At(fut, p) == At(f, p[1..]) by {
      AtStep(fut, p);
    }
  }

  /** In a well-formed tree the entry at position `i` is the one its key finds. */
  lemma IndexOfDistinct(es: seq<(string, Tree)>, i: nat)
    requires DistinctKeys(es) && i < |es|
    ensures IndexOf(es, es[i].0) == i
  {
  }

  /** Every flattened key names a leaf path of a well-formed tree. */
  lemma {:induction false} FlatKeyHasPath(t: Tree, i: nat, prefix: string, k: string)
    requires t.Dict? && i <= |t.entries| && WellFormed(t)
    requires k in FlatKeys(t, i, prefix)
    ensures exists p :: IsLeafPath(t, p) && FlatKey(prefix, p) == k
    decreases t, |t.entries| - i
  {
    var (key, child) := t.entries[i];
    FlatKeysSplit(t, i, prefix);
    var head := EntryKeys(t, i, prefix);
    if k !in head {
      FlatKeysFurther(t, i, prefix, k);
      FlatKeyHasPath(t, i + 1, prefix, k);
    } else if child.Leaf? {
      PathToLeafEntry(t, i, prefix);
    } else {
      FlatKeyHasPath(child, 0, prefix + key + "_", k);
      var q :| IsLeafPath(child, q) && FlatKey(prefix + key + "_", q) == k;
      PathIntoDictEntry(t, i, prefix, q);
    }
  }

  /** The one-key path to an entry holding a number. */
  lemma PathToLeafEntry(t: Tree, i: nat, prefix: string)
    requires t.Dict? && i < |t.entries| && DistinctKeys(t.entries) && t.entries[i].1.Leaf?
    ensures var key := t.entries[i].0;
      IsLeafPath(t, [key]) && FlatKey(prefix, [key]) == prefix + key + "_change"
  {
    IndexOfDistinct(t.entries, i);
    AtStep(t, [t.entries[i].0]);
  }

  /** A leaf path of the dictionary at entry `i`, extended by that entry's key. */
  lemma PathIntoDictEntry(t: Tree, i: nat, prefix: string, q: seq<string>)
    requires t.Dict? && i < |t.entries| && DistinctKeys(t.entries)
    requires IsLeafPath(t.entries[i].1, q)
    ensures var key := t.entries[i].0;
      IsLeafPath(t, [key] + q) && FlatKey(prefix, [key] + q) == FlatKey(prefix + key + "_", q)
  {
    var key := t.entries[i].0;
    var p := [key] + q;
    assert p[1..] == q;
    IndexOfDistinct(t.entries, i);
    AtStep(t, p);
  }

  lemma FlatKeysFurther(t: Tree, i: nat, prefix: string, k: string)
    requires t.Dict? && i < |t.entries|
    requires k in FlatKeys(t, i, prefix)
    requires k !in EntryKeys(t, i, prefix)
    ensures k in FlatKeys(t, i + 1, prefix)
  {
    FlatKeysSplit(t, i, prefix);
  }

  /** On success the future tree has every path the current one has from
      position `i` on, and a number wherever the current one has a number. */
  lemma {:induction false} FoldOkPath(cur: Tree, i: nat, fut: Tree, prefix: string, acc: map<string, Value>, p: seq<string>)
    requires cur.Dict? && i <= |cur.entries|
    requires Fold(cur, i, fut, prefix, acc).Ok?
    requires |p| > 0 && At(cur, p).Some? && i <= IndexOf(cur.entries, p[0])
    ensures At(fut, p).Some? && (At(cur, p).value.Leaf? ==> At(fut, p).value.Leaf?)
    decreases cur, |cur.entries| - i
  {
    var j := IndexOf(cur.entries, p[0]);
    AtStep(cur, p);
    var (key, child) := cur.entries[i];
    FoldStep(cur, i, fut, prefix, acc);
    var f := Subscript(fut, key).value;
    var next := After(cur, i, fut, prefix, acc);
    if i < j {
      FoldOkPath(cur, i + 1, fut, prefix, next, p);
    } else {
      AtStep(fut, p);
      if |p| > 1 {
        FoldOkPath(child, 0, f, prefix + key + "_", map[], p[1..]);
      }
    }
  }

  /** The child at a found key of a compatible pair is again compatible. */
  lemma CompatibleChild(cur: Tree, fut: Tree, i: nat)
    requires cur.Dict? && i < |cur.entries| && DistinctKeys(cur.entries)
    requires Compatible(cur, fut)
    ensures var key := cur.entries[i].0;
      Subscript(fut, key).Ok? && Compatible(cur.entries[i].1, Subscript(fut, key).value)
    ensures cur.entries[i].1.Leaf? ==> Subscript(fut, cur.entries[i].0).value.Leaf?
  {
    var (key, child) := cur.entries[i];
    IndexOfDistinct(cur.entries, i);
    AtStep(cur, [key]);
    assert At(cur, [key]).Some?;
    if fut.Leaf? {
      AtLeaf(fut, [key]);
    }
    AtStep(fut, [key]);
    var f := Subscript(fut, key).value;
    forall q | |q| > 0 && At(child, q).Some?
      ensures At(f, q).Some? && (At(child, q).value.Leaf? ==> At(f, q).value.Leaf?)
    {
      var p := [key] + q;
      assert p[1..] == q;
      AtStep(cur, p);
      AtStep(fut, p);
    }
  }

  /** A well-formed current tree whose paths the future tree has: the fold succeeds. */
  lemma {:induction false} CompatibleFoldOk(cur: Tree, i: nat, fut: Tree, prefix: string, acc: map<string, Value>)
    requires cur.Dict? && i <= |cur.entries| && WellFormed(cur)
    requires Compatible(cur, fut)
    ensures Fold(cur, i, fut, prefix, acc).Ok?
    decreases cur, |cur.entries| - i
  {
    if i < |cur.entries| {
      var (key, child) := cur.entries[i];
      CompatibleChild(cur, fut, i);
      if child.Dict? {
        CompatibleFoldOk(child, 0, Subscript(fut, key).value, prefix + key + "_", map[]);
      }
      assert CanVisit(cur, i, fut, prefix);
      FoldStep(cur, i, fut, prefix, acc);
      CompatibleFoldOk(cur, i + 1, fut, prefix, After(cur, i, fut, prefix, acc));
    }
  }

  /** `compute_changes` of a well-formed dictionary succeeds exactly when
      the future dictionary has every key path of the current one, with a
      number wherever the current one has a number. */
  lemma ChangesSucceedIff(cur: Tree, fut: Tree, prefix: string)
    requires cur.Dict? && WellFormed(cur)
    ensures Fold(cur, 0, fut, prefix, map[]).Ok? <==> Compatible(cur, fut)
  {
    if Fold(cur, 0, fut, prefix, map[]).Ok? {
      forall p | |p| > 0 && At(cur, p).Some?
        ensures At(fut, p).Some? && (At(cur, p).value.Leaf? ==> At(fut, p).value.Leaf?)
      {
        FoldOkPath(cur, 0, fut, prefix, map[], p);
      }
    }
    if Compatible(cur, fut) {
      CompatibleFoldOk(cur, 0, fut, prefix, map[]);
    }
  }

  /** A key of the current dictionary that the future dictionary lacks
      makes `compute_changes` fail. */
  lemma MissingKeyFails(cur: Tree, fut: Tree, prefix: string, k: string)
    requires cur.Dict? && fut.Dict?
    requires Lookup(cur.entries, k).Some? && Lookup(fut.entries, k).None?
    ensures Fold(cur, 0, fut, prefix, map[]).Err?
  {
    AtStep(cur, [k]);
    if Fold(cur, 0, fut, prefix, map[]).Ok? {
      FoldOkPath(cur, 0, fut, prefix, map[], [k]);
    }
  }

  /** The first key of the current dictionary that the future dictionary
      lacks raises `KeyError` for that key, once every earlier entry has
      been visited without failing. */
  lemma {:induction false} MissingKeyRaises(cur: Tree, i: nat, fut: Tree, prefix: string, acc: map<string, Value>, k: string)
    requires cur.Dict? && fut.Dict? && i <= IndexOf(cur.entries, k) < |cur.entries|
    requires Lookup(fut.entries, k).None?
    requires forall j :: i <= j < IndexOf(cur.entries, k) ==> CanVisit(cur, j, fut, prefix)
    ensures Fold(cur, i, fut, prefix, acc) == Err(KeyError(k))
    decreases |cur.entries| - i
  {
    if i < IndexOf(cur.entries, k) {
      FoldStep(cur, i, fut, prefix, acc);
      MissingKeyRaises(cur, i + 1, fut, prefix, After(cur, i, fut, prefix, acc), k);
    }
  }

  /** `compute_changes` fails only with a `KeyError` (a missing key) or a
      `TypeError` (a number subscripted, or a dictionary met by a number). */
  lemma {:induction false} FoldErrorKinds(cur: Tree, i: nat, fut: Tree, prefix: string, acc: map<string, Value>)
    requires cur.Dict? && i <= |cur.entries|
    ensures var r := Fold(cur, i, fut, prefix, acc);
      r.Err? ==> r.error.KeyError? || r.error == TypeError
    decreases cur, |cur.entries| - i
  {
    if i < |cur.entries| {
      var (key, child) := cur.entries[i];
      match Subscript(fut, key)
      case Err(e) =>
      case Ok(f) =>
        if child.Dict? {
          FoldErrorKinds(child, 0, f, prefix + key + "_", map[]);
          match Fold(child, 0, f, prefix + key + "_", map[])
          case Err(e) =>
          case Ok(sub) => FoldErrorKinds(cur, i + 1, fut, prefix, acc + sub);
        } else if f.Leaf? {
          FoldErrorKinds(cur, i + 1, fut, prefix, acc[prefix + key + "_change" := Minus(f.v, child.v)]);
        }
    }
  }

  /** The result of `compute_changes`: one entry per leaf path of the
      current dictionary, under the path's flattened key, holding the
      future value minus the current value; and no other entry. */
  lemma ChangesAreLeafDifferences(cur: Tree, fut: Tree, prefix: string)
    requires cur.Dict? && WellFormed(cur) && Distinct(FlatKeys(cur, 0, prefix))
    requires Fold(cur, 0, fut, prefix, map[]).Ok?
    ensures var m := Fold(cur, 0, fut, prefix, map[]).value;
      forall p :: IsLeafPath(cur, p) ==>
        IsLeafPath(fut, p) && FlatKey(prefix, p) in m &&
        m[FlatKey(prefix, p)] == Minus(At(fut, p).value.v, At(cur, p).value.v)
    ensures var m := Fold(cur, 0, fut, prefix, map[]).value;
      forall k :: k in m ==> exists p :: IsLeafPath(cur, p) && FlatKey(prefix, p) == k
  {
    var m := Fold(cur, 0, fut, prefix, map[]).value;
    forall p | IsLeafPath(cur, p)
      ensures IsLeafPath(fut, p) && FlatKey(prefix, p) in m &&
              m[FlatKey(prefix, p)] == Minus(At(fut, p).value.v, At(cur, p).value.v)
    {
      FoldValues(cur, 0, fut, prefix, map[], p);
    }
    FoldKeys(cur, 0, fut, prefix, map[]);
    forall k | k in m
      ensures exists p :: IsLeafPath(cur, p) && FlatKey(prefix, p) == k
    {
      FlatKeyHasPath(cur, 0, prefix, k);
    }
  }

  /** The future dictionary matters only at the keys of the current one. */
  lemma {:induction false} FoldReadsCurrentKeys(cur: Tree, i: nat, fut1: Tree, fut2: Tree, prefix: string, acc: map<string, Value>)
    requires cur.Dict? && i <= |cur.entries|
    requires forall j :: i <= j < |cur.entries| ==> Subscript(fut1, cur.entries[j].0) == Subscript(fut2, cur.entries[j].0)
    ensures Fold(cur, i, fut1, prefix, acc) == Fold(cur, i, fut2, prefix, acc)
    decreases |cur.entries| - i
  {
    if i < |cur.entries| {
      var (key, child) := cur.entries[i];
      match Subscript(fut1, key)
      case Err(e) =>
      case Ok(f) =>
        if child.Dict? {
          match Fold(child, 0, f, prefix + key + "_", map[])
          case Err(e) =>
          case Ok(sub) => FoldReadsCurrentKeys(cur, i + 1, fut1, fut2, prefix, acc + sub);
        } else if f.Leaf? {
          FoldReadsCurrentKeys(cur, i + 1, fut1, fut2, prefix, acc[prefix + key + "_change" := Minus(f.v, child.v)]);
        }
    }
  }

  lemma LookupAppendOther(es: seq<(string, Tree)>, k: string, t: Tree, key: string)
    requires key != k
    ensures Lookup(es + [(k, t)], key) == Lookup(es, key)
  {
    if |es| > 0 && es[0].0 != key {
      assert (es + [(k, t)])[1..] == es[1..] + [(k, t)];
      LookupAppendOther(es[1..], k, t, key);
    }
  }

  /** A key that only the future dictionary has changes nothing. */
  lemma ExtraFutureKeyIgnored(cur: Tree, fut: Tree, prefix: string, k: string, t: Tree)
    requires cur.Dict? && fut.Dict? && Lookup(cur.entries, k).None?
    ensures Fold(cur, 0, Dict(fut.entries + [(k, t)]), prefix, map[]) == Fold(cur, 0, fut, prefix, map[])
  {
    forall j | 0 <= j < |cur.entries|
      ensures Subscript(Dict(fut.entries + [(k, t)]), cur.entries[j].0) == Subscript(fut, cur.entries[j].0)
    {
      LookupAppendOther(fut.entries, k, t, cur.entries[j].0);
    }
    FoldReadsCurrentKeys(cur, 0, Dict(fut.entries + [(k, t)]), fut, prefix, map[]);
  }

  /** Two trees with the same keys in the same order at every level, and
      numbers at the same places. */
  predicate SameShape(a: Tree, b: Tree)
  {
    match a
    case Leaf(_) => b.Leaf?
    case Dict(es) =>
      && b.Dict? && |es| == |b.entries|
      && forall i :: 0 <= i < |es| ==> es[i].0 == b.entries[i].0 && SameShape(es[i].1, b.entries[i].1)
  }

  /** `compute_changes` of two well-formed dictionaries of the same shape succeeds. */
  lemma {:induction false} SameShapeFoldOk(cur: Tree, i: nat, fut: Tree, prefix: string, acc: map<string, Value>)
    requires cur.Dict? && i <= |cur.entries| && WellFormed(cur) && SameShape(cur, fut)
    ensures Fold(cur, i, fut, prefix, acc).Ok?
    decreases cur, |cur.entries| - i
  {
    if i < |cur.entries| {
      var (key, child) := cur.entries[i];
      assert DistinctKeys(fut.entries);
      IndexOfDistinct(fut.entries, i);
      assert Subscript(fut, key) == Ok(fut.entries[i].1);
      if child.Dict? {
        SameShapeFoldOk(child, 0, fut.entries[i].1, prefix + key + "_", map[]);
      }
      assert CanVisit(cur, i, fut, prefix);
      FoldStep(cur, i, fut, prefix, acc);
      SameShapeFoldOk(cur, i + 1, fut, prefix, After(cur, i, fut, prefix, acc));
    }
  }

  // ---------------------------------------------------------------------
  // When flattened keys cannot collide

  /** What entry `e` contributes to the front of each of its flattened keys. */
  function Stem(e: (string, Tree)): string
  {
    if e.1.Leaf? then e.0 + "_change" else e.0 + "_"
  }

  /** No stem of an entry is a prefix of a sibling's stem, at every level. */
  predicate PrefixFree(t: Tree)
  {
    t.Dict? ==>
      && (forall i, j :: 0 <= i < |t.entries| && 0 <= j < |t.entries| && i != j ==>
            !(Stem(t.entries[i]) <= Stem(t.entries[j])))
      && forall i :: 0 <= i < |t.entries| ==> PrefixFree(t.entries[i].1)
  }

  /** Every flattened key starts with the prefix it was built under. */
  lemma {:induction false} FlatKeysStartWith(t: Tree, i: nat, prefix: string)
    requires t.Dict? && i <= |t.entries|
    ensures forall k :: k in FlatKeys(t, i, prefix) ==> prefix <= k
    decreases t, |t.entries| - i
  {
    if i < |t.entries| {
      var (key, child) := t.entries[i];
      FlatKeysSplit(t, i, prefix);
      FlatKeysStartWith(t, i + 1, prefix);
      if child.Dict? {
        FlatKeysStartWith(child, 0, prefix + key + "_");
        forall k | k in FlatKeys(child, 0, prefix + key + "_") ensures prefix <= k {
          PrefixTransitive(prefix, prefix + key + "_", k);
        }
      }
    }
  }

  /** The flattened keys of entry `i` start with the prefix and its stem. */
  lemma EntryKeysStartWith(t: Tree, i: nat, prefix: string)
    requires t.Dict? && i < |t.entries|
    ensures forall k :: k in EntryKeys(t, i, prefix) ==> prefix + Stem(t.entries[i]) <= k
  {
    var (key, child) := t.entries[i];
    if child.Dict? {
      FlatKeysStartWith(child, 0, prefix + key + "_");
      assert prefix + Stem(t.entries[i]) == prefix + key + "_";
    } else {
      assert prefix + Stem(t.entries[i]) == prefix + key + "_change";
    }
  }

  /** Every flattened key of the entries from `i` on starts with the stem
      of one of them. */
  lemma {:induction false} LaterKeysStartWith(t: Tree, i: nat, prefix: string, k: string)
    requires t.Dict? && i <= |t.entries| && k in FlatKeys(t, i, prefix)
    ensures exists j :: i <= j < |t.entries| && prefix + Stem(t.entries[j]) <= k
    decreases |t.entries| - i
  {
    var (key, child) := t.entries[i];
    FlatKeysSplit(t, i, prefix);
    var head := EntryKeys(t, i, prefix);
    if k in head {
      EntryKeysStartWith(t, i, prefix);
    } else {
      LaterKeysStartWith(t, i + 1, prefix, k);
    }
  }

  lemma PrefixTransitive(a: string, b: string, c: string)
    requires a <= b && b <= c
    ensures a <= c
  {
  }

  /** Two prefixes of one string: the shorter is a prefix of the longer. */
  lemma PrefixesComparable(a: string, b: string, k: string)
    requires a <= k && b <= k && |a| <= |b|
    ensures a <= b
  {
    assert a == k[..|a|] && b == k[..|b|];
    assert b[..|a|] == k[..|a|];
  }

  lemma PrefixCancel(p: string, a: string, b: string)
    requires p + a <= p + b
    ensures a <= b
  {
    assert forall n :: 0 <= n < |a| ==> a[n] == (p + a)[|p| + n] == (p + b)[|p| + n] == b[n];
  }

  lemma DistinctJoin(x: seq<string>, y: seq<string>)
    requires Distinct(x) && Distinct(y)
    requires forall k :: k in x ==> k !in y
    ensures Distinct(x + y)
  {
    forall a, b | 0 <= a < b < |x + y| ensures (x + y)[a] != (x + y)[b] {
      if b < |x| {
      } else if a >= |x| {
        assert (x + y)[a] == y[a - |x|] && (x + y)[b] == y[b - |x|];
      } else {
        assert (x + y)[a] == x[a] && (x + y)[b] == y[b - |x|];
        assert x[a] in x && y[b - |x|] in y;
      }
    }
  }

  /** No key starts with the stems of two different entries of a
      prefix-free dictionary. */
  lemma SiblingStemsExclusive(t: Tree, i: nat, j: nat, prefix: string, k: string)
    requires t.Dict? && PrefixFree(t) && i < |t.entries| && j < |t.entries| && i != j
    ensures !(prefix + Stem(t.entries[i]) <= k && prefix + Stem(t.entries[j]) <= k)
  {
    var a, b := Stem(t.entries[i]), Stem(t.entries[j]);
    if prefix + a <= k && prefix + b <= k {
      if |a| <= |b| {
        PrefixesComparable(prefix + a, prefix + b, k);
        PrefixCancel(prefix, a, b);
      } else {
        PrefixesComparable(prefix + b, prefix + a, k);
        PrefixCancel(prefix, b, a);
      }
    }
  }

  /** A prefix-free tree has no two leaves with the same flattened key. */
  lemma {:induction false} PrefixFreeDistinct(t: Tree, i: nat, prefix: string)
    requires t.Dict? && i <= |t.entries| && PrefixFree(t)
    ensures Distinct(FlatKeys(t, i, prefix))
    decreases t, |t.entries| - i
  {
    if i < |t.entries| {
      var (key, child) := t.entries[i];
      FlatKeysSplit(t, i, prefix);
      var head := EntryKeys(t, i, prefix);
      if child.Dict? {
        PrefixFreeDistinct(child, 0, prefix + key + "_");
      }
      PrefixFreeDistinct(t, i + 1, prefix);
      EntryKeysApart(t, i, prefix);
      DistinctJoin(head, FlatKeys(t, i + 1, prefix));
    }
  }

  /** In a prefix-free dictionary, entry `i` shares no flattened key with
      the entries after it. */
  lemma EntryKeysApart(t: Tree, i: nat, prefix: string)
    requires t.Dict? && i < |t.entries| && PrefixFree(t)
    ensures forall k :: k in EntryKeys(t, i, prefix) ==> k !in FlatKeys(t, i + 1, prefix)
  {
    var later := FlatKeys(t, i + 1, prefix);
    var stem := prefix + Stem(t.entries[i]);
    forall a | 0 <= a < |later| ensures !(stem <= later[a]) {
      LaterKeysStartWith(t, i + 1, prefix, later[a]);
      var j :| i + 1 <= j < |t.entries| && prefix + Stem(t.entries[j]) <= later[a];
      SiblingStemsExclusive(t, i, j, prefix, later[a]);
    }
    EntryKeysStartWith(t, i, prefix);
  }

  /** Entries with the same key have comparable stems. */
  lemma SameKeyStems(a: (string, Tree), b: (string, Tree))
    ensures a.0 == b.0 ==> Stem(a) <= Stem(b) || Stem(b) <= Stem(a)
  {
    if a.0 == b.0 && a.1.Leaf? != b.1.Leaf? {
      assert (a.0 + "_") <= (a.0 + "_change");
    }
  }

  /** Two keys with the same name would have comparable stems, so a
      prefix-free tree has distinct keys in every dictionary. */
  lemma {:induction false} PrefixFreeWellFormed(t: Tree)
    requires PrefixFree(t)
    ensures WellFormed(t)
    decreases t
  {
    if t.Dict? {
      forall i, j | 0 <= i < j < |t.entries| ensures t.entries[i].0 != t.entries[j].0 {
        SameKeyStems(t.entries[i], t.entries[j]);
      }
      forall i | 0 <= i < |t.entries| ensures WellFormed(t.entries[i].1) {
        PrefixFreeWellFormed(t.entries[i].1);
      }
    }
  }

  /** The stems of a dictionary's entries, in order. */
  function Stems(es: seq<(string, Tree)>): (st: seq<string>)
    ensures |st| == |es| && forall i :: 0 <= i < |es| ==> st[i] == Stem(es[i])
  {
    seq(|es|, i requires 0 <= i < |es| => Stem(es[i]))
  }

  /** No string of the list is a prefix of another. */
  predicate Incomparable(st: seq<string>)
  {
    forall i, j :: 0 <= i < |st| && 0 <= j < |st| && i != j ==> !(st[i] <= st[j])
  }

  lemma PrefixFreeFromStems(t: Tree)
    requires t.Dict? && Incomparable(Stems(t.entries))
    requires forall i :: 0 <= i < |t.entries| ==> PrefixFree(t.entries[i].1)
    ensures PrefixFree(t)
  {
  }
}
