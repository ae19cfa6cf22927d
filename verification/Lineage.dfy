/**
 Lineage: which keys descend from which. `parent_key_id` carries no foreign key, so the definitions and the
 search rely neither on parents existing nor on the relation being acyclic.
 */
module Lineage {
  import opened Text
  import opened Rbac

  /** The `n`-th key up the chain of parents. */
  function Ancestor(keys: map<Id, Key>, k: Id, n: nat): Option<Id>
    decreases n
  {
    if n == 0 then Some(k)
    else if k in keys && keys[k].parent.Some? then Ancestor(keys, keys[k].parent.value, n - 1)
    else None
  }

  /** `k` is reached from `root` by one or more child edges. */
  ghost predicate DescendsFrom(keys: map<Id, Key>, k: Id, root: Id) {
    exists n: nat :: n >= 1 && Ancestor(keys, k, n) == Some(root)
  }

  /** What `descendant_key_ids` finds. */
  ghost function Descendants(keys: map<Id, Key>, root: Id): set<Id> {
    set k | k in keys && k != root && DescendsFrom(keys, k, root)
  }

  /** The whole subtree deleted with `root`. */
  ghost function Subtree(keys: map<Id, Key>, root: Id): set<Id> {
    {root} + Descendants(keys, root)
  }

  /** The keys whose parent is in `frontier`: one query of the search. */
  function Children(keys: map<Id, Key>, frontier: set<Id>): set<Id> {
    set k | k in keys && keys[k].parent.Some? && keys[k].parent.value in frontier
  }

  lemma {:induction false} AncestorsCompose(keys: map<Id, Key>, k: Id, m: nat, n: nat)
    requires Ancestor(keys, k, m).Some?
    ensures Ancestor(keys, k, m + n) == Ancestor(keys, Ancestor(keys, k, m).value, n)
    decreases m
  {
    if m > 0 {
      AncestorsCompose(keys, keys[k].parent.value, m - 1, n);
    }
  }

  /** A child of a key in the subtree of `root` descends from `root`. */
  lemma ChildDescends(keys: map<Id, Key>, k: Id, root: Id)
    requires k in keys && keys[k].parent.Some?
    requires keys[k].parent == Some(root) || DescendsFrom(keys, keys[k].parent.value, root)
    ensures DescendsFrom(keys, k, root)
  {
    var p := keys[k].parent.value;
    if p == root {
      assert Ancestor(keys, p, 0) == Some(p);
      assert Ancestor(keys, k, 1) == Some(root);
    } else {
      var n: nat :| n >= 1 && Ancestor(keys, p, n) == Some(root);
      assert Ancestor(keys, k, n + 1) == Some(root);
    }
  }

  lemma DescendsTransitively(keys: map<Id, Key>, a: Id, b: Id, c: Id)
    requires DescendsFrom(keys, a, b) && DescendsFrom(keys, b, c)
    ensures DescendsFrom(keys, a, c)
  {
    var m: nat :| m >= 1 && Ancestor(keys, a, m) == Some(b);
    var n: nat :| n >= 1 && Ancestor(keys, b, n) == Some(c);
    AncestorsCompose(keys, a, m, n);
  }

  /** A set that holds the children of `root` and of its own members holds every key below `root`. */
  lemma {:induction false} ClosedSetHolds(keys: map<Id, Key>, seen: set<Id>, k: Id, root: Id, n: nat)
    requires Children(keys, {root} + seen) <= seen + {root}
    requires k != root && n >= 1 && Ancestor(keys, k, n) == Some(root)
    ensures k in seen
    decreases n
  {
    var p := keys[k].parent.value;
    if n > 1 && p != root {
      ClosedSetHolds(keys, seen, p, root, n - 1);
    }
    assert k in Children(keys, {root} + seen);
  }

  /** `descendant_key_ids`: terminates on every parent relation, and finds the keys below `root`, each once and
      without `root` itself. */
  method DescendantKeyIds(keys: map<Id, Key>, root: Id) returns (seen: set<Id>)
    ensures seen == Descendants(keys, root)
  {
    seen := {};
    var frontier := {root};
    while frontier != {}
      invariant seen <= Descendants(keys, root)
      invariant frontier <= seen + {root}
      invariant Children(keys, seen + {root} - frontier) <= seen + {root}
      decreases keys.Keys - seen, frontier != {}
    {
      var children := Children(keys, frontier);
      forall k | k in children && k != root ensures k in Descendants(keys, root) {
        ChildDescends(keys, k, root);
      }
      var fresh' := children - {root} - seen;
      assert Children(keys, seen + {root}) <= Children(keys, seen + {root} - frontier) + children;
      assert fresh' != {} ==> keys.Keys - (seen + fresh') < keys.Keys - seen;
      assert fresh' == {} ==> seen + fresh' == seen;
      assert (seen + fresh') + {root} - fresh' == seen + {root};
      seen := seen + fresh';
      frontier := fresh';
    }
    assert seen + {root} - frontier == {root} + seen;
    forall k | k in Descendants(keys, root) ensures k in seen {
      var n: nat :| n >= 1 && Ancestor(keys, k, n) == Some(root);
      ClosedSetHolds(keys, seen, k, root, n);
    }
  }

  // ── Forests ────────────────────────────────────────────────────────────────

  /** Every parent exists, and no key is its own ancestor. */
  ghost predicate Forest(keys: map<Id, Key>) {
    && (forall k :: k in keys && keys[k].parent.Some? ==> keys[k].parent.value in keys)
    && (forall k :: k in keys ==> !DescendsFrom(keys, k, k))
  }

  /** The lineage of a key depends on parents alone. */
  lemma {:induction false} SameParentsSameAncestors(keys: map<Id, Key>, keys': map<Id, Key>, k: Id, n: nat)
    requires forall j :: j in keys ==> j in keys' && keys'[j].parent == keys[j].parent
    requires Ancestor(keys, k, n).Some?
    ensures Ancestor(keys', k, n) == Ancestor(keys, k, n)
    decreases n
  {
    if n > 0 {
      SameParentsSameAncestors(keys, keys', keys[k].parent.value, n - 1);
    }
  }

  /** Fewer keys, with the same parents, have no new descents. */
  lemma SubmapDescends(keys: map<Id, Key>, keys': map<Id, Key>, k: Id, root: Id)
    requires forall j :: j in keys ==> j in keys' && keys'[j].parent == keys[j].parent
    requires DescendsFrom(keys, k, root)
    ensures DescendsFrom(keys', k, root)
  {
    var n: nat :| n >= 1 && Ancestor(keys, k, n) == Some(root);
    SameParentsSameAncestors(keys, keys', k, n);
  }

  lemma {:induction false} AncestorsExist(keys: map<Id, Key>, k: Id, n: nat)
    requires Forest(keys) && k in keys && Ancestor(keys, k, n).Some?
    ensures Ancestor(keys, k, n).value in keys
    decreases n
  {
    if n > 0 {
      AncestorsExist(keys, keys[k].parent.value, n - 1);
    }
  }

  /** A new key below an existing one keeps the forest. */
  lemma NewLeafKeepsForest(keys: map<Id, Key>, id: Id, key: Key)
    requires Forest(keys) && id !in keys && key.parent.Some? && key.parent.value in keys
    ensures Forest(keys[id := key])
  {
    var keys' := keys[id := key];
    forall k | k in keys' ensures !DescendsFrom(keys', k, k) {
      if DescendsFrom(keys', k, k) {
        var n: nat :| n >= 1 && Ancestor(keys', k, n) == Some(k);
        var start := if k == id then key.parent.value else k;
        assert k == id ==> Ancestor(keys', start, n - 1) == Some(id);
        NoPathToLeaf(keys, id, key, start, if k == id then n - 1 else n);
        assert k in keys;
        assert Ancestor(keys, k, n) == Some(k);
        assert DescendsFrom(keys, k, k);
      }
    }
  }

  /** Chains from an old key run through old keys. */
  lemma {:induction false} NoPathToLeaf(keys: map<Id, Key>, id: Id, key: Key, k: Id, n: nat)
    requires Forest(keys) && id !in keys && k in keys
    ensures Ancestor(keys[id := key], k, n) == Ancestor(keys, k, n) && Ancestor(keys, k, n) != Some(id)
    decreases n
  {
    if n > 0 && keys[k].parent.Some? {
      NoPathToLeaf(keys, id, key, keys[k].parent.value, n - 1);
    }
  }

  /** A rewritten row with its old parent keeps the forest. */
  lemma SameParentsKeepForest(keys: map<Id, Key>, keys': map<Id, Key>)
    requires Forest(keys) && keys'.Keys == keys.Keys
    requires forall k :: k in keys ==> keys'[k].parent == keys[k].parent
    ensures Forest(keys')
  {
    forall k | k in keys' ensures !DescendsFrom(keys', k, k) {
      if DescendsFrom(keys', k, k) {
        SubmapDescends(keys', keys, k, k);
      }
    }
  }

  /** Deleting a whole subtree keeps the forest. */
  lemma SubtreeRemovalKeepsForest(keys: map<Id, Key>, root: Id)
    requires Forest(keys)
    ensures Forest(keys - Subtree(keys, root))
  {
    var keys' := keys - Subtree(keys, root);
    forall k | k in keys' && keys'[k].parent.Some? ensures keys'[k].parent.value in keys' {
      if keys[k].parent.value in Subtree(keys, root) {
        ChildDescends(keys, k, root);
      }
    }
    forall k | k in keys' ensures !DescendsFrom(keys', k, k) {
      if DescendsFrom(keys', k, k) {
        SubmapDescends(keys', keys, k, k);
      }
    }
  }

  /** In a forest a descendant's subtree never holds its ancestor: the caller survives deleting its descendant. */
  lemma AncestorOutsideSubtree(keys: map<Id, Key>, c: Id, target: Id)
    requires Forest(keys) && c in keys && c != target && DescendsFrom(keys, target, c)
    ensures c !in Subtree(keys, target)
  {
    if DescendsFrom(keys, c, target) {
      DescendsTransitively(keys, c, target, c);
    }
  }

  /** A root is in no subtree but its own. */
  lemma RootOutsideSubtree(keys: map<Id, Key>, r: Id, target: Id)
    requires r in keys && keys[r].parent.None? && r != target
    ensures r !in Subtree(keys, target)
  {
  }
}
