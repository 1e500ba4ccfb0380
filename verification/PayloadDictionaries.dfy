/**
 The payload adapter as it runs: nested dictionaries are mutable objects, and the loop over the parts of a key
 moves a reference down and adds to whatever dictionary it points at. A dictionary is a node of a store and a
 reference is its number, so that changing one node is seen from every node above it.
 */
module PayloadDictionaries {
  import opened Wrappers
  import opened PayloadAdapter

  /** An entry of a dictionary: a value, or a dictionary of its own. */
  datatype Item = Plain(value: Json) | Ref(node: nat)

  type Nodes = seq<map<string, Item>>

  /** References point forward, and every node but the root knows the one path that leads to it. */
  ghost predicate TreeOk(nodes: Nodes, paths: seq<Path>) {
    && |nodes| == |paths|
    && forall i, k :: 0 <= i < |nodes| && k in nodes[i] && nodes[i][k].Ref? ==> EdgeOk(nodes, paths, i, k)
  }

  ghost predicate EdgeOk(nodes: Nodes, paths: seq<Path>, i: nat, k: string)
    requires i < |nodes| == |paths| && k in nodes[i] && nodes[i][k].Ref?
  {
    var j := nodes[i][k].node;
    i < j < |nodes| && paths[j] == paths[i] + [k]
  }

  /** The value a node stands for. */
  ghost function View(nodes: Nodes, paths: seq<Path>, i: nat): (tree: map<string, Json>)
    requires TreeOk(nodes, paths) && i < |nodes|
    ensures tree.Keys == nodes[i].Keys
    decreases |nodes| - i
  {
    map k | k in nodes[i] ::
      match nodes[i][k]
      case Plain(v) => v
      case Ref(j) => assert EdgeOk(nodes, paths, i, k); Object(View(nodes, paths, j))
  }

  /** The node reached from node i along a path of references. */
  ghost function Follow(nodes: Nodes, i: nat, p: Path): Option<nat>
    decreases |p|
  {
    if i >= |nodes| then None
    else if p == [] then Some(i)
    else if p[0] in nodes[i] && nodes[i][p[0]].Ref? then Follow(nodes, nodes[i][p[0]].node, p[1..])
    else None
  }

  // ---- The same on values ---------------------------------------------------------------

  /** The fields found inside nested objects along a path. */
  ghost function Inside(tree: map<string, Json>, p: Path): Option<map<string, Json>>
    decreases |p|
  {
    if p == [] then Some(tree)
    else if p[0] in tree && tree[p[0]].Object? then Inside(tree[p[0]].fields, p[1..])
    else None
  }

  /** The tree with the fields at a path replaced. */
  ghost function Replaced(tree: map<string, Json>, p: Path, fields: map<string, Json>): map<string, Json>
    requires Inside(tree, p).Some?
    decreases |p|
  {
    if p == [] then fields else tree[p[0] := Object(Replaced(tree[p[0]].fields, p[1..], fields))]
  }

  lemma {:induction false} ReplacedTwice(tree: map<string, Json>, p: Path, x: map<string, Json>, y: map<string, Json>)
    requires Inside(tree, p).Some?
    ensures Inside(Replaced(tree, p, x), p) == Some(x)
    ensures Replaced(Replaced(tree, p, x), p, y) == Replaced(tree, p, y)
    decreases |p|
  {
    if p != [] {
      ReplacedTwice(tree[p[0]].fields, p[1..], x, y);
    }
  }

  lemma {:induction false} ReplacedBySame(tree: map<string, Json>, p: Path)
    requires Inside(tree, p).Some?
    ensures Replaced(tree, p, Inside(tree, p).value) == tree
    decreases |p|
  {
    if p != [] {
      ReplacedBySame(tree[p[0]].fields, p[1..]);
    }
  }

  /** Inserting at p + q is inserting at q in the fields at p. */
  lemma {:induction false} InsertInside(tree: map<string, Json>, p: Path, q: Path, value: Json)
    requires Inside(tree, p).Some? && q != []
    ensures Insert(tree, p + q, value)
            == match Insert(Inside(tree, p).value, q, value)
               case None => None
               case Some(fields) => Some(Replaced(tree, p, fields))
    decreases |p|
  {
    if p == [] {
      assert p + q == q;
    } else {
      assert (p + q)[1..] == p[1..] + q && (p + q)[0] == p[0];
      InsertInside(tree[p[0]].fields, p[1..], q, value);
    }
  }

  /** A new empty object on the way changes nothing for what is inserted below it. */
  lemma InsertBelowEmpty(fields: map<string, Json>, q: Path, value: Json)
    requires |q| > 1 && q[0] !in fields
    ensures Insert(fields[q[0] := Object(map[])], q, value) == Insert(fields, q, value)
  {
    var more := fields[q[0] := Object(map[])];
    var inner := Insert(map[], q[1..], value);
    assert more[q[0]].fields == map[];
    if inner.Some? {
      assert more[q[0] := Object(inner.value)] == fields[q[0] := Object(inner.value)];
    }
  }

  // ---- One node changes -----------------------------------------------------------------

  /** The store after a change to node t, with new nodes after the old ones. */
  ghost predicate Changed(nodes: Nodes, paths: seq<Path>, nodes': Nodes, paths': seq<Path>, t: nat) {
    && TreeOk(nodes, paths) && TreeOk(nodes', paths')
    && t < |nodes| <= |nodes'|
    && paths <= paths'
    && forall i :: 0 <= i < |nodes| && i != t ==> nodes'[i] == nodes[i]
  }

  /** A node that does not lie above node t stands for the same value as before. */
  lemma {:induction false} ElsewhereUnchanged(
    nodes: Nodes, paths: seq<Path>, nodes': Nodes, paths': seq<Path>, t: nat, i: nat)
    requires Changed(nodes, paths, nodes', paths', t) && i < |nodes| && !(paths[i] <= paths[t])
    ensures View(nodes', paths', i) == View(nodes, paths, i)
    decreases |nodes| - i
  {
    forall k | k in nodes[i] ensures View(nodes', paths', i)[k] == View(nodes, paths, i)[k] {
      if nodes[i][k].Ref? {
        assert EdgeOk(nodes, paths, i, k);
        PrefixBelow(paths[i], k, paths[t]);
        ElsewhereUnchanged(nodes, paths, nodes', paths', t, nodes[i][k].node);
      }
    }
  }

  lemma PrefixBelow(p: Path, k: string, q: Path)
    ensures p + [k] <= q ==> p <= q
  {
    assert p == (p + [k])[..|p|];
  }

  lemma DifferentBranch(p: Path, k: string, q: Path)
    requires q == [] || q[0] != k
    ensures !(p + [k] <= p + q)
  {
    assert (p + [k])[|p|] == k;
    if q != [] { assert (p + q)[|p|] == q[0]; }
  }

  /** A reference found along a path leads to a later node, and to the fields at that path. */
  lemma {:induction false} FollowedView(nodes: Nodes, paths: seq<Path>, i: nat, p: Path)
    requires TreeOk(nodes, paths) && i < |nodes| && Follow(nodes, i, p).Some?
    ensures var t := Follow(nodes, i, p).value;
      && t < |nodes| && i <= t && (p != [] ==> i < t)
      && paths[t] == paths[i] + p
      && Inside(View(nodes, paths, i), p) == Some(View(nodes, paths, t))
    decreases |p|
  {
    if p != [] {
      assert EdgeOk(nodes, paths, i, p[0]);
      FollowedView(nodes, paths, nodes[i][p[0]].node, p[1..]);
      assert paths[i] + p == paths[i] + [p[0]] + p[1..];
    }
  }

  /** Seen from above, changing a node replaces the fields at its path. */
  lemma {:induction false} ChangeSeenFrom(
    nodes: Nodes, paths: seq<Path>, nodes': Nodes, paths': seq<Path>, i: nat, p: Path)
    requires TreeOk(nodes, paths) && i < |nodes| && Follow(nodes, i, p).Some?
    requires Changed(nodes, paths, nodes', paths', Follow(nodes, i, p).value)
    ensures var t := Follow(nodes, i, p).value;
      && Inside(View(nodes, paths, i), p).Some?
      && View(nodes', paths', i) == Replaced(View(nodes, paths, i), p, View(nodes', paths', t))
      && Follow(nodes', i, p) == Some(t)
    decreases |p|
  {
    FollowedView(nodes, paths, i, p);
    if p != [] {
      var t := Follow(nodes, i, p).value;
      assert EdgeOk(nodes, paths, i, p[0]);
      ChangeSeenFrom(nodes, paths, nodes', paths', nodes[i][p[0]].node, p[1..]);
      forall k | k in nodes[i] && k != p[0] ensures View(nodes', paths', i)[k] == View(nodes, paths, i)[k] {
        if nodes[i][k].Ref? {
          assert EdgeOk(nodes, paths, i, k);
          DifferentBranch(paths[i], k, p);
          ElsewhereUnchanged(nodes, paths, nodes', paths', t, nodes[i][k].node);
        }
      }
    }
  }

  /** The entries of the changed node itself that did not change still stand for the same values. */
  lemma OwnEntries(nodes: Nodes, paths: seq<Path>, nodes': Nodes, paths': seq<Path>, t: nat, k: string)
    requires Changed(nodes, paths, nodes', paths', t)
    requires k in nodes[t] && k in nodes'[t] && nodes'[t][k] == nodes[t][k]
    ensures View(nodes', paths', t)[k] == View(nodes, paths, t)[k]
  {
    if nodes[t][k].Ref? {
      assert EdgeOk(nodes, paths, t, k);
      DifferentBranch(paths[t], k, []);
      assert paths[t] + [] == paths[t];
      ElsewhereUnchanged(nodes, paths, nodes', paths', t, nodes[t][k].node);
    }
  }

  /** An object value as a dictionary of plain entries. */
  function Entries(fields: map<string, Json>): map<string, Item> {
    map k | k in fields :: Plain(fields[k])
  }

  function Hung(nodes: Nodes, t: nat, part: string, fields: map<string, Json>): Nodes
    requires t < |nodes|
  {
    nodes[t := nodes[t][part := Ref(|nodes|)]] + [Entries(fields)]
  }

  lemma HungIsTree(nodes: Nodes, paths: seq<Path>, t: nat, part: string, fields: map<string, Json>)
    requires TreeOk(nodes, paths) && t < |nodes|
    ensures Changed(nodes, paths, Hung(nodes, t, part, fields), paths + [paths[t] + [part]], t)
  {
    var nodes': Nodes, paths' := Hung(nodes, t, part, fields), paths + [paths[t] + [part]];
    forall i: nat, k: string | i < |nodes'| && k in nodes'[i] && nodes'[i][k].Ref?
      ensures EdgeOk(nodes', paths', i, k)
    {
      if i < |nodes| && !(i == t && k == part) { assert EdgeOk(nodes, paths, i, k); }
    }
  }

  /** A node without references stands for its own values. */
  lemma PlainView(nodes: Nodes, paths: seq<Path>, i: nat, fields: map<string, Json>)
    requires TreeOk(nodes, paths) && i < |nodes| && nodes[i] == Entries(fields)
    ensures View(nodes, paths, i) == fields
  {
  }

  /** A new node hung under node t shows there as an object with the node's fields. */
  lemma NodeHung(nodes: Nodes, paths: seq<Path>, t: nat, part: string, fields: map<string, Json>)
    requires TreeOk(nodes, paths) && t < |nodes|
    ensures var nodes', paths' := Hung(nodes, t, part, fields), paths + [paths[t] + [part]];
      && Changed(nodes, paths, nodes', paths', t)
      && View(nodes', paths', t) == View(nodes, paths, t)[part := Object(fields)]
  {
    var nodes', paths' := Hung(nodes, t, part, fields), paths + [paths[t] + [part]];
    HungIsTree(nodes, paths, t, part, fields);
    PlainView(nodes', paths', |nodes|, fields);
    assert nodes'[t] == nodes[t][part := Ref(|nodes|)];
    forall k | k in nodes[t] && k != part ensures View(nodes', paths', t)[k] == View(nodes, paths, t)[k] {
      OwnEntries(nodes, paths, nodes', paths', t, k);
    }
  }

  lemma LeafAdded(nodes: Nodes, paths: seq<Path>, t: nat, leaf: string, value: Json)
    requires TreeOk(nodes, paths) && t < |nodes| && leaf !in nodes[t]
    ensures var nodes': Nodes := nodes[t := nodes[t][leaf := Plain(value)]];
      && Changed(nodes, paths, nodes', paths, t)
      && View(nodes', paths, t) == View(nodes, paths, t)[leaf := value]
  {
    var nodes': Nodes := nodes[t := nodes[t][leaf := Plain(value)]];
    forall i: nat, k: string | i < |nodes'| && k in nodes'[i] && nodes'[i][k].Ref? ensures EdgeOk(nodes', paths, i, k) {
      assert EdgeOk(nodes, paths, i, k);
    }
    forall k | k in nodes[t] ensures View(nodes', paths, t)[k] == View(nodes, paths, t)[k] {
      OwnEntries(nodes, paths, nodes', paths, t, k);
    }
  }

  // ---- The adapter ----------------------------------------------------------------------

  class Adapter {
    var nodes: Nodes
    ghost var paths: seq<Path>

    ghost predicate Valid()
      reads this
    {
      TreeOk(nodes, paths) && nodes != [] && paths[0] == []
    }

    /** The adapted payload: the dictionary at the root. */
    ghost function Adapted(): map<string, Json>
      reads this
      requires Valid()
    {
      View(nodes, paths, 0)
    }

    constructor ()
      ensures Valid() && Adapted() == map[]
    {
      nodes, paths := [map[]], [[]];
    }

    /** The dictionary under `part` of the target, made on the way when there is none; None on a conflict. */
    method Descend(target: nat, part: string, ghost p: Path) returns (next: Option<nat>)
      requires Valid() && Follow(nodes, 0, p) == Some(target)
      modifies this
      ensures Valid() && Inside(old(Adapted()), p).Some?
      ensures next.None? ==> unchanged(this)
      ensures next.None? <==>
                var fields := Inside(old(Adapted()), p).value; part in fields && !fields[part].Object?
      ensures next.Some? ==> Follow(nodes, 0, p + [part]) == next
      ensures next.Some? ==>
                var fields := Inside(old(Adapted()), p).value;
                Adapted() == if part in fields then old(Adapted())
                             else Replaced(old(Adapted()), p, fields[part := Object(map[])])
    {
      FollowedView(nodes, paths, 0, p);
      ghost var was := View(nodes, paths, target);
      ReplacedBySame(Adapted(), p);
      assert part in was ==> was[part := was[part]] == was;
      if part in nodes[target] && nodes[target][part].Ref? {
        next := Some(nodes[target][part].node);
        FollowOneMore(nodes, paths, 0, p, part);
        return;
      }
      if part in nodes[target] && !nodes[target][part].value.Object? {
        return None;
      }
      next := Some(|nodes|);
      Hang(target, part, if part in nodes[target] then nodes[target][part].value.fields else map[], p);
    }

    /** Puts a new dictionary under the target. */
    method Hang(target: nat, part: string, fields: map<string, Json>, ghost p: Path)
      requires Valid() && Follow(nodes, 0, p) == Some(target) && target < |nodes|
      modifies this
      ensures Valid() && |nodes| == |old(nodes)| + 1
      ensures Inside(old(Adapted()), p) == Some(old(View(nodes, paths, target)))
      ensures Adapted() == Replaced(old(Adapted()), p, old(View(nodes, paths, target))[part := Object(fields)])
      ensures Follow(nodes, 0, p + [part]) == Some(|old(nodes)|)
    {
      ghost var nodes', paths' := Hung(nodes, target, part, fields), paths + [paths[target] + [part]];
      FollowedView(nodes, paths, 0, p);
      NodeHung(nodes, paths, target, part, fields);
      ChangeSeenFrom(nodes, paths, nodes', paths', 0, p);
      FollowOneMore(nodes', paths', 0, p, part);
      paths := paths';
      var node := |nodes|;
      nodes := nodes[target := nodes[target][part := Ref(node)]];
      nodes := nodes + [Entries(fields)];
    }

    /** One key: moves the target down the path, then adds the leaf to the dictionary it has come to. */
    method Put(path: Path, value: Json) returns (accepted: bool)
      requires Valid() && path != []
      modifies this
      ensures Valid()
      ensures accepted <==> Insert(old(Adapted()), path, value).Some?
      ensures accepted ==> Insert(old(Adapted()), path, value) == Some(Adapted())
    {
      ghost var goal := Insert(Adapted(), path, value);
      var target, last := 0, |path| - 1;
      for i := 0 to last
        invariant Valid() && Follow(nodes, 0, path[..i]) == Some(target)
        invariant Insert(Adapted(), path, value) == goal
      {
        ghost var before := Adapted();
        assert path == path[..i] + path[i..] && path[..i + 1] == path[..i] + [path[i]];
        var next := Descend(target, path[i], path[..i]);
        DescentKeepsGoal(before, Adapted(), path, i, value, next.Some?);
        if next.None? {
          return false;
        }
        target := next.value;
      }
      ghost var p := path[..last];
      assert path == p + [path[last]];
      FollowedView(nodes, paths, 0, p);
      InsertInside(Adapted(), p, [path[last]], value);
      if path[last] in nodes[target] {
        return false;
      }
      LeafAdded(nodes, paths, target, path[last], value);
      ChangeSeenFrom(nodes, paths, nodes[target := nodes[target][path[last] := Plain(value)]], paths, 0, p);
      nodes := nodes[target := nodes[target][path[last] := Plain(value)]];
      accepted := true;
    }

    /** The whole payload, key by key; false is the rejection. */
    method AdaptKoboPayload(entries: seq<Entry>) returns (accepted: bool)
      requires Valid() && Adapted() == map[]
      modifies this
      ensures accepted <==> AdaptAll(entries).Some?
      ensures accepted ==> Valid() && AdaptAll(entries) == Some(Adapted())
    {
      for i := 0 to |entries|
        invariant Valid() && AdaptAll(entries[..i]) == Some(Adapted())
      {
        assert entries[..i + 1][..i] == entries[..i];
        var path := Split(entries[i].key);
        var valid := PartsOk(path);
        if valid {
          valid := Put(path, entries[i].value);
        }
        if !valid {
          AdaptStops(entries, i + 1);
          return false;
        }
      }
      assert entries[..|entries|] == entries;
      accepted := true;
    }
  }

  lemma {:induction false} FollowOneMore(nodes: Nodes, paths: seq<Path>, i: nat, p: Path, part: string)
    requires TreeOk(nodes, paths) && Follow(nodes, i, p).Some? && i < |nodes|
    requires var t := Follow(nodes, i, p).value; t < |nodes| && part in nodes[t] && nodes[t][part].Ref?
    ensures Follow(nodes, i, p + [part]) == Some(nodes[Follow(nodes, i, p).value][part].node)
    decreases |p|
  {
    if p == [] {
      assert p + [part] == [part] && [part][1..] == [];
      assert EdgeOk(nodes, paths, i, part);
    } else {
      assert (p + [part])[1..] == p[1..] + [part];
      assert EdgeOk(nodes, paths, i, p[0]);
      FollowOneMore(nodes, paths, nodes[i][p[0]].node, p[1..], part);
    }
  }

  /** One step down leaves the outcome of the insertion as it was, and a conflict settles it. */
  lemma DescentKeepsGoal(
    before: map<string, Json>, after: map<string, Json>, path: Path, i: nat, value: Json, moved: bool)
    requires i < |path| - 1 && Inside(before, path[..i]).Some?
    requires var fields := Inside(before, path[..i]).value;
      && (moved <==> !(path[i] in fields && !fields[path[i]].Object?))
      && (moved ==> after == if path[i] in fields then before
                             else Replaced(before, path[..i], fields[path[i] := Object(map[])]))
    ensures moved ==> Insert(after, path, value) == Insert(before, path, value)
    ensures !moved ==> Insert(before, path, value).None?
  {
    var p, q := path[..i], path[i..];
    var fields := Inside(before, p).value;
    assert path == p + q && q[0] == path[i] && |q| > 1;
    InsertInside(before, p, q, value);
    if moved && path[i] !in fields {
      var more := fields[path[i] := Object(map[])];
      ReplacedTwice(before, p, more, more);
      InsertInside(after, p, q, value);
      InsertBelowEmpty(fields, q, value);
      if Insert(fields, q, value).Some? {
        ReplacedTwice(before, p, more, Insert(fields, q, value).value);
      }
    }
  }
}
