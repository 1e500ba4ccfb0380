/**
 * What the Kobo payload adapter computes: keys such as "group/question" become
 * nested objects. A payload is the list of its entries in iteration order, with
 * distinct keys.
 */
module PayloadAdapter {
  import opened Wrappers

  datatype Json = Scalar(text: string) | List(items: seq<Json>) | Object(fields: map<string, Json>)

  type Path = seq<string>

  datatype Entry = Entry(key: string, value: Json)

  // ---- Keys and paths ----

  /** str.split("/"): never empty, and empty parts are kept. */
  function Split(key: string): (path: Path)
    ensures path != []
  {
    if key == "" then [""]
    else
      var rest := Split(key[1..]);
      if key[0] == '/' then [""] + rest else [[key[0]] + rest[0]] + rest[1..]
  }

  function Join(path: Path): string
    requires path != []
  {
    if |path| == 1 then path[0] else path[0] + "/" + Join(path[1..])
  }

  lemma {:induction false} JoinOfSplit(key: string)
    ensures Join(Split(key)) == key
  {
    if key != "" {
      JoinOfSplit(key[1..]);
      var rest := Split(key[1..]);
      assert key == [key[0]] + key[1..];
      if key[0] == '/' {
        assert Split(key)[1..] == rest;
        assert key == "" + "/" + key[1..];
      } else {
        assert Split(key)[1..] == rest[1..];
      }
    }
  }

  /** Different keys have different paths. */
  lemma SplitIsInjective(key: string, key': string)
    requires Split(key) == Split(key')
    ensures key == key'
  {
    JoinOfSplit(key);
    JoinOfSplit(key');
  }

  predicate ProperPrefix(p: Path, q: Path) { |p| < |q| && p == q[..|p|] }

  predicate PartsOk(path: Path) { forall i :: 0 <= i < |path| ==> path[i] != "" }

  // ---- Insertion ----

  /** What the nested dictionaries become when a value is put at a path, or None on a conflict. */
  function Insert(target: map<string, Json>, path: Path, value: Json): Option<map<string, Json>>
    requires path != []
    decreases |path|
  {
    var part := path[0];
    if |path| == 1 then
      if part in target then None else Some(target[part := value])
    else if part in target && !target[part].Object? then None
    else
      match Insert(if part in target then target[part].fields else map[], path[1..], value)
      case None => None
      case Some(inner) => Some(target[part := Object(inner)])
  }

  // ---- What is found at a path ----

  datatype Kind = Absent | Inner | Leaf(value: Json)

  function Look(tree: map<string, Json>, path: Path): Kind
    requires path != []
    decreases |path|
  {
    if path[0] !in tree then Absent
    else if tree[path[0]].Object? then
      if |path| == 1 then Inner else Look(tree[path[0]].fields, path[1..])
    else if |path| == 1 then Leaf(tree[path[0]]) else Absent
  }

  /** Insertion is refused exactly when something is at the path or a value is above it. */
  lemma {:induction false} InsertAccepts(tree: map<string, Json>, path: Path, value: Json)
    requires path != []
    ensures Insert(tree, path, value).Some? <==>
              && Look(tree, path) == Absent
              && forall n :: 0 < n < |path| ==> !Look(tree, path[..n]).Leaf?
    decreases |path|
  {
    if |path| > 1 {
      var inner := if path[0] in tree && tree[path[0]].Object? then tree[path[0]].fields else map[];
      InsertAccepts(inner, path[1..], value);
      assert path[..1][0] == path[0];
      if path[0] !in tree || tree[path[0]].Object? {
        forall n | 0 < n < |path| - 1
          ensures Look(tree, path[..n + 1]).Leaf? == Look(inner, path[1..][..n]).Leaf?
        {
          assert path[..n + 1][1..] == path[1..][..n];
        }
        if forall n :: 0 < n < |path| ==> !Look(tree, path[..n]).Leaf? {
          forall n | 0 < n < |path[1..]| ensures !Look(inner, path[1..][..n]).Leaf? {
            assert !Look(tree, path[..n + 1]).Leaf?;
          }
        }
        if forall n :: 0 < n < |path[1..]| ==> !Look(inner, path[1..][..n]).Leaf? {
          forall n | 0 < n < |path| ensures !Look(tree, path[..n]).Leaf? {
            if n > 1 { assert !Look(inner, path[1..][..n - 1]).Leaf?; }
          }
        }
      } else {
        assert Look(tree, path[..1]).Leaf?;
      }
    }
  }

  lemma SameHead(p: Path, q: Path)
    requires p != [] && q != [] && p[0] == q[0]
    ensures p == q <==> p[1..] == q[1..]
    ensures ProperPrefix(p, q) <==> ProperPrefix(p[1..], q[1..])
  {
    assert p == [p[0]] + p[1..] && q == [q[0]] + q[1..];
    if |p| < |q| {
      var start := q[..|p|];
      assert start[1..] == q[1..][..|p| - 1];
      assert start == [start[0]] + start[1..];
    }
  }

  /** Whether anything can be inserted at the path; the value does not matter. */
  predicate Accepts(tree: map<string, Json>, path: Path)
    requires path != []
  {
    Insert(tree, path, Scalar("")).Some?
  }

  lemma AcceptsAnyValue(tree: map<string, Json>, path: Path, value: Json)
    requires path != []
    ensures Insert(tree, path, value).Some? <==> Accepts(tree, path)
  {
    InsertAccepts(tree, path, value);
    InsertAccepts(tree, path, Scalar(""));
  }

  /** The tree that holds one value at one path and nothing else. */
  function Lone(path: Path, value: Json): map<string, Json>
    requires path != []
    decreases |path|
  {
    map[path[0] := if |path| == 1 then value else Object(Lone(path[1..], value))]
  }

  /** After an insertion a path shows what the new value brings there, and otherwise what it showed before. */
  lemma {:induction false} InsertLook(tree: map<string, Json>, path: Path, value: Json, q: Path)
    requires path != [] && q != [] && Insert(tree, path, value).Some?
    ensures Look(Insert(tree, path, value).value, q) ==
              if Look(Lone(path, value), q).Absent? then Look(tree, q) else Look(Lone(path, value), q)
    decreases |path|
  {
    if |path| > 1 && q[0] == path[0] && |q| > 1 {
      InsertLook(if path[0] in tree then tree[path[0]].fields else map[], path[1..], value, q[1..]);
    }
  }

  /** Where an accepted value brings something and something was there already, both are objects. */
  lemma {:induction false} NoClash(tree: map<string, Json>, path: Path, value: Json, q: Path)
    requires path != [] && q != [] && Insert(tree, path, value).Some?
    requires !Look(tree, q).Absent? && !Look(Lone(path, value), q).Absent?
    ensures Look(tree, q).Inner? && Look(Lone(path, value), q).Inner?
    decreases |path|
  {
    if |path| > 1 && |q| > 1 {
      NoClash(tree[path[0]].fields, path[1..], value, q[1..]);
    }
  }

  /** A value has room for a path below it: it is an object whose own fields do not get in the way. */
  predicate HasRoom(value: Json, rest: Path)
    requires rest != []
  {
    value.Object? && Accepts(value.fields, rest)
  }

  lemma {:induction false} EmptyAccepts(path: Path)
    requires path != []
    ensures Accepts(map[], path)
    decreases |path|
  {
    if |path| > 1 { EmptyAccepts(path[1..]); }
  }

  /** A lone value accepts another path unless the path lies above it, or below it where it has no room. */
  lemma {:induction false} LoneAccepts(p: Path, value: Json, path: Path)
    requires p != [] && path != [] && p != path
    ensures Accepts(Lone(p, value), path) <==>
              && !ProperPrefix(path, p)
              && (ProperPrefix(p, path) ==> HasRoom(value, path[|p|..]))
    decreases |p|
  {
    if p[0] != path[0] {
      if |path| > 1 { EmptyAccepts(path[1..]); }
      assert |p| < |path| ==> p[0] != path[..|p|][0];
      assert |path| < |p| ==> path[0] != p[..|path|][0];
    } else if |p| == 1 {
      SameHead(p, path);
      if |path| > 1 {
        assert p == path[..1] && path[|p|..] == path[1..];
        assert Lone(p, value)[path[0]] == value;
      }
    } else if |path| == 1 {
      assert path == p[..1];
    } else {
      SameHead(p, path);
      SameHead(path, p);
      LoneAccepts(p[1..], value, path[1..]);
      assert Lone(p, value)[path[0]] == Object(Lone(p[1..], value));
      if |p| < |path| { assert path[1..][|p[1..]|..] == path[|p|..]; }
    }
  }

  // ---- Whole payloads ----

  predicate DistinctKeys(entries: seq<Entry>) {
    forall i, j :: 0 <= i < j < |entries| ==> entries[i].key != entries[j].key
  }

  function AdaptAll(entries: seq<Entry>): Option<map<string, Json>>
    decreases |entries|
  {
    if entries == [] then Some(map[])
    else
      var last := entries[|entries| - 1];
      match AdaptAll(entries[..|entries| - 1])
      case None => None
      case Some(tree) => if PartsOk(Split(last.key)) then Insert(tree, Split(last.key), last.value) else None
  }

  /** Once rejected, a payload stays rejected. */
  lemma {:induction false} AdaptStops(entries: seq<Entry>, n: nat)
    requires n <= |entries| && AdaptAll(entries[..n]).None?
    ensures AdaptAll(entries).None?
    decreases |entries|
  {
    if n < |entries| {
      assert entries[..|entries| - 1][..n] == entries[..n];
      AdaptStops(entries[..|entries| - 1], n);
    } else {
      assert entries[..n] == entries;
    }
  }

  predicate KeyOk(e: Entry) { PartsOk(Split(e.key)) }

  /** What one entry alone brings to a path. */
  function Shows(e: Entry, q: Path): Kind
    requires q != []
  {
    Look(Lone(Split(e.key), e.value), q)
  }

  /** At q the tree shows what every entry that brings something there brings, and nothing else. */
  predicate JoinsAt(tree: map<string, Json>, entries: seq<Entry>, q: Path)
    requires q != []
  {
    && (forall i :: 0 <= i < |entries| && !Shows(entries[i], q).Absent? ==> Look(tree, q) == Shows(entries[i], q))
    && (!Look(tree, q).Absent? ==> exists i :: 0 <= i < |entries| && !Shows(entries[i], q).Absent?)
  }

  ghost predicate Joins(tree: map<string, Json>, entries: seq<Entry>) {
    forall q: Path | q != [] :: JoinsAt(tree, entries, q)
  }

  /** With x in the tree, y can still be inserted. */
  predicate Admits(x: Entry, y: Entry) { Accepts(Lone(Split(x.key), x.value), Split(y.key)) }

  /** All parts non-empty, and each entry admitted by every entry before it. */
  predicate InOrder(entries: seq<Entry>) {
    && (forall i :: 0 <= i < |entries| ==> KeyOk(entries[i]))
    && (forall i, j :: 0 <= i < j < |entries| ==> Admits(entries[i], entries[j]))
  }

  lemma JoinsAfter(tree: map<string, Json>, entries: seq<Entry>, e: Entry, q: Path)
    requires Joins(tree, entries) && Insert(tree, Split(e.key), e.value).Some? && q != []
    ensures JoinsAt(Insert(tree, Split(e.key), e.value).value, entries + [e], q)
  {
    var path, longer := Split(e.key), entries + [e];
    InsertLook(tree, path, e.value, q);
    assert JoinsAt(tree, entries, q);
    assert longer[|entries|] == e;
    if !Shows(e, q).Absent? && !Look(tree, q).Absent? {
      NoClash(tree, path, e.value, q);
    }
    if !Look(tree, q).Absent? {
      var i :| 0 <= i < |entries| && !Shows(entries[i], q).Absent?;
      assert longer[i] == entries[i];
    }
  }

  /** Acceptance is decided entry by entry: the tree accepts a path exactly when each entry alone would. */
  lemma AcceptsPairwise(tree: map<string, Json>, entries: seq<Entry>, path: Path)
    requires Joins(tree, entries) && path != []
    ensures Accepts(tree, path) <==>
              forall i :: 0 <= i < |entries| ==> Accepts(Lone(Split(entries[i].key), entries[i].value), path)
  {
    InsertAccepts(tree, path, Scalar(""));
    assert JoinsAt(tree, entries, path);
    forall i | 0 <= i < |entries|
      ensures Accepts(Lone(Split(entries[i].key), entries[i].value), path) <==>
                && Shows(entries[i], path).Absent?
                && forall n :: 0 < n < |path| ==> !Shows(entries[i], path[..n]).Leaf?
    {
      InsertAccepts(Lone(Split(entries[i].key), entries[i].value), path, Scalar(""));
    }
    forall n | 0 < n < |path| ensures JoinsAt(tree, entries, path[..n]) {}
  }

  /**
   * A payload in a given order is accepted exactly when its keys are well formed and each
   * entry is admitted by every earlier one, and the tree then joins what the entries bring.
   */
  lemma {:induction false} AcceptedExactly(entries: seq<Entry>)
    ensures AdaptAll(entries).Some? <==> InOrder(entries)
    ensures AdaptAll(entries).Some? ==> Joins(AdaptAll(entries).value, entries)
    decreases |entries|
  {
    if entries == [] {
      forall q: Path | q != [] ensures JoinsAt(map[], [], q) {}
    } else {
      var init, last := entries[..|entries| - 1], entries[|entries| - 1];
      assert entries == init + [last];
      AcceptedExactly(init);
      InOrderNext(init, last);
      if AdaptAll(init).Some? {
        var tree := AdaptAll(init).value;
        AcceptsPairwise(tree, init, Split(last.key));
        AcceptsAnyValue(tree, Split(last.key), last.value);
        if AdaptAll(entries).Some? {
          forall q: Path | q != [] ensures JoinsAt(AdaptAll(entries).value, entries, q) {
            JoinsAfter(tree, init, last, q);
          }
        }
      }
    }
  }

  lemma InOrderNext(init: seq<Entry>, last: Entry)
    ensures InOrder(init + [last]) <==>
              && InOrder(init) && KeyOk(last)
              && forall i :: 0 <= i < |init| ==> Accepts(Lone(Split(init[i].key), init[i].value), Split(last.key))
  {
    var entries := init + [last];
    assert entries[|init|] == last;
    assert forall i :: 0 <= i < |init| ==> entries[i] == init[i];
    if InOrder(entries) {
      forall i | 0 <= i < |init| ensures KeyOk(init[i]) && Admits(init[i], last) {
        assert KeyOk(entries[i]) && Admits(entries[i], entries[|init|]);
      }
      forall i, j | 0 <= i < j < |init| ensures Admits(init[i], init[j]) {
        assert Admits(entries[i], entries[j]);
      }
    }
    if InOrder(init) && forall i :: 0 <= i < |init| ==> Admits(init[i], last) {
      forall i, j | 0 <= i < j < |entries| ensures Admits(entries[i], entries[j]) {
        if j < |init| { assert Admits(init[i], init[j]); } else { assert Admits(init[i], last); }
      }
    }
  }

  // ---- Orders of the same payload ----

  /** x lies above y, so that y's path passes through x's value. */
  predicate Above(x: Entry, y: Entry) { ProperPrefix(Split(x.key), Split(y.key)) }

  /** No path a proper prefix of another. */
  predicate Compatible(x: Entry, y: Entry) { !Above(x, y) && !Above(y, x) }

  /** If x lies above y, its value is an object with room for the rest of y's path. */
  predicate Roomy(x: Entry, y: Entry) {
    Above(x, y) ==> HasRoom(x.value, Split(y.key)[|Split(x.key)|..])
  }

  /** What it takes to insert y after x, in terms of their keys and the value of x. */
  lemma AdmitsExactly(x: Entry, y: Entry)
    requires x.key != y.key
    ensures Admits(x, y) <==> !Above(y, x) && Roomy(x, y)
  {
    if Split(x.key) == Split(y.key) {
      SplitIsInjective(x.key, y.key);
    } else {
      LoneAccepts(Split(x.key), x.value, Split(y.key));
    }
  }

  predicate KeysOk(entries: seq<Entry>) { forall i :: 0 <= i < |entries| ==> KeyOk(entries[i]) }

  predicate Consistent(entries: seq<Entry>) {
    && KeysOk(entries)
    && (forall i, j :: 0 <= i < |entries| && 0 <= j < |entries| ==> Compatible(entries[i], entries[j]))
  }

  /** Wherever one entry lies above another it has room for it. */
  predicate Arrangeable(entries: seq<Entry>) {
    && KeysOk(entries)
    && (forall i, j :: 0 <= i < |entries| && 0 <= j < |entries| ==> Roomy(entries[i], entries[j]))
  }

  /** ys lists the entries of the payload xs in some order. */
  ghost predicate OrderOf(ys: seq<Entry>, xs: seq<Entry>) {
    DistinctKeys(ys) && forall e :: e in ys <==> e in xs
  }

  /** A tree is determined by what is found at every path. */
  lemma {:induction false} SameLooksSameTree(s: Json, t: Json)
    requires s.Object? && t.Object?
    requires forall q: Path | q != [] :: Look(s.fields, q) == Look(t.fields, q)
    ensures s == t
    decreases s
  {
    forall k ensures k in s.fields <==> k in t.fields {
      assert Look(s.fields, [k]) == Look(t.fields, [k]);
    }
    forall k | k in s.fields ensures s.fields[k] == t.fields[k] {
      assert Look(s.fields, [k]) == Look(t.fields, [k]);
      if s.fields[k].Object? {
        forall q: Path | q != [] ensures Look(s.fields[k].fields, q) == Look(t.fields[k].fields, q) {
          assert ([k] + q)[1..] == q;
          assert Look(s.fields, [k] + q) == Look(t.fields, [k] + q);
        }
        SameLooksSameTree(s.fields[k], t.fields[k]);
      }
    }
  }

  lemma SameEntriesSameLook(s: map<string, Json>, t: map<string, Json>, xs: seq<Entry>, ys: seq<Entry>, q: Path)
    requires Joins(s, xs) && Joins(t, ys) && q != []
    requires forall e :: e in xs <==> e in ys
    ensures Look(s, q) == Look(t, q)
  {
    assert JoinsAt(s, xs, q) && JoinsAt(t, ys, q);
    if !Look(s, q).Absent? {
      var i :| 0 <= i < |xs| && !Shows(xs[i], q).Absent?;
      assert xs[i] in ys;
      var j :| 0 <= j < |ys| && ys[j] == xs[i];
    } else if !Look(t, q).Absent? {
      var j :| 0 <= j < |ys| && !Shows(ys[j], q).Absent?;
      assert ys[j] in xs;
    }
  }

  /** Whatever the values, all accepted orders of a payload give the same result. */
  lemma AcceptedOrdersAgree(xs: seq<Entry>, ys: seq<Entry>)
    requires OrderOf(ys, xs) && AdaptAll(xs).Some? && AdaptAll(ys).Some?
    ensures AdaptAll(xs) == AdaptAll(ys)
  {
    AcceptedExactly(xs);
    AcceptedExactly(ys);
    var s, t := AdaptAll(xs).value, AdaptAll(ys).value;
    forall q: Path | q != [] ensures Look(s, q) == Look(t, q) {
      SameEntriesSameLook(s, t, xs, ys, q);
    }
    SameLooksSameTree(Object(s), Object(t));
  }

  /** Consistent keys are accepted as they come. */
  lemma ConsistentIsAccepted(xs: seq<Entry>)
    requires DistinctKeys(xs) && Consistent(xs)
    ensures AdaptAll(xs).Some?
  {
    forall i, j | 0 <= i < j < |xs| ensures Admits(xs[i], xs[j]) {
      AdmitsExactly(xs[i], xs[j]);
      assert Compatible(xs[i], xs[j]);
    }
    AcceptedExactly(xs);
  }

  lemma SameEntriesConsistent(xs: seq<Entry>, ys: seq<Entry>)
    requires OrderOf(ys, xs) && Consistent(xs)
    ensures Consistent(ys)
  {
    forall i | 0 <= i < |ys| ensures KeyOk(ys[i]) {
      assert ys[i] in xs;
    }
    forall i, j | 0 <= i < |ys| && 0 <= j < |ys| ensures Compatible(ys[i], ys[j]) {
      assert ys[i] in xs && ys[j] in xs;
    }
  }

  /** Two entries exchanged: still an order of the same payload. */
  lemma SwappedIsOrder(xs: seq<Entry>, i: nat, j: nat)
    requires DistinctKeys(xs) && i < j < |xs|
    ensures OrderOf(xs[i := xs[j]][j := xs[i]], xs)
  {
    var ys := xs[i := xs[j]][j := xs[i]];
    forall e | e in xs ensures e in ys {
      var k :| 0 <= k < |xs| && xs[k] == e;
      assert ys[if k == i then j else if k == j then i else k] == e;
    }
  }

  /** A refused order of a payload with an entry above another: the one below first. */
  lemma BelowFirstIsRefused(xs: seq<Entry>, i: nat, j: nat) returns (ys: seq<Entry>)
    requires DistinctKeys(xs) && i < |xs| && j < |xs| && Above(xs[i], xs[j])
    ensures OrderOf(ys, xs) && AdaptAll(ys).None?
  {
    if j < i {
      ys := xs;
      AdmitsExactly(ys[j], ys[i]);
    } else {
      SwappedIsOrder(xs, i, j);
      ys := xs[i := xs[j]][j := xs[i]];
      AdmitsExactly(ys[i], ys[j]);
    }
    AcceptedExactly(ys);
  }

  /** Every order of a payload is accepted exactly when its keys are consistent, whatever its values. */
  lemma EveryOrderAcceptedExactly(xs: seq<Entry>)
    requires DistinctKeys(xs)
    ensures (forall ys :: OrderOf(ys, xs) ==> AdaptAll(ys).Some?) <==> Consistent(xs)
  {
    if Consistent(xs) {
      forall ys | OrderOf(ys, xs) ensures AdaptAll(ys).Some? {
        SameEntriesConsistent(xs, ys);
        ConsistentIsAccepted(ys);
      }
    } else if !KeysOk(xs) {
      AcceptedExactly(xs);
      assert OrderOf(xs, xs);
    } else {
      var i, j :| 0 <= i < |xs| && 0 <= j < |xs| && !Compatible(xs[i], xs[j]);
      var ys := BelowFirstIsRefused(xs, if Above(xs[i], xs[j]) then i else j, if Above(xs[i], xs[j]) then j else i);
      assert OrderOf(ys, xs) && AdaptAll(ys).None?;
    }
  }

  /** Entries with shorter paths first: an entry never comes after one that lies below it. */
  lemma {:induction false} DepthOrder(xs: seq<Entry>) returns (ys: seq<Entry>)
    requires DistinctKeys(xs)
    ensures OrderOf(ys, xs) && |ys| == |xs|
    ensures forall i, j :: 0 <= i < j < |ys| ==> |Split(ys[i].key)| <= |Split(ys[j].key)|
    decreases |xs|
  {
    if xs == [] {
      ys := [];
    } else {
      var m := Deepest(xs);
      var rest := xs[..m] + xs[m + 1..];
      assert forall k :: 0 <= k < |rest| ==> rest[k] == xs[if k < m then k else k + 1];
      var init := DepthOrder(rest);
      ys := init + [xs[m]];
      forall e ensures e in ys <==> e in xs {
        assert e in init <==> e in rest;
        assert xs == xs[..m] + [xs[m]] + xs[m + 1..];
      }
      forall i | 0 <= i < |init|
        ensures init[i].key != xs[m].key && |Split(init[i].key)| <= |Split(xs[m].key)|
      {
        assert init[i] in rest;
      }
    }
  }

  lemma {:induction false} Deepest(xs: seq<Entry>) returns (m: nat)
    requires xs != []
    ensures m < |xs| && forall i :: 0 <= i < |xs| ==> |Split(xs[i].key)| <= |Split(xs[m].key)|
    decreases |xs|
  {
    m := |xs| - 1;
    if |xs| > 1 {
      var k := Deepest(xs[..|xs| - 1]);
      if |Split(xs[k].key)| > |Split(xs[m].key)| { m := k; }
    }
  }

  lemma ArrangeableIsAccepted(xs: seq<Entry>) returns (ys: seq<Entry>)
    requires DistinctKeys(xs) && Arrangeable(xs)
    ensures OrderOf(ys, xs) && AdaptAll(ys).Some?
  {
    ys := DepthOrder(xs);
    forall i | 0 <= i < |ys| ensures KeyOk(ys[i]) { assert ys[i] in xs; }
    forall i, j | 0 <= i < j < |ys| ensures Admits(ys[i], ys[j]) {
      assert ys[i] in xs && ys[j] in xs;
      AdmitsExactly(ys[i], ys[j]);
    }
    AcceptedExactly(ys);
  }

  lemma AcceptedIsArrangeable(xs: seq<Entry>, ys: seq<Entry>)
    requires OrderOf(ys, xs) && AdaptAll(ys).Some?
    ensures Arrangeable(xs)
  {
    AcceptedExactly(ys);
    forall i | 0 <= i < |xs| ensures KeyOk(xs[i]) { assert xs[i] in ys; }
    forall i, j | 0 <= i < |xs| && 0 <= j < |xs| ensures Roomy(xs[i], xs[j]) {
      assert xs[i] in ys && xs[j] in ys;
      var k, l :| 0 <= k < |ys| && 0 <= l < |ys| && ys[k] == xs[i] && ys[l] == xs[j];
      if k < l {
        AdmitsExactly(ys[k], ys[l]);
      } else if l < k {
        AdmitsExactly(ys[l], ys[k]);
      }
    }
  }

  /**
   * Some order of a payload is accepted exactly when its keys are well formed and every
   * value that lies above another entry is an object with room for it.
   */
  lemma SomeOrderAcceptedExactly(xs: seq<Entry>)
    requires DistinctKeys(xs)
    ensures (exists ys :: OrderOf(ys, xs) && AdaptAll(ys).Some?) <==> Arrangeable(xs)
  {
    if Arrangeable(xs) {
      var ys := ArrangeableIsAccepted(xs);
    }
    forall ys | OrderOf(ys, xs) && AdaptAll(ys).Some? ensures Arrangeable(xs) {
      AcceptedIsArrangeable(xs, ys);
    }
  }

  /**
   * Acceptance depends on the order of the keys exactly when some entry lies above another
   * and every such entry has room; the result, where there is one, never depends on it.
   */
  lemma OrderMattersExactly(xs: seq<Entry>)
    requires DistinctKeys(xs)
    ensures (exists ys, zs :: OrderOf(ys, xs) && OrderOf(zs, xs) && AdaptAll(ys).Some? && AdaptAll(zs).None?)
            <==> Arrangeable(xs) && exists i, j :: 0 <= i < |xs| && 0 <= j < |xs| && Above(xs[i], xs[j])
  {
    EveryOrderAcceptedExactly(xs);
    SomeOrderAcceptedExactly(xs);
    if KeysOk(xs) {
      ConsistentExactly(xs);
    }
  }

  lemma ConsistentExactly(xs: seq<Entry>)
    requires KeysOk(xs)
    ensures Consistent(xs) <==> !exists i, j :: 0 <= i < |xs| && 0 <= j < |xs| && Above(xs[i], xs[j])
  {
    if Consistent(xs) {
      forall i, j | 0 <= i < |xs| && 0 <= j < |xs| ensures !Above(xs[i], xs[j]) {
        assert Compatible(xs[i], xs[j]);
      }
    }
  }

  /** Two keys of which the one below must come second. */
  lemma GroupBeforeItsQuestion()
    ensures var group, question := Entry("a", Object(map[])), Entry("a/b", Scalar("1"));
            AdaptAll([group, question]).Some? && AdaptAll([question, group]).None?
  {
    var group, question := Entry("a", Object(map[])), Entry("a/b", Scalar("1"));
    SplitLetter('a', "");
    SplitLetter('b', "");
    SplitLetter('a', "/b");
    assert "a" == ['a'] + "" && "b" == ['b'] + "" && "a/b" == ['a'] + "/b";
    assert Split("b") == ["b"] && "/b"[1..] == "b";
    assert Split("/b") == ["", "b"];
    assert Split("a") == ["a"] && Split("a/b") == ["a", "b"];
    assert PartsOk(["a"]) && PartsOk(["a", "b"]);
    AdmitsExactly(group, question);
    AdmitsExactly(question, group);
    assert ["a", "b"][1..] == ["b"] && ["a", "b"][..1] == ["a"];
    assert KeyOk(group) && KeyOk(question);
    AcceptedExactly([group, question]);
    AcceptedExactly([question, group]);
    assert [question, group][0] == question && [question, group][1] == group;
  }

  lemma SplitLetter(c: char, rest: string)
    requires c != '/'
    ensures Split([c] + rest) == [[c] + Split(rest)[0]] + Split(rest)[1..]
  {
    assert ([c] + rest)[1..] == rest;
  }

  // ---- Payloads without object values ----

  /** No value is itself an object: no entry has room for another. */
  predicate FlatValues(entries: seq<Entry>) {
    forall i :: 0 <= i < |entries| ==> !entries[i].value.Object?
  }

  /** A flat payload is accepted, in any order, exactly when no path is a proper prefix of another. */
  lemma FlatAcceptedExactly(xs: seq<Entry>)
    requires DistinctKeys(xs) && FlatValues(xs)
    ensures AdaptAll(xs).Some? <==> Consistent(xs)
  {
    if Consistent(xs) {
      ConsistentIsAccepted(xs);
    } else if AdaptAll(xs).Some? {
      assert OrderOf(xs, xs);
      AcceptedIsArrangeable(xs, xs);
      forall i, j | 0 <= i < |xs| && 0 <= j < |xs| ensures Compatible(xs[i], xs[j]) {
        assert Roomy(xs[i], xs[j]) && Roomy(xs[j], xs[i]);
      }
      assert false;
    }
  }

  /** Flattening the result, joining each leaf's path with slashes, gives a flat payload back. */
  lemma FlattensBack(entries: seq<Entry>, q: Path, value: Json)
    requires DistinctKeys(entries) && FlatValues(entries) && AdaptAll(entries).Some? && q != []
    ensures Look(AdaptAll(entries).value, q) == Leaf(value)
            <==> Split(Join(q)) == q && Entry(Join(q), value) in entries
  {
    AcceptedExactly(entries);
    assert JoinsAt(AdaptAll(entries).value, entries, q);
    forall i | 0 <= i < |entries|
      ensures Shows(entries[i], q) == Leaf(value) <==> Split(Join(q)) == q && entries[i] == Entry(Join(q), value)
    {
      JoinOfSplit(entries[i].key);
      FlatShows(entries[i], q);
    }
  }

  lemma FlatShows(e: Entry, q: Path)
    requires !e.value.Object? && q != []
    ensures Shows(e, q).Leaf? <==> Split(e.key) == q
    ensures Shows(e, q).Leaf? ==> Shows(e, q).value == e.value
  {
    LoneLeaf(Split(e.key), e.value, q);
  }

  lemma {:induction false} LoneLeaf(p: Path, value: Json, q: Path)
    requires p != [] && q != [] && !value.Object?
    ensures Look(Lone(p, value), q).Leaf? <==> p == q
    ensures p == q ==> Look(Lone(p, value), q) == Leaf(value)
    decreases |p|
  {
    if p[0] == q[0] && |p| > 1 && |q| > 1 {
      LoneLeaf(p[1..], value, q[1..]);
      SameHead(p, q);
    } else if p[0] == q[0] && |p| == |q| {
      assert p == q;
    }
  }
}
