/**
 * Dotted configuration keys and the nested tables they address (packages/app-runtime/src/config-edit.ts:52-111),
 * as values: a tree that remembers which table object stands at each of its nodes.
 */
module ConfigTree {
  import opened Results

  // ---- Keys ----

  datatype KeyError = MalformedKey | ForbiddenKey

  predicate IsKeyChar(c: char) {
    'a' <= c <= 'z' || 'A' <= c <= 'Z' || '0' <= c <= '9' || c in {'_', '@', '.', '-'}
  }

  const FORBIDDEN: set<string> := {"__proto__", "constructor", "prototype"}

  function SplitDots(key: string): (parts: seq<string>)
    ensures parts != []
  {
    if key == [] then [""]
    else
      var rest := SplitDots(key[1..]);
      if key[0] == '.' then [""] + rest else [[key[0]] + rest[0]] + rest[1..]
  }

  function JoinDots(parts: seq<string>): string {
    if parts == [] then "" else if |parts| == 1 then parts[0] else parts[0] + "." + JoinDots(parts[1..])
  }

  /** Splitting loses nothing, so different keys are different paths. */
  lemma {:induction false} SplitIsFaithful(key: string)
    ensures JoinDots(SplitDots(key)) == key
  {
    if key != [] {
      SplitIsFaithful(key[1..]);
      var rest := SplitDots(key[1..]);
      var parts := SplitDots(key);
      if key[0] == '.' {
        assert parts[1..] == rest;
        assert parts[0] + "." + JoinDots(rest) == [key[0]] + key[1..];
      } else if |rest| == 1 {
        assert rest[0] == key[1..];
      } else {
        assert parts[1..] == rest[1..];
        assert parts[0] + "." + JoinDots(rest[1..]) == [key[0]] + (rest[0] + "." + JoinDots(rest[1..]));
      }
    }
  }

  function CheckKey(key: string): Option<KeyError> {
    if key == [] || (exists i :: 0 <= i < |key| && !IsKeyChar(key[i])) || "" in SplitDots(key) then Some(MalformedKey)
    else if exists i :: 0 <= i < |SplitDots(key)| && SplitDots(key)[i] in FORBIDDEN then Some(ForbiddenKey)
    else None
  }

  lemma {:induction false} PartsHaveNoDots(key: string)
    ensures forall k :: 0 <= k < |SplitDots(key)| ==> '.' !in SplitDots(key)[k]
  {
    if key != [] {
      PartsHaveNoDots(key[1..]);
    }
  }

  lemma JoinOneMore(c: char, first: string, rest: seq<string>)
    ensures JoinDots([[c] + first] + rest) == [c] + JoinDots([first] + rest)
  {
    var long, short := [[c] + first] + rest, [first] + rest;
    assert long[1..] == rest && short[1..] == rest;
    assert rest != [] ==> ([c] + first) + "." + JoinDots(rest) == [c] + (first + "." + JoinDots(rest));
  }

  lemma JoinEmptyPart(rest: seq<string>)
    requires rest != []
    ensures JoinDots([""] + rest) == "." + JoinDots(rest)
  {
    assert ([""] + rest)[1..] == rest;
  }

  lemma SplitOneMore(c: char, key: string)
    requires c != '.'
    ensures SplitDots([c] + key) == [[c] + SplitDots(key)[0]] + SplitDots(key)[1..]
    ensures SplitDots("." + key) == [""] + SplitDots(key)
  {
    assert ([c] + key)[1..] == key && ("." + key)[1..] == key;
  }

  /** Every list of parts without dots is the split of its key: keys and paths correspond one to one. */
  lemma {:induction false} JoinThenSplit(parts: seq<string>)
    requires parts != [] && forall k :: 0 <= k < |parts| ==> '.' !in parts[k]
    ensures SplitDots(JoinDots(parts)) == parts
    decreases |parts|, |parts[0]|
  {
    var first, rest := parts[0], parts[1..];
    assert parts == [first] + rest;
    if first != [] {
      var shorter := [first[1..]] + rest;
      assert first == [first[0]] + first[1..] && shorter[1..] == rest;
      JoinThenSplit(shorter);
      hide JoinDots, SplitDots;
      JoinOneMore(first[0], first[1..], rest);
      SplitOneMore(first[0], JoinDots(shorter));
    } else if rest != [] {
      JoinThenSplit(rest);
      JoinEmptyPart(rest);
      SplitOneMore('a', JoinDots(rest));
    }
  }

  ghost predicate DoubledDot(key: string) {
    exists i :: 0 <= i < |key| - 1 && key[i] == '.' && key[i + 1] == '.'
  }

  lemma DoubledDotOfTail(key: string)
    requires key != []
    ensures DoubledDot(key) <==> (|key| > 1 && key[0] == '.' && key[1] == '.') || DoubledDot(key[1..])
  {
    if DoubledDot(key) {
      var i :| 0 <= i < |key| - 1 && key[i] == '.' && key[i + 1] == '.';
      if i > 0 {
        assert key[1..][i - 1] == '.' && key[1..][i - 1 + 1] == '.';
      }
    }
    if DoubledDot(key[1..]) {
      var i :| 0 <= i < |key[1..]| - 1 && key[1..][i] == '.' && key[1..][i + 1] == '.';
      assert key[i + 1] == '.' && key[i + 1 + 1] == '.';
    }
  }

  /** Where empty parts come from: a dot at an end, or two in a row. */
  lemma {:induction false} EmptyPartIff(key: string)
    ensures SplitDots(key)[0] == "" <==> key == [] || key[0] == '.'
    ensures "" in SplitDots(key)[1..] <==> key != [] && (key[|key| - 1] == '.' || DoubledDot(key))
  {
    if key != [] {
      var tail, parts := key[1..], SplitDots(key);
      var rest := SplitDots(tail);
      EmptyPartIff(tail);
      DoubledDotOfTail(key);
      assert key[0] == '.' ==> parts[1..] == rest;
      assert key[0] != '.' ==> parts[1..] == rest[1..];
      assert rest == [rest[0]] + rest[1..];
    }
  }

  /** What is refused, in terms of the key's characters. */
  lemma CheckKeyIff(key: string)
    ensures CheckKey(key) == Some(MalformedKey) <==>
      || key == [] || key[0] == '.' || key[|key| - 1] == '.' || DoubledDot(key)
      || exists i :: 0 <= i < |key| &&
           !('a' <= key[i] <= 'z' || 'A' <= key[i] <= 'Z' || '0' <= key[i] <= '9'
             || key[i] == '_' || key[i] == '@' || key[i] == '.' || key[i] == '-')
    ensures CheckKey(key) == Some(ForbiddenKey) <==>
      && CheckKey(key) != Some(MalformedKey)
      && ("__proto__" in SplitDots(key) || "constructor" in SplitDots(key) || "prototype" in SplitDots(key))
  {
    EmptyPartIff(key);
    var parts := SplitDots(key);
    assert parts == [parts[0]] + parts[1..];
    hide SplitDots, DoubledDot;
  }

  // ---- Tables ----

  /** A table is updated in place; everything that is not a table is a plain value. */
  class Table {
    var entries: map<string, Value>

    constructor ()
      ensures entries == map[]
    {
      entries := map[];
    }
  }

  datatype Value = Text(text: string) | Sub(table: Table)

  datatype Tree = Plain(text: string) | Node(table: Table, children: map<string, Tree>)

  type Path = seq<string>

  function ValueOf(t: Tree): Value {
    match t
    case Plain(text) => Text(text)
    case Node(table, _) => Sub(table)
  }

  function Shallow(children: map<string, Tree>): map<string, Value> {
    map k | k in children :: ValueOf(children[k])
  }

  function Find(t: Tree, path: Path): Option<Tree>
    decreases |path|
  {
    if path == [] then Some(t)
    else if t.Node? && path[0] in t.children then Find(t.children[path[0]], path[1..])
    else None
  }

  predicate HasTable(t: Tree, path: Path) {
    Find(t, path).Some? && Find(t, path).value.Node?
  }

  function TableAt(t: Tree, path: Path): Table
    requires HasTable(t, path)
  {
    Find(t, path).value.table
  }

  // ---- Edits ----

  function With(t: Tree, k: string, child: Tree): Tree
    requires t.Node?
  {
    t.(children := t.children[k := child])
  }

  function Without(t: Tree, k: string): Tree
    requires t.Node?
  {
    t.(children := t.children - {k})
  }

  lemma WithLaws(t: Tree, k: string, child: Tree, other: Tree)
    requires t.Node?
    ensures With(With(t, k, child), k, other) == With(t, k, other)
    ensures Without(With(t, k, child), k) == Without(t, k)
    ensures k !in t.children ==> Without(t, k) == t
    ensures k in t.children ==> With(t, k, t.children[k]) == t && Without(t, k) != t
    ensures With(t, k, child) == t <==> k in t.children && t.children[k] == child
  {
    assert t.children[k := child][k := other] == t.children[k := other];
    assert t.children[k := child] - {k} == t.children - {k};
    assert k !in t.children - {k};
    assert t.children[k := child][k] == child;
  }

  lemma ShallowSame(children: map<string, Tree>, k: string, child: Tree)
    requires k in children && ValueOf(child) == ValueOf(children[k])
    ensures Shallow(children[k := child]) == Shallow(children)
  {}

  /** Make `sub` the entry `k` of the table at `path`. */
  function Put(t: Tree, path: Path, k: string, sub: Tree): (r: Tree)
    requires HasTable(t, path)
    ensures r.Node? && r.table == t.table
    decreases |path|
  {
    if path == [] then With(t, k, sub)
    else With(t, path[0], Put(t.children[path[0]], path[1..], k, sub))
  }

  function Drop(t: Tree, path: Path, k: string): (r: Tree)
    requires HasTable(t, path)
    ensures r.Node? && r.table == t.table
    decreases |path|
  {
    if path == [] then Without(t, k)
    else With(t, path[0], Drop(t.children[path[0]], path[1..], k))
  }

  /** How many tables are missing along the path. */
  function Missing(t: Tree, path: Path): nat
    requires t.Node?
    decreases |path|
  {
    if path == [] then 0
    else if path[0] in t.children && t.children[path[0]].Node? then Missing(t.children[path[0]], path[1..])
    else |path|
  }

  /** Make every table along the path exist; `made` are the new ones. */
  function Ensure(t: Tree, path: Path, made: seq<Table>): (r: Tree)
    requires t.Node? && |made| == Missing(t, path)
    ensures r.Node? && r.table == t.table && HasTable(r, path)
    decreases |path|
  {
    if path == [] then t
    else if path[0] in t.children && t.children[path[0]].Node? then
      With(t, path[0], Ensure(t.children[path[0]], path[1..], made))
    else
      EmptyMisses(made[0], path[1..]);
      With(t, path[0], Ensure(Node(made[0], map[]), path[1..], made[1..]))
  }

  lemma EmptyMisses(table: Table, path: Path)
    ensures Missing(Node(table, map[]), path) == |path|
  {}

  /** `assignConfigValue`. */
  function Assign(t: Tree, parts: Path, v: Tree, made: seq<Table>): Tree
    requires t.Node? && parts != [] && |made| == Missing(t, parts[..|parts| - 1])
  {
    var front := parts[..|parts| - 1];
    Put(Ensure(t, front, made), front, parts[|parts| - 1], v)
  }

  /** `deleteConfigValue`: the tree without the value and without the tables that became empty. */
  function Delete(t: Tree, parts: Path): Option<Tree>
    requires t.Node? && parts != []
    decreases |parts|
  {
    if parts[0] !in t.children then None
    else if |parts| == 1 then Some(Without(t, parts[0]))
    else if !t.children[parts[0]].Node? then None
    else
      match Delete(t.children[parts[0]], parts[1..])
      case None => None
      case Some(child) =>
        if child.Node? && child.children == map[] then Some(Without(t, parts[0]))
        else Some(With(t, parts[0], child))
  }

  // ---- Laws of single edits ----

  predicate Related(p: Path, q: Path) { p <= q || q <= p }

  lemma {:induction false} FindConcat(t: Tree, p: Path, q: Path)
    ensures Find(t, p + q) == if Find(t, p).None? then None else Find(Find(t, p).value, q)
    decreases |p|
  {
    if p == [] {
      assert p + q == q;
    } else if t.Node? && p[0] in t.children {
      assert (p + q)[1..] == p[1..] + q;
      FindConcat(t.children[p[0]], p[1..], q);
    }
  }

  lemma RelatedTails(p: Path, q: Path)
    requires p != [] && q != [] && p[0] == q[0]
    ensures Related(p, q) == Related(p[1..], q[1..])
    ensures p < q <==> p[1..] < q[1..]
  {
    assert p == [p[0]] + p[1..] && q == [p[0]] + q[1..];
  }

  lemma {:induction false} PutHere(t: Tree, path: Path, k: string, sub: Tree)
    requires HasTable(t, path)
    ensures var here := Find(t, path).value;
            Find(Put(t, path, k, sub), path) == Some(With(here, k, sub))
    decreases |path|
  {
    if path != [] { PutHere(t.children[path[0]], path[1..], k, sub); }
  }

  lemma PutBelow(t: Tree, path: Path, k: string, sub: Tree, q: Path)
    requires HasTable(t, path)
    ensures Find(Put(t, path, k, sub), path + [k] + q) == Find(sub, q)
  {
    PutHere(t, path, k, sub);
    FindConcat(Put(t, path, k, sub), path, [k] + q);
    assert path + [k] + q == path + ([k] + q) && ([k] + q)[1..] == q;
  }

  lemma {:induction false} PutElsewhere(t: Tree, path: Path, k: string, sub: Tree, p: Path)
    requires HasTable(t, path) && !Related(p, path + [k])
    ensures Find(Put(t, path, k, sub), p) == Find(t, p)
    decreases |path|
  {
    if path == [] {
      assert p[0] != k;
    } else if p[0] == path[0] {
      RelatedTails(p, path + [k]);
      assert (path + [k])[1..] == path[1..] + [k];
      PutElsewhere(t.children[path[0]], path[1..], k, sub, p[1..]);
    }
  }

  /** Two trees show the same table at a path, with the same children as far as that table can tell. */
  ghost predicate SameTable(t: Tree, r: Tree, p: Path) {
    && HasTable(t, p) && HasTable(r, p) && TableAt(t, p) == TableAt(r, p)
    && Shallow(Find(t, p).value.children) == Shallow(Find(r, p).value.children)
  }

  lemma {:induction false} PutAbove(t: Tree, path: Path, k: string, sub: Tree, p: Path)
    requires HasTable(t, path) && p < path
    ensures SameTable(t, Put(t, path, k, sub), p)
    decreases |path|
  {
    if p != [] {
      assert path == [p[0]] + path[1..];
      PutAbove(t.children[path[0]], path[1..], k, sub, p[1..]);
    } else {
      ShallowSame(t.children, path[0], Put(t.children[path[0]], path[1..], k, sub));
    }
  }

  lemma {:induction false} DropHere(t: Tree, path: Path, k: string)
    requires HasTable(t, path)
    ensures var here := Find(t, path).value;
            Find(Drop(t, path, k), path) == Some(Without(here, k))
    decreases |path|
  {
    if path != [] { DropHere(t.children[path[0]], path[1..], k); }
  }

  lemma DropBelow(t: Tree, path: Path, k: string, q: Path)
    requires HasTable(t, path)
    ensures Find(Drop(t, path, k), path + [k] + q) == None
  {
    DropHere(t, path, k);
    FindConcat(Drop(t, path, k), path, [k] + q);
    assert path + [k] + q == path + ([k] + q);
  }

  lemma {:induction false} DropElsewhere(t: Tree, path: Path, k: string, p: Path)
    requires HasTable(t, path) && !Related(p, path + [k])
    ensures Find(Drop(t, path, k), p) == Find(t, p)
    decreases |path|
  {
    if path == [] {
      assert p[0] != k;
    } else if p[0] == path[0] {
      RelatedTails(p, path + [k]);
      assert (path + [k])[1..] == path[1..] + [k];
      DropElsewhere(t.children[path[0]], path[1..], k, p[1..]);
    }
  }

  lemma {:induction false} DropAbove(t: Tree, path: Path, k: string, p: Path)
    requires HasTable(t, path) && p < path
    ensures SameTable(t, Drop(t, path, k), p)
    decreases |path|
  {
    if p != [] {
      assert path == [p[0]] + path[1..];
      DropAbove(t.children[path[0]], path[1..], k, p[1..]);
    } else {
      ShallowSame(t.children, path[0], Drop(t.children[path[0]], path[1..], k));
    }
  }

  // ---- Laws of assigning ----

  /** Only the missing tables appear. */
  lemma {:induction false} EnsureElsewhere(t: Tree, path: Path, made: seq<Table>, p: Path)
    requires t.Node? && |made| == Missing(t, path) && !Related(p, path)
    ensures Find(Ensure(t, path, made), p) == Find(t, p)
    decreases |path|
  {
    if p[0] == path[0] {
      RelatedTails(p, path);
      if path[0] in t.children && t.children[path[0]].Node? {
        EnsureElsewhere(t.children[path[0]], path[1..], made, p[1..]);
      } else {
        EmptyMisses(made[0], path[1..]);
        EnsureElsewhere(Node(made[0], map[]), path[1..], made[1..], p[1..]);
        NothingInEmpty(made[0], p[1..]);
      }
    }
  }

  lemma NothingInEmpty(table: Table, p: Path)
    ensures p != [] ==> Find(Node(table, map[]), p) == None
  {}

  /** Reading after assigning: the value itself, at the key and below it. */
  lemma AssignThenFind(t: Tree, parts: Path, v: Tree, made: seq<Table>, q: Path)
    requires t.Node? && parts != [] && |made| == Missing(t, parts[..|parts| - 1])
    ensures Find(Assign(t, parts, v, made), parts + q) == Find(v, q)
  {
    var n := |parts| - 1;
    PutBelow(Ensure(t, parts[..n], made), parts[..n], parts[n], v, q);
    assert parts[..n] + [parts[n]] == parts;
  }

  /** Keys of which neither is a prefix of the other do not see each other's assignments. */
  lemma AssignElsewhere(t: Tree, parts: Path, v: Tree, made: seq<Table>, p: Path)
    requires t.Node? && parts != [] && |made| == Missing(t, parts[..|parts| - 1]) && !Related(p, parts)
    ensures Find(Assign(t, parts, v, made), p) == Find(t, p)
  {
    hide Find, Put;
    var n := |parts| - 1;
    var front, k := parts[..n], parts[n];
    assert front + [k] == parts;
    PutElsewhere(Ensure(t, front, made), front, k, v, p);
    if Related(p, front) {
      assert front < p;
      EnsureBeside(t, front, made, p[n], p[n + 1..]);
      assert front + [p[n]] + p[n + 1..] == p;
    } else {
      EnsureElsewhere(t, front, made, p);
    }
  }

  /** An entry of the last table on the path was there before, or the table is new and has none. */
  lemma {:induction false} EnsureBeside(t: Tree, path: Path, made: seq<Table>, k: string, q: Path)
    requires t.Node? && |made| == Missing(t, path)
    ensures Find(Ensure(t, path, made), path + [k] + q) == Find(t, path + [k] + q)
    decreases |path|
  {
    if path == [] {
    } else {
      assert (path + [k] + q)[1..] == path[1..] + [k] + q;
      if path[0] in t.children && t.children[path[0]].Node? {
        EnsureBeside(t.children[path[0]], path[1..], made, k, q);
      } else {
        EmptyMisses(made[0], path[1..]);
        EnsureBeside(Node(made[0], map[]), path[1..], made[1..], k, q);
        NothingInEmpty(made[0], path[1..] + [k] + q);
      }
    }
  }

  // ---- Laws of deleting ----

  lemma {:induction false} DeleteFinds(t: Tree, parts: Path)
    requires t.Node? && parts != []
    ensures Delete(t, parts).Some? <==> Find(t, parts).Some?
    ensures Delete(t, parts).Some? ==> Delete(t, parts).value.Node? && Delete(t, parts).value.table == t.table
    decreases |parts|
  {
    if parts[0] in t.children && |parts| > 1 && t.children[parts[0]].Node? {
      DeleteFinds(t.children[parts[0]], parts[1..]);
    }
  }

  lemma {:induction false} DeleteElsewhere(t: Tree, parts: Path, p: Path)
    requires t.Node? && parts != [] && Delete(t, parts).Some? && !Related(p, parts)
    ensures Find(Delete(t, parts).value, p) == Find(t, p)
    decreases |parts|
  {
    DeleteFinds(t, parts);
    if p[0] == parts[0] && |parts| > 1 {
      RelatedTails(p, parts);
      var child := t.children[parts[0]];
      DeleteFinds(child, parts[1..]);
      DeleteElsewhere(child, parts[1..], p[1..]);
      NothingInEmpty(child.table, p[1..]);
      assert p[1..] != [];
    }
  }

  /** The value is gone, and no table on its path is left empty. */
  lemma {:induction false} DeleteRemoves(t: Tree, parts: Path, m: nat)
    requires t.Node? && parts != [] && Delete(t, parts).Some?
    ensures Find(Delete(t, parts).value, parts) == None
    ensures 0 < m < |parts| && HasTable(Delete(t, parts).value, parts[..m])
            ==> Find(Delete(t, parts).value, parts[..m]).value.children != map[]
    decreases |parts|
  {
    if |parts| > 1 {
      var child := t.children[parts[0]];
      DeleteFinds(child, parts[1..]);
      DeleteRemoves(child, parts[1..], if m == 0 then 0 else m - 1);
      if m > 0 && m <= |parts| { assert parts[..m][1..] == parts[1..][..m - 1]; }
    }
  }

  // ---- Deleting after assigning ----

  /** The key is absent, and whatever stands on its path is a table with entries. */
  ghost predicate Restorable(t: Tree, parts: Path) {
    && Find(t, parts) == None
    && forall m :: 0 < m < |parts| && Find(t, parts[..m]).Some? ==>
         Find(t, parts[..m]).value.Node? && Find(t, parts[..m]).value.children != map[]
  }

  lemma RestorableBelow(t: Tree, parts: Path)
    requires t.Node? && |parts| > 1 && parts[0] in t.children
    ensures var child := t.children[parts[0]];
            Restorable(t, parts) <==> child.Node? && child.children != map[] && Restorable(child, parts[1..])
  {
    var child := t.children[parts[0]];
    assert parts[..1] == [parts[0]] && Find(t, parts[..1]) == Some(child);
    forall m | 0 < m < |parts| ensures Find(t, parts[..m]) == Find(child, parts[1..][..m - 1]) {
      assert parts[..m][1..] == parts[1..][..m - 1];
    }
    if child.Node? && child.children != map[] && Restorable(child, parts[1..]) {
      forall m | 0 < m < |parts| && Find(t, parts[..m]).Some?
        ensures Find(t, parts[..m]).value.Node? && Find(t, parts[..m]).value.children != map[]
      {
        if m > 1 { assert Find(child, parts[1..][..m - 1]).Some?; }
      }
    }
    if Restorable(t, parts) {
      forall m | 0 < m < |parts[1..]| && Find(child, parts[1..][..m]).Some?
        ensures Find(child, parts[1..][..m]).value.Node? && Find(child, parts[1..][..m]).value.children != map[]
      {
        assert Find(t, parts[..m + 1]).Some?;
      }
    }
  }

  lemma RestorableAbsent(t: Tree, parts: Path)
    requires t.Node? && parts != [] && parts[0] !in t.children
    ensures Restorable(t, parts)
  {
    forall m | 0 < m <= |parts| ensures Find(t, parts[..m]) == None {}
    assert parts[..|parts|] == parts;
  }

  /** Below the first key, assigning is assigning in the child or in a new table. */
  lemma AssignUnfolds(t: Tree, parts: Path, v: Tree, made: seq<Table>)
    requires t.Node? && |parts| > 1 && |made| == Missing(t, parts[..|parts| - 1])
    ensures var k, rest := parts[0], parts[1..];
            var n := |rest| - 1;
            if k in t.children && t.children[k].Node? then
              && |made| == Missing(t.children[k], rest[..n])
              && Assign(t, parts, v, made) == With(t, k, Assign(t.children[k], rest, v, made))
            else
              && |made| == 1 + Missing(Node(made[0], map[]), rest[..n])
              && Assign(t, parts, v, made) == With(t, k, Assign(Node(made[0], map[]), rest, v, made[1..]))
  {
    hide With, Find;
    var front := parts[..|parts| - 1];
    var rest := parts[1..];
    assert front[1..] == rest[..|rest| - 1] && front[0] == parts[0] && rest[|rest| - 1] == parts[|parts| - 1];
    var isTable := parts[0] in t.children && t.children[parts[0]].Node?;
    if !isTable { EmptyMisses(made[0], front[1..]); }
    var child := if isTable then t.children[parts[0]] else Node(made[0], map[]);
    var below := if isTable then made else made[1..];
    PutInChild(t, front, parts[|parts| - 1], v, Ensure(child, front[1..], below));
  }

  /** Deleting undoes assigning exactly when the key was absent and no plain value or empty table was in its way. */
  lemma {:induction false} DeleteUndoesAssign(t: Tree, parts: Path, v: Tree, made: seq<Table>)
    requires t.Node? && parts != [] && |made| == Missing(t, parts[..|parts| - 1])
    ensures Delete(Assign(t, parts, v, made), parts) == Some(t) <==> Restorable(t, parts)
    decreases |parts|
  {
    hide Restorable;
    var k, rest := parts[0], parts[1..];
    if k !in t.children { RestorableAbsent(t, parts); }
    if |parts| == 1 {
      AssignOne(t, k, v, made);
      assert parts == [k];
    } else {
      hide Assign;
      AssignUnfolds(t, parts, v, made);
      var isTable := k in t.children && t.children[k].Node?;
      var child := if isTable then t.children[k] else Node(made[0], map[]);
      var below := if isTable then made else made[1..];
      DeleteUndoesAssign(child, rest, v, below);
      var written := Assign(child, rest, v, below);
      AssignThenFind(child, rest, v, below, []);
      assert rest + [] == rest;
      DeleteFinds(written, rest);
      if k in t.children { RestorableBelow(t, parts); }
      if !isTable { RestorableAbsent(child, rest); }
      var d := Delete(written, rest).value;
      WithLaws(t, k, written, d);
      WithLaws(t, k, d, d);
      hide Delete, Find;
      assert Delete(With(t, k, written), parts)
          == Some(if d.children == map[] then Without(With(t, k, written), k) else With(With(t, k, written), k, d)) by {
        DeleteUnfolds(With(t, k, written), parts);
      }
    }
  }

  lemma DeleteUnfolds(t: Tree, parts: Path)
    requires t.Node? && |parts| > 1 && parts[0] in t.children && t.children[parts[0]].Node?
    ensures var below := Delete(t.children[parts[0]], parts[1..]);
            Delete(t, parts)
            == if below.None? then None
               else if below.value.Node? && below.value.children == map[] then Some(Without(t, parts[0]))
               else Some(With(t, parts[0], below.value))
  {}

  lemma AssignOne(t: Tree, k: string, v: Tree, made: seq<Table>)
    requires t.Node? && |made| == Missing(t, [])
    ensures |[k]| == 1 && [k][..0] == []
    ensures Assign(t, [k], v, made) == With(t, k, v)
    ensures Delete(Assign(t, [k], v, made), [k]) == Some(t) <==> Restorable(t, [k])
  {
    assert [k][..0] == [];
    assert Find(t, [k]) == if k in t.children then Some(t.children[k]) else None;
    WithLaws(t, k, v, v);
  }

  // ---- One step of a loop at a time ----

  lemma EnsureFirst(t: Tree, k: string, table: Table)
    requires t.Node?
    ensures Missing(t, []) == 0 && Ensure(t, [], []) == t
    ensures HasTable(t, [k]) ==> Missing(t, [k]) == 0 && Ensure(t, [k], []) == t
    ensures !HasTable(t, [k]) ==>
              Missing(t, [k]) == 1 && Ensure(t, [k], [table]) == Put(t, [], k, Node(table, map[]))
  {
    assert [k][1..] == [] && [table][1..] == [];
    var newTable := Node(table, map[]);
    assert Find(t, [k]) == if k in t.children then Some(t.children[k]) else None;
    assert HasTable(t, [k]) == (k in t.children && t.children[k].Node?);
    if k in t.children && t.children[k].Node? {
      WithLaws(t, k, t.children[k], t);
      assert Missing(t, [k]) == Missing(t.children[k], []) == 0;
      assert Ensure(t, [k], []) == With(t, k, Ensure(t.children[k], [], []));
    } else {
      assert Missing(t, [k]) == 1;
      assert Ensure(newTable, [], []) == newTable;
    }
  }

  lemma PutInChild(t: Tree, path: Path, k: string, sub: Tree, child: Tree)
    requires t.Node? && path != [] && HasTable(child, path[1..])
    ensures var e := With(t, path[0], child);
            && HasTable(e, path) && Put(e, path, k, sub) == With(t, path[0], Put(child, path[1..], k, sub))
            && HasTable(e, path + [k]) == HasTable(child, path[1..] + [k])
  {
    var e := With(t, path[0], child);
    assert e.children[path[0]] == child;
    assert (path + [k])[1..] == path[1..] + [k];
    WithLaws(t, path[0], child, Put(child, path[1..], k, sub));
  }

  /** One more key: its table is there already, or one more table is made. */
  lemma {:induction false} EnsureOneMore(t: Tree, path: Path, k: string, made: seq<Table>, table: Table)
    requires t.Node? && |made| == Missing(t, path)
    ensures var e := Ensure(t, path, made);
            if HasTable(e, path + [k]) then Missing(t, path + [k]) == |made| && Ensure(t, path + [k], made) == e
            else
              && Missing(t, path + [k]) == |made| + 1
              && Ensure(t, path + [k], made + [table]) == Put(e, path, k, Node(table, map[]))
    decreases |path|
  {
    hide With, Put, HasTable;
    if path == [] {
      EnsureFirst(t, k, table);
      assert path + [k] == [k] && made == [] && made + [table] == [table];
    } else {
      assert (path + [k])[1..] == path[1..] + [k] && (path + [k])[0] == path[0];
      if path[0] in t.children && t.children[path[0]].Node? {
        var child := t.children[path[0]];
        EnsureOneMore(child, path[1..], k, made, table);
        PutInChild(t, path, k, Node(table, map[]), Ensure(child, path[1..], made));
      } else {
        var child := Node(made[0], map[]);
        EmptyMisses(made[0], path[1..]);
        EmptyMisses(made[0], path[1..] + [k]);
        assert (made + [table])[1..] == made[1..] + [table];
        EnsureOneMore(child, path[1..], k, made[1..], table);
        PutInChild(t, path, k, Node(table, map[]), Ensure(child, path[1..], made[1..]));
      }
    }
  }

  /** Drop the tables that are empty, from the end of the path towards the root. */
  function Prune(t: Tree, path: Path): Tree
    requires HasTable(t, path)
    decreases |path|
  {
    if path == [] || Find(t, path).value.children != map[] then t
    else
      var front, k := path[..|path| - 1], path[|path| - 1];
      assert path == front + [k];
      FrontHasTable(t, front, k);
      DropHere(t, front, k);
      Prune(Drop(t, front, k), front)
  }

  lemma FrontHasTable(t: Tree, front: Path, k: string)
    requires front + [k] != [] && HasTable(t, front + [k])
    ensures HasTable(t, front)
  {
    FindConcat(t, front, [k]);
  }

  /** Pruning inside a child, then the child itself if nothing is left of it. */
  lemma {:induction false} PruneInChild(t: Tree, k: string, child: Tree, path: Path)
    requires t.Node? && child.Node? && HasTable(child, path)
    ensures var d := Prune(child, path);
            && HasTable(With(t, k, child), [k] + path)
            && d.Node?
            && Prune(With(t, k, child), [k] + path)
               == if d.children == map[] then Without(t, k) else With(t, k, d)
    decreases |path|
  {
    var e := With(t, k, child);
    assert ([k] + path)[1..] == path && e.children[k] == child;
    if path == [] {
      assert [k] + path == [k] && [k][..0] == [];
      WithLaws(t, k, child, child);
    } else if Find(child, path).value.children != map[] {
      assert path[0] in child.children;
    } else {
      var front, last := path[..|path| - 1], path[|path| - 1];
      assert path == front + [last];
      FrontHasTable(child, front, last);
      DropHere(child, front, last);
      var c := Drop(child, front, last);
      PruneInChild(t, k, c, front);
      assert ([k] + path)[..|path|] == [k] + front && ([k] + front)[1..] == front;
      WithLaws(t, k, child, c);
      PruneStep(e, [k] + path);
      assert Drop(e, [k] + front, last) == With(e, k, c);
    }
  }

  lemma PruneStep(t: Tree, path: Path)
    requires path != [] && HasTable(t, path) && Find(t, path).value.children == map[]
    ensures var front, k := path[..|path| - 1], path[|path| - 1];
            && HasTable(t, front) && HasTable(Drop(t, front, k), front)
            && Prune(t, path) == Prune(Drop(t, front, k), front)
  {
    var front, k := path[..|path| - 1], path[|path| - 1];
    assert path == front + [k];
    FrontHasTable(t, front, k);
    DropHere(t, front, k);
  }

  /** Deleting is dropping the value, then pruning upwards. */
  lemma {:induction false} DeleteIsPrune(t: Tree, parts: Path)
    requires t.Node? && parts != [] && Find(t, parts).Some?
    ensures var front, k := parts[..|parts| - 1], parts[|parts| - 1];
            && HasTable(t, front) && HasTable(Drop(t, front, k), front)
            && Delete(t, parts) == Some(Prune(Drop(t, front, k), front))
    decreases |parts|
  {
    var front, k := parts[..|parts| - 1], parts[|parts| - 1];
    if |parts| > 1 {
      var child, rest := t.children[parts[0]], parts[1..];
      assert rest != [] && Find(child, rest).Some?;
      DeleteIsPrune(child, rest);
      assert front[1..] == rest[..|rest| - 1];
      assert front == [front[0]] + front[1..];
      PruneInChild(t, parts[0], Drop(child, front[1..], k), front[1..]);
    }
  }
}
