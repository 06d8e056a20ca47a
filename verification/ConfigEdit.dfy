/**
 * Editing nested configuration tables in place (packages/app-runtime/src/config-edit.ts:61-111): cursors that
 * walk, create, overwrite, delete and prune table objects.
 */
module ConfigEdit {
  import opened Results
  import opened ConfigTree

  /** What every table object holds. */
  type Heap = map<Table, map<string, Value>>

  ghost function Snapshot(region: set<Table>): (h: Heap)
    reads region
  {
    map t | t in region :: t.entries
  }

  /** The heap shows the tree: every table in it holds its children. */
  ghost predicate Shows(h: Heap, t: Tree) {
    forall p: Path :: HasTable(t, p) ==>
      TableAt(t, p) in h && h[TableAt(t, p)] == Shallow(Find(t, p).value.children)
  }

  /** No table object stands at two places. */
  ghost predicate NoAlias(t: Tree) {
    forall p: Path, q: Path :: HasTable(t, p) && HasTable(t, q) && TableAt(t, p) == TableAt(t, q) ==> p == q
  }

  ghost predicate Apart(t: Tree, r: Tree) {
    forall p: Path, q: Path :: HasTable(t, p) && HasTable(r, q) ==> TableAt(t, p) != TableAt(r, q)
  }

  /** A tree of distinct table objects, as the heap has it. */
  ghost predicate Holds(h: Heap, t: Tree) {
    Shows(h, t) && NoAlias(t)
  }

  ghost predicate Below(p: Path, path: Path, k: string) {
    path + [k] <= p
  }

  /** A table of the edited tree is a table of the part put in, or a table that stood there before. */
  lemma TableAfterPut(t: Tree, path: Path, k: string, sub: Tree, p: Path)
    requires HasTable(t, path)
    ensures var r := Put(t, path, k, sub);
            if Below(p, path, k) then Find(r, p) == Find(sub, p[|path| + 1..])
            else if p == path then HasTable(r, p) && TableAt(r, p) == TableAt(t, p)
                                   && Find(r, p).value.children == Find(t, p).value.children[k := sub]
            else if HasTable(r, p) then SameTable(t, r, p)
            else !HasTable(t, p)
  {
    hide Find, Put, Shallow;
    var r := Put(t, path, k, sub);
    if Below(p, path, k) {
      var q := p[|path| + 1..];
      PutBelow(t, path, k, sub, q);
      assert path + [k] + q == p;
    } else if p == path {
      PutHere(t, path, k, sub);
    } else if p < path {
      PutAbove(t, path, k, sub, p);
    } else {
      assert !Related(p, path + [k]);
      PutElsewhere(t, path, k, sub, p);
    }
  }

  /** The edited heap: one entry of one table is written. */
  ghost function Written(h: Heap, table: Table, k: string, v: Value): Heap
    requires table in h
  {
    h[table := h[table][k := v]]
  }

  lemma ShallowWith(children: map<string, Tree>, k: string, sub: Tree)
    ensures Shallow(children[k := sub]) == Shallow(children)[k := ValueOf(sub)]
    ensures Shallow(children - {k}) == Shallow(children) - {k}
  {}

  lemma PutHolds(h: Heap, t: Tree, path: Path, k: string, sub: Tree)
    requires HasTable(t, path) && Holds(h, t) && Holds(h, sub) && Apart(t, sub)
    ensures TableAt(t, path) in h
    ensures Holds(Written(h, TableAt(t, path), k, ValueOf(sub)), Put(t, path, k, sub))
  {
    hide Find, Put, Shallow, HasTable, TableAt;
    var r, target := Put(t, path, k, sub), TableAt(t, path);
    var w := Written(h, target, k, ValueOf(sub));
    ShallowWith(ChildrenAt(t, path), k, sub);
    forall p: Path | HasTable(r, p) ensures TableAt(r, p) in w && w[TableAt(r, p)] == Shallow(ChildrenAt(r, p)) {
      OriginAfterPut(t, path, k, sub, p);
    }
    forall p: Path, q: Path | HasTable(r, p) && HasTable(r, q) && TableAt(r, p) == TableAt(r, q) ensures p == q {
      OriginAfterPut(t, path, k, sub, p);
      OriginAfterPut(t, path, k, sub, q);
      if Below(p, path, k) && Below(q, path, k) {
        assert p == path + [k] + p[|path| + 1..] && q == path + [k] + q[|path| + 1..];
      }
    }
    ShownByChildren(w, r);
  }

  ghost function ChildrenAt(t: Tree, path: Path): map<string, Tree>
    requires HasTable(t, path)
  {
    Find(t, path).value.children
  }

  lemma ShownByChildren(h: Heap, t: Tree)
    requires forall p: Path :: HasTable(t, p) ==> TableAt(t, p) in h && h[TableAt(t, p)] == Shallow(ChildrenAt(t, p))
    ensures Shows(h, t)
  {}

  /** Where a table of the edited tree comes from. */
  lemma OriginAfterPut(t: Tree, path: Path, k: string, sub: Tree, p: Path)
    requires HasTable(t, path) && HasTable(Put(t, path, k, sub), p)
    ensures var r := Put(t, path, k, sub);
            if Below(p, path, k) then
              var q := p[|path| + 1..];
              HasTable(sub, q) && TableAt(r, p) == TableAt(sub, q) && ChildrenAt(r, p) == ChildrenAt(sub, q)
            else
              && HasTable(t, p) && TableAt(r, p) == TableAt(t, p)
              && (if p == path then ChildrenAt(r, p) == ChildrenAt(t, p)[k := sub]
                  else Shallow(ChildrenAt(r, p)) == Shallow(ChildrenAt(t, p)))
  {
    hide Find, Put, Shallow;
    TableAfterPut(t, path, k, sub, p);
  }

  lemma PutStaysApart(t: Tree, path: Path, k: string, sub: Tree, other: Tree)
    requires HasTable(t, path) && Apart(t, other) && Apart(sub, other)
    ensures Apart(Put(t, path, k, sub), other)
  {
    hide Find, Put, Shallow, HasTable, TableAt;
    var r := Put(t, path, k, sub);
    forall p: Path, q: Path | HasTable(r, p) && HasTable(other, q) ensures TableAt(r, p) != TableAt(other, q) {
      OriginAfterPut(t, path, k, sub, p);
    }
  }

  lemma DropLeavesNothingBelow(t: Tree, path: Path, k: string, p: Path)
    requires HasTable(t, path)
    ensures Below(p, path, k) ==> Find(Drop(t, path, k), p) == None
  {
    if Below(p, path, k) {
      DropBelow(t, path, k, p[|path| + 1..]);
      assert path + [k] + p[|path| + 1..] == p;
    }
  }

  lemma OriginAfterDrop(t: Tree, path: Path, k: string, p: Path)
    requires HasTable(t, path) && HasTable(Drop(t, path, k), p)
    ensures var r := Drop(t, path, k);
            && HasTable(t, p) && TableAt(r, p) == TableAt(t, p)
            && (if p == path then ChildrenAt(r, p) == ChildrenAt(t, p) - {k}
                else Shallow(ChildrenAt(r, p)) == Shallow(ChildrenAt(t, p)))
  {
    hide Find, Drop, Shallow;
    DropLeavesNothingBelow(t, path, k, p);
    if p == path {
      DropHere(t, path, k);
    } else if p < path {
      DropAbove(t, path, k, p);
    } else if !Related(p, path + [k]) {
      DropElsewhere(t, path, k, p);
    }
  }

  lemma DropHolds(h: Heap, t: Tree, path: Path, k: string)
    requires HasTable(t, path) && Holds(h, t)
    ensures TableAt(t, path) in h
    ensures Holds(h[TableAt(t, path) := h[TableAt(t, path)] - {k}], Drop(t, path, k))
  {
    hide Find, Drop, Shallow, HasTable, TableAt;
    var r, target := Drop(t, path, k), TableAt(t, path);
    var w := h[target := h[target] - {k}];
    ShallowWith(ChildrenAt(t, path), k, t);
    forall p: Path | HasTable(r, p) ensures TableAt(r, p) in w && w[TableAt(r, p)] == Shallow(ChildrenAt(r, p)) {
      OriginAfterDrop(t, path, k, p);
    }
    forall p: Path, q: Path | HasTable(r, p) && HasTable(r, q) && TableAt(r, p) == TableAt(r, q) ensures p == q {
      OriginAfterDrop(t, path, k, p);
      OriginAfterDrop(t, path, k, q);
    }
    ShownByChildren(w, r);
  }

  // ---- The edits ----

  /** The entry under `k` of the table a path leads to. */
  lemma OneKeyFurther(h: Heap, t: Tree, path: Path, k: string)
    requires HasTable(t, path) && Holds(h, t)
    ensures TableAt(t, path) in h
    ensures var entries := h[TableAt(t, path)];
            && Find(t, path + [k]) == (if k in ChildrenAt(t, path) then Some(ChildrenAt(t, path)[k]) else None)
            && (k in entries <==> k in ChildrenAt(t, path))
            && (k in entries ==> entries[k] == ValueOf(ChildrenAt(t, path)[k]))
            && (entries == map[] <==> ChildrenAt(t, path) == map[])
  {
    FindConcat(t, path, [k]);
    var children := ChildrenAt(t, path);
    assert [k][1..] == [];
    assert Find(Find(t, path).value, [k]) == if k in children then Some(children[k]) else None;
    assert children != map[] ==> exists c :: c in children;
    assert Shallow(children).Keys == children.Keys;
  }

  method GetConfigValue(root: Table, key: string, ghost t: Tree, ghost region: set<Table>) returns (r: Option<Value>)
    requires HasTable(t, []) && TableAt(t, []) == root && Holds(Snapshot(region), t)
    ensures var found := Find(t, SplitDots(key));
            r == if found.None? then None else Some(ValueOf(found.value))
  {
    hide Holds;
    var parts := SplitDots(key);
    var cursor: Option<Value> := Some(Sub(root));
    var i := 0;
    ghost var found := Some(t);
    while i < |parts|
      invariant 0 <= i <= |parts| && found == Find(t, parts[..i])
      invariant cursor == if found.None? then None else Some(ValueOf(found.value))
    {
      assert parts[..i + 1] == parts[..i] + [parts[i]];
      FindConcat(t, parts[..i], [parts[i]]);
      FindConcat(t, parts[..i], parts[i..]);
      assert parts[..i] + parts[i..] == parts;
      if cursor.None? || cursor.value.Text? { return None; }
      OneKeyFurther(Snapshot(region), t, parts[..i], parts[i]);
      var table := cursor.value.table;
      cursor := if parts[i] in table.entries then Some(table.entries[parts[i]]) else None;
      i := i + 1;
      found := Find(t, parts[..i]);
    }
    assert parts[..i] == parts;
    return cursor;
  }

  ghost function All(tables: seq<Table>): set<Table> {
    set table | table in tables
  }

  /** A new empty table holds nothing and stands apart from every tree shown so far. */
  lemma NewTable(h: Heap, table: Table, t: Tree)
    requires Shows(h, t) && table !in h
    ensures Holds(h[table := map[]], Node(table, map[])) && Apart(t, Node(table, map[]))
    ensures Apart(Node(table, map[]), t)
    ensures Shows(h[table := map[]], t)
  {
    var newTable := Node(table, map[]);
    forall p: Path | HasTable(newTable, p) ensures p == [] {
      NothingInEmpty(table, p);
    }
    assert Shallow(map[]) == map[];
  }

  /** A heap that differs only on other tables shows the same trees. */
  lemma StillShows(h: Heap, g: Heap, t: Tree)
    requires Shows(h, t)
    requires forall p: Path :: HasTable(t, p) ==> TableAt(t, p) in g && g[TableAt(t, p)] == h[TableAt(t, p)]
    ensures Shows(g, t)
  {}

  /** What the walk of `assignConfigValue` knows after some keys. */
  ghost predicate Walked(h: Heap, t: Tree, path: Path, made: seq<Table>, v: Tree, cursor: Table) {
    && t.Node? && |made| == Missing(t, path)
    && var e := Ensure(t, path, made);
       && HasTable(e, path) && TableAt(e, path) == cursor
       && Holds(h, e) && Holds(h, v) && Apart(e, v)
  }

  /** The next key leads to a table already. */
  lemma WalkOn(h: Heap, t: Tree, path: Path, k: string, made: seq<Table>, v: Tree, cursor: Table, next: Table)
    requires Walked(h, t, path, made, v, cursor)
    requires cursor in h && k in h[cursor] && h[cursor][k] == Sub(next)
    ensures Walked(h, t, path + [k], made, v, next)
  {
    hide Ensure, Holds, Apart, Shallow, Missing;
    var e := Ensure(t, path, made);
    OneKeyFurther(h, e, path, k);
    EnsureOneMore(t, path, k, made, next);
  }

  /** The next key leads to no table, and a new one is put there. */
  lemma WalkNew(h: Heap, t: Tree, path: Path, k: string, made: seq<Table>, v: Tree, cursor: Table, table: Table)
    requires Walked(h, t, path, made, v, cursor) && table !in h
    requires cursor in h && !(k in h[cursor] && h[cursor][k].Sub?)
    ensures Walked(Written(h[table := map[]], cursor, k, Sub(table)), t, path + [k], made + [table], v, table)
  {
    hide Ensure, Shallow, Missing, Put;
    var e := Ensure(t, path, made);
    OneKeyFurther(h, e, path, k);
    EnsureOneMore(t, path, k, made, table);
    var g := h[table := map[]];
    var sub := Node(table, map[]);
    NewTable(h, table, e);
    NewTable(h, table, v);
    PutHolds(g, e, path, k, sub);
    PutStaysApart(e, path, k, sub, v);
    PutBelow(e, path, k, sub, []);
    assert path + [k] + [] == path + [k];
    StillShows(g, Written(g, cursor, k, Sub(table)), v);
  }

  /** `cursor[part] = {}`. */
  method CreateTable(cursor: Table, part: string, ghost region: set<Table>) returns (table: Table)
    requires cursor in region
    modifies cursor
    ensures fresh(table) && table !in old(Snapshot(region))
    ensures Snapshot(region + {table}) == Written(old(Snapshot(region))[table := map[]], cursor, part, Sub(table))
  {
    table := new Table();
    cursor.entries := cursor.entries[part := Sub(table)];
  }

  method SetEntry(table: Table, k: string, v: Value, ghost region: set<Table>)
    requires table in region
    modifies table
    ensures Snapshot(region) == Written(old(Snapshot(region)), table, k, v)
  {
    table.entries := table.entries[k := v];
  }

  lemma OneMoreTable(region: set<Table>, made: seq<Table>, table: Table)
    ensures region + All(made + [table]) == region + All(made) + {table}
  {}

  /** `assignConfigValue`; `made` are the tables it creates on the way. */
  method AssignConfigValue(root: Table, key: string, value: Value, ghost t: Tree, ghost v: Tree,
                           ghost region: set<Table>)
    returns (error: Option<KeyError>, ghost made: seq<Table>)
    requires t.Node? && t.table == root && value == ValueOf(v)
    requires Holds(Snapshot(region), t) && Holds(Snapshot(region), v) && Apart(t, v)
    modifies region
    ensures error == CheckKey(key)
    ensures error.Some? ==> Snapshot(region) == old(Snapshot(region))
    ensures error.None? ==>
      && |made| == Missing(t, SplitDots(key)[..|SplitDots(key)| - 1])
      && (forall table :: table in made ==> fresh(table))
      && Holds(Snapshot(region + All(made)), Assign(t, SplitDots(key), v, made))
  {
    hide Holds, Apart, CheckKey, Missing, Assign, Snapshot, Written, Walked;
    made := [];
    error := CheckKey(key);
    if error.Some? { return; }
    var parts := SplitDots(key);
    var n := |parts| - 1;
    var cursor := root;
    var i := 0;
    assert parts[..0] == [] && region + All([]) == region;
    WalkStarts(region, t, v, root);
    while i < n
      invariant 0 <= i <= n && (forall table :: table in made ==> fresh(table))
      invariant forall table :: table in region + All(made) ==> table in region || fresh(table)
      invariant Walked(Snapshot(region + All(made)), t, parts[..i], made, v, cursor)
      invariant cursor in region + All(made)
    {
      ghost var now := region + All(made);
      ghost var h := Snapshot(now);
      var part := parts[i];
      assert parts[..i + 1] == parts[..i] + [part];
      CursorIsShown(now, t, parts[..i], made, v, cursor);
      var isTable := part in cursor.entries && cursor.entries[part].Sub?;
      if isTable {
        var next := cursor.entries[part].table;
        WalkOn(h, t, parts[..i], part, made, v, cursor, next);
        cursor := next;
        CursorIsShown(now, t, parts[..i + 1], made, v, cursor);
      } else {
        var table := CreateTable(cursor, part, now);
        WalkNew(h, t, parts[..i], part, made, v, cursor, table);
        OneMoreTable(region, made, table);
        made := made + [table];
        cursor := table;
      }
      i := i + 1;
    }
    WalkEnds(Snapshot(region + All(made)), t, parts, made, v, cursor);
    CursorIsShown(region + All(made), t, parts[..n], made, v, cursor);
    SetEntry(cursor, parts[n], value, region + All(made));
  }

  lemma WalkEnds(h: Heap, t: Tree, parts: Path, made: seq<Table>, v: Tree, cursor: Table)
    requires parts != [] && Walked(h, t, parts[..|parts| - 1], made, v, cursor)
    ensures |made| == Missing(t, parts[..|parts| - 1])
    ensures cursor in h && Holds(Written(h, cursor, parts[|parts| - 1], ValueOf(v)), Assign(t, parts, v, made))
  {
    hide Holds, Apart, Put;
    var n := |parts| - 1;
    PutHolds(h, Ensure(t, parts[..n], made), parts[..n], parts[n], v);
  }

  lemma EnsureNothing(t: Tree)
    requires t.Node?
    ensures Missing(t, []) == 0 && Ensure(t, [], []) == t && HasTable(t, []) && TableAt(t, []) == t.table
  {}

  lemma WalkStarts(region: set<Table>, t: Tree, v: Tree, root: Table)
    requires t.Node? && t.table == root
    requires Holds(Snapshot(region), t) && Holds(Snapshot(region), v) && Apart(t, v)
    ensures Walked(Snapshot(region), t, [], [], v, root) && root in region
  {
    EnsureNothing(t);
    CursorIsShown(region, t, [], [], v, root);
  }

  lemma CursorIsShown(region: set<Table>, t: Tree, path: Path, made: seq<Table>, v: Tree, cursor: Table)
    requires Walked(Snapshot(region), t, path, made, v, cursor)
    ensures cursor in region && cursor in Snapshot(region) && Snapshot(region)[cursor] == cursor.entries
  {
    OneKeyFurther(Snapshot(region), Ensure(t, path, made), path, "");
  }

  /** The chain holds the tables along the path, the root first. */
  ghost predicate Chained(t: Tree, path: Path, chain: seq<Table>) {
    && |chain| == |path| + 1
    && forall j :: 0 <= j <= |path| ==> HasTable(t, path[..j]) && TableAt(t, path[..j]) == chain[j]
  }

  method DropEntry(table: Table, k: string, ghost region: set<Table>, ghost t: Tree, ghost path: Path)
    requires Holds(Snapshot(region), t) && HasTable(t, path) && TableAt(t, path) == table && table in region
    modifies table
    ensures Holds(Snapshot(region), Drop(t, path, k))
  {
    hide Holds;
    DropHolds(Snapshot(region), t, path, k);
    ghost var h := Snapshot(region);
    table.entries := table.entries - {k};
    assert Snapshot(region) == h[table := h[table] - {k}];
  }

  lemma ChainGrows(t: Tree, path: Path, k: string, chain: seq<Table>, table: Table)
    requires Chained(t, path, chain) && HasTable(t, path + [k]) && TableAt(t, path + [k]) == table
    ensures Chained(t, path + [k], chain + [table])
  {
    hide HasTable, TableAt;
    assert (path + [k])[..|path| + 1] == path + [k];
    assert forall j :: 0 <= j <= |path| ==> (path + [k])[..j] == path[..j];
  }

  /** Dropping an entry of the last table leaves the chain; the last key then goes with its table. */
  lemma ChainAfterDrop(t: Tree, path: Path, k: string, chain: seq<Table>)
    requires Chained(t, path, chain)
    ensures HasTable(t, path) && Chained(Drop(t, path, k), path, chain)
  {
    hide HasTable, TableAt, Drop;
    assert path[..|path|] == path;
    var r := Drop(t, path, k);
    forall j | 0 <= j <= |path| ensures HasTable(r, path[..j]) && TableAt(r, path[..j]) == TableAt(t, path[..j]) {
      KeptByDrop(t, path, k, j);
    }
  }

  lemma KeptByDrop(t: Tree, path: Path, k: string, j: nat)
    requires HasTable(t, path) && j <= |path| && HasTable(t, path[..j])
    ensures var r := Drop(t, path, k); HasTable(r, path[..j]) && TableAt(r, path[..j]) == TableAt(t, path[..j])
  {
    if j == |path| {
      assert path[..j] == path;
      DropHere(t, path, k);
    } else {
      DropAbove(t, path, k, path[..j]);
    }
  }

  lemma ChainShrinks(t: Tree, path: Path, chain: seq<Table>, m: nat)
    requires Chained(t, path, chain) && m <= |path|
    ensures Chained(t, path[..m], chain[..m + 1])
  {
    assert forall j :: 0 <= j <= m ==> path[..m][..j] == path[..j];
  }

  lemma ChainEnd(region: set<Table>, t: Tree, path: Path, chain: seq<Table>)
    requires Chained(t, path, chain) && Holds(Snapshot(region), t)
    ensures HasTable(t, path) && TableAt(t, path) == chain[|path|] && chain[|path|] in region
    ensures Snapshot(region)[chain[|path|]] == chain[|path|].entries
  {
    assert path[..|path|] == path;
    OneKeyFurther(Snapshot(region), t, path, "");
  }

  /** `deleteConfigValue`: whether the value was there, and the tables without it. */
  method DeleteConfigValue(root: Table, key: string, ghost t: Tree, ghost region: set<Table>)
    returns (error: Option<KeyError>, removed: bool)
    requires t.Node? && t.table == root && Holds(Snapshot(region), t)
    modifies region
    ensures error == CheckKey(key)
    ensures removed <==> error.None? && Delete(t, SplitDots(key)).Some?
    ensures !removed ==> Snapshot(region) == old(Snapshot(region))
    ensures removed ==> Holds(Snapshot(region), Delete(t, SplitDots(key)).value)
  {
    hide Holds, CheckKey, Snapshot, Delete, Prune, Chained, Drop, HasTable, Find;
    error := CheckKey(key);
    removed := false;
    if error.Some? { return; }
    var parts := SplitDots(key);
    var n := |parts| - 1;
    var chain := [root];
    RootChain(t);
    assert parts[..0] == [];
    var i := 0;
    while i < n
      invariant 0 <= i <= n && |chain| == i + 1 && Chained(t, parts[..i], chain)
      invariant Snapshot(region) == old(Snapshot(region))
    {
      assert parts[..i + 1] == parts[..i] + [parts[i]];
      ChainEnd(region, t, parts[..i], chain);
      OneKeyFurther(Snapshot(region), t, parts[..i], parts[i]);
      FoundOnTheWay(t, parts, i + 1);
      var last := chain[|chain| - 1];
      if !(parts[i] in last.entries && last.entries[parts[i]].Sub?) { return; }
      var next := last.entries[parts[i]].table;
      FoundTable(t, parts[..i + 1], next);
      ChainGrows(t, parts[..i], parts[i], chain, next);
      chain := chain + [next];
      i := i + 1;
    }
    ghost var front := parts[..n];
    assert parts == front + [parts[n]];
    ChainEnd(region, t, front, chain);
    OneKeyFurther(Snapshot(region), t, front, parts[n]);
    DeleteFinds(t, parts);
    var leaf := chain[n];
    if parts[n] !in leaf.entries { return; }
    DeleteIsPrune(t, parts);
    DropEntry(leaf, parts[n], region, t, front);
    ghost var now := Drop(t, front, parts[n]);
    ChainAfterDrop(t, front, parts[n], chain);
    assert chain[..n + 1] == chain;
    var index := n;
    while index > 0
      invariant 0 <= index <= n && |chain| == n + 1
      invariant Holds(Snapshot(region), now) && Chained(now, parts[..index], chain[..index + 1])
      invariant HasTable(now, parts[..index]) && Delete(t, parts) == Some(Prune(now, parts[..index]))
    {
      ghost var path, up := parts[..index], parts[..index - 1];
      ghost var some := chain[..index + 1];
      ChainEnd(region, now, path, some);
      OneKeyFurther(Snapshot(region), now, path, "");
      if chain[index].entries != map[] { break; }
      PruneStep(now, path);
      assert path[..index - 1] == up && path[index - 1] == parts[index - 1];
      ChainShrinks(now, path, some, index - 1);
      assert some[..index] == chain[..index];
      ChainEnd(region, now, up, chain[..index]);
      ChainAfterDrop(now, up, parts[index - 1], chain[..index]);
      DropEntry(chain[index - 1], parts[index - 1], region, now, up);
      now := Drop(now, up, parts[index - 1]);
      index := index - 1;
    }
    PruneStops(now, parts[..index]);
    removed := true;
  }

  lemma RootChain(t: Tree)
    requires t.Node?
    ensures Chained(t, [], [t.table])
  {}

  /** What is absent on the way to the key, or not a table, ends the search. */
  lemma FoundOnTheWay(t: Tree, parts: Path, m: nat)
    requires t.Node? && 0 < m < |parts|
    ensures Delete(t, parts).Some? ==> HasTable(t, parts[..m])
  {
    DeleteFinds(t, parts);
    FindConcat(t, parts[..m], parts[m..]);
    assert parts[..m] + parts[m..] == parts;
  }

  lemma FoundTable(t: Tree, path: Path, table: Table)
    requires Find(t, path).Some? && ValueOf(Find(t, path).value) == Sub(table)
    ensures HasTable(t, path) && TableAt(t, path) == table
  {}

  lemma PruneStops(t: Tree, path: Path)
    requires HasTable(t, path) && (path == [] || ChildrenAt(t, path) != map[])
    ensures Prune(t, path) == t
  {}
}
