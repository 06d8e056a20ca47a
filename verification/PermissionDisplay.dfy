/**
 * The bounded formatter for permission requests (packages/app-runtime/src/permission-display.ts).
 *
 * `DisplayBudget` is the mutable budget that the recursive printer threads through the whole value,
 * together with the `seen` set of objects currently being printed. Every exception of the source is a
 * `None` here: the public functions catch all of them alike. The Unicode property tables are the set
 * `escaped` of code points that must not be shown raw; nothing is assumed about it.
 */
module PermissionDisplay {
  import opened Results
  import opened JsValues
  import opened JsonText
  import JsonReader

  const MAX_DISPLAY_DEPTH: nat := 32
  const MAX_DISPLAY_NODES: nat := 4096
  const MAX_DISPLAY_CODE_POINTS: nat := 16384
  const MAX_DISPLAY_BYTES: nat := 64 * 1024

  datatype DisplayResult = DisplayResult(approvable: bool, text: Text)

  // ----- What the printer must achieve -----

  datatype Purse = Purse(nodes: int, codePoints: int, bytes: int) {
    ghost predicate Solvent() {
      nodes >= 0 && codePoints >= 0 && bytes >= 0
    }

    /** What is left after visiting `n` nodes and printing `text`. */
    ghost function Pay(n: nat, text: Text): Purse {
      Purse(nodes - n, codePoints - |text|, bytes - Utf8Length(text))
    }
  }

  /** A display starts with everything the limits allow. */
  ghost const FULL_PURSE := Purse(MAX_DISPLAY_NODES, MAX_DISPLAY_CODE_POINTS, MAX_DISPLAY_BYTES)

  lemma PayTwice(p: Purse, n: nat, s: Text, m: nat, t: Text)
    ensures p.Pay(n, s).Pay(m, t) == p.Pay(n + m, s + t)
  {
    Utf8LengthConcat(s, t);
  }

  /** The printed form of `t` at this depth can be paid for, every bracket and comma included. */
  ghost predicate Fits(q: StringQuoting, t: Json, depth: nat, p: Purse) {
    depth + Height(t) <= MAX_DISPLAY_DEPTH && p.Pay(Size(t), Write(q, t)).Solvent()
  }

  /** No tree that `v` denotes fits. */
  ghost predicate Unfit(q: StringQuoting, h: Heap, v: JsValue, depth: nat, p: Purse) {
    forall t :: Unfolds(h, v, t) ==> !Fits(q, t, depth, p)
  }

  /** The first elements of the array `id` unfold to `trees`. */
  ghost predicate UnfoldsElements(h: Heap, id: nat, trees: seq<Json>)
    requires At(h, id).ArrayObject? && |trees| <= At(h, id).length
  {
    forall k: nat :: k < |trees| ==>
      && k in At(h, id).elements
      && At(h, id).elements[k].Data?
      && Unfolds(h, At(h, id).elements[k].value, trees[k])
  }

  ghost predicate UnfoldsMembers(h: Heap, id: nat, trees: seq<Member>)
    requires At(h, id).PlainObject? && |trees| <= |At(h, id).members|
  {
    forall k :: 0 <= k < |trees| ==>
      && At(h, id).members[k].prop.Data?
      && At(h, id).members[k].key == StringKey(trees[k].key)
      && Unfolds(h, At(h, id).members[k].prop.value, trees[k].value)
  }

  /** A set that has every index below `n` has exactly those iff it has `n` members. */
  lemma {:induction false} IndexCount(keys: set<nat>, n: nat)
    requires forall i: nat :: i < n ==> i in keys
    ensures |keys| >= n
    ensures |keys| == n <==> forall i :: i in keys ==> i < n
  {
    if n > 0 {
      IndexCount(keys - {n - 1}, n - 1);
      assert forall i :: i in keys - {n - 1} <==> i in keys && i != n - 1;
      assert keys == (keys - {n - 1}) + {n - 1};
    } else if |keys| == 0 {
      assert keys == {};
    }
  }

  /** The source counts own keys instead of comparing them; once every index is there, that suffices. */
  lemma CountedArrayIsDense(o: JsObject)
    requires o.ArrayObject? && o.symbols == 0
    requires forall i: nat :: i < o.length ==> i in o.elements && o.elements[i].Data?
    ensures |o.elements| + |o.extras| == o.length <==> DenseArray(o)
  {
    assert |o.elements.Keys| == |o.elements|;
    IndexCount(o.elements.Keys, o.length);
    assert |o.extras| == 0 <==> o.extras == {};
  }

  lemma ChunkCost(chunks: seq<Text>, head: seq<Text>, next: Text)
    requires head + [next] <= chunks
    ensures Join(head + [next]) == Join(head) + Separator(|head|) + next
    ensures |Join(head + [next])| <= |Join(chunks)| && Utf8Length(Join(head + [next])) <= Utf8Length(Join(chunks))
  {
    JoinSnoc(head, next);
    JoinIsMonotone(chunks, |head| + 1);
    assert chunks[..|head| + 1] == head + [next];
  }

  lemma Bracketing(open: CodePoint, inner: Text, close: CodePoint)
    requires open < 0x80 && close < 0x80
    ensures |[open] + inner + [close]| == |inner| + 2
    ensures Utf8Length([open] + inner + [close]) == Utf8Length(inner) + 2
  {
    Utf8LengthConcat([open] + inner, [close]);
    Utf8LengthConcat([open], inner);
  }

  /** What an array and its printed form are made of. */
  lemma ArrayParts(q: StringQuoting, items: seq<Json>)
    ensures Size(Arr(items)) == 1 + SizeItems(items) && Height(Arr(items)) == HeightItems(items)
    ensures Write(q, Arr(items)) == [OPEN_BRACKET] + Join(ItemTexts(q, items)) + [CLOSE_BRACKET]
    ensures |Write(q, Arr(items))| == |Join(ItemTexts(q, items))| + 2
    ensures Utf8Length(Write(q, Arr(items))) == Utf8Length(Join(ItemTexts(q, items))) + 2
  {
    WriteItemsIsJoin(q, items);
    Bracketing(OPEN_BRACKET, WriteItems(q, items), CLOSE_BRACKET);
  }

  lemma ObjectParts(q: StringQuoting, members: seq<Member>)
    ensures Size(Obj(members)) == 1 + SizeMembers(members) && Height(Obj(members)) == HeightMembers(members)
    ensures Write(q, Obj(members)) == [OPEN_BRACE] + Join(MemberTexts(q, members)) + [CLOSE_BRACE]
    ensures |Write(q, Obj(members))| == |Join(MemberTexts(q, members))| + 2
    ensures Utf8Length(Write(q, Obj(members))) == Utf8Length(Join(MemberTexts(q, members))) + 2
  {
    WriteMembersIsJoin(q, members);
    Bracketing(OPEN_BRACE, WriteMembers(q, members), CLOSE_BRACE);
  }

  /** An array that can be paid for leaves enough, after its first `i` elements, for the next one. */
  lemma ItemFits(q: StringQuoting, items: seq<Json>, i: nat, depth: nat, p: Purse)
    requires i < |items| && Fits(q, Arr(items), depth, p)
    ensures
      var left := p.Pay(1 + SizeItems(items[..i]), Join(ItemTexts(q, items[..i])) + Separator(i));
      left.Solvent() && Fits(q, items[i], depth + 1, left)
  {
    hide Write, Join, Size, SizeItems, Height, HeightItems, Utf8Length;
    var head, chunks := items[..i], ItemTexts(q, items);
    assert items == head + [items[i]] + items[i + 1..];
    SizeOfItemsSplits(head + [items[i]], items[i + 1..]);
    SizeOfItemsSplits(head, [items[i]]);
    SizeOfOneItem(items[i]);
    HeightOfItem(items, i);
    ArrayParts(q, items);
    assert chunks[..i + 1] == ItemTexts(q, head) + [Write(q, items[i])];
    ChunkCost(chunks, ItemTexts(q, head), Write(q, items[i]));
    PayTwice(p, 1 + SizeItems(head), Join(ItemTexts(q, head)) + Separator(i), Size(items[i]), Write(q, items[i]));
  }

  lemma SizeOfOneItem(item: Json)
    ensures SizeItems([item]) == Size(item) && HeightItems([item]) == 1 + Height(item)
  {}

  lemma SizeOfOneMember(m: Member)
    ensures SizeMembers([m]) == Size(m.value) && HeightMembers([m]) == 1 + Height(m.value)
  {}

  lemma MemberFits(q: StringQuoting, members: seq<Member>, i: nat, depth: nat, p: Purse)
    requires i < |members| && Fits(q, Obj(members), depth, p)
    ensures
      var before := Join(MemberTexts(q, members[..i])) + Separator(i) + (Quote(q, members[i].key) + [COLON]);
      var left := p.Pay(1 + SizeMembers(members[..i]), before);
      left.Solvent() && Fits(q, members[i].value, depth + 1, left)
  {
    hide Write, Join, Size, SizeMembers, Height, HeightMembers, Utf8Length, Quote;
    var head, chunks, m := members[..i], MemberTexts(q, members), members[i];
    assert members == head + [m] + members[i + 1..];
    SizeOfMembersSplits(head + [m], members[i + 1..]);
    SizeOfMembersSplits(head, [m]);
    SizeOfOneMember(m);
    HeightOfMember(members, i);
    ObjectParts(q, members);
    assert chunks[..i + 1] == MemberTexts(q, head) + [WriteMember(q, m)];
    ChunkCost(chunks, MemberTexts(q, head), WriteMember(q, m));
    var before := Join(MemberTexts(q, head)) + Separator(i) + (Quote(q, m.key) + [COLON]);
    assert before + Write(q, m.value) == Join(MemberTexts(q, head)) + Separator(i) + WriteMember(q, m);
    PayTwice(p, 1 + SizeMembers(head), before, Size(m.value), Write(q, m.value));
  }

  /** The printer's own punctuation is one byte per character. */
  lemma AsciiWidths()
    ensures Utf8Length([]) == 0
    ensures forall c: CodePoint :: c < 0x80 ==> Utf8Length([c]) == 1
    ensures forall q: Quoting :: WriteText(q, []) == []
  {}

  predicate AllDigits(s: Text) {
    |s| > 0 && forall i :: 0 <= i < |s| ==> '0' as int <= s[i] <= '9' as int
  }

  // ----- The printer -----

  class DisplayBudget {
    const escaped: set<CodePoint>
    const heap: Heap
    var nodes: int
    var codePoints: int
    var bytes: int
    var seen: set<nat>

    constructor (escaped: set<CodePoint>, heap: Heap, nodes: nat)
      ensures this.escaped == escaped && this.heap == heap && seen == {}
      ensures Left() == Purse(nodes, MAX_DISPLAY_CODE_POINTS, MAX_DISPLAY_BYTES)
    {
      this.escaped, this.heap, this.nodes := escaped, heap, nodes;
      codePoints, bytes, seen := MAX_DISPLAY_CODE_POINTS, MAX_DISPLAY_BYTES, {};
    }

    ghost function Left(): Purse
      reads this
    {
      Purse(nodes, codePoints, bytes)
    }

    ghost function Q(): StringQuoting {
      DisplayQuoting(escaped)
    }

    /** Pays for a text; false stands for the exception thrown once either output budget is overdrawn. */
    method Take(t: Text) returns (ok: bool)
      modifies this`codePoints, this`bytes
      ensures Left() == old(Left()).Pay(0, t)
      ensures ok <==> codePoints >= 0 && bytes >= 0
    {
      codePoints := codePoints - |t|;
      bytes := bytes - Utf8Length(t);
      ok := codePoints >= 0 && bytes >= 0;
    }

    method QuoteString(s: Text) returns (r: Option<Text>)
      requires Left().Solvent()
      modifies this`codePoints, this`bytes
      ensures r.Some? <==> old(Left()).Pay(0, Quote(Q(), s)).Solvent()
      ensures r.Some? ==> r.value == Quote(Q(), s) && Left() == old(Left()).Pay(0, r.value)
      ensures r.Some? ==> JsonReader.ReadValue(r.value) == JsonReader.Got(Str(s), [])
    {
      hide WriteText, WriteChar, Utf8Length, JsonReader.ReadValue;
      ghost var q := Q();
      Bracketing(QUOTE, WriteText(q, s), QUOTE);
      AsciiWidths();
      var ok := Take([QUOTE]);
      if !ok {
        return None;
      }
      var output: Text := [];
      var i := 0;
      while i < |s|
        invariant i <= |s| && output == WriteText(q, s[..i])
        invariant Left().Solvent() && Left() == old(Left()).Pay(0, [QUOTE]).Pay(0, output)
      {
        var piece := WriteChar(DisplayQuoting(escaped), s[i]);
        ok := Take(piece);
        assert s[..i + 1] == s[..i] + [s[i]];
        WriteTextSnoc(q, s[..i], s[i]);
        Utf8LengthConcat(output, piece);
        if !ok {
          WriteTextOfPrefix(q, s, i + 1);
          return None;
        }
        output := output + piece;
        assert output == WriteText(q, s[..i + 1]);
        i := i + 1;
      }
      assert s[..i] == s;
      ok := Take([QUOTE]);
      if !ok {
        return None;
      }
      r := Some([QUOTE] + output + [QUOTE]);
      JsonReader.QuotedIsRead(q, s);
    }

    method TakeAll(t: Text) returns (r: Option<Text>)
      requires Left().Solvent()
      modifies this`codePoints, this`bytes
      ensures r.Some? <==> old(Left()).Pay(0, t).Solvent()
      ensures r.Some? ==> r.value == t && Left() == old(Left()).Pay(0, t)
    {
      var ok := Take(t);
      r := if ok then Some(t) else None;
    }

    /**
     * Prints one value. Success returns the printed form of the one tree the value denotes and pays
     * exactly for it; failure means that no tree it may denote fits what the purse held.
     */
    method RenderValue(v: JsValue, depth: nat) returns (r: Option<Text>, ghost tree: Json)
      requires Left().Solvent() && depth <= MAX_DISPLAY_DEPTH + 1
      requires Ancestors(heap, seen, v)
      modifies this
      ensures seen == old(seen)
      ensures r.Some? ==> Unfolds(heap, v, tree) && r.value == Write(Q(), tree)
      ensures r.Some? ==> JsonReader.ReadValue(r.value) == JsonReader.Got(tree, [])
      ensures r.Some? ==> depth + Height(tree) <= MAX_DISPLAY_DEPTH
      ensures r.Some? ==> Left().Solvent() && Left() == old(Left()).Pay(Size(tree), r.value)
      ensures r.None? ==> Unfit(Q(), heap, v, depth, old(Left()))
      decreases MAX_DISPLAY_DEPTH + 1 - depth, 3
    {
      tree := Null;
      ghost var start := Left();
      hide Write, Size, Height, Utf8Length, JsonReader.ReadValue;
      nodes := nodes - 1;
      if nodes < 0 || depth > MAX_DISPLAY_DEPTH {
        forall t ensures !Fits(Q(), t, depth, start) {
          assert Size(t) >= 1 && Height(t) >= 0;
        }
        assert Unfit(Q(), heap, v, depth, start);
        return None, tree;
      }
      if v.JsRef? {
        var id := v.id;
        if id in seen {
          forall t ensures !Unfolds(heap, v, t) {
            RevisitedHasNoUnfolding(heap, seen, id, t);
          }
          assert Unfit(Q(), heap, v, depth, start);
          return None, tree;
        }
        seen := seen + {id};
        assert seen - {id} == old(seen) && start == Left().(nodes := nodes + 1);
        match At(heap, id) {
          case ArrayObject(_, _, _, _) =>
            r, tree := RenderArray(id, depth);
          case PlainObject(_) =>
            r, tree := RenderObject(id, depth);
          case ForeignObject =>
            MalformedUnfit(Q(), heap, id, depth, start);
            r := None;
        }
        seen := seen - {id};
      } else {
        r, tree := RenderScalar(v);
        if r.None? {
          if Unfolds(heap, v, tree) {
            ScalarParts(tree);
            OnlyTree(Q(), heap, v, tree, depth, start);
            assert Unfit(Q(), heap, v, depth, start);
          } else {
            assert forall t :: !Unfolds(heap, v, t);
            assert Unfit(Q(), heap, v, depth, start);
          }
        }
      }
      JsonReader.WrittenIsRead(Q(), tree);
    }

    /** The branches of `renderValue` for values other than objects. */
    method RenderScalar(v: JsValue) returns (r: Option<Text>, ghost tree: Json)
      requires Left().Solvent() && !v.JsRef?
      modifies this`codePoints, this`bytes
      ensures Unfolds(heap, v, tree) || (r.None? && forall t :: !Unfolds(heap, v, t))
      ensures r.Some? ==> Unfolds(heap, v, tree) && Size(tree) == 1 && Height(tree) == 0
      ensures r.Some? ==> r.value == Write(Q(), tree) && Left() == old(Left()).Pay(0, r.value) && Left().Solvent()
      ensures r.None? && Unfolds(heap, v, tree) ==> !old(Left()).Pay(0, Write(Q(), tree)).Solvent()
    {
      hide Utf8Length;
      tree := Null;
      match v
      case JsNull =>
        r := TakeAll(Ascii("null"));
      case JsString(s) =>
        tree := Str(s);
        r := QuoteString(s);
      case JsBool(b) =>
        tree := Bool(b);
        r := TakeAll(if b then Ascii("true") else Ascii("false"));
      case JsNumber(text) =>
        tree := Num(text);
        r := TakeAll(text);
      case JsInexact => r := None;
      case JsOther => r := None;
    }

    /** The array branch of `renderValue`, entered with the array already in `seen` and its node paid. */
    method RenderArray(id: nat, depth: nat) returns (r: Option<Text>, ghost tree: Json)
      requires Left().Solvent() && depth <= MAX_DISPLAY_DEPTH
      requires At(heap, id).ArrayObject? && id in seen && Ancestors(heap, seen - {id}, JsRef(id))
      modifies this
      ensures seen == old(seen)
      ensures r.Some? ==> Unfolds(heap, JsRef(id), tree) && r.value == Write(Q(), tree)
      ensures r.Some? ==> depth + Height(tree) <= MAX_DISPLAY_DEPTH
      ensures r.Some? ==> Left().Solvent() && Left() == old(Left().(nodes := nodes + 1)).Pay(Size(tree), r.value)
      ensures r.None? ==> Unfit(Q(), heap, JsRef(id), depth, old(Left().(nodes := nodes + 1)))
      decreases MAX_DISPLAY_DEPTH + 1 - depth, 2
    {
      tree := Null;
      ghost var q, start := Q(), Left().(nodes := nodes + 1);
      hide Write, Join, Size, Height, Utf8Length;
      var o := At(heap, id);
      if o.length > nodes || o.symbols != 0 {
        MalformedUnfit(q, heap, id, depth, start);
        return None, tree;
      }
      if |o.elements| + |o.extras| != o.length || exists e :: e in o.extras && !AllDigits(e) {
        if DenseArray(o) {
          CountedArrayIsDense(o);
        }
        MalformedUnfit(q, heap, id, depth, start);
        return None, tree;
      }
      var chunks, trees := RenderElements(id, depth);
      if chunks.None? {
        return None, tree;
      }
      CountedArrayIsDense(o);
      tree := Arr(trees);
      assert Unfolds(heap, JsRef(id), tree);
      ArrayParts(q, trees);
      AsciiWidths();
      var ok := Take([OPEN_BRACKET]);
      if ok {
        ok := Take([CLOSE_BRACKET]);
      }
      if !ok {
        OnlyTree(q, heap, JsRef(id), tree, depth, start);
        return None, tree;
      }
      r := Some([OPEN_BRACKET] + Join(chunks.value) + [CLOSE_BRACKET]);
    }

    /** The element loop so far: `trees` are the first elements, printed and paid for out of `start`. */
    ghost predicate ElementsDone(id: nat, depth: nat, trees: seq<Json>, start: Purse)
      reads this
    {
      && At(heap, id).ArrayObject? && |trees| <= At(heap, id).length
      && UnfoldsElements(heap, id, trees)
      && depth + HeightItems(trees) <= MAX_DISPLAY_DEPTH
      && Left().Solvent()
      && Left() == start.Pay(1 + SizeItems(trees), Join(ItemTexts(Q(), trees)))
    }

    method RenderElements(id: nat, depth: nat) returns (r: Option<seq<Text>>, ghost trees: seq<Json>)
      requires Left().Solvent() && depth <= MAX_DISPLAY_DEPTH
      requires At(heap, id).ArrayObject? && id in seen && Ancestors(heap, seen - {id}, JsRef(id))
      modifies this
      ensures seen == old(seen)
      ensures r.Some? ==> |trees| == At(heap, id).length && r.value == ItemTexts(Q(), trees)
      ensures r.Some? ==> ElementsDone(id, depth, trees, old(Left().(nodes := nodes + 1)))
      ensures r.None? ==> Unfit(Q(), heap, JsRef(id), depth, old(Left().(nodes := nodes + 1)))
      decreases MAX_DISPLAY_DEPTH + 1 - depth, 1
    {
      ghost var start := Left().(nodes := nodes + 1);
      AsciiWidths();
      trees := [];
      assert ElementsDone(id, depth, trees, start);
      hide ElementsDone, Unfit, Ancestors, Write;
      var chunks: seq<Text> := [];
      var i := 0;
      while i < At(heap, id).length
        invariant i <= At(heap, id).length && |trees| == i && seen == old(seen)
        invariant chunks == ItemTexts(Q(), trees) && ElementsDone(id, depth, trees, start)
      {
        var chunk, item := RenderElement(id, i, depth, trees, start);
        if chunk.None? {
          return None, trees;
        }
        chunks, trees := chunks + [chunk.value], trees + [item];
        i := i + 1;
      }
      r := Some(chunks);
    }

    /** One turn of the element loop: the comma, if any, and the element at `i`. */
    method RenderElement(id: nat, i: nat, depth: nat, ghost trees: seq<Json>, ghost start: Purse)
      returns (r: Option<Text>, ghost item: Json)
      requires depth <= MAX_DISPLAY_DEPTH
      requires At(heap, id).ArrayObject? && id in seen && Ancestors(heap, seen - {id}, JsRef(id))
      requires i == |trees| < At(heap, id).length && ElementsDone(id, depth, trees, start)
      modifies this
      ensures seen == old(seen)
      ensures r.Some? ==> r.value == Write(Q(), item) && ElementsDone(id, depth, trees + [item], start)
      ensures r.None? ==> Unfit(Q(), heap, JsRef(id), depth, start)
      decreases MAX_DISPLAY_DEPTH + 1 - depth, 0
    {
      ghost var q := Q();
      AsciiWidths();
      hide Write, Join, Size, SizeItems, Height, HeightItems, Utf8Length, Unfolds, UnfoldsElements,
           ItemTexts, Unfit, Ancestors, JsonReader.ReadValue;
      var o := At(heap, id);
      if i !in o.elements || o.elements[i].Guarded? {
        MalformedUnfit(q, heap, id, depth, start);
        return None, Null;
      }
      PayTwice(start, 1 + SizeItems(trees), Join(ItemTexts(q, trees)), 0, Separator(i));
      var ok := true;
      if i > 0 {
        ok := Take([COMMA]);
      }
      if !ok {
        ElementUnfit(q, heap, id, trees, depth, start);
        return None, Null;
      }
      AncestorsOfElement(heap, seen, id, o.elements[i].value);
      r, item := RenderValue(o.elements[i].value, depth + 1);
      if r.None? {
        ElementUnfit(q, heap, id, trees, depth, start);
      } else {
        PayTwice(start, 1 + SizeItems(trees), Join(ItemTexts(q, trees)) + Separator(i), Size(item), r.value);
        NextElement(q, heap, id, trees, item);
      }
    }

    /** The plain-object branch of `renderValue`. */
    method RenderObject(id: nat, depth: nat) returns (r: Option<Text>, ghost tree: Json)
      requires Left().Solvent() && depth <= MAX_DISPLAY_DEPTH
      requires At(heap, id).PlainObject? && id in seen && Ancestors(heap, seen - {id}, JsRef(id))
      modifies this
      ensures seen == old(seen)
      ensures r.Some? ==> Unfolds(heap, JsRef(id), tree) && r.value == Write(Q(), tree)
      ensures r.Some? ==> depth + Height(tree) <= MAX_DISPLAY_DEPTH
      ensures r.Some? ==> Left().Solvent() && Left() == old(Left().(nodes := nodes + 1)).Pay(Size(tree), r.value)
      ensures r.None? ==> Unfit(Q(), heap, JsRef(id), depth, old(Left().(nodes := nodes + 1)))
      decreases MAX_DISPLAY_DEPTH + 1 - depth, 2
    {
      tree := Null;
      ghost var q, start := Q(), Left().(nodes := nodes + 1);
      hide Write, Join, Size, Height, Utf8Length;
      var members := At(heap, id).members;
      if |members| > nodes || exists k :: 0 <= k < |members| && members[k].key.SymbolKey? {
        MalformedUnfit(q, heap, id, depth, start);
        return None, tree;
      }
      var chunks, trees := RenderMembers(id, depth);
      if chunks.None? {
        return None, tree;
      }
      tree := Obj(trees);
      assert Unfolds(heap, JsRef(id), tree);
      ObjectParts(q, trees);
      AsciiWidths();
      var ok := Take([OPEN_BRACE]);
      if ok {
        ok := Take([CLOSE_BRACE]);
      }
      if !ok {
        OnlyTree(q, heap, JsRef(id), tree, depth, start);
        return None, tree;
      }
      r := Some([OPEN_BRACE] + Join(chunks.value) + [CLOSE_BRACE]);
    }

    ghost predicate MembersDone(id: nat, depth: nat, trees: seq<Member>, start: Purse)
      reads this
    {
      && At(heap, id).PlainObject? && |trees| <= |At(heap, id).members|
      && UnfoldsMembers(heap, id, trees)
      && depth + HeightMembers(trees) <= MAX_DISPLAY_DEPTH
      && Left().Solvent()
      && Left() == start.Pay(1 + SizeMembers(trees), Join(MemberTexts(Q(), trees)))
    }

    method RenderMembers(id: nat, depth: nat) returns (r: Option<seq<Text>>, ghost trees: seq<Member>)
      requires Left().Solvent() && depth <= MAX_DISPLAY_DEPTH
      requires At(heap, id).PlainObject? && id in seen && Ancestors(heap, seen - {id}, JsRef(id))
      requires forall k :: 0 <= k < |At(heap, id).members| ==> At(heap, id).members[k].key.StringKey?
      modifies this
      ensures seen == old(seen)
      ensures r.Some? ==> |trees| == |At(heap, id).members| && r.value == MemberTexts(Q(), trees)
      ensures r.Some? ==> MembersDone(id, depth, trees, old(Left().(nodes := nodes + 1)))
      ensures r.None? ==> Unfit(Q(), heap, JsRef(id), depth, old(Left().(nodes := nodes + 1)))
      decreases MAX_DISPLAY_DEPTH + 1 - depth, 1
    {
      ghost var start := Left().(nodes := nodes + 1);
      AsciiWidths();
      trees := [];
      assert MembersDone(id, depth, trees, start);
      hide MembersDone, Unfit, Ancestors, Write, WriteMember;
      var chunks: seq<Text> := [];
      var i := 0;
      while i < |At(heap, id).members|
        invariant i <= |At(heap, id).members| && |trees| == i && seen == old(seen)
        invariant chunks == MemberTexts(Q(), trees) && MembersDone(id, depth, trees, start)
      {
        var chunk, m := RenderMember(id, i, depth, trees, start);
        if chunk.None? {
          return None, trees;
        }
        chunks, trees := chunks + [chunk.value], trees + [m];
        i := i + 1;
      }
      r := Some(chunks);
    }

    /** One turn of the member loop: the comma, if any, the quoted key, the colon and the value. */
    method RenderMember(id: nat, i: nat, depth: nat, ghost trees: seq<Member>, ghost start: Purse)
      returns (r: Option<Text>, ghost m: Member)
      requires depth <= MAX_DISPLAY_DEPTH
      requires At(heap, id).PlainObject? && id in seen && Ancestors(heap, seen - {id}, JsRef(id))
      requires i == |trees| < |At(heap, id).members| && MembersDone(id, depth, trees, start)
      requires At(heap, id).members[i].key.StringKey?
      modifies this
      ensures seen == old(seen)
      ensures r.Some? ==> r.value == WriteMember(Q(), m) && MembersDone(id, depth, trees + [m], start)
      ensures r.None? ==> Unfit(Q(), heap, JsRef(id), depth, start)
      decreases MAX_DISPLAY_DEPTH + 1 - depth, 0
    {
      ghost var q := Q();
      AsciiWidths();
      hide Write, Quote, Join, Size, SizeMembers, Height, HeightMembers, Utf8Length, Unfolds, UnfoldsMembers,
           MemberTexts, Unfit, Ancestors, JsonReader.ReadValue;
      var name := At(heap, id).members[i].key.s;
      var prop := At(heap, id).members[i].prop;
      m := Member(name, Null);
      if prop.Guarded? {
        MalformedUnfit(q, heap, id, depth, start);
        return None, m;
      }
      ghost var before := Join(MemberTexts(q, trees)) + Separator(i);
      PayTwice(start, 1 + SizeMembers(trees), Join(MemberTexts(q, trees)), 0, Separator(i));
      PayTwice(start, 1 + SizeMembers(trees), before, 0, Quote(q, name) + [COLON]);
      var ok := true;
      if i > 0 {
        ok := Take([COMMA]);
      }
      var key: Option<Text> := None;
      if ok {
        key := QuoteKey(name);
      }
      if key.None? {
        MemberUnfit(q, heap, id, trees, depth, start);
        return None, m;
      }
      AncestorsOfElement(heap, seen, id, prop.value);
      var text, node := RenderValue(prop.value, depth + 1);
      if text.None? {
        MemberUnfit(q, heap, id, trees, depth, start);
        return None, m;
      }
      m := Member(name, node);
      r := Some(key.value + text.value);
      PayTwice(start, 1 + SizeMembers(trees), before + key.value, Size(node), text.value);
      assert before + key.value + text.value == before + r.value;
      NextMember(q, heap, id, trees, m);
    }

    /** A quoted key and its colon. */
    method QuoteKey(s: Text) returns (r: Option<Text>)
      requires Left().Solvent()
      modifies this`codePoints, this`bytes
      ensures r.Some? <==> old(Left()).Pay(0, Quote(Q(), s) + [COLON]).Solvent()
      ensures r.Some? ==> r.value == Quote(Q(), s) + [COLON] && Left() == old(Left()).Pay(0, r.value)
    {
      PayTwice(Left(), 0, Quote(Q(), s), 0, [COLON]);
      r := QuoteString(s);
      if r.Some? {
        var ok := Take([COLON]);
        r := if ok then Some(r.value + [COLON]) else None;
      }
    }
  }

  lemma NextItemUnfolds(h: Heap, id: nat, trees: seq<Json>, item: Json)
    requires At(h, id).ArrayObject? && |trees| < At(h, id).length && UnfoldsElements(h, id, trees)
    requires |trees| in At(h, id).elements && At(h, id).elements[|trees|].Data?
    requires Unfolds(h, At(h, id).elements[|trees|].value, item)
    ensures UnfoldsElements(h, id, trees + [item])
  {
    hide Unfolds;
  }

  /** What one more printed element adds to the loop's account. */
  lemma NextElement(q: StringQuoting, h: Heap, id: nat, trees: seq<Json>, item: Json)
    requires At(h, id).ArrayObject? && |trees| < At(h, id).length && UnfoldsElements(h, id, trees)
    requires |trees| in At(h, id).elements && At(h, id).elements[|trees|].Data?
    requires Unfolds(h, At(h, id).elements[|trees|].value, item)
    ensures UnfoldsElements(h, id, trees + [item])
    ensures ItemTexts(q, trees + [item]) == ItemTexts(q, trees) + [Write(q, item)]
    ensures Join(ItemTexts(q, trees + [item])) == Join(ItemTexts(q, trees)) + Separator(|trees|) + Write(q, item)
    ensures SizeItems(trees + [item]) == SizeItems(trees) + Size(item)
    ensures HeightItems(trees + [item]) == Max(HeightItems(trees), 1 + Height(item))
  {
    hide Write, Join, Size, SizeItems, Height, HeightItems, Unfolds;
    NextItemUnfolds(h, id, trees, item);
    hide UnfoldsElements;
    assert ItemTexts(q, trees + [item]) == ItemTexts(q, trees) + [Write(q, item)];
    JoinSnoc(ItemTexts(q, trees), Write(q, item));
    SizeOfOneItem(item);
    SizeOfItemsSplits(trees, [item]);
    HeightOfItemsSplits(trees, [item]);
  }

  lemma NextMember(q: StringQuoting, h: Heap, id: nat, trees: seq<Member>, m: Member)
    requires At(h, id).PlainObject? && |trees| < |At(h, id).members| && UnfoldsMembers(h, id, trees)
    requires At(h, id).members[|trees|].key == StringKey(m.key) && At(h, id).members[|trees|].prop.Data?
    requires Unfolds(h, At(h, id).members[|trees|].prop.value, m.value)
    ensures UnfoldsMembers(h, id, trees + [m])
    ensures MemberTexts(q, trees + [m]) == MemberTexts(q, trees) + [WriteMember(q, m)]
    ensures Join(MemberTexts(q, trees + [m])) == Join(MemberTexts(q, trees)) + Separator(|trees|) + WriteMember(q, m)
    ensures SizeMembers(trees + [m]) == SizeMembers(trees) + Size(m.value)
    ensures HeightMembers(trees + [m]) == Max(HeightMembers(trees), 1 + Height(m.value))
  {
    hide Write, WriteMember, Join, Size, SizeMembers, Height, HeightMembers, Unfolds;
    assert MemberTexts(q, trees + [m]) == MemberTexts(q, trees) + [WriteMember(q, m)];
    JoinSnoc(MemberTexts(q, trees), WriteMember(q, m));
    SizeOfOneMember(m);
    SizeOfMembersSplits(trees, [m]);
    HeightOfMembersSplits(trees, [m]);
  }

  lemma AncestorsOfElement(h: Heap, seen: set<nat>, id: nat, c: JsValue)
    requires id in seen && Ancestors(h, seen - {id}, JsRef(id)) && IsChild(h, id, c)
    ensures Ancestors(h, seen, c)
  {
    AncestorsOfChild(h, seen - {id}, id, c);
    assert seen - {id} + {id} == seen;
  }

  lemma ScalarParts(t: Json)
    requires !t.Arr? && !t.Obj?
    ensures Size(t) == 1 && Height(t) == 0
  {}

  lemma OnlyTree(q: StringQuoting, h: Heap, v: JsValue, tree: Json, depth: nat, p: Purse)
    requires Unfolds(h, v, tree) && !Fits(q, tree, depth, p)
    ensures Unfit(q, h, v, depth, p)
  {
    forall t | Unfolds(h, v, t) ensures !Fits(q, t, depth, p) {
      UnfoldingIsUnique(h, v, t, tree);
    }
  }

  /** A sparse or decorated array, an object with hidden or symbol keys, or one too wide, has no fitting tree. */
  lemma MalformedUnfit(q: StringQuoting, h: Heap, id: nat, depth: nat, p: Purse)
    requires
      || (!DenseArray(At(h, id)) && !OpenObject(At(h, id)))
      || (At(h, id).ArrayObject? && At(h, id).length > p.nodes - 1)
      || (At(h, id).PlainObject? && |At(h, id).members| > p.nodes - 1)
    ensures Unfit(q, h, JsRef(id), depth, p)
  {
    hide Write, Utf8Length;
    forall t | Unfolds(h, JsRef(id), t) ensures !Fits(q, t, depth, p) {
      assert t.Arr? ==> Size(t) == 1 + SizeItems(t.items);
      assert t.Obj? ==> Size(t) == 1 + SizeMembers(t.members);
    }
  }

  /** If the next element fits nowhere in what its elder siblings leave, the array fits nowhere. */
  lemma ElementUnfit(q: StringQuoting, h: Heap, id: nat, trees: seq<Json>, depth: nat, p: Purse)
    requires At(h, id).ArrayObject? && |trees| < At(h, id).length && UnfoldsElements(h, id, trees)
    requires |trees| in At(h, id).elements && At(h, id).elements[|trees|].Data?
    requires
      var left := p.Pay(1 + SizeItems(trees), Join(ItemTexts(q, trees)) + Separator(|trees|));
      !left.Solvent() || Unfit(q, h, At(h, id).elements[|trees|].value, depth + 1, left)
    ensures Unfit(q, h, JsRef(id), depth, p)
  {
    hide Unfolds, UnfoldsElements, Fits, Write, Utf8Length, Join, ItemTexts, SizeItems;
    forall t | Unfolds(h, JsRef(id), t) ensures !Fits(q, t, depth, p) {
      UnfoldedPrefix(h, id, t, trees);
      if Fits(q, t, depth, p) {
        ItemFits(q, t.items, |trees|, depth, p);
      }
    }
  }

  lemma MemberUnfit(q: StringQuoting, h: Heap, id: nat, trees: seq<Member>, depth: nat, p: Purse)
    requires At(h, id).PlainObject? && |trees| < |At(h, id).members| && UnfoldsMembers(h, id, trees)
    requires At(h, id).members[|trees|].key.StringKey? && At(h, id).members[|trees|].prop.Data?
    requires
      var m := At(h, id).members[|trees|];
      var left := p.Pay(1 + SizeMembers(trees),
                        Join(MemberTexts(q, trees)) + Separator(|trees|) + (Quote(q, m.key.s) + [COLON]));
      !left.Solvent() || Unfit(q, h, m.prop.value, depth + 1, left)
    ensures Unfit(q, h, JsRef(id), depth, p)
  {
    hide Unfolds, UnfoldsMembers, Fits, Write, Quote, Utf8Length, Join, MemberTexts, SizeMembers;
    forall t | Unfolds(h, JsRef(id), t) ensures !Fits(q, t, depth, p) {
      UnfoldedMembersPrefix(h, id, t, trees);
      if Fits(q, t, depth, p) {
        MemberFits(q, t.members, |trees|, depth, p);
      }
    }
  }

  /** Every unfolding of an array starts with the trees already found for its first elements. */
  lemma UnfoldedPrefix(h: Heap, id: nat, t: Json, trees: seq<Json>)
    requires Unfolds(h, JsRef(id), t) && At(h, id).ArrayObject? && |trees| <= At(h, id).length
    requires UnfoldsElements(h, id, trees)
    ensures t.Arr? && |t.items| == At(h, id).length && t.items[..|trees|] == trees
    ensures |trees| < |t.items| ==> Unfolds(h, At(h, id).elements[|trees|].value, t.items[|trees|])
  {
    forall k: nat | k < |trees| ensures t.items[k] == trees[k] {
      UnfoldingIsUnique(h, At(h, id).elements[k].value, t.items[k], trees[k]);
    }
  }

  lemma UnfoldedMembersPrefix(h: Heap, id: nat, t: Json, trees: seq<Member>)
    requires Unfolds(h, JsRef(id), t) && At(h, id).PlainObject? && |trees| <= |At(h, id).members|
    requires UnfoldsMembers(h, id, trees)
    ensures t.Obj? && |t.members| == |At(h, id).members| && t.members[..|trees|] == trees
    ensures |trees| < |t.members| ==>
              && At(h, id).members[|trees|].key == StringKey(t.members[|trees|].key)
              && Unfolds(h, At(h, id).members[|trees|].prop.value, t.members[|trees|].value)
  {
    forall k | 0 <= k < |trees| ensures t.members[k] == trees[k] {
      UnfoldingIsUnique(h, At(h, id).members[k].prop.value, t.members[k].value, trees[k].value);
    }
  }

  lemma {:induction false} WriteTextOfPrefix(q: Quoting, s: Text, i: nat)
    requires i <= |s|
    ensures |WriteText(q, s[..i])| <= |WriteText(q, s)|
    ensures Utf8Length(WriteText(q, s[..i])) <= Utf8Length(WriteText(q, s))
    decreases |s| - i
  {
    if i == |s| {
      assert s[..i] == s;
    } else {
      assert s[..i + 1] == s[..i] + [s[i]];
      WriteTextSnoc(q, s[..i], s[i]);
      Utf8LengthConcat(WriteText(q, s[..i]), WriteChar(q, s[i]));
      WriteTextOfPrefix(q, s, i + 1);
    }
  }

  // ----- The two public formatters -----

  const LABEL_UNAVAILABLE: Text := Ascii("[permission label unavailable]")
  const DETAILS_UNAVAILABLE: Text := Ascii("[permission details unavailable - deny only]")

  ghost predicate FitsLabel(text: Text) {
    |text| <= MAX_DISPLAY_CODE_POINTS && Utf8Length(text) <= MAX_DISPLAY_BYTES
  }

  /** A tool name: shown without quotes, every unsafe character and backslash made visible. */
  method FormatPermissionTextForDisplay(escaped: set<CodePoint>, value: Text) returns (r: DisplayResult)
    ensures r.approvable <==> FitsLabel(WriteText(LabelQuoting(escaped), value))
    ensures r.text == if r.approvable then WriteText(LabelQuoting(escaped), value) else LABEL_UNAVAILABLE
    ensures r.approvable ==> JsonReader.ReadLabel(r.text) == JsonReader.Got(value, [])
  {
    ghost var q := LabelQuoting(escaped);
    JsonReader.LabelIsRead(escaped, value);
    hide JsonReader.ReadLabel;
    AsciiWidths();
    hide WriteText, WriteChar, Utf8Length;
    var budget := new DisplayBudget(escaped, map[], 1);
    var output: Text := [];
    var i := 0;
    while i < |value|
      invariant i <= |value| && output == WriteText(q, value[..i]) && fresh(budget)
      invariant budget.Left() == Purse(1, MAX_DISPLAY_CODE_POINTS, MAX_DISPLAY_BYTES).Pay(0, output)
      invariant budget.Left().Solvent()
    {
      var piece := WriteChar(LabelQuoting(escaped), value[i]);
      var ok := budget.Take(piece);
      assert value[..i + 1] == value[..i] + [value[i]];
      WriteTextSnoc(q, value[..i], value[i]);
      Utf8LengthConcat(output, piece);
      if !ok {
        WriteTextOfPrefix(q, value, i + 1);
        return DisplayResult(false, LABEL_UNAVAILABLE);
      }
      output := output + piece;
      i := i + 1;
    }
    assert value[..i] == value;
    r := DisplayResult(true, output);
  }

  /**
   * A permission value is approvable exactly when it denotes a finite JSON tree whose printed form
   * stays within all four limits, and then the text is that printed form.
   */
  method FormatPermissionValueForDisplay(escaped: set<CodePoint>, heap: Heap, value: JsValue) returns (r: DisplayResult)
    ensures r.approvable <==> exists t :: Unfolds(heap, value, t) && Fits(DisplayQuoting(escaped), t, 0, FULL_PURSE)
    ensures forall t :: r.approvable && Unfolds(heap, value, t) ==>
              r.text == Write(DisplayQuoting(escaped), t) && JsonReader.ReadValue(r.text) == JsonReader.Got(t, [])
    ensures r.approvable ==> |r.text| <= MAX_DISPLAY_CODE_POINTS && Utf8Length(r.text) <= MAX_DISPLAY_BYTES
    ensures !r.approvable ==> r.text == DETAILS_UNAVAILABLE
  {
    hide Write, Height, Size, Utf8Length, JsonReader.ReadValue;
    var budget := new DisplayBudget(escaped, heap, MAX_DISPLAY_NODES);
    var text, tree := budget.RenderValue(value, 0);
    if text.None? {
      return DisplayResult(false, DETAILS_UNAVAILABLE);
    }
    assert Fits(DisplayQuoting(escaped), tree, 0, FULL_PURSE);
    forall t | Unfolds(heap, value, t) ensures t == tree {
      UnfoldingIsUnique(heap, value, t, tree);
    }
    r := DisplayResult(true, text.value);
  }
}
