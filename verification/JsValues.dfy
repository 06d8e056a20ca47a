/**
 * JavaScript values as the permission code meets them: an object graph that may be shared, cyclic or
 * malformed, and the ordered JSON trees that are the only thing it may be shown or approved as.
 *
 * Strings are sequences of code points, the unit in which the source iterates over them; a lone
 * surrogate is a code point of its own. A finite number other than -0 is identified with its
 * canonical JSON text.
 */
module JsValues {

  type CodePoint = c: int | 0 <= c <= 0x10FFFF

  type Text = seq<CodePoint>

  function Ascii(s: string): (t: Text)
    ensures |t| == |s| && forall i :: 0 <= i < |s| ==> t[i] == s[i] as int
  {
    seq(|s|, i requires 0 <= i < |s| => s[i] as int)
  }

  predicate IsSurrogate(c: CodePoint) {
    0xD800 <= c <= 0xDFFF
  }

  /** Bytes of one code point in UTF-8; an unpaired surrogate becomes U+FFFD, three bytes. */
  function Utf8Width(c: CodePoint): (n: nat)
    ensures 1 <= n <= 4
  {
    if c < 0x80 then 1 else if c < 0x800 then 2 else if c < 0x10000 then 3 else 4
  }

  /** The byte sequences of RFC 3629, section 4, and the code points they encode. */
  ghost predicate Encodes(bytes: seq<int>, c: int) {
    && (forall i :: 1 <= i < |bytes| ==> 0x80 <= bytes[i] <= 0xBF)
    && match |bytes|
       case 1 => 0 <= bytes[0] <= 0x7F && c == bytes[0]
       case 2 => 0xC2 <= bytes[0] <= 0xDF && c == (bytes[0] - 0xC0) * 64 + (bytes[1] - 0x80)
       case 3 =>
         && 0xE0 <= bytes[0] <= 0xEF && (bytes[0] == 0xE0 ==> bytes[1] >= 0xA0)
         && c == (bytes[0] - 0xE0) * 4096 + (bytes[1] - 0x80) * 64 + (bytes[2] - 0x80)
       case 4 =>
         && 0xF0 <= bytes[0] <= 0xF4
         && (bytes[0] == 0xF0 ==> bytes[1] >= 0x90) && (bytes[0] == 0xF4 ==> bytes[1] <= 0x8F)
         && c == (bytes[0] - 0xF0) * 262144 + (bytes[1] - 0x80) * 4096 + (bytes[2] - 0x80) * 64 + (bytes[3] - 0x80)
       case _ => false
  }

  lemma EncodingIsThisWide(bytes: seq<int>, c: CodePoint)
    requires Encodes(bytes, c)
    ensures |bytes| == Utf8Width(c)
  {}

  /** The width of a code point is the length of its encoding. */
  lemma Utf8WidthIsExact(c: CodePoint) returns (bytes: seq<int>)
    ensures Encodes(bytes, c) && |bytes| == Utf8Width(c)
    ensures forall other :: Encodes(other, c) ==> |other| == Utf8Width(c)
  {
    bytes := EncodingOf(c);
    forall other | Encodes(other, c) ensures |other| == Utf8Width(c) {
      EncodingIsThisWide(other, c);
    }
    hide Encodes, Utf8Width;
    EncodingIsThisWide(bytes, c);
  }

  lemma EncodingOf(c: CodePoint) returns (bytes: seq<int>)
    ensures Encodes(bytes, c)
  {
    var q1, r0 := c / 64, c % 64;
    var q2, r1 := q1 / 64, q1 % 64;
    var q3, r2 := q2 / 64, q2 % 64;
    if c < 0x80 {
      bytes := [c];
    } else if c < 0x800 {
      bytes := [0xC0 + q1, 0x80 + r0];
    } else if c < 0x10000 {
      bytes := [0xE0 + q2, 0x80 + r1, 0x80 + r0];
    } else {
      bytes := [0xF0 + q3, 0x80 + r2, 0x80 + r1, 0x80 + r0];
    }
  }

  function Utf8Length(t: Text): nat {
    if |t| == 0 then 0 else Utf8Width(t[0]) + Utf8Length(t[1..])
  }

  lemma {:induction false} Utf8LengthConcat(a: Text, b: Text)
    ensures Utf8Length(a + b) == Utf8Length(a) + Utf8Length(b)
  {
    if |a| == 0 {
      assert a + b == b;
    } else {
      Utf8LengthConcat(a[1..], b);
      assert (a + b)[1..] == a[1..] + b;
    }
  }

  // ----- Numbers -----

  predicate IsNumberChar(c: CodePoint) {
    '0' as int <= c <= '9' as int || c in Ascii("+-.e")
  }

  type NumberText = t: Text | |t| > 0 && forall i :: 0 <= i < |t| ==> IsNumberChar(t[i])
    witness Ascii("0")

  // ----- The object graph -----

  /** `JsInexact` is NaN, an infinity or -0; `JsOther` is undefined, a bigint, a symbol or a function. */
  datatype JsValue =
    | JsNull
    | JsBool(b: bool)
    | JsNumber(text: NumberText)
    | JsInexact
    | JsString(s: Text)
    | JsOther
    | JsRef(id: nat)

  /** A property is an enumerable data property, or it is hidden or computed by an accessor. */
  datatype Property = Data(value: JsValue) | Guarded

  datatype PropertyKey = StringKey(s: Text) | SymbolKey(id: nat)

  datatype JsMember = JsMember(key: PropertyKey, prop: Property)

  /**
   * An array has its `length` key, index keys, and possibly other string keys and symbol keys.
   * `ForeignObject` is an object whose prototype is neither `Object.prototype` nor null.
   */
  datatype JsObject =
    | ArrayObject(length: nat, elements: map<nat, Property>, extras: set<Text>, symbols: nat)
    | PlainObject(members: seq<JsMember>)
    | ForeignObject

  type Heap = map<nat, JsObject>

  function At(h: Heap, id: nat): JsObject {
    if id in h then h[id] else ForeignObject
  }

  // ----- JSON trees -----

  datatype Json =
    | Null
    | Bool(b: bool)
    | Num(text: NumberText)
    | Str(s: Text)
    | Arr(items: seq<Json>)
    | Obj(members: seq<Member>)

  datatype Member = Member(key: Text, value: Json)

  function Max(a: nat, b: nat): nat {
    if a < b then b else a
  }

  /** Nodes of a tree: every value, not counting object keys. */
  function Size(t: Json): (n: nat)
    ensures n >= 1
  {
    match t
    case Arr(items) => 1 + SizeItems(items)
    case Obj(members) => 1 + SizeMembers(members)
    case _ => 1
  }

  function SizeItems(items: seq<Json>): (n: nat)
    ensures n >= |items|
  {
    if |items| == 0 then 0 else Size(items[0]) + SizeItems(items[1..])
  }

  function SizeMembers(members: seq<Member>): (n: nat)
    ensures n >= |members|
  {
    if |members| == 0 then 0 else Size(members[0].value) + SizeMembers(members[1..])
  }

  /** Edges on the longest path from the root. */
  function Height(t: Json): nat {
    match t
    case Arr(items) => HeightItems(items)
    case Obj(members) => HeightMembers(members)
    case _ => 0
  }

  function HeightItems(items: seq<Json>): nat {
    if |items| == 0 then 0 else Max(1 + Height(items[0]), HeightItems(items[1..]))
  }

  function HeightMembers(members: seq<Member>): nat {
    if |members| == 0 then 0 else Max(1 + Height(members[0].value), HeightMembers(members[1..]))
  }

  lemma {:induction false} SizeOfItemsSplits(a: seq<Json>, b: seq<Json>)
    ensures SizeItems(a + b) == SizeItems(a) + SizeItems(b)
  {
    if |a| == 0 {
      assert a + b == b;
    } else {
      SizeOfItemsSplits(a[1..], b);
      assert (a + b)[1..] == a[1..] + b;
    }
  }

  lemma {:induction false} SizeOfMembersSplits(a: seq<Member>, b: seq<Member>)
    ensures SizeMembers(a + b) == SizeMembers(a) + SizeMembers(b)
  {
    if |a| == 0 {
      assert a + b == b;
    } else {
      SizeOfMembersSplits(a[1..], b);
      assert (a + b)[1..] == a[1..] + b;
    }
  }

  lemma {:induction false} HeightOfItemsSplits(a: seq<Json>, b: seq<Json>)
    ensures HeightItems(a + b) == Max(HeightItems(a), HeightItems(b))
  {
    if |a| == 0 {
      assert a + b == b;
    } else {
      HeightOfItemsSplits(a[1..], b);
      assert (a + b)[1..] == a[1..] + b;
    }
  }

  lemma {:induction false} HeightOfMembersSplits(a: seq<Member>, b: seq<Member>)
    ensures HeightMembers(a + b) == Max(HeightMembers(a), HeightMembers(b))
  {
    if |a| == 0 {
      assert a + b == b;
    } else {
      HeightOfMembersSplits(a[1..], b);
      assert (a + b)[1..] == a[1..] + b;
    }
  }

  // ----- Unfolding a graph value to a tree -----

  /** An array with exactly the indices below its length, all plain data, and nothing else on it. */
  ghost predicate DenseArray(o: JsObject) {
    && o.ArrayObject?
    && o.symbols == 0
    && o.extras == {}
    && (forall i: nat :: i in o.elements <==> i < o.length)
    && (forall i: nat :: i < o.length ==> o.elements[i].Data?)
  }

  /** A plain object with string keys only, all of them enumerable data properties. */
  ghost predicate OpenObject(o: JsObject) {
    && o.PlainObject?
    && forall i :: 0 <= i < |o.members| ==> o.members[i].key.StringKey? && o.members[i].prop.Data?
  }

  /** `t` is the tree that `v` denotes in `h`: same leaves, same order of elements and keys. */
  ghost predicate Unfolds(h: Heap, v: JsValue, t: Json)
    decreases t
  {
    match t
    case Null => v == JsNull
    case Bool(b) => v == JsBool(b)
    case Num(text) => v == JsNumber(text)
    case Str(s) => v == JsString(s)
    case Arr(items) =>
      && v.JsRef?
      && DenseArray(At(h, v.id))
      && At(h, v.id).length == |items|
      && forall i :: 0 <= i < |items| ==> Unfolds(h, At(h, v.id).elements[i].value, items[i])
    case Obj(members) =>
      && v.JsRef?
      && OpenObject(At(h, v.id))
      && |At(h, v.id).members| == |members|
      && forall i :: 0 <= i < |members| ==>
           && At(h, v.id).members[i].key.s == members[i].key
           && Unfolds(h, At(h, v.id).members[i].prop.value, members[i].value)
  }

  lemma {:induction false} UnfoldingIsUnique(h: Heap, v: JsValue, t: Json, u: Json)
    requires Unfolds(h, v, t) && Unfolds(h, v, u)
    ensures t == u
    decreases t
  {
    match t
    case Arr(items) =>
      forall i | 0 <= i < |items| ensures items[i] == u.items[i] {
        UnfoldingIsUnique(h, At(h, v.id).elements[i].value, items[i], u.items[i]);
      }
      assert items == u.items;
    case Obj(members) =>
      forall i | 0 <= i < |members| ensures members[i] == u.members[i] {
        UnfoldingIsUnique(h, At(h, v.id).members[i].prop.value, members[i].value, u.members[i].value);
      }
      assert members == u.members;
    case _ =>
  }

  /** `c` is an element or a property value of the object `id`. */
  ghost predicate IsChild(h: Heap, id: nat, c: JsValue) {
    match At(h, id)
    case ArrayObject(length, elements, _, _) =>
      exists i: nat :: i < length && i in elements && elements[i] == Data(c)
    case PlainObject(members) =>
      exists i :: 0 <= i < |members| && members[i].prop == Data(c)
    case ForeignObject => false
  }

  ghost predicate UnfoldsBelow(h: Heap, v: JsValue, height: nat) {
    exists u :: Unfolds(h, v, u) && Height(u) < height
  }

  /**
   * The walkers' `seen` set holds ancestors of `v`: if one of them denotes a finite tree at all,
   * then `v` denotes a strictly lower one.
   */
  ghost predicate Ancestors(h: Heap, seen: set<nat>, v: JsValue) {
    forall id, t :: id in seen && Unfolds(h, JsRef(id), t) ==> UnfoldsBelow(h, v, Height(t))
  }

  /** A value met again below itself denotes no finite tree, so refusing it loses nothing. */
  lemma RevisitedHasNoUnfolding(h: Heap, seen: set<nat>, id: nat, t: Json)
    requires Ancestors(h, seen, JsRef(id)) && id in seen
    ensures !Unfolds(h, JsRef(id), t)
  {
    if Unfolds(h, JsRef(id), t) {
      assert UnfoldsBelow(h, JsRef(id), Height(t));
      var u :| Unfolds(h, JsRef(id), u) && Height(u) < Height(t);
      UnfoldingIsUnique(h, JsRef(id), t, u);
    }
  }

  lemma {:induction false} HeightOfItem(items: seq<Json>, i: nat)
    requires i < |items|
    ensures Height(items[i]) < HeightItems(items)
  {
    if i > 0 {
      HeightOfItem(items[1..], i - 1);
    }
  }

  lemma {:induction false} HeightOfMember(members: seq<Member>, i: nat)
    requires i < |members|
    ensures Height(members[i].value) < HeightMembers(members)
  {
    if i > 0 {
      HeightOfMember(members[1..], i - 1);
    }
  }

  lemma ChildUnfolds(h: Heap, id: nat, c: JsValue, t: Json) returns (u: Json)
    requires Unfolds(h, JsRef(id), t) && IsChild(h, id, c)
    ensures Unfolds(h, c, u) && Height(u) < Height(t)
  {
    match t
    case Arr(items) =>
      var i: nat :| i < At(h, id).length && i in At(h, id).elements && At(h, id).elements[i] == Data(c);
      HeightOfItem(items, i);
      u := items[i];
    case Obj(members) =>
      var i :| 0 <= i < |At(h, id).members| && At(h, id).members[i].prop == Data(c);
      HeightOfMember(members, i);
      u := members[i].value;
  }

  lemma AncestorsOfChild(h: Heap, seen: set<nat>, id: nat, c: JsValue)
    requires Ancestors(h, seen, JsRef(id)) && IsChild(h, id, c)
    ensures Ancestors(h, seen + {id}, c)
  {
    forall a, t | a in seen + {id} && Unfolds(h, JsRef(a), t)
      ensures UnfoldsBelow(h, c, Height(t))
    {
      var mid := t;
      if a in seen {
        assert UnfoldsBelow(h, JsRef(id), Height(t));
        mid :| Unfolds(h, JsRef(id), mid) && Height(mid) < Height(t);
      }
      var u := ChildUnfolds(h, id, c, mid);
    }
  }

  // ----- Placing a tree in the heap -----

  datatype Placed<T> = Placed(objects: Heap, roots: T, next: nat)

  /** Builds `t` out of fresh objects numbered from `base`, as a cloning function does. */
  function Place(t: Json, base: nat): (p: Placed<JsValue>)
    ensures base <= p.next && forall id :: id in p.objects ==> base <= id < p.next
    decreases t, 0
  {
    match t
    case Null => Placed(map[], JsNull, base)
    case Bool(b) => Placed(map[], JsBool(b), base)
    case Num(text) => Placed(map[], JsNumber(text), base)
    case Str(s) => Placed(map[], JsString(s), base)
    case Arr(items) =>
      var inner := PlaceItems(items, base + 1);
      var elements := map i: nat | i < |items| :: Data(inner.roots[i]);
      Placed(inner.objects[base := ArrayObject(|items|, elements, {}, 0)], JsRef(base), inner.next)
    case Obj(members) =>
      var inner := PlaceMembers(members, base + 1);
      var props := seq(|members|, i requires 0 <= i < |members| =>
        JsMember(StringKey(members[i].key), Data(inner.roots[i])));
      Placed(inner.objects[base := PlainObject(props)], JsRef(base), inner.next)
  }

  function PlaceItems(items: seq<Json>, base: nat): (p: Placed<seq<JsValue>>)
    ensures |p.roots| == |items|
    ensures base <= p.next && forall id :: id in p.objects ==> base <= id < p.next
    decreases items, 1
  {
    if |items| == 0 then Placed(map[], [], base)
    else
      var first := Place(items[0], base);
      var rest := PlaceItems(items[1..], first.next);
      Placed(first.objects + rest.objects, [first.roots] + rest.roots, rest.next)
  }

  function PlaceMembers(members: seq<Member>, base: nat): (p: Placed<seq<JsValue>>)
    ensures |p.roots| == |members|
    ensures base <= p.next && forall id :: id in p.objects ==> base <= id < p.next
    decreases members, 1
  {
    if |members| == 0 then Placed(map[], [], base)
    else
      var first := Place(members[0].value, base);
      var rest := PlaceMembers(members[1..], first.next);
      Placed(first.objects + rest.objects, [first.roots] + rest.roots, rest.next)
  }

  ghost predicate Extends(h: Heap, g: Heap) {
    forall id :: id in h ==> id in g && g[id] == h[id]
  }

  lemma {:induction false} UnfoldsInExtension(h: Heap, g: Heap, v: JsValue, t: Json)
    requires Extends(h, g) && Unfolds(h, v, t)
    ensures Unfolds(g, v, t)
    decreases t
  {
    match t
    case Arr(items) =>
      assert At(g, v.id) == At(h, v.id);
      forall i | 0 <= i < |items| ensures Unfolds(g, At(g, v.id).elements[i].value, items[i]) {
        UnfoldsInExtension(h, g, At(h, v.id).elements[i].value, items[i]);
      }
    case Obj(members) =>
      assert At(g, v.id) == At(h, v.id);
      forall i | 0 <= i < |members| ensures Unfolds(g, At(g, v.id).members[i].prop.value, members[i].value) {
        UnfoldsInExtension(h, g, At(h, v.id).members[i].prop.value, members[i].value);
      }
    case _ =>
  }

  /** A placed tree unfolds to itself. */
  lemma {:induction false} PlaceUnfolds(t: Json, base: nat)
    ensures Unfolds(Place(t, base).objects, Place(t, base).roots, t)
    decreases t, 0
  {
    var p := Place(t, base);
    match t
    case Arr(items) =>
      var inner := PlaceItems(items, base + 1);
      PlaceItemsUnfolds(items, base + 1);
      assert Extends(inner.objects, p.objects);
      forall i | 0 <= i < |items| ensures Unfolds(p.objects, inner.roots[i], items[i]) {
        UnfoldsInExtension(inner.objects, p.objects, inner.roots[i], items[i]);
      }
    case Obj(members) =>
      var inner := PlaceMembers(members, base + 1);
      PlaceMembersUnfolds(members, base + 1);
      assert Extends(inner.objects, p.objects);
      forall i | 0 <= i < |members| ensures Unfolds(p.objects, inner.roots[i], members[i].value) {
        UnfoldsInExtension(inner.objects, p.objects, inner.roots[i], members[i].value);
      }
    case _ =>
  }

  lemma {:induction false} PlaceItemsUnfolds(items: seq<Json>, base: nat)
    ensures forall i :: 0 <= i < |items| ==>
      Unfolds(PlaceItems(items, base).objects, PlaceItems(items, base).roots[i], items[i])
    decreases items, 1
  {
    if |items| > 0 {
      var p, first := PlaceItems(items, base), Place(items[0], base);
      var rest := PlaceItems(items[1..], first.next);
      PlaceUnfolds(items[0], base);
      PlaceItemsUnfolds(items[1..], first.next);
      forall i | 0 <= i < |items| ensures Unfolds(p.objects, p.roots[i], items[i]) {
        if i == 0 {
          UnfoldsInExtension(first.objects, p.objects, first.roots, items[0]);
        } else {
          UnfoldsInExtension(rest.objects, p.objects, rest.roots[i - 1], items[1..][i - 1]);
        }
      }
    }
  }

  lemma {:induction false} PlaceMembersUnfolds(members: seq<Member>, base: nat)
    ensures forall i :: 0 <= i < |members| ==>
              Unfolds(PlaceMembers(members, base).objects, PlaceMembers(members, base).roots[i], members[i].value)
    decreases members, 1
  {
    if |members| > 0 {
      var p, first := PlaceMembers(members, base), Place(members[0].value, base);
      var rest := PlaceMembers(members[1..], first.next);
      PlaceUnfolds(members[0].value, base);
      PlaceMembersUnfolds(members[1..], first.next);
      forall i | 0 <= i < |members| ensures Unfolds(p.objects, p.roots[i], members[i].value) {
        if i == 0 {
          UnfoldsInExtension(first.objects, p.objects, first.roots, members[0].value);
        } else {
          UnfoldsInExtension(rest.objects, p.objects, rest.roots[i - 1], members[1..][i - 1].value);
        }
      }
    }
  }
}
