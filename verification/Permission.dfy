/**
 * Permission requests (packages/app-runtime/src/permission.ts): the redacting clone, the display built
 * from it, and the decision returned to the caller.
 *
 * The secret detector, the credential-key test and the sanitizer are parameters; nothing is assumed
 * about them. Text answers arrive trimmed and lower-cased.
 */
module Permission {
  import opened Results
  import opened JsValues
  import opened JsonText
  import JsonReader
  import opened PermissionDisplay

  const MAX_APPROVAL_DEPTH: nat := 32
  const MAX_APPROVAL_NODES: nat := 4096
  const MAX_APPROVAL_BYTES: nat := 64 * 1024

  const REDACTED: Text := Ascii("[REDACTED]")
  const SENSITIVE_HIDDEN: Text := Ascii("[sensitive permission details hidden - deny only]")
  const SENSITIVE_NAME_HIDDEN: Text := Ascii("[sensitive tool name hidden]")

  datatype Detectors = Detectors(secret: Text -> bool, credential: Text -> bool, sanitize: Json -> Json)

  function Decimal(n: nat): Text {
    if n < 10 then ['0' as int + n] else Decimal(n / 10) + ['0' as int + n % 10]
  }

  function KeyMarker(index: nat): Text {
    Ascii("[REDACTED_KEY_") + Decimal(index) + Ascii("]")
  }

  /** The number that decimal digits denote. */
  ghost function DecimalValue(t: Text): int {
    if |t| == 0 then 0 else DecimalValue(t[..|t| - 1]) * 10 + (t[|t| - 1] - '0' as int)
  }

  lemma {:induction false} DecimalReads(n: nat)
    ensures DecimalValue(Decimal(n)) == n
    ensures forall i :: 0 <= i < |Decimal(n)| ==> '0' as int <= Decimal(n)[i] <= '9' as int
  {
    var t := Decimal(n);
    if n < 10 {
      assert t[..|t| - 1] == [];
    } else {
      DecimalReads(n / 10);
      assert t[..|t| - 1] == Decimal(n / 10);
    }
  }

  /** Two redacted keys of one object never get the same marker. */
  lemma MarkersDiffer(i: nat, j: nat)
    requires KeyMarker(i) == KeyMarker(j)
    ensures i == j
  {
    var open := Ascii("[REDACTED_KEY_");
    assert Decimal(i) == KeyMarker(i)[|open|..|KeyMarker(i)| - 1];
    assert Decimal(j) == KeyMarker(j)[|open|..|KeyMarker(j)| - 1];
    DecimalReads(i);
    DecimalReads(j);
  }

  function SafeKey(d: Detectors, index: nat, key: Text): Text {
    if d.secret(key) then KeyMarker(index) else key
  }

  // ----- What the clone must achieve -----

  /** `out` is `v` with exactly the flagged strings, keys and credential values replaced. */
  ghost predicate Redacts(d: Detectors, h: Heap, v: JsValue, out: Json)
    decreases out
  {
    match out
    case Null => v == JsNull
    case Bool(b) => v == JsBool(b)
    case Num(text) => v == JsNumber(text)
    case Str(s) => v.JsString? && s == if d.secret(v.s) then REDACTED else v.s
    case Arr(items) =>
      && v.JsRef?
      && DenseArray(At(h, v.id))
      && At(h, v.id).length == |items|
      && forall i :: 0 <= i < |items| ==> Redacts(d, h, At(h, v.id).elements[i].value, items[i])
    case Obj(members) =>
      && v.JsRef?
      && OpenObject(At(h, v.id))
      && |At(h, v.id).members| == |members|
      && DistinctMembers(members)
      && forall i :: 0 <= i < |members| ==>
           var m := At(h, v.id).members[i];
           && members[i].key == SafeKey(d, i, m.key.s)
           && if d.credential(m.key.s) then members[i].value == Str(REDACTED)
              else Redacts(d, h, m.prop.value, members[i].value)
  }

  /** A copy has no key twice: where two keys would be redacted to one, copying is given up. */
  ghost predicate DistinctMembers(members: seq<Member>) {
    forall i, j :: 0 <= i < j < |members| ==> members[i].key != members[j].key
  }

  /** A value has at most one redaction. */
  lemma {:induction false} RedactionIsUnique(d: Detectors, h: Heap, v: JsValue, out: Json, other: Json)
    requires Redacts(d, h, v, out) && Redacts(d, h, v, other)
    ensures out == other
    decreases out
  {
    match out
    case Arr(items) =>
      forall i | 0 <= i < |items| ensures items[i] == other.items[i] {
        RedactionIsUnique(d, h, At(h, v.id).elements[i].value, items[i], other.items[i]);
      }
      assert items == other.items;
    case Obj(members) =>
      forall i | 0 <= i < |members| ensures members[i] == other.members[i] {
        var m := At(h, v.id).members[i];
        if !d.credential(m.key.s) {
          RedactionIsUnique(d, h, m.prop.value, members[i].value, other.members[i].value);
        }
      }
      assert members == other.members;
    case _ =>
  }

  /** Nothing in the tree calls for redaction. */
  ghost predicate Clean(d: Detectors, t: Json) {
    match t
    case Str(s) => !d.secret(s)
    case Arr(items) => forall i :: 0 <= i < |items| ==> Clean(d, items[i])
    case Obj(members) =>
      forall i :: 0 <= i < |members| ==> CleanKey(d, i, members[i].key) && Clean(d, members[i].value)
    case _ => true
  }

  ghost predicate CleanKey(d: Detectors, i: nat, key: Text) {
    SafeKey(d, i, key) == key && !d.credential(key)
  }

  /** A clean tree is its own redaction. */
  lemma {:induction false} CleanIsRedaction(d: Detectors, h: Heap, v: JsValue, t: Json)
    requires DistinctKeys(h) && Unfolds(h, v, t) && Clean(d, t)
    ensures Redacts(d, h, v, t)
    decreases t
  {
    match t
    case Arr(items) =>
      forall i | 0 <= i < |items| ensures Redacts(d, h, At(h, v.id).elements[i].value, items[i]) {
        CleanIsRedaction(d, h, At(h, v.id).elements[i].value, items[i]);
      }
    case Obj(members) =>
      forall i | 0 <= i < |members| ensures Redacts(d, h, At(h, v.id).members[i].prop.value, members[i].value) {
        CleanIsRedaction(d, h, At(h, v.id).members[i].prop.value, members[i].value);
      }
      forall i | 0 <= i < |members| ensures CleanKey(d, i, members[i].key) {}
      forall i | 0 <= i < |members| ensures At(h, v.id).members[i].key == StringKey(members[i].key) {}
    case _ =>
  }

  /** Redaction leaves a clean tree alone. */
  lemma CleanIsUnredacted(d: Detectors, h: Heap, v: JsValue, t: Json, out: Json)
    requires DistinctKeys(h) && Unfolds(h, v, t) && Clean(d, t) && Redacts(d, h, v, out)
    ensures out == t
  {
    CleanIsRedaction(d, h, v, t);
    RedactionIsUnique(d, h, v, t, out);
  }

  /**
   * The tree holds no string and no key that the detector flags, the markers put in their place apart, and
   * under a credential's key nothing but the marker.
   */
  ghost predicate HidesSecrets(d: Detectors, t: Json) {
    match t
    case Str(s) => s == REDACTED || !d.secret(s)
    case Arr(items) => forall i :: 0 <= i < |items| ==> HidesSecrets(d, items[i])
    case Obj(members) =>
      forall i :: 0 <= i < |members| ==>
        && (members[i].key == KeyMarker(i) || !d.secret(members[i].key))
        && (d.credential(members[i].key) && members[i].key != KeyMarker(i) ==> members[i].value == Str(REDACTED))
        && HidesSecrets(d, members[i].value)
    case _ => true
  }

  lemma {:induction false} RedactionHidesSecrets(d: Detectors, h: Heap, v: JsValue, out: Json)
    requires Redacts(d, h, v, out)
    ensures HidesSecrets(d, out)
    decreases out
  {
    match out
    case Arr(items) =>
      forall i | 0 <= i < |items| ensures HidesSecrets(d, items[i]) {
        RedactionHidesSecrets(d, h, At(h, v.id).elements[i].value, items[i]);
      }
    case Obj(members) =>
      forall i | 0 <= i < |members| ensures HidesSecrets(d, members[i].value) {
        var m := At(h, v.id).members[i];
        if !d.credential(m.key.s) {
          RedactionHidesSecrets(d, h, m.prop.value, members[i].value);
        }
      }
    case _ =>
  }

  /** UTF-8 bytes of all strings and keys. */
  function TextBytes(t: Json): nat {
    match t
    case Str(s) => Utf8Length(s)
    case Arr(items) => TextBytesOfItems(items)
    case Obj(members) => TextBytesOfMembers(members)
    case _ => 0
  }

  function TextBytesOfItems(items: seq<Json>): nat {
    if |items| == 0 then 0 else TextBytes(items[0]) + TextBytesOfItems(items[1..])
  }

  function TextBytesOfMembers(members: seq<Member>): nat {
    if |members| == 0 then 0
    else Utf8Length(members[0].key) + TextBytes(members[0].value) + TextBytesOfMembers(members[1..])
  }

  lemma {:induction false} TextBytesOfItemsSplits(a: seq<Json>, b: seq<Json>)
    ensures TextBytesOfItems(a + b) == TextBytesOfItems(a) + TextBytesOfItems(b)
  {
    if |a| == 0 {
      assert a + b == b;
    } else {
      TextBytesOfItemsSplits(a[1..], b);
      assert (a + b)[1..] == a[1..] + b;
    }
  }

  lemma {:induction false} TextBytesOfMembersSplits(a: seq<Member>, b: seq<Member>)
    ensures TextBytesOfMembers(a + b) == TextBytesOfMembers(a) + TextBytesOfMembers(b)
  {
    if |a| == 0 {
      assert a + b == b;
    } else {
      TextBytesOfMembersSplits(a[1..], b);
      assert (a + b)[1..] == a[1..] + b;
    }
  }

  ghost predicate FitsApproval(t: Json, depth: nat, nodes: int, bytes: int) {
    depth + Height(t) <= MAX_APPROVAL_DEPTH && Size(t) <= nodes && TextBytes(t) <= bytes
  }

  /** Own keys of an object are distinct, as in every JavaScript object. */
  ghost predicate DistinctKeys(h: Heap) {
    forall id, i, j :: id in h && h[id].PlainObject? && 0 <= i < j < |h[id].members| ==>
      h[id].members[i].key != h[id].members[j].key
  }

  // ----- Parts of arrays and objects -----

  ghost predicate RedactsElements(d: Detectors, h: Heap, id: nat, outs: seq<Json>)
    requires At(h, id).ArrayObject? && |outs| <= At(h, id).length
  {
    forall k: nat :: k < |outs| ==>
      && k in At(h, id).elements
      && At(h, id).elements[k].Data?
      && Redacts(d, h, At(h, id).elements[k].value, outs[k])
  }

  ghost predicate RedactsMembers(d: Detectors, h: Heap, id: nat, outs: seq<Member>)
    requires At(h, id).PlainObject? && |outs| <= |At(h, id).members|
  {
    forall k :: 0 <= k < |outs| ==>
      var m := At(h, id).members[k];
      && m.key.StringKey? && m.prop.Data?
      && outs[k].key == SafeKey(d, k, m.key.s)
      && if d.credential(m.key.s) then outs[k].value == Str(REDACTED) else Redacts(d, h, m.prop.value, outs[k].value)
  }

  ghost predicate CleanItems(d: Detectors, items: seq<Json>) {
    forall i :: 0 <= i < |items| ==> Clean(d, items[i])
  }

  ghost predicate CleanMembers(d: Detectors, members: seq<Member>) {
    forall i :: 0 <= i < |members| ==> CleanKey(d, i, members[i].key) && Clean(d, members[i].value)
  }

  // ----- What copying costs -----

  /**
   * The nodes that copying visits, the nodes that must be left for it to succeed, the UTF-8 bytes of the strings and
   * keys it reads, and the edges below its root. An object needs a node for each of its keys, although the value
   * under a credential's key is not visited.
   */
  datatype Bill = Bill(nodes: nat, need: nat, bytes: nat, height: nat) {
    /** This much, and then a child that costs `child`. */
    ghost function With(child: Bill): Bill {
      Bill(nodes + child.nodes, Max(need, nodes + child.need), bytes + child.bytes, Max(height, 1 + child.height))
    }
  }

  /** The value at an index of an array, or at a position among the properties of an object. */
  ghost function ValueAt(h: Heap, id: nat, i: nat): JsValue {
    match At(h, id)
    case ArrayObject(_, elements, _, _) => if i in elements && elements[i].Data? then elements[i].value else JsOther
    case PlainObject(members) => if i < |members| && members[i].prop.Data? then members[i].prop.value else JsOther
    case ForeignObject => JsOther
  }

  ghost function KeyAt(h: Heap, id: nat, i: nat): Text {
    match At(h, id)
    case PlainObject(members) => if i < |members| && members[i].key.StringKey? then members[i].key.s else []
    case _ => []
  }

  const NO_BILL := Bill(0, 0, 0, 0)

  /** What it costs to copy `v` to `out`. */
  ghost function BillOf(d: Detectors, h: Heap, v: JsValue, out: Json): (b: Bill)
    ensures b.nodes >= 1
    decreases out
  {
    match out
    case Str(_) => Bill(1, 1, if v.JsString? then Utf8Length(v.s) else 0, 0)
    case Arr(items) =>
      var inner := if v.JsRef? then BillOfElements(d, h, v.id, items) else NO_BILL;
      inner.(nodes := 1 + inner.nodes, need := 1 + inner.need)
    case Obj(members) =>
      var inner := if v.JsRef? then BillOfMembers(d, h, v.id, members) else NO_BILL;
      inner.(nodes := 1 + inner.nodes, need := 1 + Max(|members|, inner.need))
    case _ => Bill(1, 1, 0, 0)
  }

  ghost function BillOfElements(d: Detectors, h: Heap, id: nat, outs: seq<Json>): (b: Bill)
    ensures b.nodes >= |outs|
    decreases outs
  {
    if |outs| == 0 then NO_BILL
    else
      var n := |outs| - 1;
      BillOfElements(d, h, id, outs[..n]).With(BillOf(d, h, ValueAt(h, id, n), outs[n]))
  }

  ghost function BillOfMembers(d: Detectors, h: Heap, id: nat, outs: seq<Member>): Bill
    decreases outs
  {
    if |outs| == 0 then NO_BILL
    else
      var n := |outs| - 1;
      var front := BillOfMembers(d, h, id, outs[..n]);
      var keyed := front.(bytes := front.bytes + Utf8Length(KeyAt(h, id, n)));
      if d.credential(KeyAt(h, id, n)) then keyed else keyed.With(BillOf(d, h, ValueAt(h, id, n), outs[n].value))
  }

  /** The budgets at this depth allow for the bill. */
  ghost predicate Affords(b: Bill, depth: nat, nodes: int, bytes: int) {
    depth + b.height <= MAX_APPROVAL_DEPTH && b.need <= nodes && b.bytes <= bytes
  }

  /** The value can be copied, redacted where need be, within the budgets. */
  ghost predicate Copyable(d: Detectors, h: Heap, v: JsValue, depth: nat, nodes: int, bytes: int) {
    exists out :: Redacts(d, h, v, out) && Affords(BillOf(d, h, v, out), depth, nodes, bytes)
  }

  lemma {:induction false} ElementsAddUp(d: Detectors, h: Heap, id: nat, outs: seq<Json>, i: nat)
    requires i <= |outs|
    ensures
      var part, all := BillOfElements(d, h, id, outs[..i]), BillOfElements(d, h, id, outs);
      part.need <= all.need && part.bytes <= all.bytes && part.height <= all.height
    decreases |outs|
  {
    hide BillOf;
    if i == |outs| {
      assert outs[..i] == outs;
    } else {
      var n := |outs| - 1;
      ElementsAddUp(d, h, id, outs[..n], i);
      assert outs[..n][..i] == outs[..i];
    }
  }

  lemma {:induction false} MembersAddUp(d: Detectors, h: Heap, id: nat, outs: seq<Member>, i: nat)
    requires i <= |outs|
    ensures
      var part, all := BillOfMembers(d, h, id, outs[..i]), BillOfMembers(d, h, id, outs);
      part.need <= all.need && part.bytes <= all.bytes && part.height <= all.height
    decreases |outs|
  {
    hide BillOf, Utf8Length;
    if i == |outs| {
      assert outs[..i] == outs;
    } else {
      var n := |outs| - 1;
      MembersAddUp(d, h, id, outs[..n], i);
      assert outs[..n][..i] == outs[..i];
    }
  }

  // ----- The bill of a clean tree -----

  /** A clean tree costs its nodes, its text and its height. */
  lemma {:induction false} BillOfClean(d: Detectors, h: Heap, v: JsValue, t: Json)
    requires Unfolds(h, v, t) && Clean(d, t)
    ensures BillOf(d, h, v, t) == Bill(Size(t), Size(t), TextBytes(t), Height(t))
    decreases t, 0
  {
    match t
    case Arr(items) =>
      BillOfCleanElements(d, h, v.id, items);
    case Obj(members) =>
      BillOfCleanMembers(d, h, v.id, members);
    case _ =>
  }

  lemma {:induction false} BillOfCleanElements(d: Detectors, h: Heap, id: nat, outs: seq<Json>)
    requires At(h, id).ArrayObject? && |outs| <= At(h, id).length && UnfoldsElements(h, id, outs) && CleanItems(d, outs)
    ensures BillOfElements(d, h, id, outs)
      == Bill(SizeItems(outs), SizeItems(outs), TextBytesOfItems(outs), HeightItems(outs))
    decreases outs, 1
  {
    hide Unfolds, Clean, Size, TextBytes, Height;
    if |outs| > 0 {
      var n := |outs| - 1;
      BillOfCleanElements(d, h, id, outs[..n]);
      BillOfClean(d, h, ValueAt(h, id, n), outs[n]);
      assert outs == outs[..n] + [outs[n]];
      SizeOfItemsSplits(outs[..n], [outs[n]]);
      HeightOfItemsSplits(outs[..n], [outs[n]]);
      TextBytesOfItemsSplits(outs[..n], [outs[n]]);
      SizeOfOneItem(outs[n]);
      TextBytesOfOne(outs[n]);
    }
  }

  lemma {:induction false} BillOfCleanMembers(d: Detectors, h: Heap, id: nat, outs: seq<Member>)
    requires At(h, id).PlainObject? && |outs| <= |At(h, id).members|
    requires UnfoldsMembers(h, id, outs) && CleanMembers(d, outs)
    ensures BillOfMembers(d, h, id, outs)
      == Bill(SizeMembers(outs), SizeMembers(outs), TextBytesOfMembers(outs), HeightMembers(outs))
    decreases outs, 1
  {
    hide Unfolds, Clean, Size, TextBytes, Height, Utf8Length;
    if |outs| > 0 {
      var n := |outs| - 1;
      BillOfCleanMembers(d, h, id, outs[..n]);
      BillOfClean(d, h, ValueAt(h, id, n), outs[n].value);
      assert outs == outs[..n] + [outs[n]];
      SizeOfMembersSplits(outs[..n], [outs[n]]);
      HeightOfMembersSplits(outs[..n], [outs[n]]);
      TextBytesOfMembersSplits(outs[..n], [outs[n]]);
      SizeOfOneMember(outs[n]);
      TextBytesOfOneMember(outs[n]);
    }
  }

  lemma TextBytesOfOne(t: Json)
    ensures TextBytesOfItems([t]) == TextBytes(t)
  {}

  lemma TextBytesOfOneMember(m: Member)
    ensures TextBytesOfMembers([m]) == Utf8Length(m.key) + TextBytes(m.value)
  {}

  // ----- Values met again below themselves -----

  ghost predicate RedactsBelow(d: Detectors, h: Heap, v: JsValue, height: nat) {
    exists u :: Redacts(d, h, v, u) && Height(u) < height
  }

  /** The `seen` set holds values whose copy, if there is one, is strictly higher than that of `v`. */
  ghost predicate Enclosing(d: Detectors, h: Heap, seen: set<nat>, v: JsValue) {
    forall id, t :: id in seen && Redacts(d, h, JsRef(id), t) ==> RedactsBelow(d, h, v, Height(t))
  }

  lemma RevisitedHasNoCopy(d: Detectors, h: Heap, seen: set<nat>, id: nat, t: Json)
    requires Enclosing(d, h, seen, JsRef(id)) && id in seen
    ensures !Redacts(d, h, JsRef(id), t)
  {
    hide Height;
    if Redacts(d, h, JsRef(id), t) {
      assert RedactsBelow(d, h, JsRef(id), Height(t));
      var u :| Redacts(d, h, JsRef(id), u) && Height(u) < Height(t);
      RedactionIsUnique(d, h, JsRef(id), t, u);
    }
  }

  /** The walk goes down to the value at position `i` of the object `id`, which is not a credential's. */
  ghost predicate Visits(d: Detectors, h: Heap, id: nat, i: nat) {
    match At(h, id)
    case ArrayObject(length, elements, _, _) => i < length && i in elements && elements[i].Data?
    case PlainObject(members) =>
      i < |members| && members[i].key.StringKey? && members[i].prop.Data? && !d.credential(members[i].key.s)
    case ForeignObject => false
  }

  lemma PartIsRedacted(d: Detectors, h: Heap, id: nat, i: nat, t: Json) returns (u: Json)
    requires Visits(d, h, id, i) && Redacts(d, h, JsRef(id), t)
    ensures Redacts(d, h, ValueAt(h, id, i), u) && Height(u) < Height(t)
  {
    match t
    case Arr(items) =>
      HeightOfItem(items, i);
      u := items[i];
    case Obj(members) =>
      HeightOfMember(members, i);
      u := members[i].value;
  }

  lemma EnclosingPart(d: Detectors, h: Heap, seen: set<nat>, id: nat, i: nat)
    requires id in seen && Enclosing(d, h, seen - {id}, JsRef(id)) && Visits(d, h, id, i)
    ensures Enclosing(d, h, seen, ValueAt(h, id, i))
  {
    hide Redacts, Height, ValueAt, Visits;
    forall a, t | a in seen && Redacts(d, h, JsRef(a), t)
      ensures RedactsBelow(d, h, ValueAt(h, id, i), Height(t))
    {
      var mid := t;
      if a != id {
        assert RedactsBelow(d, h, JsRef(id), Height(t));
        mid :| Redacts(d, h, JsRef(id), mid) && Height(mid) < Height(t);
      }
      var u := PartIsRedacted(d, h, id, i, mid);
    }
  }

  // ----- What a walk leaves -----

  datatype Ledger = Ledger(nodes: int, bytes: int, redacted: bool) {
    ghost predicate Solvent() {
      nodes >= 0 && bytes >= 0
    }

    ghost function Pay(b: Bill, flagged: bool): Ledger {
      Ledger(nodes - b.nodes, bytes - b.bytes, redacted || flagged)
    }
  }

  /** `out` differs from what `v` denotes. */
  ghost predicate Changes(d: Detectors, h: Heap, v: JsValue, out: Json) {
    !(Unfolds(h, v, out) && Clean(d, out))
  }

  /** The copy `out` of `v`, paid for in full out of `before`; the flag says whether anything was redacted. */
  ghost predicate Cloned(d: Detectors, h: Heap, v: JsValue, out: Json, depth: nat, before: Ledger, after: Ledger) {
    && Redacts(d, h, v, out)
    && Affords(BillOf(d, h, v, out), depth, before.nodes, before.bytes)
    && after.Solvent()
    && after == before.Pay(BillOf(d, h, v, out), Changes(d, h, v, out))
  }

  ghost predicate ElementsCloned(d: Detectors, h: Heap, id: nat, outs: seq<Json>, depth: nat,
                                 before: Ledger, after: Ledger) {
    && At(h, id).ArrayObject? && |outs| <= At(h, id).length
    && RedactsElements(d, h, id, outs)
    && after.Solvent()
    && var b := BillOfElements(d, h, id, outs);
    && Affords(b, depth, before.nodes - 1, before.bytes)
    && after == before.(nodes := before.nodes - 1).Pay(b, !(UnfoldsElements(h, id, outs) && CleanItems(d, outs)))
  }

  ghost predicate MembersCloned(d: Detectors, h: Heap, id: nat, outs: seq<Member>, depth: nat,
                                before: Ledger, after: Ledger) {
    && At(h, id).PlainObject? && |outs| <= |At(h, id).members|
    && RedactsMembers(d, h, id, outs) && DistinctMembers(outs)
    && after.Solvent()
    && var b := BillOfMembers(d, h, id, outs);
    && Affords(b, depth, before.nodes - 1, before.bytes)
    && after == before.(nodes := before.nodes - 1).Pay(b, !(UnfoldsMembers(h, id, outs) && CleanMembers(d, outs)))
  }

  lemma ElementsClonedStep(d: Detectors, h: Heap, id: nat, outs: seq<Json>, out: Json, depth: nat,
                           l0: Ledger, l1: Ledger, l2: Ledger)
    requires ElementsCloned(d, h, id, outs, depth, l0, l1)
    requires |outs| < At(h, id).length && |outs| in At(h, id).elements && At(h, id).elements[|outs|].Data?
    requires Cloned(d, h, At(h, id).elements[|outs|].value, out, depth + 1, l1, l2)
    ensures ElementsCloned(d, h, id, outs + [out], depth, l0, l2)
  {
    hide Redacts, Unfolds, Clean, BillOf;
    var all := outs + [out];
    assert all[..|outs|] == outs && all[|outs|] == out && forall k :: 0 <= k < |outs| ==> all[k] == outs[k];
    assert CleanItems(d, all) <==> CleanItems(d, outs) && Clean(d, out);
    assert UnfoldsElements(h, id, all) <==>
           UnfoldsElements(h, id, outs) && Unfolds(h, At(h, id).elements[|outs|].value, out);
  }

  /** One more member is redacted, and has a key of its own. */
  ghost predicate NextMemberRedacts(d: Detectors, h: Heap, id: nat, outs: seq<Member>, out: Member)
    requires At(h, id).PlainObject? && |outs| < |At(h, id).members|
  {
    var m := At(h, id).members[|outs|];
    && m.key.StringKey? && m.prop.Data?
    && out.key == SafeKey(d, |outs|, m.key.s)
    && (forall k :: 0 <= k < |outs| ==> outs[k].key != out.key)
    && if d.credential(m.key.s) then out.value == Str(REDACTED) else Redacts(d, h, m.prop.value, out.value)
  }

  lemma RedactsOneMore(d: Detectors, h: Heap, id: nat, outs: seq<Member>, out: Member)
    requires At(h, id).PlainObject? && |outs| < |At(h, id).members|
    requires RedactsMembers(d, h, id, outs) && DistinctMembers(outs) && NextMemberRedacts(d, h, id, outs, out)
    ensures RedactsMembers(d, h, id, outs + [out]) && DistinctMembers(outs + [out])
  {
    hide Redacts, SafeKey;
  }

  /** The parts of an object that say whether it was changed. */
  lemma MembersGrow(d: Detectors, h: Heap, id: nat, outs: seq<Member>, out: Member)
    requires At(h, id).PlainObject? && |outs| < |At(h, id).members| && At(h, id).members[|outs|].prop.Data?
    ensures
      var m, all := At(h, id).members[|outs|], outs + [out];
      (UnfoldsMembers(h, id, all) && CleanMembers(d, all)) <==>
        && UnfoldsMembers(h, id, outs) && CleanMembers(d, outs)
        && m.key == StringKey(out.key) && CleanKey(d, |outs|, out.key)
        && Unfolds(h, m.prop.value, out.value) && Clean(d, out.value)
  {
    hide Unfolds, Clean, CleanKey;
    var all := outs + [out];
    assert all[|outs|] == out && forall k :: 0 <= k < |outs| ==> all[k] == outs[k];
  }

  /** One more member: its key may have been replaced and its value may have been cloned or masked. */
  lemma MembersClonedStep(d: Detectors, h: Heap, id: nat, outs: seq<Member>, out: Member, depth: nat,
                          l0: Ledger, l1: Ledger, l2: Ledger)
    requires MembersCloned(d, h, id, outs, depth, l0, l1) && |outs| < |At(h, id).members|
    requires NextMemberRedacts(d, h, id, outs, out)
    requires
      var m := At(h, id).members[|outs|];
      var left := l1.bytes - Utf8Length(m.key.s);
      && left >= 0
      && if d.credential(m.key.s) then l2 == Ledger(l1.nodes, left, true)
         else
           var start := Ledger(l1.nodes, left, l1.redacted || out.key != m.key.s);
           Cloned(d, h, m.prop.value, out.value, depth + 1, start, l2)
    ensures MembersCloned(d, h, id, outs + [out], depth, l0, l2)
  {
    hide Redacts, Unfolds, Clean, RedactsMembers, UnfoldsMembers, CleanMembers, DistinctMembers, BillOf, Utf8Length;
    var m, all := At(h, id).members[|outs|], outs + [out];
    assert all[..|outs|] == outs && all[|outs|] == out;
    MembersGrow(d, h, id, outs, out);
    RedactsOneMore(d, h, id, outs, out);
    assert out.key != m.key.s <==> m.key != StringKey(out.key);
    assert out.key == m.key.s ==> (CleanKey(d, |outs|, out.key) <==> !d.credential(m.key.s));
  }

  // ----- Why copying may fail -----

  /** A sparse or decorated array, an object with hidden or symbol keys, or one too wide, is not copied. */
  lemma MalformedNotCopyable(d: Detectors, h: Heap, id: nat, depth: nat, nodes: int, bytes: int)
    requires
      || (!DenseArray(At(h, id)) && !OpenObject(At(h, id)))
      || (At(h, id).ArrayObject? && At(h, id).length > nodes - 1)
      || (At(h, id).PlainObject? && |At(h, id).members| > nodes - 1)
    ensures !Copyable(d, h, JsRef(id), depth, nodes, bytes)
  {
    forall out | Redacts(d, h, JsRef(id), out) ensures !Affords(BillOf(d, h, JsRef(id), out), depth, nodes, bytes) {
      if out.Arr? {
        NeedCoversNodes(d, h, id, out.items);
      }
    }
  }

  lemma {:induction false} NeedCoversNodes(d: Detectors, h: Heap, id: nat, outs: seq<Json>)
    ensures BillOfElements(d, h, id, outs).need >= |outs|
  {
    if |outs| > 0 {
      var n := |outs| - 1;
      NeedIsPositive(d, h, ValueAt(h, id, n), outs[n]);
    }
  }

  lemma NeedIsPositive(d: Detectors, h: Heap, v: JsValue, out: Json)
    ensures BillOf(d, h, v, out).need >= 1
  {}

  /** Every copy of an array starts with the copies already made of its first elements. */
  lemma CopiedPrefix(d: Detectors, h: Heap, id: nat, full: Json, outs: seq<Json>)
    requires Redacts(d, h, JsRef(id), full)
    requires At(h, id).ArrayObject? && |outs| <= At(h, id).length && RedactsElements(d, h, id, outs)
    ensures full.Arr? && |full.items| == At(h, id).length && full.items[..|outs|] == outs
    ensures |outs| < |full.items| ==> Redacts(d, h, ValueAt(h, id, |outs|), full.items[|outs|])
  {
    forall k: nat | k < |outs| ensures full.items[k] == outs[k] {
      RedactionIsUnique(d, h, At(h, id).elements[k].value, full.items[k], outs[k]);
    }
  }

  lemma CopiedMembersPrefix(d: Detectors, h: Heap, id: nat, full: Json, outs: seq<Member>)
    requires Redacts(d, h, JsRef(id), full)
    requires At(h, id).PlainObject? && |outs| <= |At(h, id).members| && RedactsMembers(d, h, id, outs)
    ensures full.Obj? && |full.members| == |At(h, id).members| && full.members[..|outs|] == outs
    ensures DistinctMembers(full.members)
    ensures |outs| < |full.members| ==>
              && At(h, id).members[|outs|].key.StringKey?
              && full.members[|outs|].key == SafeKey(d, |outs|, KeyAt(h, id, |outs|))
              && (d.credential(KeyAt(h, id, |outs|)) ||
                  Redacts(d, h, ValueAt(h, id, |outs|), full.members[|outs|].value))
  {
    hide SafeKey;
    forall k | 0 <= k < |outs| ensures full.members[k] == outs[k] {
      var m := At(h, id).members[k];
      if !d.credential(m.key.s) {
        RedactionIsUnique(d, h, m.prop.value, full.members[k].value, outs[k].value);
      }
    }
  }

  lemma ElementNotCopyable(d: Detectors, h: Heap, id: nat, outs: seq<Json>, depth: nat, l0: Ledger, l1: Ledger)
    requires ElementsCloned(d, h, id, outs, depth, l0, l1)
    requires |outs| < At(h, id).length && |outs| in At(h, id).elements && At(h, id).elements[|outs|].Data?
    requires !Copyable(d, h, At(h, id).elements[|outs|].value, depth + 1, l1.nodes, l1.bytes)
    ensures !Copyable(d, h, JsRef(id), depth, l0.nodes, l0.bytes)
  {
    hide Redacts, BillOfElements, RedactsElements;
    var i := |outs|;
    forall full | Redacts(d, h, JsRef(id), full)
      ensures !Affords(BillOf(d, h, JsRef(id), full), depth, l0.nodes, l0.bytes)
    {
      CopiedPrefix(d, h, id, full, outs);
      ElementsAddUp(d, h, id, full.items, i + 1);
      ElementBill(d, h, id, full.items, i);
    }
  }

  lemma ElementBill(d: Detectors, h: Heap, id: nat, outs: seq<Json>, i: nat)
    requires i < |outs|
    ensures BillOfElements(d, h, id, outs[..i + 1])
         == BillOfElements(d, h, id, outs[..i]).With(BillOf(d, h, ValueAt(h, id, i), outs[i]))
  {
    assert outs[..i + 1][..i] == outs[..i];
  }

  lemma MemberBill(d: Detectors, h: Heap, id: nat, outs: seq<Member>, i: nat)
    requires i < |outs|
    ensures
      var front := BillOfMembers(d, h, id, outs[..i]);
      var keyed := front.(bytes := front.bytes + Utf8Length(KeyAt(h, id, i)));
      BillOfMembers(d, h, id, outs[..i + 1]) ==
        if d.credential(KeyAt(h, id, i)) then keyed else keyed.With(BillOf(d, h, ValueAt(h, id, i), outs[i].value))
  {
    hide BillOf, Utf8Length;
    assert outs[..i + 1][..i] == outs[..i];
  }

  lemma MemberNotCopyable(d: Detectors, h: Heap, id: nat, outs: seq<Member>, depth: nat, l0: Ledger, l1: Ledger)
    requires MembersCloned(d, h, id, outs, depth, l0, l1) && |outs| < |At(h, id).members|
    requires
      var m := At(h, id).members[|outs|];
      && m.key.StringKey? && m.prop.Data? &&
      var left := l1.bytes - Utf8Length(m.key.s);
      || left < 0
      || (exists k :: 0 <= k < |outs| && outs[k].key == SafeKey(d, |outs|, m.key.s))
      || (!d.credential(m.key.s) && !Copyable(d, h, m.prop.value, depth + 1, l1.nodes, left))
    ensures !Copyable(d, h, JsRef(id), depth, l0.nodes, l0.bytes)
  {
    hide Redacts, BillOfMembers, RedactsMembers, SafeKey, Utf8Length;
    var i := |outs|;
    forall full | Redacts(d, h, JsRef(id), full)
      ensures !Affords(BillOf(d, h, JsRef(id), full), depth, l0.nodes, l0.bytes)
    {
      CopiedMembersPrefix(d, h, id, full, outs);
      assert forall k :: 0 <= k < i ==> outs[k].key == full.members[k].key;
      MembersAddUp(d, h, id, full.members, i + 1);
      MemberBill(d, h, id, full.members, i);
    }
  }

  // ----- The clone -----

  class ApprovalBudget {
    const d: Detectors
    const heap: Heap
    var nodes: int
    var bytes: int
    var redacted: bool
    var seen: set<nat>

    constructor (d: Detectors, heap: Heap)
      ensures this.d == d && this.heap == heap && seen == {}
      ensures Balance() == Ledger(MAX_APPROVAL_NODES, MAX_APPROVAL_BYTES, false)
    {
      this.d, this.heap := d, heap;
      nodes, bytes, redacted, seen := MAX_APPROVAL_NODES, MAX_APPROVAL_BYTES, false, {};
    }

    ghost function Balance(): Ledger
      reads this
    {
      Ledger(nodes, bytes, redacted)
    }

    /**
     * Clones one value. It succeeds exactly when the value has a redacted copy that the budgets allow for, and gives
     * that copy, paid for exactly and flagged exactly if anything in it was redacted.
     */
    method CloneValue(v: JsValue, depth: nat) returns (r: Option<Json>)
      requires Balance().Solvent() && depth <= MAX_APPROVAL_DEPTH + 1
      requires Enclosing(d, heap, seen, v)
      modifies this
      ensures seen == old(seen)
      ensures r.Some? ==> Cloned(d, heap, v, r.value, depth, old(Balance()), Balance())
      ensures r.Some? <==> Copyable(d, heap, v, depth, old(nodes), old(bytes))
      decreases MAX_APPROVAL_DEPTH + 1 - depth, 3
    {
      hide Enclosing, Redacts, BillOf;
      nodes := nodes - 1;
      if nodes < 0 || depth > MAX_APPROVAL_DEPTH {
        forall t ensures !Affords(BillOf(d, heap, v, t), depth, old(nodes), old(bytes)) {
          NeedIsPositive(d, heap, v, t);
        }
        return None;
      }
      if !v.JsRef? {
        r := CloneScalar(v, depth);
        return;
      }
      var id := v.id;
      if id in seen {
        forall t ensures !Redacts(d, heap, v, t) {
          RevisitedHasNoCopy(d, heap, seen, id, t);
        }
        return None;
      }
      seen := seen + {id};
      assert seen - {id} == old(seen);
      match At(heap, id) {
        case ArrayObject(_, _, _, _) => r := CloneArray(id, depth, old(Balance()));
        case PlainObject(_) => r := CloneObject(id, depth, old(Balance()));
        case ForeignObject =>
          MalformedNotCopyable(d, heap, id, depth, old(nodes), old(bytes));
          r := None;
      }
      seen := seen - {id};
    }

    /** The branches of `clonePermissionApprovalValue` for values other than objects; the node is already paid. */
    method CloneScalar(v: JsValue, depth: nat) returns (r: Option<Json>)
      requires Balance().Solvent() && !v.JsRef? && depth <= MAX_APPROVAL_DEPTH
      modifies this`bytes, this`redacted
      ensures r.Some? ==> Cloned(d, heap, v, r.value, depth, old(Balance().(nodes := nodes + 1)), Balance())
      ensures r.None? ==> !Copyable(d, heap, v, depth, nodes + 1, old(bytes))
    {
      match v
      case JsNull => r := Some(Null);
      case JsBool(b) => r := Some(Bool(b));
      case JsNumber(text) => r := Some(Num(text));
      case JsString(s) =>
        var ok := ConsumeText(s);
        if !ok {
          return None;
        }
        if d.secret(s) {
          redacted := true;
          return Some(Str(REDACTED));
        }
        r := Some(Str(s));
      case JsInexact => r := None;
      case JsOther => r := None;
    }

    method ConsumeText(t: Text) returns (ok: bool)
      modifies this`bytes
      ensures bytes == old(bytes) - Utf8Length(t) && (ok <==> bytes >= 0)
    {
      bytes := bytes - Utf8Length(t);
      ok := bytes >= 0;
    }

    method CloneArray(id: nat, depth: nat, ghost before: Ledger) returns (r: Option<Json>)
      requires Balance().Solvent() && depth <= MAX_APPROVAL_DEPTH && before == Balance().(nodes := nodes + 1)
      requires At(heap, id).ArrayObject? && id in seen && Enclosing(d, heap, seen - {id}, JsRef(id))
      modifies this
      ensures seen == old(seen)
      ensures r.Some? ==> Cloned(d, heap, JsRef(id), r.value, depth, before, Balance())
      ensures r.None? ==> !Copyable(d, heap, JsRef(id), depth, before.nodes, before.bytes)
      decreases MAX_APPROVAL_DEPTH + 1 - depth, 2
    {
      var o := At(heap, id);
      if o.length > nodes || o.symbols != 0 || |o.elements| + |o.extras| != o.length {
        if DenseArray(o) {
          CountedArrayIsDense(o);
        }
        MalformedNotCopyable(d, heap, id, depth, before.nodes, before.bytes);
        return None;
      }
      var outs: seq<Json> := [];
      NothingCloned(d, heap, id, depth, before);
      var i := 0;
      while i < o.length
        invariant i <= o.length && |outs| == i && seen == old(seen)
        invariant ElementsCloned(d, heap, id, outs, depth, before, Balance())
      {
        hide ElementsCloned, Copyable, Enclosing, DenseArray;
        var out := CloneElement(id, i, depth, outs, before);
        if out.None? {
          return None;
        }
        outs := outs + [out.value];
        i := i + 1;
      }
      CountedArrayIsDense(o);
      r := Some(Arr(outs));
      ArrayCloned(d, heap, id, outs, depth, before, Balance());
    }

    method CloneElement(id: nat, i: nat, depth: nat, ghost outs: seq<Json>, ghost before: Ledger)
      returns (r: Option<Json>)
      requires depth <= MAX_APPROVAL_DEPTH
      requires At(heap, id).ArrayObject? && id in seen && Enclosing(d, heap, seen - {id}, JsRef(id))
      requires i == |outs| < At(heap, id).length && ElementsCloned(d, heap, id, outs, depth, before, Balance())
      modifies this
      ensures seen == old(seen)
      ensures r.Some? ==> ElementsCloned(d, heap, id, outs + [r.value], depth, before, Balance())
      ensures r.None? ==> !Copyable(d, heap, JsRef(id), depth, before.nodes, before.bytes)
      decreases MAX_APPROVAL_DEPTH + 1 - depth, 0
    {
      hide Copyable, Enclosing, Cloned, RedactsElements, UnfoldsElements, CleanItems, BillOfElements;
      var o := At(heap, id);
      if i !in o.elements || o.elements[i].Guarded? {
        MalformedNotCopyable(d, heap, id, depth, before.nodes, before.bytes);
        return None;
      }
      ghost var start := Balance();
      EnclosingPart(d, heap, seen, id, i);
      r := CloneValue(o.elements[i].value, depth + 1);
      if r.None? {
        ElementNotCopyable(d, heap, id, outs, depth, before, start);
      } else {
        ElementsClonedStep(d, heap, id, outs, r.value, depth, before, start, Balance());
      }
    }

    method CloneObject(id: nat, depth: nat, ghost before: Ledger) returns (r: Option<Json>)
      requires Balance().Solvent() && depth <= MAX_APPROVAL_DEPTH && before == Balance().(nodes := nodes + 1)
      requires At(heap, id).PlainObject? && id in seen && Enclosing(d, heap, seen - {id}, JsRef(id))
      modifies this
      ensures seen == old(seen)
      ensures r.Some? ==> Cloned(d, heap, JsRef(id), r.value, depth, before, Balance())
      ensures r.None? ==> !Copyable(d, heap, JsRef(id), depth, before.nodes, before.bytes)
      decreases MAX_APPROVAL_DEPTH + 1 - depth, 2
    {
      var members := At(heap, id).members;
      if |members| > nodes || exists k :: 0 <= k < |members| && members[k].key.SymbolKey? {
        MalformedNotCopyable(d, heap, id, depth, before.nodes, before.bytes);
        return None;
      }
      var outs: seq<Member> := [];
      NothingCloned(d, heap, id, depth, before);
      var i := 0;
      while i < |members|
        invariant i <= |members| && |outs| == i && seen == old(seen)
        invariant MembersCloned(d, heap, id, outs, depth, before, Balance())
      {
        hide MembersCloned, Copyable, Enclosing, OpenObject;
        var out := CloneMember(id, i, depth, outs, before);
        if out.None? {
          return None;
        }
        outs := outs + [out.value];
        i := i + 1;
      }
      r := Some(Obj(outs));
      ObjectCloned(d, heap, id, outs, depth, before, Balance());
    }

    method CloneMember(id: nat, i: nat, depth: nat, outs: seq<Member>, ghost before: Ledger) returns (r: Option<Member>)
      requires depth <= MAX_APPROVAL_DEPTH
      requires At(heap, id).PlainObject? && id in seen && Enclosing(d, heap, seen - {id}, JsRef(id))
      requires i == |outs| < |At(heap, id).members| && MembersCloned(d, heap, id, outs, depth, before, Balance())
      requires At(heap, id).members[i].key.StringKey?
      modifies this
      ensures seen == old(seen)
      ensures r.Some? ==> MembersCloned(d, heap, id, outs + [r.value], depth, before, Balance())
      ensures r.None? ==> !Copyable(d, heap, JsRef(id), depth, before.nodes, before.bytes)
      decreases MAX_APPROVAL_DEPTH + 1 - depth, 0
    {
      hide Copyable, Enclosing, Redacts, Unfolds, Clean, RedactsMembers, UnfoldsMembers, CleanMembers, BillOfMembers,
           BillOf;
      ghost var start := Balance();
      var key, prop := At(heap, id).members[i].key.s, At(heap, id).members[i].prop;
      var ok := ConsumeText(key);
      if prop.Guarded? {
        MalformedNotCopyable(d, heap, id, depth, before.nodes, before.bytes);
        return None;
      }
      var safeKey := SafeKey(d, i, key);
      if !ok || exists k :: 0 <= k < |outs| && outs[k].key == safeKey {
        MemberNotCopyable(d, heap, id, outs, depth, before, start);
        return None;
      }
      if safeKey != key {
        redacted := true;
      }
      var value: Option<Json>;
      if d.credential(key) {
        redacted := true;
        value := Some(Str(REDACTED));
      } else {
        EnclosingPart(d, heap, seen, id, i);
        value := CloneValue(prop.value, depth + 1);
        if value.None? {
          MemberNotCopyable(d, heap, id, outs, depth, before, start);
          return None;
        }
      }
      r := Some(Member(safeKey, value.value));
      MembersClonedStep(d, heap, id, outs, r.value, depth, before, start, Balance());
    }
  }

  lemma NothingCloned(d: Detectors, h: Heap, id: nat, depth: nat, before: Ledger)
    requires before.nodes >= 1 && before.bytes >= 0 && depth <= MAX_APPROVAL_DEPTH
    ensures At(h, id).ArrayObject? ==> ElementsCloned(d, h, id, [], depth, before, before.(nodes := before.nodes - 1))
    ensures At(h, id).PlainObject? ==> MembersCloned(d, h, id, [], depth, before, before.(nodes := before.nodes - 1))
  {}

  lemma ArrayOfParts(d: Detectors, h: Heap, id: nat, outs: seq<Json>)
    requires DenseArray(At(h, id)) && |outs| == At(h, id).length
    ensures Unfolds(h, JsRef(id), Arr(outs)) <==> UnfoldsElements(h, id, outs)
    ensures Clean(d, Arr(outs)) <==> CleanItems(d, outs)
    ensures RedactsElements(d, h, id, outs) ==> Redacts(d, h, JsRef(id), Arr(outs))
  {}

  lemma ObjectOfParts(d: Detectors, h: Heap, id: nat, outs: seq<Member>)
    requires At(h, id).PlainObject? && |outs| == |At(h, id).members|
    ensures RedactsMembers(d, h, id, outs) ==>
      OpenObject(At(h, id)) && (Unfolds(h, JsRef(id), Obj(outs)) <==> UnfoldsMembers(h, id, outs))
    ensures Clean(d, Obj(outs)) <==> CleanMembers(d, outs)
    ensures RedactsMembers(d, h, id, outs) && DistinctMembers(outs) ==> Redacts(d, h, JsRef(id), Obj(outs))
  {
    hide SafeKey, CleanKey;
  }

  lemma ArrayCloned(d: Detectors, h: Heap, id: nat, outs: seq<Json>, depth: nat, before: Ledger, after: Ledger)
    requires ElementsCloned(d, h, id, outs, depth, before, after)
    requires DenseArray(At(h, id)) && |outs| == At(h, id).length
    ensures Cloned(d, h, JsRef(id), Arr(outs), depth, before, after)
  {
    hide Redacts, Unfolds, Clean, RedactsElements, UnfoldsElements, CleanItems, BillOfElements;
    ArrayOfParts(d, h, id, outs);
  }

  lemma ObjectCloned(d: Detectors, h: Heap, id: nat, outs: seq<Member>, depth: nat, before: Ledger, after: Ledger)
    requires MembersCloned(d, h, id, outs, depth, before, after)
    requires At(h, id).PlainObject? && |outs| == |At(h, id).members| < before.nodes
    ensures Cloned(d, h, JsRef(id), Obj(outs), depth, before, after)
  {
    hide Redacts, Unfolds, Clean, RedactsMembers, UnfoldsMembers, CleanMembers, DistinctMembers, BillOfMembers;
    ObjectOfParts(d, h, id, outs);
  }

  // ----- Prepared values -----

  datatype Approval<T> = Approval(complete: bool, redacted: bool, value: T)

  /** The tree `v` denotes can be presented as it is: clean, within the limits, unchanged by the sanitizer. */
  ghost predicate Presentable(d: Detectors, h: Heap, v: JsValue, t: Json) {
    && Unfolds(h, v, t)
    && Clean(d, t)
    && FitsApproval(t, 0, MAX_APPROVAL_NODES, MAX_APPROVAL_BYTES)
    && d.sanitize(t) == t
  }

  ghost predicate CanPresent(d: Detectors, h: Heap, v: JsValue) {
    exists t :: Presentable(d, h, v, t)
  }

  const LABEL_FALLBACK: Json := Str(LABEL_UNAVAILABLE)
  const INPUT_FALLBACK: Json := Str(Ascii("[permission input unavailable]"))
  const SPEC_FALLBACK: Json :=
    Obj([Member(Ascii("custom"), Obj([Member(Ascii("permissionApproval"), Str(DETAILS_UNAVAILABLE))]))])

  /** `out` is the redacted copy of `v`, and the full budgets allow for it. */
  ghost predicate CopiesAs(d: Detectors, h: Heap, v: JsValue, out: Json) {
    Redacts(d, h, v, out) && Affords(BillOf(d, h, v, out), 0, MAX_APPROVAL_NODES, MAX_APPROVAL_BYTES)
  }

  lemma PresentableIsCopied(d: Detectors, h: Heap, v: JsValue, t: Json)
    requires DistinctKeys(h)
    ensures Presentable(d, h, v, t) <==> CopiesAs(d, h, v, t) && Unfolds(h, v, t) && Clean(d, t) && d.sanitize(t) == t
  {
    hide Redacts, Unfolds, Clean, BillOf, Size, Height, TextBytes;
    if Unfolds(h, v, t) && Clean(d, t) {
      CleanIsRedaction(d, h, v, t);
      BillOfClean(d, h, v, t);
    }
  }

  /**
   * A value is complete exactly when it has a redacted copy within the budgets, and then it is that copy, sanitized. It
   * is complete and unredacted exactly when its tree is presentable, and then it is that tree.
   */
  method PreparePermissionApprovalValue(d: Detectors, h: Heap, v: JsValue, fallback: Json) returns (r: Approval<Json>)
    requires DistinctKeys(h)
    ensures r.complete <==> exists out :: CopiesAs(d, h, v, out)
    ensures forall out :: CopiesAs(d, h, v, out) ==> r.value == d.sanitize(out)
    ensures r.complete && !r.redacted <==> CanPresent(d, h, v)
    ensures r.complete && !r.redacted ==> Presentable(d, h, v, r.value)
    ensures !r.complete ==> r.value == fallback && !r.redacted
  {
    hide Redacts, Unfolds, Clean, BillOf, Affords, Write, Presentable, Enclosing;
    var budget := new ApprovalBudget(d, h);
    NothingEncloses(d, h, v);
    var out := budget.CloneValue(v, 0);
    if out.None? {
      forall t ensures !Presentable(d, h, v, t) {
        PresentableIsCopied(d, h, v, t);
      }
      return Approval(false, false, fallback);
    }
    var sanitized := d.sanitize(out.value);
    var sanitizerRedacted := Write(StringifyQuoting, sanitized) != Write(StringifyQuoting, out.value);
    if !sanitizerRedacted {
      WriteIsInjective(StringifyQuoting, sanitized, out.value);
    }
    forall t | Redacts(d, h, v, t) ensures t == out.value {
      RedactionIsUnique(d, h, v, t, out.value);
    }
    forall t ensures Presentable(d, h, v, t) <==>
      CopiesAs(d, h, v, t) && Unfolds(h, v, t) && Clean(d, t) && d.sanitize(t) == t
    {
      PresentableIsCopied(d, h, v, t);
    }
    r := Approval(true, budget.redacted || sanitizerRedacted, sanitized);
    assert CopiesAs(d, h, v, out.value);
  }

  lemma NothingEncloses(d: Detectors, h: Heap, v: JsValue)
    ensures Enclosing(d, h, {}, v)
  {}

  method PreparePermissionApprovalSpec(d: Detectors, h: Heap, v: JsValue) returns (r: Approval<Json>)
    requires DistinctKeys(h)
    ensures r.complete <==> exists out :: CopiesAs(d, h, v, out) && d.sanitize(out).Obj?
    ensures forall out :: r.complete && CopiesAs(d, h, v, out) ==> r.value == d.sanitize(out)
    ensures r.complete && !r.redacted <==> exists t :: Presentable(d, h, v, t) && t.Obj?
    ensures r.complete && !r.redacted ==> Presentable(d, h, v, r.value)
    ensures !r.complete ==> r.value == SPEC_FALLBACK && !r.redacted
    ensures r.value.Obj?
  {
    hide CopiesAs;
    r := PreparePermissionApprovalValue(d, h, v, SPEC_FALLBACK);
    if !r.value.Obj? {
      forall t | Presentable(d, h, v, t) && r.complete && !r.redacted ensures t == r.value {
        UnfoldingIsUnique(h, v, t, r.value);
      }
      r := Approval(false, false, SPEC_FALLBACK);
    }
  }

  method PreparePermissionApprovalText(d: Detectors, s: Text) returns (r: Approval<Text>)
    ensures r.complete <==> exists out :: CopiesAs(d, map[], JsString(s), out) && d.sanitize(out).Str?
    ensures forall out :: r.complete && CopiesAs(d, map[], JsString(s), out) ==> Str(r.value) == d.sanitize(out)
    ensures r.complete && !r.redacted <==> CanPresent(d, map[], JsString(s))
    ensures r.complete && !r.redacted ==> r.value == s
    ensures !r.complete ==> r.value == LABEL_UNAVAILABLE && !r.redacted
  {
    hide CopiesAs;
    var prepared := PreparePermissionApprovalValue(d, map[], JsString(s), LABEL_FALLBACK);
    if prepared.value.Str? {
      r := Approval(prepared.complete, prepared.redacted, prepared.value.s);
    } else {
      r := Approval(false, false, LABEL_UNAVAILABLE);
    }
  }

  // ----- The display -----

  datatype Display = Display(approvable: bool, spec: Text, toolName: Text)

  method BuildPermissionDisplay(
    escaped: set<CodePoint>, spec: Approval<Json>, toolName: Approval<Text>, input: Approval<Json>,
    toolUseId: Approval<Text>)
    returns (r: Display)
    ensures r.approvable <==>
              && spec.complete && toolName.complete && input.complete && toolUseId.complete
              && !spec.redacted && !toolName.redacted && !input.redacted && !toolUseId.redacted
              && Fits(DisplayQuoting(escaped), spec.value, 0, FULL_PURSE)
              && FitsLabel(WriteText(LabelQuoting(escaped), toolName.value))
    ensures r.approvable ==>
              && r.spec == Write(DisplayQuoting(escaped), spec.value)
              && r.toolName == WriteText(LabelQuoting(escaped), toolName.value)
    ensures !r.approvable ==>
              var whole :=
                && spec.complete && toolName.complete && input.complete && toolUseId.complete
                && Fits(DisplayQuoting(escaped), spec.value, 0, FULL_PURSE)
                && FitsLabel(WriteText(LabelQuoting(escaped), toolName.value));
              && r.spec == (if whole then SENSITIVE_HIDDEN else DETAILS_UNAVAILABLE)
              && r.toolName ==
                 if whole && toolName.redacted then SENSITIVE_NAME_HIDDEN
                 else if FitsLabel(WriteText(LabelQuoting(escaped), toolName.value))
                 then WriteText(LabelQuoting(escaped), toolName.value)
                 else LABEL_UNAVAILABLE
  {
    hide Write, WriteText, Unfolds, Place, Fits;
    var placed := Place(spec.value, 0);
    PlaceUnfolds(spec.value, 0);
    var shownSpec := FormatPermissionValueForDisplay(escaped, placed.objects, placed.roots);
    var shownName := FormatPermissionTextForDisplay(escaped, toolName.value);
    forall t | Unfolds(placed.objects, placed.roots, t) ensures t == spec.value {
      UnfoldingIsUnique(placed.objects, placed.roots, t, spec.value);
    }
    if !spec.complete || !toolName.complete || !input.complete || !toolUseId.complete
       || !shownSpec.approvable || !shownName.approvable {
      return Display(false, DETAILS_UNAVAILABLE, shownName.text);
    }
    if spec.redacted || toolName.redacted || input.redacted || toolUseId.redacted {
      return Display(false, SENSITIVE_HIDDEN, if toolName.redacted then SENSITIVE_NAME_HIDDEN else shownName.text);
    }
    r := Display(true, shownSpec.text, shownName.text);
  }

  // ----- The decision -----

  /** `NotAKind` is what the answer table yields for an answer naming an inherited object property. */
  datatype Kind =
    | AllowOnce | AllowSession | AllowAllSession | AllowProject | AllowForever
    | AllowMcpServer | AllowBatchOnce
    | Deny | DenyForever | DenyBatch
    | NotAKind

  datatype Reason = Timeout | Fatigue

  datatype Decision = Decision(kind: Kind, reason: Option<Reason>)

  /** The kinds that start with `deny`, by which callers tell a refusal. */
  predicate Denies(k: Kind) {
    k.Deny? || k.DenyForever? || k.DenyBatch?
  }

  datatype LineAnswer = TimedOut | Answered(choice: Text)

  /** A prompt may answer according to what it is shown. */
  datatype Interaction =
    | NoInteraction
    | LineInteraction(terminal: bool, prompt: Option<Display -> LineAnswer>)
    | TuiInteraction(panel: Option<Display -> Decision>)

  function KindOfAnswer(choice: Text): Kind {
    if choice == Ascii("a") then AllowOnce
    else if choice == Ascii("s") then AllowSession
    else if choice == Ascii("g") then AllowAllSession
    else if choice == Ascii("p") then AllowProject
    else if choice == Ascii("e") then AllowForever
    else if choice == Ascii("x") then DenyForever
    else if IsInherited(choice) then NotAKind
    else Deny
  }

  /** The lower-case names of properties that every JavaScript object inherits. */
  predicate IsInherited(choice: Text) {
    choice == Ascii("constructor") || choice == Ascii("__proto__")
  }

  /** What has to be answered for a kind to be returned; the last three kinds are never returned. */
  ghost predicate IsAnswerFor(kind: Kind, choice: Text) {
    match kind
    case AllowOnce => choice == Ascii("a")
    case AllowSession => choice == Ascii("s")
    case AllowAllSession => choice == Ascii("g")
    case AllowProject => choice == Ascii("p")
    case AllowForever => choice == Ascii("e")
    case DenyForever => choice == Ascii("x")
    case NotAKind => choice == Ascii("constructor") || choice == Ascii("__proto__")
    case Deny =>
      choice !in [Ascii("a"), Ascii("s"), Ascii("g"), Ascii("p"), Ascii("e"), Ascii("x"),
                  Ascii("constructor"), Ascii("__proto__")]
    case AllowMcpServer => false
    case AllowBatchOnce => false
    case DenyBatch => false
  }

  /** The line prompt's promise: refused without an answer or an approvable display, else as answered. */
  ghost predicate LineDecides(
    decision: Decision, display: Display, terminal: bool, prompt: Option<Display -> LineAnswer>)
  {
    if !terminal || prompt.None? then decision == Decision(Deny, None)
    else match prompt.value(display)
      case TimedOut => decision == Decision(Deny, Some(Timeout))
      case Answered(choice) =>
        && decision.reason.None?
        && if display.approvable then forall kind :: decision.kind == kind <==> IsAnswerFor(kind, choice)
           else decision.kind.Deny?
  }

  /** No answer stands for two kinds, and every answer stands for one. */
  lemma KindIsItsAnswer(kind: Kind, choice: Text)
    ensures KindOfAnswer(choice) == kind <==> IsAnswerFor(kind, choice)
  {
    var letters := [Ascii("a"), Ascii("s"), Ascii("g"), Ascii("p"), Ascii("e"), Ascii("x")];
    assert forall i, j :: 0 <= i < j < 6 ==> letters[i][0] != letters[j][0];
    assert |Ascii("constructor")| == 11 && |Ascii("__proto__")| == 9;
  }

  function PermissionPrompt(display: Display, terminal: bool, prompt: Option<Display -> LineAnswer>): (r: Decision)
    ensures LineDecides(r, display, terminal, prompt)
    ensures !Denies(r.kind) ==> display.approvable
  {
    assert forall kind, choice :: KindOfAnswer(choice) == kind <==> IsAnswerFor(kind, choice) by {
      forall kind, choice ensures KindOfAnswer(choice) == kind <==> IsAnswerFor(kind, choice) {
        KindIsItsAnswer(kind, choice);
      }
    }
    if !terminal || prompt.None? then Decision(Deny, None)
    else match prompt.value(display)
      case TimedOut => Decision(Deny, Some(Timeout))
      case Answered(choice) =>
        if !display.approvable then Decision(Deny, None) else Decision(KindOfAnswer(choice), None)
  }

  /** The line prompt yields an undeclared kind exactly when it may ask and is answered by an inherited name. */
  lemma UndeclaredKindIff(display: Display, terminal: bool, prompt: Option<Display -> LineAnswer>)
    ensures PermissionPrompt(display, terminal, prompt).kind.NotAKind? <==>
              && terminal && prompt.Some? && display.approvable
              && prompt.value(display).Answered? && IsInherited(prompt.value(display).choice)
  {
    assert |Ascii("constructor")| == 11 && |Ascii("__proto__")| == 9;
    assert |Ascii("a")| == |Ascii("s")| == |Ascii("g")| == |Ascii("p")| == |Ascii("e")| == |Ascii("x")| == 1;
  }

  /** The two answers, each taken for a kind that is none of the declared ones and does not start with `deny`. */
  lemma UndeclaredKindExamples(display: Display, name: string)
    requires display.approvable && (name == "constructor" || name == "__proto__")
    ensures
      var decision := PermissionPrompt(display, true, Some(_ => Answered(Ascii(name))));
      decision.kind.NotAKind? && !Denies(decision.kind)
  {
    UndeclaredKindIff(display, true, Some(_ => Answered(Ascii(name))));
  }

  datatype Request = Request(heap: Heap, toolName: Text, spec: JsValue, input: JsValue, toolUseId: Option<Text>)

  function ToolUseId(req: Request, id: Text): Text {
    if req.toolUseId.Some? then req.toolUseId.value else id
  }

  /** Everything about the request can be shown: an object spec, its name, and its undisplayed input and id. */
  ghost predicate Approvable(d: Detectors, escaped: set<CodePoint>, req: Request, id: Text) {
    && (exists t :: Presentable(d, req.heap, req.spec, t) && t.Obj? && Fits(DisplayQuoting(escaped), t, 0, FULL_PURSE))
    && CanPresent(d, map[], JsString(req.toolName))
    && FitsLabel(WriteText(LabelQuoting(escaped), req.toolName))
    && CanPresent(d, req.heap, req.input)
    && CanPresent(d, map[], JsString(ToolUseId(req, id)))
  }

  /** Everything about the request could be copied and shown, redacted and sanitized where need be. */
  ghost predicate Copied(d: Detectors, escaped: set<CodePoint>, req: Request, id: Text) {
    && (exists out :: CopiesAs(d, req.heap, req.spec, out) && d.sanitize(out).Obj?
         && Fits(DisplayQuoting(escaped), d.sanitize(out), 0, FULL_PURSE))
    && (exists out :: CopiesAs(d, map[], JsString(req.toolName), out) && d.sanitize(out).Str?
         && FitsLabel(WriteText(LabelQuoting(escaped), d.sanitize(out).s)))
    && (exists out :: CopiesAs(d, req.heap, req.input, out))
    && (exists out :: CopiesAs(d, map[], JsString(ToolUseId(req, id)), out) && d.sanitize(out).Str?)
  }

  /** The display is the printed form of the request's own spec and tool name. */
  ghost predicate Shows(escaped: set<CodePoint>, display: Display, req: Request) {
    && (exists t :: Unfolds(req.heap, req.spec, t) && display.spec == Write(DisplayQuoting(escaped), t))
    && display.toolName == WriteText(LabelQuoting(escaped), req.toolName)
  }

  /** Whoever reads the display as JSON text and as a name reads the request's own spec and tool name. */
  ghost predicate ReadsAs(display: Display, req: Request) {
    && (exists t :: Unfolds(req.heap, req.spec, t)
         && JsonReader.ReadValue(display.spec) == JsonReader.Got(t, []))
    && JsonReader.ReadLabel(display.toolName) == JsonReader.Got(req.toolName, [])
  }

  lemma ShownIsRead(escaped: set<CodePoint>, display: Display, req: Request)
    requires Shows(escaped, display, req)
    ensures ReadsAs(display, req)
  {
    hide Unfolds, Write, WriteText, JsonReader.ReadValue, JsonReader.ReadLabel;
    var t :| Unfolds(req.heap, req.spec, t) && display.spec == Write(DisplayQuoting(escaped), t);
    JsonReader.WrittenIsRead(DisplayQuoting(escaped), t);
    JsonReader.LabelIsRead(escaped, req.toolName);
  }

  /**
   * Whatever the interaction mode and whatever a prompt answers, a decision that is not a refusal is
   * returned only for a display that was approvable, and an approvable display shows the whole request.
   */
  method RequestPermission(d: Detectors, escaped: set<CodePoint>, req: Request, id: Text, mode: Interaction)
    returns (decision: Decision, display: Display)
    requires DistinctKeys(req.heap)
    ensures display.approvable <==> Approvable(d, escaped, req, id)
    ensures display.approvable ==> Shows(escaped, display, req) && ReadsAs(display, req)
    ensures !display.approvable ==>
              display.spec == if Copied(d, escaped, req, id) then SENSITIVE_HIDDEN else DETAILS_UNAVAILABLE
    ensures !Denies(decision.kind) ==> display.approvable
    ensures mode.TuiInteraction? && mode.panel.Some? && display.approvable ==> decision == mode.panel.value(display)
    ensures mode.TuiInteraction? && (mode.panel.None? || !display.approvable) ==> decision == Decision(Deny, None)
    ensures mode.LineInteraction? ==> LineDecides(decision, display, mode.terminal, mode.prompt)
    ensures mode.NoInteraction? ==> decision == Decision(Deny, None)
  {
    hide CopiesAs, LineDecides, ReadsAs, Unfolds, Write, WriteText, Clean, Redacts, FitsLabel, FitsApproval, Fits;
    var spec := PreparePermissionApprovalSpec(d, req.heap, req.spec);
    var toolName := PreparePermissionApprovalText(d, req.toolName);
    var toolUseId := PreparePermissionApprovalText(d, ToolUseId(req, id));
    var input := PreparePermissionApprovalValue(d, req.heap, req.input, INPUT_FALLBACK);
    display := BuildPermissionDisplay(escaped, spec, toolName, input, toolUseId);
    forall t | Presentable(d, req.heap, req.spec, t) && spec.complete && !spec.redacted ensures t == spec.value {
      UnfoldingIsUnique(req.heap, req.spec, t, spec.value);
    }
    if display.approvable {
      ShownIsRead(escaped, display, req);
    }
    match mode
    case NoInteraction => decision := Decision(Deny, None);
    case LineInteraction(terminal, prompt) => decision := PermissionPrompt(display, terminal, prompt);
    case TuiInteraction(panel) =>
      if panel.None? {
        return Decision(Deny, None), display;
      }
      decision := panel.value(display);
      if !display.approvable {
        decision := Decision(Deny, None);
      }
  }

  /** What the user is shown determines what is approved: one display shows one tool name and one spec. */
  lemma ShownDeterminesApproved(escaped: set<CodePoint>, display: Display, a: Request, b: Request)
    requires Shows(escaped, display, a) && Shows(escaped, display, b)
    ensures a.toolName == b.toolName
    ensures exists t :: Unfolds(a.heap, a.spec, t) && Unfolds(b.heap, b.spec, t)
  {
    LabelIsInjective(escaped, a.toolName, b.toolName);
    var t :| Unfolds(a.heap, a.spec, t) && display.spec == Write(DisplayQuoting(escaped), t);
    var u :| Unfolds(b.heap, b.spec, u) && display.spec == Write(DisplayQuoting(escaped), u);
    WriteIsInjective(DisplayQuoting(escaped), t, u);
  }
}
