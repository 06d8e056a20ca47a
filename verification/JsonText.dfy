/**
 * The two ways the source turns an ordered JSON tree into text: the permission display's printer and
 * `JSON.stringify`. They differ only in how a character inside a string is written, so both are
 * instances of one printer over a `Quoting`, and one proof makes both injective.
 */
module JsonText {
  import opened JsValues

  /**
   * `escaped` stands for the Unicode tables: the code points the display must not show raw. A label is
   * shown without surrounding quotes, so a quote in it is an ordinary character.
   */
  datatype Quoting =
    | DisplayQuoting(escaped: set<CodePoint>)
    | LabelQuoting(escaped: set<CodePoint>)
    | StringifyQuoting

  type StringQuoting = q: Quoting | !q.LabelQuoting? witness StringifyQuoting

  const QUOTE: CodePoint := '\"' as int
  const BACKSLASH: CodePoint := '\\' as int
  const COMMA: CodePoint := ',' as int
  const COLON: CodePoint := ':' as int
  const OPEN_BRACKET: CodePoint := '[' as int
  const CLOSE_BRACKET: CodePoint := ']' as int
  const OPEN_BRACE: CodePoint := '{' as int
  const CLOSE_BRACE: CodePoint := '}' as int
  const LETTER_U: CodePoint := 'u' as int

  // ----- Hexadecimal -----

  /** A digit, with `ten` the letter that stands for ten. */
  function HexDigit(d: nat, ten: char): (c: CodePoint)
    requires d < 16 && (ten == 'A' || ten == 'a')
    ensures c != CLOSE_BRACE
  {
    if d < 10 then '0' as int + d else ten as int + d - 10
  }

  function Hex(n: nat, ten: char): (t: Text)
    requires ten == 'A' || ten == 'a'
    ensures |t| > 0 && CLOSE_BRACE !in t
  {
    if n < 16 then [HexDigit(n, ten)] else Hex(n / 16, ten) + [HexDigit(n % 16, ten)]
  }

  function PadStart4(t: Text): (p: Text)
    ensures |p| >= 4
    decreases 4 - |t|
  {
    if |t| >= 4 then t else PadStart4(['0' as int] + t)
  }

  function DigitValue(c: CodePoint, ten: char): int {
    if c <= '9' as int then c - '0' as int else c - ten as int + 10
  }

  /** The number a digit text denotes, leading zeros included. */
  function HexValue(t: Text, ten: char): int {
    if |t| == 0 then 0 else HexValue(t[..|t| - 1], ten) * 16 + DigitValue(t[|t| - 1], ten)
  }

  lemma {:induction false} HexRoundTrip(n: nat, ten: char)
    requires ten == 'A' || ten == 'a'
    ensures HexValue(Hex(n, ten), ten) == n
  {
    var t := Hex(n, ten);
    if n < 16 {
      assert t[..|t| - 1] == [];
    } else {
      HexRoundTrip(n / 16, ten);
      assert t[..|t| - 1] == Hex(n / 16, ten);
    }
  }

  lemma {:induction false} LeadingZero(t: Text, ten: char)
    ensures HexValue(['0' as int] + t, ten) == HexValue(t, ten)
  {
    var z := ['0' as int] + t;
    if |t| == 0 {
      assert z[..|z| - 1] == [];
    } else {
      LeadingZero(t[..|t| - 1], ten);
      assert z[..|z| - 1] == ['0' as int] + t[..|t| - 1];
    }
  }

  lemma {:induction false} PaddingKeepsValue(t: Text, ten: char)
    ensures HexValue(PadStart4(t), ten) == HexValue(t, ten)
    ensures CLOSE_BRACE !in t ==> CLOSE_BRACE !in PadStart4(t)
    decreases 4 - |t|
  {
    if |t| < 4 {
      LeadingZero(t, ten);
      PaddingKeepsValue(['0' as int] + t, ten);
    }
  }

  lemma {:induction false} HexLength(n: nat, ten: char, width: nat, bound: nat)
    requires ten == 'A' || ten == 'a'
    requires width >= 1 && bound == Power16(width) && n < bound
    ensures |Hex(n, ten)| <= width
    decreases width
  {
    if n >= 16 {
      HexLength(n / 16, ten, width - 1, Power16(width - 1));
    }
  }

  function Power16(k: nat): nat {
    if k == 0 then 1 else 16 * Power16(k - 1)
  }

  function Hex4(n: nat, ten: char): (t: Text)
    requires ten == 'A' || ten == 'a'
    ensures HexValue(t, ten) == n
    ensures |t| >= 4 && CLOSE_BRACE !in t
    ensures n < 0x10000 ==> |t| == 4
  {
    HexRoundTrip(n, ten);
    PaddingKeepsValue(Hex(n, ten), ten);
    assert n < 0x10000 ==> |PadStart4(Hex(n, ten))| == 4 by {
      if n < 0x10000 {
        HexLength(n, ten, 4, 0x10000);
        PaddedLength(Hex(n, ten));
      }
    }
    PadStart4(Hex(n, ten))
  }

  lemma PaddedLength(t: Text)
    requires |t| <= 4
    ensures |PadStart4(t)| == 4
    decreases 4 - |t|
  {
    if |t| < 4 {
      PaddedLength(['0' as int] + t);
    }
  }

  // ----- Characters inside a string -----

  /** The C0 controls that JSON.stringify writes with a letter: backspace, tab, newline, form feed, return. */
  function ShortEscape(c: CodePoint): (letter: CodePoint)
    ensures letter != 0 ==> letter != LETTER_U && letter != QUOTE && letter != BACKSLASH
  {
    match c
    case 8 => 'b' as int
    case 9 => 't' as int
    case 10 => 'n' as int
    case 12 => 'f' as int
    case 13 => 'r' as int
    case _ => 0
  }

  function VisibleEscape(c: CodePoint): (t: Text)
    ensures |t| > 0
  {
    [BACKSLASH, LETTER_U, OPEN_BRACE] + Hex4(c, 'A') + [CLOSE_BRACE]
  }

  lemma VisibleEscapesSplit(c: CodePoint, d: CodePoint, s: Text, t: Text)
    requires VisibleEscape(c) + s == VisibleEscape(d) + t
    ensures c == d
  {
    var head := [BACKSLASH, LETTER_U, OPEN_BRACE];
    assert VisibleEscape(c) + s == head + (Hex4(c, 'A') + [CLOSE_BRACE] + s);
    assert VisibleEscape(d) + t == head + (Hex4(d, 'A') + [CLOSE_BRACE] + t);
    DropPrefix(head, Hex4(c, 'A') + [CLOSE_BRACE] + s, Hex4(d, 'A') + [CLOSE_BRACE] + t);
    SplitAtStopper(Hex4(c, 'A'), s, Hex4(d, 'A'), t, CLOSE_BRACE);
  }

  function WriteChar(q: Quoting, c: CodePoint): (t: Text)
    ensures |t| > 0
    ensures !q.LabelQuoting? ==> t[0] != QUOTE
  {
    if c == QUOTE && !q.LabelQuoting? then [BACKSLASH, QUOTE]
    else if c == BACKSLASH then [BACKSLASH, BACKSLASH]
    else match q
      case DisplayQuoting(escaped) => if c in escaped then VisibleEscape(c) else [c]
      case LabelQuoting(escaped) => if c in escaped then VisibleEscape(c) else [c]
      case StringifyQuoting =>
        if ShortEscape(c) != 0 then [BACKSLASH, ShortEscape(c)]
        else if c < 0x20 || IsSurrogate(c) then [BACKSLASH, LETTER_U] + Hex4(c, 'a')
        else [c]
  }

  /** Two texts that share a stopper missing from both of their heads split the same way at it. */
  lemma SplitAtStopper(a: Text, s: Text, b: Text, t: Text, stop: CodePoint)
    requires stop !in a && stop !in b
    requires a + [stop] + s == b + [stop] + t
    ensures a == b && s == t
  {
    var left, right := a + [stop] + s, b + [stop] + t;
    assert left[|a|] == stop && right[|b|] == stop;
    assert forall i :: 0 <= i < |a| ==> left[i] == a[i];
    assert forall i :: 0 <= i < |b| ==> right[i] == b[i];
    assert |a| == |b|;
    assert a == left[..|a|] && b == right[..|b|];
    assert s == left[|a| + 1..] && t == right[|b| + 1..];
  }

  lemma ConcatIsAssociative(a: Text, b: Text, c: Text)
    ensures a + (b + c) == (a + b) + c
  {}

  lemma DropPrefix(p: Text, s: Text, t: Text)
    requires p + s == p + t
    ensures s == t
  {
    assert s == (p + s)[|p|..] && t == (p + t)[|p|..];
  }

  /** Character codes are prefix-free: what follows a code cannot change which character it is. */
  lemma WriteCharIsPrefixFree(q: Quoting, c: CodePoint, d: CodePoint, s: Text, t: Text)
    requires WriteChar(q, c) + s == WriteChar(q, d) + t
    ensures c == d && s == t
  {
    var x, y := WriteChar(q, c), WriteChar(q, d);
    assert (x + s)[0] == x[0] && (y + t)[0] == y[0];
    if |x| > 1 && |y| > 1 {
      assert (x + s)[1] == x[1] && (y + t)[1] == y[1];
      if x[1] == LETTER_U {
        match q
        case DisplayQuoting(_) => VisibleEscapesSplit(c, d, s, t);
        case LabelQuoting(_) => VisibleEscapesSplit(c, d, s, t);
        case StringifyQuoting =>
          assert Hex4(c, 'a') == (x + s)[2..6] && Hex4(d, 'a') == (y + t)[2..6];
      }
    }
    assert c == d;
    DropPrefix(x, s, t);
  }

  lemma Unbracket(open: CodePoint, a: Text, close: CodePoint, s: Text, b: Text, t: Text)
    requires [open] + a + [close] + s == [open] + b + [close] + t
    ensures a + [close] + s == b + [close] + t
  {
    assert [open] + a + [close] + s == [open] + (a + [close] + s);
    assert [open] + b + [close] + t == [open] + (b + [close] + t);
    DropPrefix([open], a + [close] + s, b + [close] + t);
  }

  // ----- Strings and trees -----

  function WriteText(q: Quoting, s: Text): Text {
    if |s| == 0 then [] else WriteChar(q, s[0]) + WriteText(q, s[1..])
  }

  function Quote(q: StringQuoting, s: Text): Text {
    [QUOTE] + WriteText(q, s) + [QUOTE]
  }

  lemma {:induction false} WriteTextSnoc(q: Quoting, s: Text, c: CodePoint)
    ensures WriteText(q, s + [c]) == WriteText(q, s) + WriteChar(q, c)
  {
    if |s| == 0 {
      assert s + [c] == [c] && [c][1..] == [];
      assert WriteText(q, [c]) == WriteChar(q, c);
    } else {
      WriteTextSnoc(q, s[1..], c);
      assert (s + [c])[1..] == s[1..] + [c];
      ConcatIsAssociative(WriteChar(q, s[0]), WriteText(q, s[1..]), WriteChar(q, c));
    }
  }

  /** The text after the first character of a quoted string. */
  function TextTail(q: StringQuoting, a: Text, s: Text): (rest: Text)
    requires |a| > 0
    ensures WriteText(q, a) + [QUOTE] + s == WriteChar(q, a[0]) + rest
    ensures rest == WriteText(q, a[1..]) + [QUOTE] + s
    ensures (WriteText(q, a) + [QUOTE] + s)[0] != QUOTE
  {
    WriteText(q, a[1..]) + [QUOTE] + s
  }

  /** A closing quote ends a quoted string unambiguously. */
  lemma {:induction false} WriteTextIsInjective(q: StringQuoting, a: Text, b: Text, s: Text, t: Text)
    requires WriteText(q, a) + [QUOTE] + s == WriteText(q, b) + [QUOTE] + t
    ensures a == b && s == t
  {
    assert |a| > 0 ==> TextTail(q, a, s) == WriteText(q, a[1..]) + [QUOTE] + s;
    assert |b| > 0 ==> TextTail(q, b, t) == WriteText(q, b[1..]) + [QUOTE] + t;
    assert |a| == 0 ==> WriteText(q, a) + [QUOTE] + s == [QUOTE] + s;
    assert |b| == 0 ==> WriteText(q, b) + [QUOTE] + t == [QUOTE] + t;
    if |a| == 0 {
      DropPrefix([QUOTE], s, t);
    } else {
      WriteCharIsPrefixFree(q, a[0], b[0], TextTail(q, a, s), TextTail(q, b, t));
      WriteTextIsInjective(q, a[1..], b[1..], s, t);
    }
  }

  function Write(q: StringQuoting, v: Json): (t: Text)
    ensures |t| > 0
  {
    match v
    case Null => Ascii("null")
    case Bool(b) => if b then Ascii("true") else Ascii("false")
    case Num(text) => text
    case Str(s) => Quote(q, s)
    case Arr(items) => [OPEN_BRACKET] + WriteItems(q, items) + [CLOSE_BRACKET]
    case Obj(members) => [OPEN_BRACE] + WriteMembers(q, members) + [CLOSE_BRACE]
  }

  function WriteItems(q: StringQuoting, items: seq<Json>): Text {
    if |items| == 0 then []
    else if |items| == 1 then Write(q, items[0])
    else Write(q, items[0]) + [COMMA] + WriteItems(q, items[1..])
  }

  function WriteMember(q: StringQuoting, m: Member): Text {
    Quote(q, m.key) + [COLON] + Write(q, m.value)
  }

  function WriteMembers(q: StringQuoting, members: seq<Member>): Text {
    if |members| == 0 then []
    else if |members| == 1 then WriteMember(q, members[0])
    else WriteMember(q, members[0]) + [COMMA] + WriteMembers(q, members[1..])
  }

  // ----- The printer's parts -----

  /** `chunks.join(',')`. */
  function Join(chunks: seq<Text>): Text {
    if |chunks| == 0 then [] else if |chunks| == 1 then chunks[0] else chunks[0] + [COMMA] + Join(chunks[1..])
  }

  function ItemTexts(q: StringQuoting, items: seq<Json>): seq<Text> {
    seq(|items|, i requires 0 <= i < |items| => Write(q, items[i]))
  }

  function MemberTexts(q: StringQuoting, members: seq<Member>): seq<Text> {
    seq(|members|, i requires 0 <= i < |members| => WriteMember(q, members[i]))
  }

  lemma {:induction false} WriteItemsIsJoin(q: StringQuoting, items: seq<Json>)
    ensures WriteItems(q, items) == Join(ItemTexts(q, items))
  {
    if |items| > 1 {
      WriteItemsIsJoin(q, items[1..]);
      assert ItemTexts(q, items)[1..] == ItemTexts(q, items[1..]);
    }
  }

  lemma {:induction false} WriteMembersIsJoin(q: StringQuoting, members: seq<Member>)
    ensures WriteMembers(q, members) == Join(MemberTexts(q, members))
  {
    if |members| > 1 {
      WriteMembersIsJoin(q, members[1..]);
      assert MemberTexts(q, members)[1..] == MemberTexts(q, members[1..]);
    }
  }

  function Separator(n: nat): Text {
    if n > 0 then [COMMA] else []
  }

  lemma {:induction false} JoinSnoc(chunks: seq<Text>, last: Text)
    ensures Join(chunks + [last]) == Join(chunks) + Separator(|chunks|) + last
  {
    var all := chunks + [last];
    if |chunks| == 0 {
      assert all == [last];
      assert [] + [] + last == last;
    } else {
      JoinSnoc(chunks[1..], last);
      assert all[1..] == chunks[1..] + [last];
      if |chunks| > 1 {
        assert Join(all) == chunks[0] + [COMMA] + (Join(chunks[1..]) + [COMMA] + last);
      }
    }
  }

  /** Joining more chunks never costs less. */
  lemma {:induction false} JoinIsMonotone(chunks: seq<Text>, i: nat)
    requires i <= |chunks|
    ensures |Join(chunks[..i])| <= |Join(chunks)|
    ensures Utf8Length(Join(chunks[..i])) <= Utf8Length(Join(chunks))
    decreases |chunks| - i
  {
    if i == |chunks| {
      assert chunks[..i] == chunks;
    } else {
      assert chunks[..i + 1] == chunks[..i] + [chunks[i]];
      JoinSnoc(chunks[..i], chunks[i]);
      Utf8LengthConcat(Join(chunks[..i]) + Separator(i), chunks[i]);
      Utf8LengthConcat(Join(chunks[..i]), Separator(i));
      JoinIsMonotone(chunks, i + 1);
    }
  }

  // ----- Injectivity -----

  /** What may follow a complete value: nothing, a comma or a closing bracket. */
  predicate EndsValue(s: Text) {
    |s| > 0 ==> s[0] == COMMA || s[0] == CLOSE_BRACKET || s[0] == CLOSE_BRACE
  }

  lemma {:induction false} NumbersSplit(a: NumberText, b: NumberText, s: Text, t: Text)
    requires EndsValue(s) && EndsValue(t)
    requires a + s == b + t
    ensures a == b && s == t
  {
    var left, right := a + s, b + t;
    assert forall i :: 0 <= i < |a| ==> IsNumberChar(left[i]);
    assert forall i :: 0 <= i < |b| ==> IsNumberChar(right[i]);
    assert |s| > 0 ==> left[|a|] == s[0] && !IsNumberChar(s[0]);
    assert |t| > 0 ==> right[|b|] == t[0] && !IsNumberChar(t[0]);
    assert a == left[..|a|] && b == right[..|a|];
    DropPrefix(a, s, t);
  }

  /** The first character of a value's text tells its kind. */
  function KindOf(c: CodePoint): nat {
    if c == 'n' as int then 0
    else if c == 't' as int then 1
    else if c == 'f' as int then 2
    else if c == QUOTE then 3
    else if c == OPEN_BRACKET then 4
    else if c == OPEN_BRACE then 5
    else 6
  }

  function Kind(v: Json): nat {
    match v
    case Null => 0
    case Bool(b) => if b then 1 else 2
    case Str(_) => 3
    case Arr(_) => 4
    case Obj(_) => 5
    case Num(_) => 6
  }

  lemma FirstCharTellsKind(q: StringQuoting, v: Json)
    ensures KindOf(Write(q, v)[0]) == Kind(v)
    ensures Write(q, v)[0] != CLOSE_BRACKET
  {
    match v
    case Num(text) => assert IsNumberChar(text[0]);
    case _ =>
  }

  /**
   * The printed grammar is unambiguous: when two values are each followed by something that may end
   * a value and the texts agree, the values and the rests agree.
   */
  lemma {:induction false} WriteIsUnambiguous(q: StringQuoting, v: Json, w: Json, s: Text, t: Text)
    requires EndsValue(s) && EndsValue(t)
    requires Write(q, v) + s == Write(q, w) + t
    ensures v == w && s == t
    decreases v, 0
  {
    assert (Write(q, v) + s)[0] == Write(q, v)[0] && (Write(q, w) + t)[0] == Write(q, w)[0];
    FirstCharTellsKind(q, v);
    FirstCharTellsKind(q, w);
    match v
    case Null => DropPrefix(Write(q, v), s, t);
    case Bool(_) => DropPrefix(Write(q, v), s, t);
    case Num(text) => NumbersSplit(text, w.text, s, t);
    case Str(a) =>
      QuotesSplit(q, a, w.s, s, t);
    case Arr(items) =>
      Unbracket(OPEN_BRACKET, WriteItems(q, items), CLOSE_BRACKET, s, WriteItems(q, w.items), t);
      ItemsAreUnambiguous(q, items, w.items, s, t);
    case Obj(members) =>
      Unbracket(OPEN_BRACE, WriteMembers(q, members), CLOSE_BRACE, s, WriteMembers(q, w.members), t);
      MembersAreUnambiguous(q, members, w.members, s, t);
  }

  lemma QuotesSplit(q: StringQuoting, a: Text, b: Text, s: Text, t: Text)
    requires Quote(q, a) + s == Quote(q, b) + t
    ensures a == b && s == t
  {
    Unbracket(QUOTE, WriteText(q, a), QUOTE, s, WriteText(q, b), t);
    WriteTextIsInjective(q, a, b, s, t);
  }

  /** The text after the first item: a comma and the other items, or the closing bracket. */
  function ItemsTail(q: StringQuoting, items: seq<Json>, s: Text): (rest: Text)
    requires |items| > 0
    ensures EndsValue(rest)
    ensures rest == if |items| == 1 then [CLOSE_BRACKET] + s
            else [COMMA] + (WriteItems(q, items[1..]) + [CLOSE_BRACKET] + s)
    ensures WriteItems(q, items) + [CLOSE_BRACKET] + s == Write(q, items[0]) + rest
    ensures (WriteItems(q, items) + [CLOSE_BRACKET] + s)[0] != CLOSE_BRACKET
  {
    FirstCharTellsKind(q, items[0]);
    if |items| == 1 then [CLOSE_BRACKET] + s
    else [COMMA] + (WriteItems(q, items[1..]) + [CLOSE_BRACKET] + s)
  }

  lemma {:induction false} ItemsAreUnambiguous(q: StringQuoting, a: seq<Json>, b: seq<Json>, s: Text, t: Text)
    requires WriteItems(q, a) + [CLOSE_BRACKET] + s == WriteItems(q, b) + [CLOSE_BRACKET] + t
    ensures a == b && s == t
    decreases a, 1
  {
    assert |a| > 0 ==> EndsValue(ItemsTail(q, a, s));
    assert |b| > 0 ==> EndsValue(ItemsTail(q, b, t));
    assert |a| == 0 ==> WriteItems(q, a) + [CLOSE_BRACKET] + s == [CLOSE_BRACKET] + s;
    assert |b| == 0 ==> WriteItems(q, b) + [CLOSE_BRACKET] + t == [CLOSE_BRACKET] + t;
    if |a| == 0 {
      DropPrefix([CLOSE_BRACKET], s, t);
    } else {
      var tailA, tailB := ItemsTail(q, a, s), ItemsTail(q, b, t);
      WriteIsUnambiguous(q, a[0], b[0], tailA, tailB);
      assert tailA[0] == tailB[0];
      if |a| == 1 {
        assert tailA[0] == CLOSE_BRACKET && |b| == 1;
        assert a == b;
        DropPrefix([CLOSE_BRACKET], s, t);
      } else {
        DropPrefix([COMMA], WriteItems(q, a[1..]) + [CLOSE_BRACKET] + s, WriteItems(q, b[1..]) + [CLOSE_BRACKET] + t);
        ItemsAreUnambiguous(q, a[1..], b[1..], s, t);
        assert a == [a[0]] + a[1..] && b == [b[0]] + b[1..];
      }
    }
  }

  lemma MemberSplits(q: StringQuoting, m: Member, rest: Text)
    ensures WriteMember(q, m) + rest == Quote(q, m.key) + ([COLON] + (Write(q, m.value) + rest))
    ensures (WriteMember(q, m) + rest)[0] == QUOTE
  {
    hide WriteText, Write;
  }

  function MembersTail(q: StringQuoting, members: seq<Member>, s: Text): (rest: Text)
    requires |members| > 0
    ensures EndsValue(rest)
    ensures rest == if |members| == 1 then [CLOSE_BRACE] + s
            else [COMMA] + (WriteMembers(q, members[1..]) + [CLOSE_BRACE] + s)
    ensures WriteMembers(q, members) + [CLOSE_BRACE] + s
         == Quote(q, members[0].key) + ([COLON] + (Write(q, members[0].value) + rest))
    ensures (WriteMembers(q, members) + [CLOSE_BRACE] + s)[0] == QUOTE
  {
    hide WriteText, Write, WriteMember, Quote;
    var rest := if |members| == 1 then [CLOSE_BRACE] + s
                else [COMMA] + (WriteMembers(q, members[1..]) + [CLOSE_BRACE] + s);
    MemberSplits(q, members[0], rest);
    assert WriteMembers(q, members) + [CLOSE_BRACE] + s == WriteMember(q, members[0]) + rest;
    rest
  }

  lemma {:induction false} MembersAreUnambiguous(q: StringQuoting, a: seq<Member>, b: seq<Member>, s: Text, t: Text)
    requires WriteMembers(q, a) + [CLOSE_BRACE] + s == WriteMembers(q, b) + [CLOSE_BRACE] + t
    ensures a == b && s == t
    decreases a, 1
  {
    assert |a| > 0 ==> EndsValue(MembersTail(q, a, s));
    assert |b| > 0 ==> EndsValue(MembersTail(q, b, t));
    assert |a| == 0 ==> WriteMembers(q, a) + [CLOSE_BRACE] + s == [CLOSE_BRACE] + s;
    assert |b| == 0 ==> WriteMembers(q, b) + [CLOSE_BRACE] + t == [CLOSE_BRACE] + t;
    if |a| == 0 {
      DropPrefix([CLOSE_BRACE], s, t);
    } else {
      var tailA, tailB := MembersTail(q, a, s), MembersTail(q, b, t);
      var valueA, valueB := Write(q, a[0].value) + tailA, Write(q, b[0].value) + tailB;
      QuotesSplit(q, a[0].key, b[0].key, [COLON] + valueA, [COLON] + valueB);
      DropPrefix([COLON], valueA, valueB);
      WriteIsUnambiguous(q, a[0].value, b[0].value, tailA, tailB);
      assert tailA[0] == tailB[0];
      if |a| == 1 {
        assert tailA[0] == CLOSE_BRACE && |b| == 1;
        assert a == b;
        DropPrefix([CLOSE_BRACE], s, t);
      } else {
        DropPrefix([COMMA], WriteMembers(q, a[1..]) + [CLOSE_BRACE] + s, WriteMembers(q, b[1..]) + [CLOSE_BRACE] + t);
        MembersAreUnambiguous(q, a[1..], b[1..], s, t);
        assert a == [a[0]] + a[1..] && b == [b[0]] + b[1..];
      }
    }
  }

  /** Equal texts come from equal trees, key order included. */
  lemma WriteIsInjective(q: StringQuoting, v: Json, w: Json)
    requires Write(q, v) == Write(q, w)
    ensures v == w
  {
    assert Write(q, v) + [] == Write(q, v) && Write(q, w) + [] == Write(q, w);
    WriteIsUnambiguous(q, v, w, [], []);
  }

  /** An unquoted label is injective too: its end is the end of the text. */
  lemma {:induction false} LabelIsInjective(escaped: set<CodePoint>, a: Text, b: Text)
    requires WriteText(LabelQuoting(escaped), a) == WriteText(LabelQuoting(escaped), b)
    ensures a == b
  {
    var q := LabelQuoting(escaped);
    if |a| > 0 && |b| > 0 {
      WriteCharIsPrefixFree(q, a[0], b[0], WriteText(q, a[1..]), WriteText(q, b[1..]));
      LabelIsInjective(escaped, a[1..], b[1..]);
      assert a == [a[0]] + a[1..] && b == [b[0]] + b[1..];
    }
  }

  // ----- Nothing unsafe is shown raw -----

  predicate IsPrintableAscii(c: CodePoint) {
    0x20 <= c <= 0x7E
  }

  /** No code point of the text is one the display must escape. */
  ghost predicate ShowsSafely(escaped: set<CodePoint>, t: Text) {
    forall i :: 0 <= i < |t| ==> t[i] !in escaped
  }

  lemma {:induction false} HexIsPrintable(n: nat, ten: char)
    requires ten == 'A' || ten == 'a'
    ensures forall c :: c in Hex(n, ten) ==> IsPrintableAscii(c)
  {
    if n >= 16 {
      HexIsPrintable(n / 16, ten);
    }
  }

  lemma {:induction false} PaddingIsPrintable(t: Text)
    requires forall c :: c in t ==> IsPrintableAscii(c)
    ensures forall c :: c in PadStart4(t) ==> IsPrintableAscii(c)
    decreases 4 - |t|
  {
    if |t| < 4 {
      PaddingIsPrintable(['0' as int] + t);
    }
  }

  lemma {:induction false} WriteTextShowsSafely(q: Quoting, s: Text)
    requires !q.StringifyQuoting? && forall c :: c in q.escaped ==> !IsPrintableAscii(c)
    ensures ShowsSafely(q.escaped, WriteText(q, s))
  {
    if |s| > 0 {
      HexIsPrintable(s[0], 'A');
      PaddingIsPrintable(Hex(s[0], 'A'));
      WriteTextShowsSafely(q, s[1..]);
    }
  }

  /** With no printable ASCII among the escaped code points, no escaped code point survives printing. */
  lemma {:induction false} WriteShowsSafely(escaped: set<CodePoint>, v: Json)
    requires forall c :: c in escaped ==> !IsPrintableAscii(c)
    ensures ShowsSafely(escaped, Write(DisplayQuoting(escaped), v))
    decreases v, 0
  {
    var q := DisplayQuoting(escaped);
    match v
    case Str(s) => WriteTextShowsSafely(q, s);
    case Arr(items) => ItemsShowSafely(escaped, items);
    case Obj(members) => MembersShowSafely(escaped, members);
    case Num(text) => assert forall i :: 0 <= i < |text| ==> IsNumberChar(text[i]) && IsPrintableAscii(text[i]);
    case _ =>
  }

  lemma {:induction false} ItemsShowSafely(escaped: set<CodePoint>, items: seq<Json>)
    requires forall c :: c in escaped ==> !IsPrintableAscii(c)
    ensures ShowsSafely(escaped, WriteItems(DisplayQuoting(escaped), items))
    decreases items, 1
  {
    if |items| > 0 {
      WriteShowsSafely(escaped, items[0]);
      ItemsShowSafely(escaped, items[1..]);
    }
  }

  lemma {:induction false} MembersShowSafely(escaped: set<CodePoint>, members: seq<Member>)
    requires forall c :: c in escaped ==> !IsPrintableAscii(c)
    ensures ShowsSafely(escaped, WriteMembers(DisplayQuoting(escaped), members))
    decreases members, 1
  {
    if |members| > 0 {
      WriteTextShowsSafely(DisplayQuoting(escaped), members[0].key);
      WriteShowsSafely(escaped, members[0].value);
      MembersShowSafely(escaped, members[1..]);
    }
  }
}
