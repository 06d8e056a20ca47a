/**
 * A reader of the display's text, written from its grammar alone: what somebody who knows JSON and the two
 * escapes `\u{...}` and `\uXXXX` makes of what is shown. The printer is proved against it: reading a
 * printed value or name gives that value or name.
 */
module JsonReader {
  import opened JsValues
  import opened JsonText

  datatype Parse<T> = Got(value: T, rest: Text) | Unreadable

  // ----- Hexadecimal numbers -----

  predicate IsHexDigit(c: CodePoint) {
    '0' as int <= c <= '9' as int || 'A' as int <= c <= 'F' as int || 'a' as int <= c <= 'f' as int
  }

  function HexDigitValue(c: CodePoint): (n: nat)
    requires IsHexDigit(c)
    ensures n < 16
  {
    if c <= '9' as int then c - '0' as int
    else if c <= 'F' as int then c - 'A' as int + 10
    else c - 'a' as int + 10
  }

  predicate IsHex(t: Text) {
    forall i :: 0 <= i < |t| ==> IsHexDigit(t[i])
  }

  function HexNumber(t: Text): nat
    requires IsHex(t)
  {
    if |t| == 0 then 0 else HexNumber(t[..|t| - 1]) * 16 + HexDigitValue(t[|t| - 1])
  }

  /** The code point that the digits name, if they name one. */
  function NamedCodePoint(digits: Text, rest: Text): Parse<CodePoint> {
    if |digits| > 0 && IsHex(digits) && HexNumber(digits) <= 0x10FFFF then Got(HexNumber(digits), rest) else Unreadable
  }

  /** The number of characters before the first `stop`. */
  function Before(t: Text, stop: CodePoint): (n: nat)
    ensures n <= |t| && (n < |t| ==> t[n] == stop) && stop !in t[..n]
  {
    if |t| == 0 || t[0] == stop then 0
    else
      assert forall n: nat :: n <= |t[1..]| ==> t[..n + 1] == [t[0]] + t[1..][..n];
      1 + Before(t[1..], stop)
  }

  // ----- Characters and strings -----

  /** One character: itself, or a backslash and what it stands for. */
  function ReadChar(t: Text): (r: Parse<CodePoint>)
    ensures r.Got? ==> |r.rest| < |t|
  {
    if |t| == 0 then Unreadable
    else if t[0] != '\\' as int then Got(t[0], t[1..])
    else if |t| == 1 then Unreadable
    else if t[1] == '\"' as int || t[1] == '\\' as int then Got(t[1], t[2..])
    else if t[1] == 'b' as int then Got(8, t[2..])
    else if t[1] == 't' as int then Got(9, t[2..])
    else if t[1] == 'n' as int then Got(10, t[2..])
    else if t[1] == 'f' as int then Got(12, t[2..])
    else if t[1] == 'r' as int then Got(13, t[2..])
    else if t[1] != 'u' as int then Unreadable
    else if |t| > 2 && t[2] == '{' as int then
      var end := 3 + Before(t[3..], '}' as int);
      if end < |t| then NamedCodePoint(t[3..end], t[end + 1..]) else Unreadable
    else if |t| >= 6 then NamedCodePoint(t[2..6], t[6..])
    else Unreadable
  }

  /** The rest of a string whose opening quote has been read. */
  function ReadString(t: Text): (r: Parse<Text>)
    ensures r.Got? ==> |r.rest| < |t|
    decreases |t|
  {
    if |t| == 0 then Unreadable
    else if t[0] == '\"' as int then Got([], t[1..])
    else
      match ReadChar(t)
      case Unreadable => Unreadable
      case Got(c, rest) =>
        match ReadString(rest)
        case Unreadable => Unreadable
        case Got(s, after) => Got([c] + s, after)
  }

  /** A name shown without quotes ends where the text ends. */
  function ReadLabel(t: Text): (r: Parse<Text>)
    ensures r.Got? ==> r.rest == []
    decreases |t|
  {
    if |t| == 0 then Got([], [])
    else
      match ReadChar(t)
      case Unreadable => Unreadable
      case Got(c, rest) =>
        match ReadLabel(rest)
        case Unreadable => Unreadable
        case Got(s, after) => Got([c] + s, after)
  }

  // ----- Values -----

  /** The number of number characters that `t` starts with. */
  function NumberLength(t: Text): (n: nat)
    ensures n <= |t| && forall i :: 0 <= i < n ==> IsNumberChar(t[i])
    ensures n < |t| ==> !IsNumberChar(t[n])
  {
    if |t| == 0 || !IsNumberChar(t[0]) then 0 else 1 + NumberLength(t[1..])
  }

  predicate StartsWith(t: Text, word: Text) {
    |word| <= |t| && t[..|word|] == word
  }

  function ReadValue(t: Text): (r: Parse<Json>)
    ensures r.Got? ==> |r.rest| < |t|
    decreases |t|, 0
  {
    if StartsWith(t, Ascii("null")) then Got(Null, t[4..])
    else if StartsWith(t, Ascii("true")) then Got(Bool(true), t[4..])
    else if StartsWith(t, Ascii("false")) then Got(Bool(false), t[5..])
    else if |t| > 0 && t[0] == '\"' as int then
      match ReadString(t[1..])
      case Unreadable => Unreadable
      case Got(s, rest) => Got(Str(s), rest)
    else if |t| > 0 && t[0] == '[' as int then
      match ReadItems(t[1..], true)
      case Unreadable => Unreadable
      case Got(items, rest) => Got(Arr(items), rest)
    else if |t| > 0 && t[0] == '{' as int then
      match ReadMembers(t[1..], true)
      case Unreadable => Unreadable
      case Got(members, rest) => Got(Obj(members), rest)
    else
      var n := NumberLength(t);
      if n > 0 then Got(Num(t[..n]), t[n..]) else Unreadable
  }

  /** The items up to the closing bracket; only the first may be missing. */
  function ReadItems(t: Text, first: bool): (r: Parse<seq<Json>>)
    ensures r.Got? ==> |r.rest| < |t|
    decreases |t|, 1
  {
    if first && |t| > 0 && t[0] == ']' as int then Got([], t[1..])
    else
      match ReadValue(t)
      case Unreadable => Unreadable
      case Got(item, rest) =>
        if |rest| == 0 then Unreadable
        else if rest[0] == ']' as int then Got([item], rest[1..])
        else if rest[0] != ',' as int then Unreadable
        else
          match ReadItems(rest[1..], false)
          case Unreadable => Unreadable
          case Got(items, after) => Got([item] + items, after)
  }

  function ReadMember(t: Text): (r: Parse<Member>)
    ensures r.Got? ==> |r.rest| < |t|
    decreases |t|, 1
  {
    if |t| == 0 || t[0] != '\"' as int then Unreadable
    else
      match ReadString(t[1..])
      case Unreadable => Unreadable
      case Got(key, rest) =>
        if |rest| == 0 || rest[0] != ':' as int then Unreadable
        else
          match ReadValue(rest[1..])
          case Unreadable => Unreadable
          case Got(value, after) => Got(Member(key, value), after)
  }

  function ReadMembers(t: Text, first: bool): (r: Parse<seq<Member>>)
    ensures r.Got? ==> |r.rest| < |t|
    decreases |t|, 2
  {
    if first && |t| > 0 && t[0] == '}' as int then Got([], t[1..])
    else
      match ReadMember(t)
      case Unreadable => Unreadable
      case Got(m, rest) =>
        if |rest| == 0 then Unreadable
        else if rest[0] == '}' as int then Got([m], rest[1..])
        else if rest[0] != ',' as int then Unreadable
        else
          match ReadMembers(rest[1..], false)
          case Unreadable => Unreadable
          case Got(members, after) => Got([m] + members, after)
  }

  // ----- What is printed reads back -----

  lemma {:induction false} HexIsRead(n: nat, ten: char)
    requires ten == 'A' || ten == 'a'
    ensures IsHex(Hex(n, ten)) && HexNumber(Hex(n, ten)) == n
  {
    var t := Hex(n, ten);
    if n < 16 {
      assert t[..|t| - 1] == [];
    } else {
      HexIsRead(n / 16, ten);
      assert t[..|t| - 1] == Hex(n / 16, ten);
    }
  }

  lemma {:induction false} LeadingZeroIsRead(t: Text)
    requires IsHex(t)
    ensures IsHex(['0' as int] + t) && HexNumber(['0' as int] + t) == HexNumber(t)
  {
    var z := ['0' as int] + t;
    if |t| == 0 {
      assert z[..|z| - 1] == [];
    } else {
      LeadingZeroIsRead(t[..|t| - 1]);
      assert z[..|z| - 1] == ['0' as int] + t[..|t| - 1];
    }
  }

  lemma {:induction false} PaddingIsRead(t: Text)
    requires IsHex(t)
    ensures IsHex(PadStart4(t)) && HexNumber(PadStart4(t)) == HexNumber(t)
    decreases 4 - |t|
  {
    if |t| < 4 {
      LeadingZeroIsRead(t);
      PaddingIsRead(['0' as int] + t);
    }
  }

  lemma Hex4IsRead(n: nat, ten: char)
    requires ten == 'A' || ten == 'a'
    ensures IsHex(Hex4(n, ten)) && HexNumber(Hex4(n, ten)) == n
  {
    HexIsRead(n, ten);
    PaddingIsRead(Hex(n, ten));
  }

  lemma {:induction false} BeforeStop(a: Text, stop: CodePoint, s: Text)
    requires stop !in a
    ensures Before(a + [stop] + s, stop) == |a|
  {
    var t := a + [stop] + s;
    if |a| > 0 {
      BeforeStop(a[1..], stop, s);
      assert t[1..] == a[1..] + [stop] + s;
    }
  }

  lemma VisibleEscapeIsRead(c: CodePoint, s: Text)
    ensures ReadChar(VisibleEscape(c) + s) == Got(c, s)
  {
    hide HexNumber, Hex;
    var digits := Hex4(c, 'A');
    var t := VisibleEscape(c) + s;
    Hex4IsRead(c, 'A');
    BeforeStop(digits, CLOSE_BRACE, s);
    assert t[3..] == digits + [CLOSE_BRACE] + s;
    assert t[3..3 + |digits|] == digits && t[3 + |digits| + 1..] == s;
  }

  /** A printed character reads back, whatever follows. */
  lemma CharIsRead(q: Quoting, c: CodePoint, s: Text)
    ensures ReadChar(WriteChar(q, c) + s) == Got(c, s)
  {
    hide HexNumber, Hex, VisibleEscape;
    var t := WriteChar(q, c) + s;
    VisibleEscapeIsRead(c, s);
    if q.StringifyQuoting? && c != QUOTE && c != BACKSLASH && ShortEscape(c) == 0 && (c < 0x20 || IsSurrogate(c)) {
      Hex4IsRead(c, 'a');
      assert t[2..6] == Hex4(c, 'a') && t[6..] == s;
    } else if |WriteChar(q, c)| == 1 {
      assert t[1..] == s;
    } else if |WriteChar(q, c)| == 2 {
      assert t[2..] == s;
    }
  }

  /** A printed string reads back up to its closing quote. */
  lemma {:induction false} StringIsRead(q: StringQuoting, a: Text, s: Text)
    ensures ReadString(WriteText(q, a) + [QUOTE] + s) == Got(a, s)
  {
    hide ReadChar, WriteChar;
    var t := WriteText(q, a) + [QUOTE] + s;
    if |a| == 0 {
      assert t == [QUOTE] + s && t[1..] == s;
    } else {
      var rest := TextTail(q, a, s);
      CharIsRead(q, a[0], rest);
      StringIsRead(q, a[1..], s);
      assert a == [a[0]] + a[1..];
    }
  }

  /** A printed tool name reads back as that name. */
  lemma {:induction false} LabelIsRead(escaped: set<CodePoint>, a: Text)
    ensures ReadLabel(WriteText(LabelQuoting(escaped), a)) == Got(a, [])
  {
    hide ReadChar, WriteChar;
    if |a| > 0 {
      var q := LabelQuoting(escaped);
      CharIsRead(q, a[0], WriteText(q, a[1..]));
      LabelIsRead(escaped, a[1..]);
      assert a == [a[0]] + a[1..];
    }
  }

  lemma EndIsNoNumber(s: Text)
    requires EndsValue(s) && |s| > 0
    ensures !IsNumberChar(s[0])
  {}

  lemma NumberIsRead(text: Text, s: Text)
    requires EndsValue(s) && forall i :: 0 <= i < |text| ==> IsNumberChar(text[i])
    ensures NumberLength(text + s) == |text|
  {
    hide NumberLength, IsNumberChar;
    var t := text + s;
    assert forall i :: 0 <= i < |text| ==> t[i] == text[i];
    if |s| > 0 {
      EndIsNoNumber(s);
      assert t[|text|] == s[0];
    }
  }

  lemma WordsStart(t: Text)
    ensures StartsWith(t, Ascii("null")) ==> t[0] == 'n' as int
    ensures StartsWith(t, Ascii("true")) ==> t[0] == 't' as int
    ensures StartsWith(t, Ascii("false")) ==> t[0] == 'f' as int
  {
    assert forall word: Text :: StartsWith(t, word) && |word| > 0 ==> t[..|word|][0] == t[0];
  }

  lemma ScalarIsRead(q: StringQuoting, v: Json, s: Text)
    requires EndsValue(s) && (v.Null? || v.Bool? || v.Num?)
    ensures ReadValue(Write(q, v) + s) == Got(v, s)
  {
    hide ReadString, ReadItems, ReadMembers, NumberLength;
    var t := Write(q, v) + s;
    WordsStart(t);
    match v
    case Null => assert t[..4] == Ascii("null") && t[4..] == s;
    case Bool(b) =>
      assert b ==> t[0] == 't' as int && t[..4] == Ascii("true") && t[4..] == s;
      assert !b ==> t[0] == 'f' as int && t[..5] == Ascii("false") && t[5..] == s;
    case Num(text) =>
      NumberIsRead(text, s);
      assert t[0] == text[0] && IsNumberChar(t[0]) && t[..|text|] == text && t[|text|..] == s;
  }

  /** An opening character decides what is read. */
  lemma OpeningIsRead(t: Text)
    requires |t| > 0
    ensures t[0] == QUOTE && ReadString(t[1..]).Got? ==>
              ReadValue(t) == Got(Str(ReadString(t[1..]).value), ReadString(t[1..]).rest)
    ensures t[0] == OPEN_BRACKET && ReadItems(t[1..], true).Got? ==>
              ReadValue(t) == Got(Arr(ReadItems(t[1..], true).value), ReadItems(t[1..], true).rest)
    ensures t[0] == OPEN_BRACE && ReadMembers(t[1..], true).Got? ==>
              ReadValue(t) == Got(Obj(ReadMembers(t[1..], true).value), ReadMembers(t[1..], true).rest)
  {
    WordsStart(t);
    hide ReadString, ReadItems, ReadMembers, NumberLength, StartsWith;
  }

  /** A printed value reads back as that value, and what follows it is left over. */
  lemma {:induction false} ValueIsRead(q: StringQuoting, v: Json, s: Text)
    requires EndsValue(s)
    ensures ReadValue(Write(q, v) + s) == Got(v, s)
    decreases v, 0
  {
    hide ReadValue, ReadString, ReadItems, ReadMembers, WriteText, WriteItems, WriteMembers;
    var t := Write(q, v) + s;
    OpeningIsRead(t);
    match v
    case Str(a) =>
      StringIsRead(q, a, s);
      assert t[1..] == WriteText(q, a) + [QUOTE] + s;
    case Arr(items) =>
      ItemsAreRead(q, items, s, true);
      assert t[1..] == WriteItems(q, items) + [CLOSE_BRACKET] + s;
    case Obj(members) =>
      MembersAreRead(q, members, s, true);
      assert t[1..] == WriteMembers(q, members) + [CLOSE_BRACE] + s;
    case _ => ScalarIsRead(q, v, s);
  }

  lemma {:induction false} ItemsAreRead(q: StringQuoting, items: seq<Json>, s: Text, first: bool)
    requires first || |items| > 0
    ensures ReadItems(WriteItems(q, items) + [CLOSE_BRACKET] + s, first) == Got(items, s)
    decreases items, 1
  {
    hide ReadValue, Write;
    var t := WriteItems(q, items) + [CLOSE_BRACKET] + s;
    if |items| == 0 {
      assert t == [CLOSE_BRACKET] + s && t[1..] == s;
    } else {
      var rest := ItemsTail(q, items, s);
      ValueIsRead(q, items[0], rest);
      if |items| == 1 {
        assert rest[1..] == s && items == [items[0]];
      } else {
        ItemsAreRead(q, items[1..], s, false);
        assert rest[1..] == WriteItems(q, items[1..]) + [CLOSE_BRACKET] + s;
        assert items == [items[0]] + items[1..];
      }
    }
  }

  lemma MemberIsRead(q: StringQuoting, m: Member, rest: Text)
    requires EndsValue(rest)
    ensures ReadMember(Quote(q, m.key) + ([COLON] + (Write(q, m.value) + rest))) == Got(m, rest)
    decreases m, 1
  {
    hide ReadValue, ReadString, Write, WriteText;
    var value := Write(q, m.value) + rest;
    var t := Quote(q, m.key) + ([COLON] + value);
    assert t[1..] == WriteText(q, m.key) + [QUOTE] + ([COLON] + value);
    StringIsRead(q, m.key, [COLON] + value);
    assert ([COLON] + value)[1..] == value;
    ValueIsRead(q, m.value, rest);
  }

  lemma {:induction false} MembersAreRead(q: StringQuoting, members: seq<Member>, s: Text, first: bool)
    requires first || |members| > 0
    ensures ReadMembers(WriteMembers(q, members) + [CLOSE_BRACE] + s, first) == Got(members, s)
    decreases members, 1
  {
    hide ReadMember, Write, WriteMember, Quote;
    var t := WriteMembers(q, members) + [CLOSE_BRACE] + s;
    if |members| == 0 {
      assert t == [CLOSE_BRACE] + s && t[1..] == s;
    } else {
      var rest := MembersTail(q, members, s);
      MemberIsRead(q, members[0], rest);
      if |members| == 1 {
        assert rest[1..] == s && members == [members[0]];
      } else {
        MembersAreRead(q, members[1..], s, false);
        assert rest[1..] == WriteMembers(q, members[1..]) + [CLOSE_BRACE] + s;
        assert members == [members[0]] + members[1..];
      }
    }
  }

  /** The printed form of a value, read as a whole, is that value. */
  lemma WrittenIsRead(q: StringQuoting, v: Json)
    ensures ReadValue(Write(q, v)) == Got(v, [])
  {
    hide ReadValue, Write;
    assert Write(q, v) + [] == Write(q, v);
    ValueIsRead(q, v, []);
  }

  lemma QuotedIsRead(q: StringQuoting, s: Text)
    ensures ReadValue(Quote(q, s)) == Got(Str(s), [])
  {
    hide ReadValue, Quote;
    WrittenIsRead(q, Str(s));
  }

  // ----- What needs no escape is shown as it is -----

  /** No character of the text has to be made visible or stands for something else in the text. */
  ghost predicate IsPlain(q: Quoting, s: Text) {
    && !q.StringifyQuoting?
    && forall i :: 0 <= i < |s| ==> s[i] !in q.escaped && s[i] != BACKSLASH && (s[i] == QUOTE ==> q.LabelQuoting?)
  }

  lemma {:induction false} PlainTextIsShownAsItIs(q: Quoting, s: Text)
    requires IsPlain(q, s)
    ensures WriteText(q, s) == s
  {
    if |s| > 0 {
      PlainTextIsShownAsItIs(q, s[1..]);
      assert s == [s[0]] + s[1..];
    }
  }

  predicate IsUpperHexDigit(c: CodePoint) {
    '0' as int <= c <= '9' as int || 'A' as int <= c <= 'F' as int
  }

  /** The escape of a code point: at least four digits, capital letters, and no more zeros than that takes. */
  ghost predicate IsEscapeOf(t: Text, c: CodePoint) {
    exists digits: Text ::
      && t == Ascii("\\u{") + digits + Ascii("}")
      && |digits| >= 4 && (|digits| > 4 ==> digits[0] != '0' as int)
      && (forall i :: 0 <= i < |digits| ==> IsUpperHexDigit(digits[i]))
      && HexNumber(digits) == c
  }

  lemma {:induction false} HexIsUpper(n: nat)
    ensures forall i :: 0 <= i < |Hex(n, 'A')| ==> IsUpperHexDigit(Hex(n, 'A')[i])
    ensures n > 0 ==> Hex(n, 'A')[0] != '0' as int
  {
    if n >= 16 {
      HexIsUpper(n / 16);
    }
  }

  lemma {:induction false} PaddingIsUpper(t: Text)
    requires forall i :: 0 <= i < |t| ==> IsUpperHexDigit(t[i])
    ensures forall i :: 0 <= i < |PadStart4(t)| ==> IsUpperHexDigit(PadStart4(t)[i])
    ensures |PadStart4(t)| > 4 ==> PadStart4(t) == t
    decreases 4 - |t|
  {
    if |t| < 4 {
      PaddingIsUpper(['0' as int] + t);
      PaddedLength(t);
    }
  }

  /** A character that has to be made visible is shown by its escape. */
  lemma UnsafeIsEscaped(q: Quoting, c: CodePoint)
    requires !q.StringifyQuoting? && c in q.escaped && c != QUOTE && c != BACKSLASH
    ensures IsEscapeOf(WriteChar(q, c), c)
  {
    hide HexNumber, Hex;
    Hex4IsRead(c, 'A');
    HexIsUpper(c);
    PaddingIsUpper(Hex(c, 'A'));
    assert Ascii("\\u{") == [BACKSLASH, LETTER_U, OPEN_BRACE] && Ascii("}") == [CLOSE_BRACE];
    assert |Hex4(c, 'A')| > 4 ==> c > 0;
  }
}
