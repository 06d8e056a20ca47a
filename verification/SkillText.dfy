/**
 * String replacement, and the attribute escaping of skill frames
 * (packages/app-runtime/src/skill-tool.ts:6-8, packages/app-runtime/src/skills-panel.ts:131-133).
 *
 * A `char` stands for one UTF-16 code unit.
 */
module SkillText {

  predicate StartsWith(s: string, prefix: string) {
    |prefix| <= |s| && s[..|prefix|] == prefix
  }

  /** `replaceAll` with a literal pattern: left to right, never inside what it has just replaced. */
  function ReplaceAll(s: string, pattern: string, other: string): string
    requires pattern != []
    decreases |s|
  {
    if StartsWith(s, pattern) then other + ReplaceAll(s[|pattern|..], pattern, other)
    else if s == [] then []
    else [s[0]] + ReplaceAll(s[1..], pattern, other)
  }

  predicate OccursAt(s: string, pattern: string, i: nat) {
    i <= |s| && StartsWith(s[i..], pattern)
  }

  /** Where the pattern does not start, the text is copied. */
  lemma {:induction false} ReplaceSkips(s: string, rest: string, pattern: string, other: string)
    requires pattern != []
    requires forall i :: 0 <= i < |s| ==> !OccursAt(s + rest, pattern, i)
    ensures ReplaceAll(s + rest, pattern, other) == s + ReplaceAll(rest, pattern, other)
    decreases |s|
  {
    if s == [] {
      assert s + rest == rest;
    } else {
      var all := s + rest;
      assert all[0..] == all;
      assert !OccursAt(all, pattern, 0);
      assert all[1..] == s[1..] + rest;
      forall i | 0 <= i < |s[1..]| ensures !OccursAt(s[1..] + rest, pattern, i) {
        assert all[1..][i..] == all[i + 1..];
        assert !OccursAt(all, pattern, i + 1);
      }
      ReplaceSkips(s[1..], rest, pattern, other);
      assert [s[0]] + (s[1..] + ReplaceAll(rest, pattern, other)) == s + ReplaceAll(rest, pattern, other);
    }
  }

  lemma ReplaceHits(rest: string, pattern: string, other: string)
    requires pattern != []
    ensures ReplaceAll(pattern + rest, pattern, other) == other + ReplaceAll(rest, pattern, other)
  {
    assert (pattern + rest)[|pattern|..] == rest;
  }

  lemma OccursMeans(s: string, pattern: string, i: nat)
    ensures OccursAt(s, pattern, i) ==>
              i + |pattern| <= |s| && forall j :: 0 <= j < |pattern| ==> s[i + j] == pattern[j]
  {
    if OccursAt(s, pattern, i) {
      assert forall j :: 0 <= j < |pattern| ==> s[i..][j] == pattern[j];
    }
  }

  lemma OccursByChars(s: string, pattern: string, i: nat)
    requires i + |pattern| <= |s| && forall j :: 0 <= j < |pattern| ==> s[i + j] == pattern[j]
    ensures OccursAt(s, pattern, i)
  {
    assert s[i..][..|pattern|] == pattern;
  }

  lemma OccursLater(before: string, s: string, pattern: string, i: nat)
    ensures OccursAt(before + s, pattern, |before| + i) == OccursAt(s, pattern, i)
  {
    if i <= |s| { assert (before + s)[|before| + i..] == s[i..]; }
  }

  // ---- Attributes ----

  function EscapeAttribute(value: string): string {
    ReplaceAll(ReplaceAll(ReplaceAll(value, "&", "&amp;"), "<", "&lt;"), "\"", "&quot;")
  }

  function UnescapeAttribute(value: string): string {
    ReplaceAll(ReplaceAll(ReplaceAll(value, "&quot;", "\""), "&lt;", "<"), "&amp;", "&")
  }

  /** Text in which the characters of `escaped` are spelled by their entities. */
  function Spell(value: string, escaped: set<char>): string {
    if value == [] then [] else SpellChar(value[0], escaped) + Spell(value[1..], escaped)
  }

  function SpellChar(c: char, escaped: set<char>): (s: string)
    ensures s != []
  {
    if c !in escaped then [c]
    else if c == '&' then "&amp;"
    else if c == '<' then "&lt;"
    else if c == '"' then "&quot;"
    else [c]
  }

  /** Escaping one more character, whose pattern is that character alone. */
  lemma {:induction false} EscapeOneMore(value: string, escaped: set<char>, c: char, entity: string)
    requires c !in escaped && SpellChar(c, escaped + {c}) == entity
    requires c == '<' || c == '"' || (c == '&' && escaped == {})
    ensures ReplaceAll(Spell(value, escaped), [c], entity) == Spell(value, escaped + {c})
    decreases |value|
  {
    if value != [] {
      var rest := Spell(value[1..], escaped);
      var piece := SpellChar(value[0], escaped);
      EscapeOneMore(value[1..], escaped, c, entity);
      if value[0] == c {
        ReplaceHits(rest, [c], entity);
      } else {
        assert c !in piece;
        forall i | 0 <= i < |piece| ensures !OccursAt(piece + rest, [c], i) {
          OccursMeans(piece + rest, [c], i);
          assert (piece + rest)[i + 0] == piece[i] && [c][0] == c;
        }
        ReplaceSkips(piece, rest, [c], entity);
      }
    }
  }

  lemma {:induction false} SpellNothing(value: string)
    ensures Spell(value, {}) == value
  {
    if value != [] { SpellNothing(value[1..]); }
  }

  lemma EscapeSpells(value: string)
    ensures EscapeAttribute(value) == Spell(value, {'&', '<', '"'})
  {
    SpellNothing(value);
    EscapeOneMore(value, {}, '&', "&amp;");
    EscapeOneMore(value, {'&'}, '<', "&lt;");
    EscapeOneMore(value, {'&', '<'}, '"', "&quot;");
    assert {} + {'&'} == {'&'} && {'&'} + {'<'} == {'&', '<'} && {'&', '<'} + {'"'} == {'&', '<', '"'};
  }

  lemma {:induction false} SpellSnoc(value: string, c: char, escaped: set<char>)
    ensures Spell(value + [c], escaped) == Spell(value, escaped) + SpellChar(c, escaped)
  {
    hide SpellChar;
    var last := SpellChar(c, escaped);
    if value == [] {
      assert value + [c] == [c] && [c][1..] == [];
      assert Spell([c], escaped) == last + [] == last && Spell(value, escaped) + last == last;
    } else {
      var first, rest := SpellChar(value[0], escaped), Spell(value[1..], escaped);
      SpellSnoc(value[1..], c, escaped);
      assert (value + [c])[1..] == value[1..] + [c];
      assert first + (rest + last) == (first + rest) + last;
    }
  }

  /** Escaping goes character by character: three of them become entities, the others stay. */
  lemma EscapedByCharacter(value: string, c: char)
    ensures EscapeAttribute([]) == []
    ensures EscapeAttribute(value + [c]) == EscapeAttribute(value)
      + if c == '&' then "&amp;" else if c == '<' then "&lt;" else if c == '"' then "&quot;" else [c]
  {
    EscapeSpells([]);
    EscapeSpells(value);
    EscapeSpells(value + [c]);
    SpellSnoc(value, c, {'&', '<', '"'});
  }

  /** Unescaping one character: while `&` is escaped, every other entity starts with a fresh `&`. */
  lemma {:induction false} UnescapeOne(value: string, escaped: set<char>, c: char, entity: string)
    requires '&' in escaped && c in escaped && c in {'&', '<', '"'} && SpellChar(c, escaped) == entity
    requires c == '&' ==> escaped == {'&'}
    ensures ReplaceAll(Spell(value, escaped), entity, [c]) == Spell(value, escaped - {c})
    decreases |value|
  {
    if value != [] {
      var rest := Spell(value[1..], escaped);
      var piece := SpellChar(value[0], escaped);
      UnescapeOne(value[1..], escaped, c, entity);
      if value[0] == c {
        ReplaceHits(rest, entity, [c]);
      } else {
        forall i | 0 <= i < |piece| ensures !OccursAt(piece + rest, entity, i) {
          OccursMeans(piece + rest, entity, i);
          assert entity[0] == '&' && (piece + rest)[i + 0] == piece[i];
          assert i + 1 < |piece| ==> (piece + rest)[i + 1] == piece[i + 1] && |entity| > 1;
        }
        ReplaceSkips(piece, rest, entity, [c]);
      }
    }
  }

  /** The three sequential passes undo the three escaping passes. */
  lemma UnescapeUndoesEscape(value: string)
    ensures UnescapeAttribute(EscapeAttribute(value)) == value
  {
    EscapeSpells(value);
    UnescapeOne(value, {'&', '<', '"'}, '"', "&quot;");
    UnescapeOne(value, {'&', '<'}, '<', "&lt;");
    UnescapeOne(value, {'&'}, '&', "&amp;");
    SpellNothing(value);
    assert {'&', '<', '"'} - {'"'} == {'&', '<'} && {'&', '<'} - {'<'} == {'&'} && {'&'} - {'&'} == {};
  }

  /** The attribute grammar of the frame pattern: plain characters and whole entities. */
  predicate IsAttribute(s: string)
    decreases |s|
  {
    || s == []
    || (s[0] != '"' && s[0] != '&' && IsAttribute(s[1..]))
    || (StartsWith(s, "&amp;") && IsAttribute(s[5..]))
    || (StartsWith(s, "&lt;") && IsAttribute(s[4..]))
    || (StartsWith(s, "&quot;") && IsAttribute(s[6..]))
  }

  lemma {:induction false} SpelledIsAttribute(value: string)
    ensures IsAttribute(Spell(value, {'&', '<', '"'})) && '"' !in Spell(value, {'&', '<', '"'})
    ensures |Spell(value, {'&', '<', '"'})| == 0 <==> value == []
  {
    if value != [] {
      var piece, rest := SpellChar(value[0], {'&', '<', '"'}), Spell(value[1..], {'&', '<', '"'});
      SpelledIsAttribute(value[1..]);
      assert (piece + rest)[|piece|..] == rest && (piece + rest)[..|piece|] == piece;
    }
  }

  lemma EscapedIsAttribute(value: string)
    ensures IsAttribute(EscapeAttribute(value)) && '"' !in EscapeAttribute(value)
    ensures EscapeAttribute(value) == [] <==> value == []
  {
    EscapeSpells(value);
    SpelledIsAttribute(value);
  }

  // ---- Bodies ----

  const CLOSING: string := "</skill"
  const DEFUSED: string := "<\\/skill"

  function DefuseBody(body: string): string {
    ReplaceAll(body, CLOSING, DEFUSED)
  }

  /** The first closing tag is defused, and so are those behind it; a text without one stays. */
  lemma DefusedAtClosing(before: string, after: string)
    requires forall i :: 0 <= i < |before| ==> !OccursAt(before + "</skill" + after, "</skill", i)
    ensures DefuseBody(before + "</skill" + after) == before + "<\\/skill" + DefuseBody(after)
  {
    assert before + "</skill" + after == before + ("</skill" + after);
    ReplaceSkips(before, "</skill" + after, CLOSING, DEFUSED);
    ReplaceHits(after, CLOSING, DEFUSED);
    assert before + ("<\\/skill" + DefuseBody(after)) == before + "<\\/skill" + DefuseBody(after);
  }

  lemma UndefusedStays(body: string)
    requires forall i :: 0 <= i < |body| ==> !OccursAt(body, "</skill", i)
    ensures DefuseBody(body) == body
  {
    assert body + [] == body;
    ReplaceSkips(body, [], CLOSING, DEFUSED);
  }

  function Newlines(s: string): nat {
    if s == [] then 0 else (if s[0] == '\n' then 1 else 0) + Newlines(s[1..])
  }

  lemma {:induction false} NewlinesAdd(a: string, b: string)
    ensures Newlines(a + b) == Newlines(a) + Newlines(b)
  {
    if a == [] {
      assert a + b == b;
    } else {
      NewlinesAdd(a[1..], b);
      assert (a + b)[1..] == a[1..] + b;
    }
  }

  /** A defused body closes no frame, has as many lines as before, and is empty only if it was. */
  lemma {:induction false} DefusedBodyIsInert(body: string, i: nat)
    ensures !OccursAt(DefuseBody(body), CLOSING, i)
    ensures Newlines(DefuseBody(body)) == Newlines(body)
    ensures DefuseBody(body) == [] <==> body == []
    decreases |body|
  {
    var all := DefuseBody(body);
    OccursMeans(all, CLOSING, i);
    if StartsWith(body, CLOSING) {
      var rest := body[|CLOSING|..];
      DefusedBodyIsInert(rest, if i < |DEFUSED| then 0 else i - |DEFUSED|);
      assert body == CLOSING + rest;
      NewlinesAdd(CLOSING, rest);
      NewlinesAdd(DEFUSED, DefuseBody(rest));
      assert Newlines(CLOSING) == 0 == Newlines(DEFUSED) by { NoNewlines(); }
      if i < |DEFUSED| {
        assert all[i + 0] == DEFUSED[i];
        assert i == 0 ==> all[i + 1] == DEFUSED[1];
      } else {
        OccursLater(DEFUSED, DefuseBody(rest), CLOSING, i - |DEFUSED|);
      }
    } else if body != [] {
      var rest := body[1..];
      DefusedBodyIsInert(rest, if i == 0 then 0 else i - 1);
      assert all == [body[0]] + DefuseBody(rest);
      if i == 0 {
        DefuseOfSkillTail(body);
        assert all[0..] == all;
      } else {
        OccursLater([body[0]], DefuseBody(rest), CLOSING, i - 1);
      }
    }
  }

  lemma NoNewlines()
    ensures Newlines(CLOSING) == 0 == Newlines(DEFUSED)
  {
    assert Newlines("ill") == 0;
    assert Newlines("/skill") == 0;
    assert Newlines(DEFUSED[2..]) == 0;
  }

  lemma DefusedFront(body: string)
    ensures StartsWith(body, CLOSING) ==> |DefuseBody(body)| > 0 && DefuseBody(body)[0] == '<'
  {}

  /** Text without `<` at the front of a defused body was there before. */
  lemma {:induction false} DefuseShowsPlain(body: string, plain: string)
    requires '<' !in plain && StartsWith(DefuseBody(body), plain)
    ensures StartsWith(body, plain)
    decreases |body|
  {
    if plain != [] {
      var all := DefuseBody(body);
      assert all[0] == plain[0];
      DefusedFront(body);
      if !StartsWith(body, CLOSING) {
        assert all[1..] == DefuseBody(body[1..]);
        assert all[1..][..|plain| - 1] == plain[1..];
        DefuseShowsPlain(body[1..], plain[1..]);
        assert body[..|plain|] == [body[0]] + body[1..][..|plain| - 1];
      }
    }
  }

  lemma DefuseOfSkillTail(body: string)
    requires body != [] && !StartsWith(body, CLOSING)
    ensures !StartsWith(DefuseBody(body), CLOSING)
  {
    var all := DefuseBody(body);
    assert all[1..] == DefuseBody(body[1..]);
    assert |all| >= 7 ==> all[1..][..6] == all[..7][1..];
    if StartsWith(DefuseBody(body[1..]), "/skill") {
      DefuseShowsPlain(body[1..], "/skill");
      assert body[..7] == [body[0]] + body[1..][..6];
      assert CLOSING == "<" + "/skill";
    }
    assert CLOSING[0] == '<' && CLOSING[1..] == "/skill";
  }
}
