/**
 * Fuzzy filtering of list entries (packages/app-runtime/src/list-picker.ts:67-81, 145-179). Lower-casing and collation
 * are arbitrary functions, and white space an arbitrary set; a character stands for one code point.
 */
module ListPicker {
  import opened Results

  datatype Entry = Entry(id: string, caption: string, value: string, status: string)

  datatype Scored = Scored(entry: Entry, score: int)

  // ---- One term ----

  function IndexOfChar(value: string, c: char, from: nat): (r: Option<nat>)
    requires from <= |value|
    ensures r.Some? ==> from <= r.value < |value|
    decreases |value| - from
  {
    if from == |value| then None
    else if value[from] == c then Some(from)
    else IndexOfChar(value, c, from + 1)
  }

  lemma {:induction false} IndexOfCharIsLeftmost(value: string, c: char, from: nat)
    requires from <= |value|
    ensures var r := IndexOfChar(value, c, from);
            if r.None? then c !in value[from..] else value[r.value] == c && c !in value[from..r.value]
    decreases |value| - from
  {
    if from < |value| && value[from] != c {
      IndexOfCharIsLeftmost(value, c, from + 1);
      var r := IndexOfChar(value, c, from);
      assert value[from..] == [value[from]] + value[from + 1..];
      assert r.Some? ==> value[from..r.value] == [value[from]] + value[from + 1..r.value];
    }
  }

  predicate ContainsAt(value: string, term: string, i: nat) {
    i + |term| <= |value| && value[i..i + |term|] == term
  }

  function IndexOf(value: string, term: string, from: nat): (r: Option<nat>)
    requires from <= |value|
    decreases |value| - from
  {
    if ContainsAt(value, term, from) then Some(from)
    else if from == |value| then None
    else IndexOf(value, term, from + 1)
  }

  lemma {:induction false} IndexOfFinds(value: string, term: string, from: nat)
    requires from <= |value|
    ensures var r := IndexOf(value, term, from);
            if r.Some? then ContainsAt(value, term, r.value) else forall i :: from <= i ==> !ContainsAt(value, term, i)
    decreases |value| - from
  {
    hide ContainsAt;
    if !ContainsAt(value, term, from) {
      if from < |value| {
        IndexOfFinds(value, term, from + 1);
      } else {
        NotPastTheEnd(value, term);
      }
    }
  }

  lemma NotPastTheEnd(value: string, term: string)
    requires !ContainsAt(value, term, |value|)
    ensures forall i :: |value| <= i ==> !ContainsAt(value, term, i)
  {}

  function Min(a: int, b: int): int { if a <= b then a else b }

  function Max(a: int, b: int): int { if a >= b then a else b }

  /** The gaps of the greedy match of `term` from `from` on; the first character is not preceded by a gap. */
  function Gaps(value: string, term: string, from: nat, first: bool): Option<nat>
    requires from <= |value|
    decreases |term|
  {
    if term == [] then Some(0)
    else
      match IndexOfChar(value, term[0], from)
      case None => None
      case Some(next) =>
        match Gaps(value, term[1..], next + 1, false)
        case None => None
        case Some(gap) => Some(gap + if first then 0 else next - from)
  }

  function FuzzyScore(value: string, term: string): Option<int> {
    if term == [] then Some(0)
    else if value == term then Some(100)
    else
      match IndexOf(value, term, 0)
      case Some(at) => Some(70 - Min(at, 30))
      case None =>
        match Gaps(value, term, 0, true)
        case None => None
        case Some(gap) => Some(30 - Min(gap, 30))
  }

  lemma GapsUnfold(value: string, term: string, k: nat, from: nat, first: bool)
    requires k < |term| && from <= |value|
    ensures var next := IndexOfChar(value, term[k], from);
            Gaps(value, term[k..], from, first)
            == if next.None? then None
               else
                 var rest := Gaps(value, term[k + 1..], next.value + 1, false);
                 if rest.None? then None else Some(rest.value + if first then 0 else next.value - from)
  {
    hide IndexOfChar;
    assert term[k..][0] == term[k] && term[k..][1..] == term[k + 1..];
  }

  lemma NoGapsLeft(value: string, term: string, from: nat, first: bool)
    requires term == [] && from <= |value|
    ensures Gaps(value, term, from, first) == Some(0)
  {}

  method ComputeFuzzyScore(value: string, term: string) returns (score: Option<int>)
    ensures score == FuzzyScore(value, term)
    ensures score.Some? ==> IsScoreOf(score.value, value, term)
  {
    hide IsScoreOf, IndexOf, Gaps, IndexOfChar, ContainsAt;
    ScoreIsExact(value, term);
    if term == [] { return Some(0); }
    if value == term { return Some(100); }
    var contiguous := IndexOf(value, term, 0);
    if contiguous.Some? { return Some(70 - Min(contiguous.value, 30)); }
    var position, gap := -1, 0;
    var k := 0;
    ghost var whole := Gaps(value, term, 0, true);
    assert term[0..] == term;
    while k < |term|
      invariant 0 <= k <= |term| && -1 <= position < |value| && (position >= 0 <==> k > 0) && gap >= 0
      invariant var rest := Gaps(value, term[k..], position + 1, k == 0);
                whole == if rest.None? then None else Some(gap + rest.value)
    {
      GapsUnfold(value, term, k, position + 1, k == 0);
      var next := IndexOfChar(value, term[k], position + 1);
      if next.None? { return None; }
      if position >= 0 { gap := gap + next.value - position - 1; }
      position := next.value;
      k := k + 1;
    }
    NoGapsLeft(value, term[k..], position + 1, k == 0);
    return Some(30 - Min(gap, 30));
  }

  /** The characters of the term occur in the value, in order. */
  predicate IsSubsequence(term: string, value: string)
    decreases |value|
  {
    || term == []
    || (value != [] && term[0] == value[0] && IsSubsequence(term[1..], value[1..]))
    || (value != [] && IsSubsequence(term, value[1..]))
  }

  lemma {:induction false} SubsequenceDropsFirst(term: string, value: string)
    requires term != [] && IsSubsequence(term, value)
    ensures IsSubsequence(term[1..], value)
    ensures value != [] && IsSubsequence(term[1..], value[1..])
    decreases |value|
  {
    if !(term[0] == value[0] && IsSubsequence(term[1..], value[1..])) { SubsequenceDropsFirst(term, value[1..]); }
  }

  /** Skipping text without the term's first character loses nothing. */
  lemma {:induction false} SubsequenceSkips(term: string, value: string, n: nat)
    requires term != [] && n <= |value| && term[0] !in value[..n]
    ensures IsSubsequence(term, value) <==> IsSubsequence(term, value[n..])
    decreases n
  {
    if n == 0 {
      assert value[0..] == value;
    } else {
      assert value[..n] == [value[0]] + value[1..][..n - 1] && value[n..] == value[1..][n - 1..];
      SubsequenceSkips(term, value[1..], n - 1);
    }
  }

  /** Taking the leftmost occurrence of each character finds a match whenever there is one. */
  lemma {:induction false} GreedyIsComplete(value: string, term: string, from: nat, first: bool)
    requires from <= |value|
    ensures Gaps(value, term, from, first).Some? <==> IsSubsequence(term, value[from..])
    decreases |term|
  {
    if term != [] {
      hide IndexOfChar, IsSubsequence;
      var next := IndexOfChar(value, term[0], from);
      NextAndRest(value, term, from);
      if next.Some? { GreedyIsComplete(value, term[1..], next.value + 1, false); }
    } else {
      NothingIsSubsequence(value[from..]);
    }
  }

  lemma NothingIsSubsequence(value: string)
    ensures IsSubsequence([], value)
  {}

  /** A term occurs exactly when its first character does, and the rest behind the leftmost such place. */
  lemma NextAndRest(value: string, term: string, from: nat)
    requires term != [] && from <= |value|
    ensures var next := IndexOfChar(value, term[0], from);
            IsSubsequence(term, value[from..])
            <==> next.Some? && IsSubsequence(term[1..], value[next.value + 1..])
  {
    hide IndexOfChar;
    var next := IndexOfChar(value, term[0], from);
    IndexOfCharIsLeftmost(value, term[0], from);
    var tail := value[from..];
    var n := if next.Some? then next.value - from else |tail|;
    assert next.Some? ==> tail[..n] == value[from..next.value];
    assert next.None? ==> tail[..n] == tail;
    SubsequenceSkips(term, tail, n);
    if next.Some? {
      FirstAndRest(term, tail[n..]);
      assert tail[n..][1..] == value[next.value + 1..];
    }
  }

  lemma FirstAndRest(term: string, value: string)
    requires term != [] && value != [] && term[0] == value[0]
    ensures IsSubsequence(term, value) <==> IsSubsequence(term[1..], value[1..])
  {
    if IsSubsequence(term, value) { SubsequenceDropsFirst(term, value); }
  }

  lemma {:induction false} ContiguousIsSubsequence(value: string, term: string, i: nat)
    requires ContainsAt(value, term, i)
    ensures IsSubsequence(term, value)
    decreases |value|
  {
    if term != [] {
      if i == 0 {
        assert value[1..][..|term| - 1] == value[0..|term|][1..];
        ContiguousIsSubsequence(value[1..], term[1..], 0);
      } else {
        assert value[1..][i - 1..i - 1 + |term|] == value[i..i + |term|];
        ContiguousIsSubsequence(value[1..], term, i - 1);
      }
    }
  }

  /**
   * A term scores exactly when its characters occur in order, and the three kinds of match are kept apart: the whole
   * value above a contiguous piece of it, and that above characters scattered over it.
   */
  lemma ScoreIsCompleteAndTiered(value: string, term: string)
    ensures FuzzyScore(value, term).Some? <==> IsSubsequence(term, value)
    ensures term != [] && FuzzyScore(value, term).Some? ==>
      var score := FuzzyScore(value, term).value;
      && (score == 100 <==> value == term)
      && (40 <= score <= 70 <==> value != term && exists i :: ContainsAt(value, term, i))
      && (0 <= score <= 30 <==> !exists i :: ContainsAt(value, term, i))
  {
    GreedyIsComplete(value, term, 0, true);
    assert value[0..] == value;
    if value == term { assert ContainsAt(value, term, 0); }
    var at := IndexOf(value, term, 0);
    IndexOfFinds(value, term, 0);
    if at.Some? { ContiguousIsSubsequence(value, term, at.value); }
  }

  /** The first place of the character from `behind` on. */
  ghost predicate IsNext(value: string, c: char, behind: nat, at: nat) {
    behind <= at < |value| && value[at] == c && c !in value[behind..at]
  }

  ghost function Behind(ps: seq<nat>, k: nat, from: nat): nat
    requires k <= |ps|
  {
    if k == 0 then from else ps[k - 1] + 1
  }

  /** The places of the term's characters, each the first one behind the place before. */
  ghost predicate Leftmost(ps: seq<nat>, value: string, term: string, from: nat) {
    |ps| == |term| && forall k :: 0 <= k < |ps| ==> IsNext(value, term[k], Behind(ps, k, from), ps[k])
  }

  /** One more place in front of leftmost places. */
  lemma PlaceInFront(next: nat, rest: seq<nat>, value: string, term: string, from: nat)
    requires term != [] && IsNext(value, term[0], from, next)
    requires Leftmost(rest, value, term[1..], next + 1)
    ensures Leftmost([next] + rest, value, term, from)
  {
    hide IsNext;
    var ps := [next] + rest;
    forall k | 0 <= k < |ps| ensures IsNext(value, term[k], Behind(ps, k, from), ps[k]) {
      if k > 0 {
        assert ps[k] == rest[k - 1] && term[k] == term[1..][k - 1];
        assert Behind(ps, k, from) == Behind(rest, k - 1, next + 1);
      }
    }
  }

  lemma {:induction false} GapsAreCounted(value: string, term: string, from: nat, first: bool) returns (ps: seq<nat>)
    requires from <= |value| && Gaps(value, term, from, first).Some?
    ensures Leftmost(ps, value, term, from) && |ps| == |term|
    ensures Gaps(value, term, from, first).value ==
      if term == [] then 0 else ps[|ps| - 1] + 1 - |ps| - (if first then ps[0] else from)
    decreases |term|
  {
    hide IndexOfChar, Leftmost;
    if term == [] {
      ps := [];
      NoPlaces(value, from);
    } else {
      IndexOfCharIsLeftmost(value, term[0], from);
      var next := IndexOfChar(value, term[0], from).value;
      var rest := GapsAreCounted(value, term[1..], next + 1, false);
      ps := [next] + rest;
      PlaceInFront(next, rest, value, term, from);
    }
  }

  lemma NoPlaces(value: string, from: nat)
    ensures Leftmost([], value, [], from)
  {}

  /** The score, whole: by the first place of a contiguous match, or else by what the leftmost places leave out. */
  ghost predicate IsScoreOf(score: int, value: string, term: string) {
    if term == [] then score == 0
    else if value == term then score == 100
    else if exists i :: ContainsAt(value, term, i) then
      exists i: nat :: ContainsAt(value, term, i) && (forall j: nat :: j < i ==> !ContainsAt(value, term, j))
        && score == if i < 30 then 70 - i else 40
    else
      exists ps :: Leftmost(ps, value, term, 0) &&
        var left := ps[|ps| - 1] - ps[0] + 1 - |term|;
        score == if left < 30 then 30 - left else 0
  }

  lemma {:induction false} IndexOfIsFirst(value: string, term: string, from: nat)
    requires from <= |value|
    ensures var r := IndexOf(value, term, from);
            r.Some? ==> forall j :: from <= j < r.value ==> !ContainsAt(value, term, j)
    decreases |value| - from
  {
    hide ContainsAt;
    if !ContainsAt(value, term, from) && from < |value| {
      IndexOfIsFirst(value, term, from + 1);
    }
  }

  lemma ScoreIsExact(value: string, term: string)
    ensures FuzzyScore(value, term).Some? ==> IsScoreOf(FuzzyScore(value, term).value, value, term)
  {
    hide Leftmost, ContainsAt, IndexOf, Gaps;
    IndexOfFinds(value, term, 0);
    IndexOfIsFirst(value, term, 0);
    if term != [] && value != term && IndexOf(value, term, 0).None? && Gaps(value, term, 0, true).Some? {
      var ps := GapsAreCounted(value, term, 0, true);
      HasPlaces(ps, value, term);
    }
  }

  lemma HasPlaces(ps: seq<nat>, value: string, term: string)
    requires Leftmost(ps, value, term, 0)
    ensures |ps| == |term|
  {}

  // ---- Entries ----

  function Fields(entry: Entry, lower: string -> string): seq<(string, int)> {
    [(lower(entry.caption), 80), (lower(entry.value), 40), (lower(entry.status), 20)]
  }

  /** The best weighted score of the first `n` fields. */
  function BestField(fields: seq<(string, int)>, term: string, n: nat): Option<int>
    requires n <= |fields|
  {
    if n == 0 then None
    else
      var earlier := BestField(fields, term, n - 1);
      match FuzzyScore(fields[n - 1].0, term)
      case None => earlier
      case Some(score) =>
        var weighted := fields[n - 1].1 + score;
        Some(if earlier.Some? then Max(earlier.value, weighted) else weighted)
  }

  function EntryScore(fields: seq<(string, int)>, terms: seq<string>): Option<int> {
    if terms == [] then Some(0)
    else
      var n := |terms| - 1;
      var earlier := EntryScore(fields, terms[..n]);
      var best := BestField(fields, terms[n], |fields|);
      if earlier.None? || best.None? then None else Some(earlier.value + best.value)
  }

  method ComputeEntryScore(entry: Entry, terms: seq<string>, lower: string -> string) returns (score: Option<int>)
    ensures score == EntryScore(Fields(entry, lower), terms)
    ensures score.Some? ==> IsEntryScore(score.value, entry, terms, lower)
  {
    hide FuzzyScore, IsEntryScore, IsScoreOf;
    EntryScoreIsExact(entry, terms, lower);
    var fields := Fields(entry, lower);
    var total := 0;
    for i := 0 to |terms|
      invariant EntryScore(fields, terms[..i]) == Some(total)
    {
      var best: Option<int> := None;
      for j := 0 to |fields|
        invariant best == BestField(fields, terms[i], j)
      {
        var matched := ComputeFuzzyScore(fields[j].0, terms[i]);
        if matched.Some? {
          var weighted := fields[j].1 + matched.value;
          best := Some(if best.Some? then Max(best.value, weighted) else weighted);
        }
      }
      assert terms[..i + 1][..i] == terms[..i];
      if best.None? {
        NoneLater(fields, terms, i + 1);
        return None;
      }
      total := total + best.value;
    }
    assert terms[..|terms|] == terms;
    return Some(total);
  }

  lemma {:induction false} NoneLater(fields: seq<(string, int)>, terms: seq<string>, n: nat)
    requires n <= |terms| && EntryScore(fields, terms[..n]).None?
    ensures EntryScore(fields, terms).None?
    decreases |terms| - n
  {
    if n == |terms| {
      assert terms[..n] == terms;
    } else {
      assert terms[..n + 1][..n] == terms[..n];
      NoneLater(fields, terms, n + 1);
    }
  }

  ghost predicate FoundIn(fields: seq<(string, int)>, term: string) {
    exists j :: 0 <= j < |fields| && IsSubsequence(term, fields[j].0)
  }

  lemma {:induction false} BestIsFound(fields: seq<(string, int)>, term: string, n: nat)
    requires n <= |fields|
    ensures BestField(fields, term, n).Some? <==> exists j :: 0 <= j < n && IsSubsequence(term, fields[j].0)
  {
    hide FuzzyScore, IsSubsequence;
    if n > 0 {
      BestIsFound(fields, term, n - 1);
      ScoreIsCompleteAndTiered(fields[n - 1].0, term);
    }
  }

  /** An entry scores exactly when every term occurs, in order, in some field. */
  lemma {:induction false} EntryIsComplete(fields: seq<(string, int)>, terms: seq<string>)
    ensures EntryScore(fields, terms).Some? <==> forall i :: 0 <= i < |terms| ==> FoundIn(fields, terms[i])
    decreases |terms|
  {
    if terms != [] {
      hide BestField, FoundIn;
      var n := |terms| - 1;
      EntryIsComplete(fields, terms[..n]);
      BestIsFound(fields, terms[n], |fields|);
      FoundInMeans(fields, terms[n]);
      assert forall i :: 0 <= i < n ==> terms[..n][i] == terms[i];
    }
  }

  lemma FoundInMeans(fields: seq<(string, int)>, term: string)
    ensures FoundIn(fields, term) <==> exists j :: 0 <= j < |fields| && IsSubsequence(term, fields[j].0)
  {}

  /** The best of the weighted scores of the three fields: the caption counts most, then the value, then the status. */
  ghost predicate IsBestScore(best: int, entry: Entry, term: string, lower: string -> string) {
    var caption, value := FuzzyScore(lower(entry.caption), term), FuzzyScore(lower(entry.value), term);
    var status := FuzzyScore(lower(entry.status), term);
    && (caption.Some? ==> best >= 80 + caption.value)
    && (value.Some? ==> best >= 40 + value.value)
    && (status.Some? ==> best >= 20 + status.value)
    && (|| (caption.Some? && best == 80 + caption.value)
        || (value.Some? && best == 40 + value.value)
        || (status.Some? && best == 20 + status.value))
  }

  /** The entry's score is the sum of the best scores of the terms. */
  ghost predicate IsEntryScore(score: int, entry: Entry, terms: seq<string>, lower: string -> string)
    decreases |terms|
  {
    if terms == [] then score == 0
    else
      var n := |terms| - 1;
      exists best :: IsBestScore(best, entry, terms[n], lower) && IsEntryScore(score - best, entry, terms[..n], lower)
  }

  lemma BestIsWeighted(entry: Entry, term: string, lower: string -> string)
    ensures
      var best := BestField(Fields(entry, lower), term, 3);
      best.Some? ==> IsBestScore(best.value, entry, term, lower)
  {
    hide FuzzyScore;
    var fields := Fields(entry, lower);
    assert BestField(fields, term, 0) == None;
    var first, second := BestField(fields, term, 1), BestField(fields, term, 2);
  }

  lemma {:induction false} EntryScoreIsExact(entry: Entry, terms: seq<string>, lower: string -> string)
    ensures
      var score := EntryScore(Fields(entry, lower), terms);
      score.Some? ==> IsEntryScore(score.value, entry, terms, lower)
    decreases |terms|
  {
    hide BestField, IsBestScore;
    if terms != [] && EntryScore(Fields(entry, lower), terms).Some? {
      var n := |terms| - 1;
      EntryScoreIsExact(entry, terms[..n], lower);
      BestIsWeighted(entry, terms[n], lower);
      var best := BestField(Fields(entry, lower), terms[n], 3).value;
      assert IsEntryScore(EntryScore(Fields(entry, lower), terms).value - best, entry, terms[..n], lower);
    }
  }

  // ---- The list ----

  /** Trimmed and split at white space. */
  function Words(query: string, space: set<char>): seq<string> {
    if query == [] then []
    else
      var n := |query| - 1;
      var words, c := Words(query[..n], space), query[n];
      if c in space then words
      else if n > 0 && query[n - 1] !in space && words != [] then words[..|words| - 1] + [words[|words| - 1] + [c]]
      else words + [[c]]
  }

  /** One more character ends the word before it, continues it, or starts a word. */
  lemma WordsSnoc(query: string, c: char, space: set<char>)
    ensures
      var words := Words(query, space);
      && (query != [] && query[|query| - 1] !in space ==> words != [])
      && Words(query + [c], space) ==
         if c in space then words
         else if query != [] && query[|query| - 1] !in space
         then words[..|words| - 1] + [words[|words| - 1] + [c]]
         else words + [[c]]
  {
    assert (query + [c])[..|query|] == query;
  }

  /** White space separates: the words are those before it and those behind it. */
  lemma {:induction false} WordsSplitAtSpace(a: string, c: char, b: string, space: set<char>)
    requires c in space
    ensures Words(a + [c] + b, space) == Words(a, space) + Words(b, space)
    decreases |b|
  {
    hide Words;
    if b == [] {
      assert a + [c] + b == a + [c];
      WordsSnoc(a, c, space);
      NoWords(space);
    } else {
      var front, last := b[..|b| - 1], b[|b| - 1];
      var query := a + [c] + front;
      WordsSplitAtSpace(a, c, front, space);
      WordsSnoc(query, last, space);
      WordsSnoc(front, last, space);
      assert a + [c] + b == query + [last] && b == front + [last];
      assert query[|query| - 1] == if front == [] then c else front[|front| - 1];
    }
  }

  lemma NoWords(space: set<char>)
    ensures Words([], space) == []
  {}

  predicate Before(a: Scored, b: Scored, collate: (string, string) -> int) {
    a.score > b.score || (a.score == b.score && collate(a.entry.id, b.entry.id) <= 0)
  }

  /** The stable order of `toSorted`: behind everything that may stay in front of it. */
  function Insert(list: seq<Scored>, x: Scored, collate: (string, string) -> int): seq<Scored> {
    if list != [] && !Before(list[|list| - 1], x, collate)
    then Insert(list[..|list| - 1], x, collate) + [list[|list| - 1]]
    else list + [x]
  }

  /** Nothing scores less than what comes after it. */
  ghost predicate ByScore(list: seq<Scored>) {
    list == []
    || (ByScore(list[..|list| - 1]) && forall y :: y in list[..|list| - 1] ==> y.score >= list[|list| - 1].score)
  }

  /** Neighbours stand in the order of score and then of collation. */
  ghost predicate Ranked(list: seq<Scored>, collate: (string, string) -> int) {
    |list| < 2 || (Before(list[|list| - 2], list[|list| - 1], collate) && Ranked(list[..|list| - 1], collate))
  }

  ghost predicate IsTotal(collate: (string, string) -> int) {
    forall a, b :: collate(a, b) <= 0 || collate(b, a) <= 0
  }

  lemma {:induction false} InsertKeepsAll(list: seq<Scored>, x: Scored, collate: (string, string) -> int)
    ensures multiset(Insert(list, x, collate)) == multiset(list) + multiset{x}
    decreases |list|
  {
    hide Before;
    if list != [] && !Before(list[|list| - 1], x, collate) {
      InsertKeepsAll(list[..|list| - 1], x, collate);
      assert list == list[..|list| - 1] + [list[|list| - 1]];
    }
  }

  lemma {:induction false} InsertHas(list: seq<Scored>, x: Scored, collate: (string, string) -> int, y: Scored)
    requires y in Insert(list, x, collate)
    ensures y in list || y == x
    decreases |list|
  {
    hide Before;
    if list != [] && !Before(list[|list| - 1], x, collate) {
      if y != list[|list| - 1] { InsertHas(list[..|list| - 1], x, collate, y); }
    }
  }

  lemma {:induction false} InsertKeepsOrder(list: seq<Scored>, x: Scored, collate: (string, string) -> int)
    requires ByScore(list)
    ensures ByScore(Insert(list, x, collate))
    decreases |list|
  {
    var r := Insert(list, x, collate);
    if list != [] && !Before(list[|list| - 1], x, collate) {
      var front, last := list[..|list| - 1], list[|list| - 1];
      InsertKeepsOrder(front, x, collate);
      forall y | y in Insert(front, x, collate) ensures y.score >= last.score { InsertHas(front, x, collate, y); }
      assert r[..|r| - 1] == Insert(front, x, collate) && r[|r| - 1] == last;
    } else {
      assert r[..|r| - 1] == list && r[|r| - 1] == x;
      forall y | y in list ensures y.score >= x.score {
        assert list == list[..|list| - 1] + [list[|list| - 1]];
      }
    }
  }

  lemma {:induction false} InsertKeepsRank(list: seq<Scored>, x: Scored, collate: (string, string) -> int)
    requires IsTotal(collate) && Ranked(list, collate)
    ensures Ranked(Insert(list, x, collate), collate)
    decreases |list|
  {
    var r := Insert(list, x, collate);
    if list != [] && !Before(list[|list| - 1], x, collate) {
      var front := list[..|list| - 1];
      InsertKeepsRank(front, x, collate);
      LastOfInsert(front, x, collate);
      assert r[..|r| - 1] == Insert(front, x, collate);
      assert front != [] ==> front[|front| - 1] == list[|list| - 2];
    } else {
      assert r[..|r| - 1] == list;
    }
  }

  lemma LastOfInsert(list: seq<Scored>, x: Scored, collate: (string, string) -> int)
    ensures var r := Insert(list, x, collate);
            r != [] && (r[|r| - 1] == x || (list != [] && r[|r| - 1] == list[|list| - 1]))
  {}

  /** The entries with a score, in the original order. */
  function Matching(entries: seq<Entry>, terms: seq<string>, lower: string -> string): seq<Scored> {
    if entries == [] then []
    else
      var n := |entries| - 1;
      var score := EntryScore(Fields(entries[n], lower), terms);
      Matching(entries[..n], terms, lower) + if score.Some? then [Scored(entries[n], score.value)] else []
  }

  function EntriesOf(list: seq<Scored>): (r: seq<Entry>)
    ensures |r| == |list|
  {
    seq(|list|, i requires 0 <= i < |list| => list[i].entry)
  }

  /** `toSorted`, inserting from the front. */
  function Sorted(list: seq<Scored>, collate: (string, string) -> int): seq<Scored> {
    if list == [] then [] else Insert(Sorted(list[..|list| - 1], collate), list[|list| - 1], collate)
  }

  lemma {:induction false} SortingKeepsAll(list: seq<Scored>, collate: (string, string) -> int)
    ensures multiset(Sorted(list, collate)) == multiset(list)
    decreases |list|
  {
    if list != [] {
      hide Insert;
      var front, last := list[..|list| - 1], list[|list| - 1];
      SortingKeepsAll(front, collate);
      InsertKeepsAll(Sorted(front, collate), last, collate);
      assert list == front + [last];
    }
  }

  /** Sorting orders by falling score and breaks ties by collation. */
  lemma {:induction false} SortingIsRanking(list: seq<Scored>, collate: (string, string) -> int)
    ensures ByScore(Sorted(list, collate))
    ensures IsTotal(collate) ==> Ranked(Sorted(list, collate), collate)
    decreases |list|
  {
    hide ByScore, Ranked, IsTotal, Insert;
    if list == [] {
      NothingIsRanked(collate);
    } else {
      var front, last := list[..|list| - 1], list[|list| - 1];
      SortingIsRanking(front, collate);
      InsertKeepsOrder(Sorted(front, collate), last, collate);
      if IsTotal(collate) { InsertKeepsRank(Sorted(front, collate), last, collate); }
    }
  }

  lemma NothingIsRanked(collate: (string, string) -> int)
    ensures ByScore([]) && Ranked([], collate)
  {}

  /** What is listed for a query. */
  function Listed(entries: seq<Entry>, query: string, lower: string -> string, space: set<char>,
                  collate: (string, string) -> int): seq<Entry> {
    var terms := Words(lower(query), space);
    if terms == [] then entries else EntriesOf(Sorted(Matching(entries, terms, lower), collate))
  }

  method FilterListEntries(entries: seq<Entry>, query: string, lower: string -> string, space: set<char>,
                           collate: (string, string) -> int)
    returns (r: seq<Entry>)
    ensures r == Listed(entries, query, lower, space, collate)
  {
    var terms := Words(lower(query), space);
    if terms == [] { return entries; }
    var matching: seq<Scored> := [];
    for i := 0 to |entries|
      invariant matching == Matching(entries[..i], terms, lower)
    {
      hide EntryScore, Fields;
      var score := ComputeEntryScore(entries[i], terms, lower);
      assert entries[..i + 1][..i] == entries[..i];
      if score.Some? { matching := matching + [Scored(entries[i], score.value)]; }
    }
    assert entries[..|entries|] == entries;
    return EntriesOf(Sorted(matching, collate));
  }

  /** What is listed is exactly what every term finds. */
  lemma {:induction false} MatchingIsExact(entries: seq<Entry>, terms: seq<string>, lower: string -> string, x: Entry)
    ensures (exists s :: s in Matching(entries, terms, lower) && s.entry == x)
            <==> x in entries && forall i :: 0 <= i < |terms| ==> FoundIn(Fields(x, lower), terms[i])
    decreases |entries|
  {
    if entries != [] {
      hide EntryScore, Fields, FoundIn;
      var n := |entries| - 1;
      var front, last := entries[..n], entries[n];
      MatchingIsExact(front, terms, lower, x);
      EntryIsComplete(Fields(last, lower), terms);
      assert entries == front + [last];
      var score := EntryScore(Fields(last, lower), terms);
      var m := Matching(front, terms, lower);
      assert forall s :: s in Matching(entries, terms, lower) <==>
        s in m || (score.Some? && s == Scored(last, score.value));
      if score.Some? { assert Scored(last, score.value) in Matching(entries, terms, lower); }
    }
  }

  // ---- One more character ----

  lemma {:induction false} ShorterIsFound(term: string, c: char, value: string)
    requires IsSubsequence(term + [c], value)
    ensures IsSubsequence(term, value)
    decreases |value|
  {
    if term != [] {
      var longer := term + [c];
      assert longer[1..] == term[1..] + [c];
      if longer[0] == value[0] && IsSubsequence(longer[1..], value[1..]) {
        ShorterIsFound(term[1..], c, value[1..]);
      } else {
        ShorterIsFound(term, c, value[1..]);
      }
    }
  }

  /** One more character at the end of the lower-cased query. */
  lemma OneMoreCharacter(fields: seq<(string, int)>, query: string, c: char, space: set<char>)
    requires EntryScore(fields, Words(query + [c], space)).Some?
    ensures EntryScore(fields, Words(query, space)).Some?
  {
    hide EntryScore;
    var before, after := Words(query, space), Words(query + [c], space);
    assert (query + [c])[..|query|] == query;
    EntryIsComplete(fields, before);
    EntryIsComplete(fields, after);
    forall i | 0 <= i < |before| ensures FoundIn(fields, before[i]) {
      assert FoundIn(fields, after[i]);
      assert after[i] == before[i] || after[i] == before[i] + [c];
      if after[i] != before[i] {
        var j :| 0 <= j < |fields| && IsSubsequence(after[i], fields[j].0);
        ShorterIsFound(before[i], c, fields[j].0);
      }
    }
  }

  lemma {:induction false} MoreCharacters(fields: seq<(string, int)>, query: string, longer: string, space: set<char>)
    requires query <= longer && EntryScore(fields, Words(longer, space)).Some?
    ensures EntryScore(fields, Words(query, space)).Some?
    decreases |longer|
  {
    if |query| == |longer| {
      assert query == longer;
    } else {
      var front, last := longer[..|longer| - 1], longer[|longer| - 1];
      assert longer == front + [last];
      OneMoreCharacter(fields, front, last, space);
      MoreCharacters(fields, query, front, space);
    }
  }

  /** An entry is listed exactly when it is given and every term is found in one of its fields. */
  lemma ListedIff(entries: seq<Entry>, query: string, lower: string -> string, space: set<char>,
                  collate: (string, string) -> int, x: Entry)
    ensures x in Listed(entries, query, lower, space, collate)
            <==> x in entries && EntryScore(Fields(x, lower), Words(lower(query), space)).Some?
  {
    hide EntryScore, Fields, Words, Insert, FoundIn;
    var terms := Words(lower(query), space);
    EntryIsComplete(Fields(x, lower), terms);
    if terms != [] {
      var list := Matching(entries, terms, lower);
      MatchingIsExact(entries, terms, lower, x);
      SortingKeepsAll(list, collate);
      assert forall s :: s in Sorted(list, collate) <==> s in multiset(Sorted(list, collate));
      assert forall s :: s in list <==> s in multiset(list);
      InEntriesOf(Sorted(list, collate), x);
    }
  }

  lemma InEntriesOf(list: seq<Scored>, x: Entry)
    ensures x in EntriesOf(list) <==> exists s :: s in list && s.entry == x
  {
    if s :| s in list && s.entry == x {
      var i :| 0 <= i < |list| && list[i] == s;
      assert EntriesOf(list)[i] == x;
    }
  }

  /** Typing more never adds an entry, provided that what was typed keeps its lower case. */
  lemma TypingNeverAdds(entries: seq<Entry>, query: string, longer: string, lower: string -> string, space: set<char>,
                        collate: (string, string) -> int, x: Entry)
    requires lower(query) <= lower(longer)
    requires x in Listed(entries, longer, lower, space, collate)
    ensures x in Listed(entries, query, lower, space, collate)
  {
    hide Listed, EntryScore, Fields, Words;
    ListedIff(entries, longer, lower, space, collate, x);
    ListedIff(entries, query, lower, space, collate, x);
    MoreCharacters(Fields(x, lower), lower(query), lower(longer), space);
  }

  // ---- Exactly when typing never adds ----

  lemma {:induction false} SubsequencesCompose(a: string, b: string, c: string)
    requires IsSubsequence(a, b) && IsSubsequence(b, c)
    ensures IsSubsequence(a, c)
    decreases |c|, |b|
  {
    if a != [] {
      if b[0] == c[0] && IsSubsequence(b[1..], c[1..]) {
        if a[0] == b[0] && IsSubsequence(a[1..], b[1..]) {
          SubsequencesCompose(a[1..], b[1..], c[1..]);
        } else {
          SubsequencesCompose(a, b[1..], c[1..]);
        }
      } else {
        SubsequencesCompose(a, b, c[1..]);
      }
    }
  }

  /** Whatever the list, everything listed for the longer query is listed for the shorter one. */
  ghost predicate NeverAdds(query: string, longer: string, lower: string -> string, space: set<char>,
                            collate: (string, string) -> int) {
    forall entries, x :: x in Listed(entries, longer, lower, space, collate) ==>
      x in Listed(entries, query, lower, space, collate)
  }

  /** For queries of one word: exactly when the shorter one's word is a subsequence of the longer one's. */
  lemma NeverAddsIff(query: string, longer: string, lower: string -> string, space: set<char>,
                     collate: (string, string) -> int)
    requires Words(lower(query), space) == [lower(query)] && Words(lower(longer), space) == [lower(longer)]
    ensures NeverAdds(query, longer, lower, space, collate) <==> IsSubsequence(lower(query), lower(longer))
  {
    hide Listed, EntryScore, Words;
    if IsSubsequence(lower(query), lower(longer)) {
      forall entries, x | x in Listed(entries, longer, lower, space, collate)
        ensures x in Listed(entries, query, lower, space, collate)
      {
        ListedIff(entries, longer, lower, space, collate, x);
        ListedIff(entries, query, lower, space, collate, x);
        OneWord(Fields(x, lower), lower(longer));
        OneWord(Fields(x, lower), lower(query));
        var j :| 0 <= j < |Fields(x, lower)| && IsSubsequence(lower(longer), Fields(x, lower)[j].0);
        SubsequencesCompose(lower(query), lower(longer), Fields(x, lower)[j].0);
      }
    }
    if NeverAdds(query, longer, lower, space, collate) {
      var x := Entry("", longer, longer, longer);
      ListedIff([x], longer, lower, space, collate, x);
      ListedIff([x], query, lower, space, collate, x);
      OneWord(Fields(x, lower), lower(longer));
      OneWord(Fields(x, lower), lower(query));
      WholeIsSubsequence(lower(longer));
      assert IsSubsequence(lower(longer), Fields(x, lower)[0].0);
      assert x in [x];
    }
  }

  lemma OneWord(fields: seq<(string, int)>, term: string)
    ensures EntryScore(fields, [term]).Some? <==> FoundIn(fields, term)
  {
    EntryIsComplete(fields, [term]);
    assert [term][0] == term;
  }

  lemma WholeIsSubsequence(value: string)
    ensures IsSubsequence(value, value)
  {
    assert value[0..|value|] == value;
    ContiguousIsSubsequence(value, value, 0);
  }

  /** Lower-casing of the Greek capitals alpha and sigma: a sigma that ends a word of two letters or more is final. */
  function LowerGreek(s: string): string {
    seq(|s|, i requires 0 <= i < |s| =>
      if s[i] == '\U{0391}' then '\U{03B1}'
      else if s[i] != '\U{03A3}' then s[i]
      else if 0 < i == |s| - 1 then '\U{03C2}'
      else '\U{03C3}')
  }

  /** Typing one more letter does add an entry here: the sigma typed before is not the last any more. */
  lemma FinalSigmaExample(space: set<char>, collate: (string, string) -> int)
    requires '\U{03B1}' !in space && '\U{03C2}' !in space && '\U{03C3}' !in space
    ensures
      var query, longer := "\U{0391}\U{03A3}", "\U{0391}\U{03A3}\U{0391}";
      !NeverAdds(query, longer, LowerGreek, space, collate)
  {
    var query, longer := "\U{0391}\U{03A3}", "\U{0391}\U{03A3}\U{0391}";
    var short, long := "\U{03B1}\U{03C2}", "\U{03B1}\U{03C3}\U{03B1}";
    assert LowerGreek(query) == short && LowerGreek(longer) == long;
    OneWordOfLetters(short, space);
    OneWordOfLetters(long, space);
    NeverAddsIff(query, longer, LowerGreek, space, collate);
    NotFinal();
  }

  lemma NotFinal()
    ensures !IsSubsequence("\U{03B1}\U{03C2}", "\U{03B1}\U{03C3}\U{03B1}")
  {
    var short, long := "\U{03B1}\U{03C2}", "\U{03B1}\U{03C3}\U{03B1}";
    assert short[1] == '\U{03C2}';
    if IsSubsequence(short, long) {
      SubsequenceKeeps(short, long, '\U{03C2}');
    }
  }

  /** A character of the term is a character of the value. */
  lemma {:induction false} SubsequenceKeeps(term: string, value: string, c: char)
    requires IsSubsequence(term, value) && c in term
    ensures c in value
    decreases |value|
  {
    if term[0] == value[0] && IsSubsequence(term[1..], value[1..]) {
      if c != term[0] {
        SubsequenceKeeps(term[1..], value[1..], c);
      }
    } else {
      SubsequenceKeeps(term, value[1..], c);
    }
  }

  lemma {:induction false} OneWordOfLetters(s: string, space: set<char>)
    requires s != [] && forall i :: 0 <= i < |s| ==> s[i] !in space
    ensures Words(s, space) == [s]
    decreases |s|
  {
    var front, last := s[..|s| - 1], s[|s| - 1];
    assert s == front + [last];
    if front == [] {
      assert s == [last];
    } else {
      OneWordOfLetters(front, space);
    }
  }
}
