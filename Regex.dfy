/**
 * The handful of regular expressions the bot splits and searches with. Each
 * is a matcher saying where a match that starts at a position ends, and Split
 * is String.prototype.split over such a matcher, following the algorithm of
 * RegExp.prototype[@@split] (section 22.2.6.14 of ECMA-262): scan for the
 * leftmost match, skip a match that is empty at the start of the current
 * piece, emit the pieces in between, and the captured text too when the
 * pattern has a capturing group.
 */
module Regex {
  import opened JsCore

  datatype Pattern =
    | CharClass(delims: set<char>)  // a one-character class such as /[.,;()? ]/, or a one-character separator string
    | SentenceBreak                 // /\n+|\.\s+/
    | LegacyBreak                   // /\. |\n/, and /(\n|\. )/ whose group captures the whole match
    | WholeWord(w: string)          // /\bw\b/gi, with w read literally

  /** The characters \w and \b treat as word characters. */
  predicate IsWordChar(c: char)
  {
    'a' <= c <= 'z' || 'A' <= c <= 'Z' || '0' <= c <= '9' || c == '_'
  }

  predicate WordCharAt(s: string, i: int)
  {
    0 <= i < |s| && IsWordChar(s[i])
  }

  /** \b holds at position i: exactly one of the characters around i is a word character. */
  predicate BoundaryAt(s: string, i: int)
  {
    WordCharAt(s, i - 1) != WordCharAt(s, i)
  }

  /** /\bw\b/i matches s at position q. */
  predicate WordAt(s: string, w: string, q: nat)
  {
    q + |w| <= |s| && Lower(s[q..q + |w|]) == Lower(w) && BoundaryAt(s, q) && BoundaryAt(s, q + |w|)
  }

  /** `s.match(/\bw\b/gi) !== null`. */
  predicate ContainsWord(s: string, w: string)
  {
    exists q: nat :: q <= |s| && WordAt(s, w, q)
  }

  /** End of the run of '\n' starting at i: what a greedy \n+ consumes. */
  function NewlineRunEnd(s: string, i: nat): (e: nat)
    requires i <= |s|
    ensures i <= e <= |s|
    ensures forall k :: i <= k < e ==> s[k] == '\n'
    ensures e == |s| || s[e] != '\n'
    decreases |s| - i
  {
    if i < |s| && s[i] == '\n' then NewlineRunEnd(s, i + 1) else i
  }

  /** End of the run of white space starting at i: what a greedy \s+ consumes. */
  function SpaceRunEnd(s: string, i: nat): (e: nat)
    requires i <= |s|
    ensures i <= e <= |s|
    ensures forall k :: i <= k < e ==> IsSpace(s[k])
    ensures e == |s| || !IsSpace(s[e])
    decreases |s| - i
  {
    if i < |s| && IsSpace(s[i]) then SpaceRunEnd(s, i + 1) else i
  }

  /** Every match of the pattern is non-empty. */
  predicate NonEmpty(pat: Pattern)
  {
    !(pat.WholeWord? && pat.w == [])
  }

  /** A match depends only on the text from its start onwards (no \b look-behind). */
  predicate Local(pat: Pattern)
  {
    !pat.WholeWord?
  }

  /** Where a match of pat that starts at q ends, if there is one. */
  function MatchEnd(pat: Pattern, s: string, q: nat): (r: Option<nat>)
    requires q <= |s|
    ensures r.Some? ==> q <= r.value <= |s|
    ensures r.Some? && NonEmpty(pat) ==> q < r.value
  {
    match pat
    case CharClass(d) =>
      if q < |s| && s[q] in d then Some(q + 1) else None
    case SentenceBreak =>
      if q < |s| && s[q] == '\n' then Some(NewlineRunEnd(s, q))
      else if q + 1 < |s| && s[q] == '.' && IsSpace(s[q + 1]) then Some(SpaceRunEnd(s, q + 1))
      else None
    case LegacyBreak =>
      if q < |s| && s[q] == '\n' then Some(q + 1)
      else if q + 1 < |s| && s[q] == '.' && s[q + 1] == ' ' then Some(q + 2)
      else None
    case WholeWord(w) =>
      if WordAt(s, w, q) then Some(q + |w|) else None
  }

  /**
   * The split loop: p is where the current piece starts, q the next position
   * to try a match at.
   */
  function SplitFrom(s: string, pat: Pattern, capture: bool, p: nat, q: nat): seq<string>
    requires p <= q <= |s|
    decreases |s| - q, |s| - p
  {
    if q >= |s| then [s[p..]]
    else
      match MatchEnd(pat, s, q)
      case None => SplitFrom(s, pat, capture, p, q + 1)
      case Some(e) =>
        if e == p then SplitFrom(s, pat, capture, p, q + 1)
        else [s[p..q]] + (if capture then [s[q..e]] else []) + SplitFrom(s, pat, capture, e, e)
  }

  /** `s.split(pat)`. */
  function Split(s: string, pat: Pattern, capture: bool): seq<string>
  {
    if |s| == 0 then (if MatchEnd(pat, s, 0).Some? then [] else [s])
    else SplitFrom(s, pat, capture, 0, 0)
  }

  lemma SplitFromSkip(s: string, pat: Pattern, capture: bool, p: nat, q: nat)
    requires p <= q < |s| && (MatchEnd(pat, s, q).None? || MatchEnd(pat, s, q) == Some(p))
    ensures SplitFrom(s, pat, capture, p, q) == SplitFrom(s, pat, capture, p, q + 1)
  {
  }

  lemma SplitFromCut(s: string, pat: Pattern, capture: bool, p: nat, q: nat, e: nat)
    requires p <= q < |s| && MatchEnd(pat, s, q) == Some(e) && e != p
    ensures SplitFrom(s, pat, capture, p, q) ==
      [s[p..q]] + (if capture then [s[q..e]] else []) + SplitFrom(s, pat, capture, e, e)
  {
  }

  /** `parts[0]`; an absent element reads as '' once joined. */
  function FirstPart(parts: seq<string>): string
  {
    if parts == [] then "" else parts[0]
  }

  /** `parts.splice(-1, 1).join(...)`: the last element, or '' if there is none. */
  function LastPart(parts: seq<string>): string
  {
    if parts == [] then "" else parts[|parts| - 1]
  }

  // ---------------------------------------------------------------------
  // Pieces avoid the characters that always start a match
  // ---------------------------------------------------------------------

  lemma {:induction false} SplitFromAvoids(s: string, pat: Pattern, c: char, p: nat, q: nat)
    requires NonEmpty(pat) && p <= q <= |s|
    requires forall k :: 0 <= k < |s| && s[k] == c ==> MatchEnd(pat, s, k).Some?
    requires forall k :: p <= k < q ==> s[k] != c
    ensures forall x :: x in SplitFrom(s, pat, false, p, q) ==> c !in x
    decreases |s| - q, |s| - p
  {
    if q < |s| {
      var m := MatchEnd(pat, s, q);
      if m.None? {
        SplitFromSkip(s, pat, false, p, q);
        SplitFromAvoids(s, pat, c, p, q + 1);
      } else {
        var e := m.value;
        SplitFromCut(s, pat, false, p, q, e);
        SplitFromAvoids(s, pat, c, e, e);
        assert [s[p..q]] + [] == [s[p..q]];
        assert forall x :: x in SplitFrom(s, pat, false, p, q) ==> x == s[p..q] || x in SplitFrom(s, pat, false, e, e);
      }
    }
  }

  /** A character at which every occurrence starts a match appears in no piece. */
  lemma SplitAvoids(s: string, pat: Pattern, c: char)
    requires NonEmpty(pat)
    requires forall k :: 0 <= k < |s| && s[k] == c ==> MatchEnd(pat, s, k).Some?
    ensures forall x :: x in Split(s, pat, false) ==> c !in x
  {
    if |s| > 0 {
      SplitFromAvoids(s, pat, c, 0, 0);
    }
  }

  // ---------------------------------------------------------------------
  // The first and the last piece
  // ---------------------------------------------------------------------

  /** The first position at or after q where a match starts, or |s|. */
  function FirstMatchFrom(s: string, pat: Pattern, q: nat): (k: nat)
    requires q <= |s|
    ensures q <= k <= |s|
    ensures k < |s| ==> MatchEnd(pat, s, k).Some?
    ensures forall j :: q <= j < k ==> MatchEnd(pat, s, j).None?
    decreases |s| - q
  {
    if q >= |s| then |s|
    else if MatchEnd(pat, s, q).Some? then q
    else FirstMatchFrom(s, pat, q + 1)
  }

  lemma {:induction false} SplitFromFirst(s: string, pat: Pattern, capture: bool, p: nat, q: nat)
    requires NonEmpty(pat) && p <= q <= |s|
    ensures |SplitFrom(s, pat, capture, p, q)| > 0
    ensures SplitFrom(s, pat, capture, p, q)[0] == s[p..FirstMatchFrom(s, pat, q)]
    decreases |s| - q
  {
    if q < |s| {
      var m := MatchEnd(pat, s, q);
      if m.None? {
        SplitFromSkip(s, pat, capture, p, q);
        SplitFromFirst(s, pat, capture, p, q + 1);
      } else {
        SplitFromCut(s, pat, capture, p, q, m.value);
      }
    }
  }

  /** The first piece is the text before the first match (all of s without one). */
  lemma FirstPartBeforeFirstMatch(s: string, pat: Pattern, capture: bool)
    requires NonEmpty(pat)
    ensures FirstPart(Split(s, pat, capture)) == s[..FirstMatchFrom(s, pat, 0)]
  {
    if |s| > 0 {
      SplitFromFirst(s, pat, capture, 0, 0);
    }
  }

  /** `e` is the end of some match of pat in s. */
  predicate MatchEndsAt(s: string, pat: Pattern, e: nat)
  {
    exists k: nat :: k < |s| && k <= |s| && MatchEnd(pat, s, k) == Some(e)
  }

  /** Where the last piece of the split loop starts. */
  function LastPieceStart(s: string, pat: Pattern, p: nat, q: nat): (l: nat)
    requires p <= q <= |s|
    ensures p <= l <= |s|
    decreases |s| - q, |s| - p
  {
    if q >= |s| then p
    else
      match MatchEnd(pat, s, q)
      case None => LastPieceStart(s, pat, p, q + 1)
      case Some(e) => if e == p then LastPieceStart(s, pat, p, q + 1) else LastPieceStart(s, pat, e, e)
  }

  lemma LastPieceStartSkip(s: string, pat: Pattern, p: nat, q: nat)
    requires p <= q < |s| && (MatchEnd(pat, s, q).None? || MatchEnd(pat, s, q) == Some(p))
    ensures LastPieceStart(s, pat, p, q) == LastPieceStart(s, pat, p, q + 1)
  {
  }

  lemma LastPieceStartCut(s: string, pat: Pattern, p: nat, q: nat, e: nat)
    requires p <= q < |s| && MatchEnd(pat, s, q) == Some(e) && e != p
    ensures LastPieceStart(s, pat, p, q) == LastPieceStart(s, pat, e, e)
  {
  }

  lemma {:induction false} SplitFromLast(s: string, pat: Pattern, capture: bool, p: nat, q: nat)
    requires p <= q <= |s|
    ensures SplitFrom(s, pat, capture, p, q) != []
    ensures LastPart(SplitFrom(s, pat, capture, p, q)) == s[LastPieceStart(s, pat, p, q)..]
    decreases |s| - q, |s| - p
  {
    if q < |s| {
      var m := MatchEnd(pat, s, q);
      if m.None? || m.value == p {
        SplitFromSkip(s, pat, capture, p, q);
        LastPieceStartSkip(s, pat, p, q);
        SplitFromLast(s, pat, capture, p, q + 1);
      } else {
        var e := m.value;
        SplitFromCut(s, pat, capture, p, q, e);
        LastPieceStartCut(s, pat, p, q, e);
        SplitFromLast(s, pat, capture, e, e);
        var head := [s[p..q]] + (if capture then [s[q..e]] else []);
        var rest := SplitFrom(s, pat, capture, e, e);
        assert (head + rest)[|head + rest| - 1] == rest[|rest| - 1];
      }
    }
  }

  /**
   * The last piece starts at p or at the end of a match, and no match starts
   * at or after it.
   */
  lemma {:induction false} LastPieceStartSpec(s: string, pat: Pattern, p: nat, q: nat)
    requires NonEmpty(pat) && p <= q <= |s|
    requires forall k :: p <= k < q ==> MatchEnd(pat, s, k).None?
    ensures var l := LastPieceStart(s, pat, p, q);
      (l == p || MatchEndsAt(s, pat, l)) &&
      forall k :: l <= k < |s| ==> MatchEnd(pat, s, k).None?
    decreases |s| - q, |s| - p
  {
    if q < |s| {
      var m := MatchEnd(pat, s, q);
      if m.None? {
        LastPieceStartSkip(s, pat, p, q);
        LastPieceStartSpec(s, pat, p, q + 1);
      } else {
        var e := m.value;
        LastPieceStartCut(s, pat, p, q, e);
        LastPieceStartSpec(s, pat, e, e);
        var l := LastPieceStart(s, pat, e, e);
        assert l == e ==> MatchEndsAt(s, pat, l);
      }
    }
  }

  /** The last piece of splitting on a whole word is the text after its last match. */
  lemma LastPartAfterLastWord(s: string, w: string) returns (l: nat)
    requires |w| > 0
    ensures l <= |s| && LastPart(Split(s, WholeWord(w), false)) == s[l..]
    ensures forall k: nat :: l <= k <= |s| ==> !WordAt(s, w, k)
    ensures ContainsWord(s, w) ==> l >= |w| && WordAt(s, w, l - |w|)
  {
    if |s| == 0 {
      l := 0;
    } else {
      l := LastPieceStart(s, WholeWord(w), 0, 0);
      SplitFromLast(s, WholeWord(w), false, 0, 0);
      LastPieceStartSpec(s, WholeWord(w), 0, 0);
      forall k: nat | l <= k <= |s| ensures !WordAt(s, w, k) {
        if k < |s| { assert MatchEnd(WholeWord(w), s, k).None?; }
      }
      if ContainsWord(s, w) {
        var q: nat :| q <= |s| && WordAt(s, w, q);
        assert q < l;
        if l == 0 {
          assert false;
        }
        var k: nat :| k < |s| && MatchEnd(WholeWord(w), s, k) == Some(l);
        assert k + |w| == l;
      }
    }
  }

  /** The first piece of splitting on a whole word is the text before its first match. */
  lemma FirstPartBeforeFirstWord(s: string, w: string) returns (f: nat)
    requires |w| > 0
    ensures f <= |s| && FirstPart(Split(s, WholeWord(w), false)) == s[..f]
    ensures forall k: nat :: k < f ==> !WordAt(s, w, k)
    ensures ContainsWord(s, w) ==> WordAt(s, w, f)
  {
    f := FirstMatchFrom(s, WholeWord(w), 0);
    FirstPartBeforeFirstMatch(s, WholeWord(w), false);
    forall k: nat | k < f ensures !WordAt(s, w, k) {
      assert MatchEnd(WholeWord(w), s, k).None?;
    }
    if ContainsWord(s, w) {
      var q: nat :| q <= |s| && WordAt(s, w, q);
      assert f <= q;
      assert f < |s|;
    }
  }

  // ---------------------------------------------------------------------
  // Splitting on a character class
  // ---------------------------------------------------------------------

  /** Glues x to the front of the first piece. */
  function Prepend(x: string, r: seq<string>): seq<string>
    requires |r| >= 1
  {
    [x + r[0]] + r[1..]
  }

  /** Reference definition of splitting on single delimiter characters. */
  function SplitChars(s: string, d: set<char>): (r: seq<string>)
    ensures |r| >= 1
  {
    if s == [] then [""]
    else
      var rest := SplitChars(s[1..], d);
      if s[0] in d then [""] + rest else Prepend([s[0]], rest)
  }

  lemma PrependEmpty(r: seq<string>)
    requires |r| >= 1
    ensures Prepend("", r) == r
  {
    assert "" + r[0] == r[0];
  }

  lemma PrependTwice(x: string, y: string, r: seq<string>)
    requires |r| >= 1
    ensures Prepend(x, Prepend(y, r)) == Prepend(x + y, r)
  {
    assert x + (y + r[0]) == (x + y) + r[0];
  }

  lemma SplitCharsStep(s: string, d: set<char>, q: nat)
    requires q < |s|
    ensures SplitChars(s[q..], d) ==
      if s[q] in d then [""] + SplitChars(s[q + 1..], d) else Prepend([s[q]], SplitChars(s[q + 1..], d))
  {
    assert s[q..][1..] == s[q + 1..];
  }

  lemma SplitFromCharsDelim(s: string, d: set<char>, p: nat, q: nat)
    requires p <= q < |s| && s[q] in d
    requires SplitFrom(s, CharClass(d), false, q + 1, q + 1) == Prepend(s[q + 1..q + 1], SplitChars(s[q + 1..], d))
    ensures SplitFrom(s, CharClass(d), false, p, q) == Prepend(s[p..q], SplitChars(s[q..], d))
  {
    var r' := SplitChars(s[q + 1..], d);
    var x := s[p..q];
    SplitFromCut(s, CharClass(d), false, p, q, q + 1);
    assert s[q + 1..q + 1] == "";
    PrependEmpty(r');
    SplitCharsStep(s, d, q);
    calc {
      SplitFrom(s, CharClass(d), false, p, q);
      [x] + [] + SplitFrom(s, CharClass(d), false, q + 1, q + 1);
      { assert [x] + [] == [x]; }
      [x] + r';
      { assert ([""] + r')[1..] == r'; assert x + "" == x; }
      Prepend(x, [""] + r');
    }
  }

  lemma SplitFromCharsOther(s: string, d: set<char>, p: nat, q: nat)
    requires p <= q < |s| && s[q] !in d
    requires SplitFrom(s, CharClass(d), false, p, q + 1) == Prepend(s[p..q + 1], SplitChars(s[q + 1..], d))
    ensures SplitFrom(s, CharClass(d), false, p, q) == Prepend(s[p..q], SplitChars(s[q..], d))
  {
    SplitFromSkip(s, CharClass(d), false, p, q);
    SplitCharsStep(s, d, q);
    PrependTwice(s[p..q], [s[q]], SplitChars(s[q + 1..], d));
    assert s[p..q + 1] == s[p..q] + [s[q]];
  }

  lemma {:induction false} SplitFromChars(s: string, d: set<char>, p: nat, q: nat)
    requires p <= q <= |s|
    ensures SplitFrom(s, CharClass(d), false, p, q) == Prepend(s[p..q], SplitChars(s[q..], d))
    decreases |s| - q
  {
    if q < |s| {
      if s[q] in d {
        SplitFromChars(s, d, q + 1, q + 1);
        SplitFromCharsDelim(s, d, p, q);
      } else {
        SplitFromChars(s, d, p, q + 1);
        SplitFromCharsOther(s, d, p, q);
      }
    } else {
      assert s[q..] == [];
      assert s[p..q] + "" == s[p..];
    }
  }

  /** The split algorithm on a character class agrees with the reference definition. */
  lemma SplitCharClass(s: string, d: set<char>)
    ensures Split(s, CharClass(d), false) == SplitChars(s, d)
  {
    if |s| > 0 {
      SplitFromChars(s, d, 0, 0);
      assert s[0..] == s;
      assert s[0..0] == "";
      PrependEmpty(SplitChars(s, d));
    }
  }

  /** The delimiter characters of s, in order. */
  function DelimitersIn(s: string, d: set<char>): seq<char>
  {
    if s == [] then []
    else if s[0] in d then [s[0]] + DelimitersIn(s[1..], d)
    else DelimitersIn(s[1..], d)
  }

  /** pieces[0] + seps[0] + pieces[1] + ... + pieces[n]. */
  function Weave(pieces: seq<string>, seps: seq<char>): string
    requires |pieces| == |seps| + 1
  {
    if seps == [] then pieces[0]
    else pieces[0] + [seps[0]] + Weave(pieces[1..], seps[1..])
  }

  /**
   * The pieces are the maximal delimiter-free runs of s: none holds a
   * delimiter, and putting the delimiters back between them gives s.
   */
  lemma {:induction false} SplitCharsReassembles(s: string, d: set<char>)
    ensures |SplitChars(s, d)| == |DelimitersIn(s, d)| + 1
    ensures Weave(SplitChars(s, d), DelimitersIn(s, d)) == s
    ensures forall x, c :: x in SplitChars(s, d) && c in x ==> c !in d
  {
    if s != [] {
      var rest := SplitChars(s[1..], d);
      SplitCharsReassembles(s[1..], d);
      if s[0] in d {
        assert SplitChars(s, d) == [""] + rest;
        assert ([""] + rest)[1..] == rest;
        assert s == [s[0]] + s[1..];
      } else {
        var r := SplitChars(s, d);
        assert r == [[s[0]] + rest[0]] + rest[1..];
        WeaveHead([s[0]], rest, DelimitersIn(s[1..], d));
        assert s == [s[0]] + s[1..];
        forall x, c | x in r && c in x ensures c !in d {
          if x == [s[0]] + rest[0] {
            assert c == s[0] || c in rest[0];
          } else {
            assert x in rest;
          }
        }
      }
    }
  }

  lemma WeaveHead(a: string, pieces: seq<string>, seps: seq<char>)
    requires |pieces| == |seps| + 1
    ensures Weave([a + pieces[0]] + pieces[1..], seps) == a + Weave(pieces, seps)
  {
    var ps := [a + pieces[0]] + pieces[1..];
    if seps != [] {
      assert ps[1..] == pieces[1..];
    }
  }

  /** `parts.join(sep)` for a one-character separator. */
  function JoinWith(parts: seq<string>, sep: char): string
    requires |parts| >= 1
  {
    if |parts| == 1 then parts[0] else parts[0] + [sep] + JoinWith(parts[1..], sep)
  }

  lemma {:induction false} WeaveSame(pieces: seq<string>, seps: seq<char>, sep: char)
    requires |pieces| == |seps| + 1
    requires forall i :: 0 <= i < |seps| ==> seps[i] == sep
    ensures Weave(pieces, seps) == JoinWith(pieces, sep)
  {
    if seps != [] {
      WeaveSame(pieces[1..], seps[1..], sep);
    }
  }

  lemma {:induction false} DelimitersAllSame(s: string, sep: char)
    ensures forall i :: 0 <= i < |DelimitersIn(s, {sep})| ==> DelimitersIn(s, {sep})[i] == sep
  {
    if s != [] {
      DelimitersAllSame(s[1..], sep);
    }
  }

  /** `s.split(c).join(c) === s`. */
  lemma SplitJoin(s: string, sep: char)
    ensures |Split(s, CharClass({sep}), false)| >= 1
    ensures JoinWith(Split(s, CharClass({sep}), false), sep) == s
  {
    SplitCharClass(s, {sep});
    SplitCharsReassembles(s, {sep});
    DelimitersAllSame(s, sep);
    WeaveSame(SplitChars(s, {sep}), DelimitersIn(s, {sep}), sep);
  }

  // ---------------------------------------------------------------------
  // Splitting text that is glued from pieces (for save/load round trips)
  // ---------------------------------------------------------------------

  lemma {:induction false} NewlineRunShift(a: string, b: string, i: nat)
    requires i <= |b|
    ensures NewlineRunEnd(a + b, |a| + i) == |a| + NewlineRunEnd(b, i)
    decreases |b| - i
  {
    if i < |b| {
      assert (a + b)[|a| + i] == b[i];
      NewlineRunShift(a, b, i + 1);
    }
  }

  lemma {:induction false} SpaceRunShift(a: string, b: string, i: nat)
    requires i <= |b|
    ensures SpaceRunEnd(a + b, |a| + i) == |a| + SpaceRunEnd(b, i)
    decreases |b| - i
  {
    if i < |b| {
      assert (a + b)[|a| + i] == b[i];
      SpaceRunShift(a, b, i + 1);
    }
  }

  lemma MatchEndShift(pat: Pattern, a: string, b: string, q: nat)
    requires Local(pat) && q <= |b|
    ensures MatchEnd(pat, a + b, |a| + q) ==
      match MatchEnd(pat, b, q) case None => None case Some(e) => Some(|a| + e)
  {
    if q < |b| { assert (a + b)[|a| + q] == b[q]; }
    if q + 1 < |b| { assert (a + b)[|a| + q + 1] == b[q + 1]; }
    match pat
    case SentenceBreak =>
      NewlineRunShift(a, b, q);
      if q + 1 <= |b| { SpaceRunShift(a, b, q + 1); }
    case _ =>
  }

  lemma SliceShift(a: string, b: string, i: nat, j: nat)
    requires i <= j <= |b|
    ensures (a + b)[|a| + i..|a| + j] == b[i..j]
  {
  }

  lemma ShiftSkip(pat: Pattern, capture: bool, a: string, b: string, p: nat, q: nat)
    requires Local(pat) && p <= q < |b| && MatchEnd(pat, b, q).None?
    requires SplitFrom(a + b, pat, capture, |a| + p, |a| + q + 1) == SplitFrom(b, pat, capture, p, q + 1)
    ensures SplitFrom(a + b, pat, capture, |a| + p, |a| + q) == SplitFrom(b, pat, capture, p, q)
  {
    MatchEndShift(pat, a, b, q);
    SplitFromSkip(a + b, pat, capture, |a| + p, |a| + q);
    SplitFromSkip(b, pat, capture, p, q);
  }

  lemma ShiftCut(pat: Pattern, capture: bool, a: string, b: string, p: nat, q: nat, e: nat)
    requires Local(pat) && p <= q < |b| && MatchEnd(pat, b, q) == Some(e)
    requires SplitFrom(a + b, pat, capture, |a| + e, |a| + e) == SplitFrom(b, pat, capture, e, e)
    ensures SplitFrom(a + b, pat, capture, |a| + p, |a| + q) == SplitFrom(b, pat, capture, p, q)
  {
    MatchEndShift(pat, a, b, q);
    SplitFromCut(a + b, pat, capture, |a| + p, |a| + q, |a| + e);
    SplitFromCut(b, pat, capture, p, q, e);
    SliceShift(a, b, p, q);
    SliceShift(a, b, q, e);
  }

  /** For a pattern without look-behind, what comes before p does not matter. */
  lemma {:induction false} SplitFromShift(pat: Pattern, capture: bool, a: string, b: string, p: nat, q: nat)
    requires Local(pat) && p <= q <= |b|
    ensures SplitFrom(a + b, pat, capture, |a| + p, |a| + q) == SplitFrom(b, pat, capture, p, q)
    decreases |b| - q, |b| - p
  {
    if q == |b| {
      var s := a + b;
      SliceShift(a, b, p, |b|);
      assert s[|a| + p..] == s[|a| + p..|a| + |b|];
      assert b[p..] == b[p..|b|];
    } else {
      match MatchEnd(pat, b, q)
      case None =>
        SplitFromShift(pat, capture, a, b, p, q + 1);
        ShiftSkip(pat, capture, a, b, p, q);
      case Some(e) =>
        SplitFromShift(pat, capture, a, b, e, e);
        ShiftCut(pat, capture, a, b, p, q, e);
    }
  }

  /** With no match in [q, |s|), the rest of s is one piece. */
  lemma {:induction false} SplitFromNoMatch(s: string, pat: Pattern, capture: bool, p: nat, q: nat)
    requires p <= q <= |s|
    requires forall k :: q <= k < |s| ==> MatchEnd(pat, s, k).None?
    ensures SplitFrom(s, pat, capture, p, q) == [s[p..]]
    decreases |s| - q
  {
    if q < |s| {
      SplitFromNoMatch(s, pat, capture, p, q + 1);
    }
  }

  /** The leftmost match in [q, ..) starts at m and ends at e: the piece up to m is emitted. */
  lemma {:induction false} SplitFromNext(s: string, pat: Pattern, capture: bool, p: nat, q: nat, m: nat, e: nat)
    requires NonEmpty(pat) && p <= q <= m < |s|
    requires forall k :: q <= k < m ==> MatchEnd(pat, s, k).None?
    requires MatchEnd(pat, s, m) == Some(e)
    ensures SplitFrom(s, pat, capture, p, q) ==
      [s[p..m]] + (if capture then [s[m..e]] else []) + SplitFrom(s, pat, capture, e, e)
    decreases m - q
  {
    if q < m {
      SplitFromSkip(s, pat, capture, p, q);
      SplitFromNext(s, pat, capture, p, q + 1, m, e);
    } else {
      SplitFromCut(s, pat, capture, p, q, e);
    }
  }

  /** A local pattern never matches at the end of the text, so Split is the loop from 0. */
  lemma SplitIsSplitFrom(s: string, pat: Pattern, capture: bool)
    requires Local(pat)
    ensures Split(s, pat, capture) == SplitFrom(s, pat, capture, 0, 0)
  {
  }

  // ---------------------------------------------------------------------
  // The pieces and the matched text between them give the text back
  // ---------------------------------------------------------------------

  /** The matched texts the split loop removes between its pieces, in order. */
  function CutsFrom(s: string, pat: Pattern, p: nat, q: nat): seq<string>
    requires p <= q <= |s|
    decreases |s| - q, |s| - p
  {
    if q >= |s| then []
    else
      match MatchEnd(pat, s, q)
      case None => CutsFrom(s, pat, p, q + 1)
      case Some(e) =>
        if e == p then CutsFrom(s, pat, p, q + 1)
        else [s[q..e]] + CutsFrom(s, pat, e, e)
  }

  /** The texts `s.split(pat)` removes. */
  function Cuts(s: string, pat: Pattern): seq<string>
  {
    if |s| == 0 then [] else CutsFrom(s, pat, 0, 0)
  }

  /** pieces[0] + cuts[0] + pieces[1] + ... + pieces[n]. */
  function Rejoin(pieces: seq<string>, cuts: seq<string>): string
    requires |pieces| == |cuts| + 1
  {
    if cuts == [] then pieces[0]
    else pieces[0] + cuts[0] + Rejoin(pieces[1..], cuts[1..])
  }

  /** The pattern matches the whole of t, starting at its first character. */
  predicate Matches(pat: Pattern, t: string)
  {
    MatchEnd(pat, t, 0) == Some(|t|)
  }

  /** No match of the pattern starts anywhere in x. */
  predicate MatchFree(pat: Pattern, x: string)
  {
    forall k :: 0 <= k < |x| ==> MatchEnd(pat, x, k).None?
  }

  /** Text after x cannot undo a match of a local pattern that starts in x. */
  lemma MatchEndExtend(pat: Pattern, x: string, y: string, k: nat)
    requires Local(pat) && k < |x| && MatchEnd(pat, x, k).Some?
    ensures MatchEnd(pat, x + y, k).Some?
  {
    assert (x + y)[k] == x[k];
    if k + 1 < |x| { assert (x + y)[k + 1] == x[k + 1]; }
  }

  /** What a local pattern matched at q in s, it matches on its own. */
  lemma CutMatches(pat: Pattern, s: string, q: nat, e: nat)
    requires Local(pat) && q <= |s| && MatchEnd(pat, s, q) == Some(e)
    ensures Matches(pat, s[q..e])
  {
    var t := s[q..e];
    assert forall k :: 0 <= k < |t| ==> t[k] == s[q + k];
  }

  /** No match starts in s[p..] when none starts in s from p on. */
  lemma TailMatchFree(pat: Pattern, s: string, p: nat)
    requires Local(pat) && p <= |s|
    requires forall k :: p <= k < |s| ==> MatchEnd(pat, s, k).None?
    ensures MatchFree(pat, s[p..])
  {
    forall k | 0 <= k < |s[p..]| ensures MatchEnd(pat, s[p..], k).None? {
      assert s[..p] + s[p..] == s;
      MatchEndShift(pat, s[..p], s[p..], k);
    }
  }

  /** No match starts in s[p..q] when none starts in s between p and q. */
  lemma PieceMatchFree(pat: Pattern, s: string, p: nat, q: nat)
    requires Local(pat) && p <= q <= |s|
    requires forall k :: p <= k < q ==> MatchEnd(pat, s, k).None?
    ensures MatchFree(pat, s[p..q])
  {
    var piece := s[p..q];
    forall k | 0 <= k < |piece| ensures MatchEnd(pat, piece, k).None? {
      if MatchEnd(pat, piece, k).Some? {
        MatchEndExtend(pat, piece, s[q..], k);
        assert piece + s[q..] == s[p..];
        assert s[..p] + s[p..] == s;
        MatchEndShift(pat, s[..p], s[p..], k);
        assert false;
      }
    }
  }

  lemma {:induction false} SplitFromRejoins(s: string, pat: Pattern, p: nat, q: nat)
    requires Local(pat) && p <= q <= |s|
    requires forall k :: p <= k < q ==> MatchEnd(pat, s, k).None?
    ensures |SplitFrom(s, pat, false, p, q)| == |CutsFrom(s, pat, p, q)| + 1
    ensures Rejoin(SplitFrom(s, pat, false, p, q), CutsFrom(s, pat, p, q)) == s[p..]
    ensures forall x :: x in SplitFrom(s, pat, false, p, q) ==> MatchFree(pat, x)
    ensures forall t :: t in CutsFrom(s, pat, p, q) ==> Matches(pat, t)
    decreases |s| - q, |s| - p
  {
    if q == |s| {
      TailMatchFree(pat, s, p);
    } else {
      match MatchEnd(pat, s, q)
      case None =>
        SplitFromSkip(s, pat, false, p, q);
        SplitFromRejoins(s, pat, p, q + 1);
      case Some(e) =>
        SplitFromCut(s, pat, false, p, q, e);
        SplitFromRejoins(s, pat, e, e);
        CutMatches(pat, s, q, e);
        PieceMatchFree(pat, s, p, q);
        var pieces := SplitFrom(s, pat, false, p, q);
        var rest := SplitFrom(s, pat, false, e, e);
        assert pieces == [s[p..q]] + rest;
        assert pieces[1..] == rest;
        assert CutsFrom(s, pat, p, q)[1..] == CutsFrom(s, pat, e, e);
        assert s[p..] == s[p..q] + s[q..e] + s[e..];
    }
  }

  /**
   * Splitting on a pattern without look-behind: no match starts in a piece,
   * each removed text is a match, and putting the removed texts back
   * between the pieces gives s.
   */
  lemma SplitRejoins(s: string, pat: Pattern)
    requires Local(pat)
    ensures |Split(s, pat, false)| == |Cuts(s, pat)| + 1
    ensures Rejoin(Split(s, pat, false), Cuts(s, pat)) == s
    ensures forall x :: x in Split(s, pat, false) ==> MatchFree(pat, x)
    ensures forall t :: t in Cuts(s, pat) ==> Matches(pat, t)
  {
    if |s| > 0 {
      SplitFromRejoins(s, pat, 0, 0);
      assert s[0..] == s;
    }
  }

  // ---------------------------------------------------------------------
  // Escaping text for use inside a pattern
  // ---------------------------------------------------------------------

  /** `s.replace(/([...meta...])/g, "\\$1")`: a backslash before every metacharacter. */
  function Escape(meta: set<char>, s: string): (r: string)
    ensures |r| == |s| + |DelimitersIn(s, meta)|
  {
    if s == [] then []
    else (if s[0] in meta then ['\\', s[0]] else [s[0]]) + Escape(meta, s[1..])
  }

  /**
   * The literal text a pattern source denotes when every metacharacter in it
   * must be escaped: None when some metacharacter stands unescaped or a
   * backslash ends the source.
   */
  function LiteralOf(meta: set<char>, t: string): Option<string>
  {
    if t == [] then Some([])
    else if t[0] == '\\' then
      if |t| >= 2 then
        match LiteralOf(meta, t[2..])
        case None => None
        case Some(rest) => Some([t[1]] + rest)
      else None
    else if t[0] in meta then None
    else
      match LiteralOf(meta, t[1..])
      case None => None
      case Some(rest) => Some([t[0]] + rest)
  }

  /** Escaping leaves no metacharacter bare, and what is left matches exactly s. */
  lemma {:induction false} EscapeIsLiteral(meta: set<char>, s: string)
    requires '\\' in meta
    ensures LiteralOf(meta, Escape(meta, s)) == Some(s)
  {
    if s != [] {
      EscapeIsLiteral(meta, s[1..]);
      var t := Escape(meta, s);
      if s[0] in meta {
        assert t[2..] == Escape(meta, s[1..]);
      } else {
        assert t[1..] == Escape(meta, s[1..]);
      }
      assert s == [s[0]] + s[1..];
    }
  }

  /** Text without metacharacters is its own escape. */
  lemma {:induction false} EscapePlain(meta: set<char>, s: string)
    requires forall i :: 0 <= i < |s| ==> s[i] !in meta
    ensures Escape(meta, s) == s
  {
    if s != [] {
      EscapePlain(meta, s[1..]);
      assert s == [s[0]] + s[1..];
    }
  }
}
