/**
 * The current generation's dictionary: the set of sentences and the set of
 * words the bot knows, loaded from and saved to lines.txt, grown by learning
 * messages, and searched for a line holding a word to build a reply around.
 */
module Dict {
  import opened JsCore
  import opened Regex
  import opened Util

  /** What fs.readFileSync gives back: the file's text, or the error's code. */
  datatype ReadResult = Read(text: string) | Failed(code: string)

  /** The sentences load() keeps from the file's text. */
  function LoadedLines(text: string): (r: seq<string>)
    ensures NoDup(r)
  {
    SplitSentences(Lower(text))
  }

  /** The words load() keeps from the file's text. */
  function LoadedWords(text: string): (r: seq<string>)
    ensures NoDup(r)
  {
    SplitWords(Lower(text))
  }

  /** Each sentence followed by a line feed. */
  function Terminated(ss: seq<string>): string
  {
    if ss == [] then "" else ss[0] + "\n" + Terminated(ss[1..])
  }

  lemma {:induction false} TerminatedSnoc(ss: seq<string>, x: string)
    ensures Terminated(ss + [x]) == Terminated(ss) + x + "\n"
  {
    if ss != [] {
      assert (ss + [x])[1..] == ss[1..] + [x];
      TerminatedSnoc(ss[1..], x);
    } else {
      assert [x][1..] == [];
    }
  }

  /** The text save() writes: every sentence of every line, each on its own line. */
  function SaveText(lines: seq<string>): string
  {
    if lines == [] then ""
    else SaveText(lines[..|lines| - 1]) + Terminated(SplitSentences(lines[|lines| - 1]))
  }

  lemma TerminatedAppend(before: string, ss: seq<string>, j: nat)
    requires j < |ss|
    ensures before + Terminated(ss[..j]) + ss[j] + "\n" == before + Terminated(ss[..j + 1])
  {
    assert ss[..j + 1] == ss[..j] + [ss[j]];
    TerminatedSnoc(ss[..j], ss[j]);
  }

  lemma SaveTextStep(lines: seq<string>, i: nat)
    requires i < |lines|
    ensures SaveText(lines[..i + 1]) == SaveText(lines[..i]) + Terminated(SplitSentences(lines[i]))
  {
    assert lines[..i + 1][..i] == lines[..i];
  }

  /** The lines among `lines` that hold `word` as a whole word, ignoring case, in order. */
  function MatchingLines(lines: seq<string>, word: string): (r: seq<string>)
    ensures |r| <= |lines|
    ensures forall l :: l in r <==> l in lines && ContainsWord(l, word)
  {
    if lines == [] then []
    else
      var init := MatchingLines(lines[..|lines| - 1], word);
      var last := lines[|lines| - 1];
      assert lines == lines[..|lines| - 1] + [last];
      init + (if ContainsWord(last, word) then [last] else [])
  }

  /**
   * getRandomLineContaining with Math.random() = r: '' when no line holds the
   * word, else a line picked by _.sample among those that do.
   */
  function PickLine(lines: seq<string>, word: string, r: real): (line: string)
    requires IsRandom(r)
    ensures line == "" <==> forall l :: l in lines ==> !ContainsWord(l, word)
    ensures line != "" ==> line in lines && ContainsWord(line, word)
  {
    var m := MatchingLines(lines, word);
    assert !ContainsWord("", word);
    if m == [] then ""
    else
      var i := RandomIndex(r, |m|);
      assert m[i] in m;
      m[i]
  }

  /** buildAround's result, given the two draws that pick its left and right lines. */
  function AroundWord(lines: seq<string>, word: string, rLeft: real, rRight: real): string
    requires IsRandom(rLeft) && IsRandom(rRight)
  {
    var left := PickLine(lines, word, rLeft);
    var right := PickLine(lines, word, rRight);
    FirstPart(Split(left, WholeWord(word), false)) + word + LastPart(Split(right, WholeWord(word), false))
  }

  /** With no line holding the word, the sentence built around it is the word alone. */
  lemma AroundUnknownWord(lines: seq<string>, word: string, rLeft: real, rRight: real)
    requires IsRandom(rLeft) && IsRandom(rRight)
    requires forall l :: l in lines ==> !ContainsWord(l, word)
    ensures AroundWord(lines, word, rLeft, rRight) == word
  {
    assert PickLine(lines, word, rLeft) == "";
    assert MatchEnd(WholeWord(word), "", 0).None? by {
      assert !BoundaryAt("", 0);
    }
  }

  /**
   * Otherwise it is the text of one such line up to the word's first
   * occurrence, the word, and the text of one such line after the word's
   * last occurrence.
   */
  lemma AroundKnownWord(lines: seq<string>, word: string, rLeft: real, rRight: real)
    returns (left: string, i: nat, right: string, j: nat)
    requires IsRandom(rLeft) && IsRandom(rRight) && |word| > 0
    requires exists l :: l in lines && ContainsWord(l, word)
    ensures left in lines && right in lines
    ensures i <= |left| && WordAt(left, word, i) && forall k: nat :: k < i ==> !WordAt(left, word, k)
    ensures |word| <= j <= |right| && WordAt(right, word, j - |word|)
    ensures forall k: nat :: j <= k <= |right| ==> !WordAt(right, word, k)
    ensures AroundWord(lines, word, rLeft, rRight) == left[..i] + word + right[j..]
  {
    left := PickLine(lines, word, rLeft);
    right := PickLine(lines, word, rRight);
    i := FirstPartBeforeFirstWord(left, word);
    j := LastPartAfterLastWord(right, word);
  }

  /** `_.intersection(words, blacklist).length !== 0` for the message's words. */
  predicate Refuses(str: string, blacklist: seq<string>)
  {
    exists w :: w in SplitWords(str) && w in blacklist
  }

  /** The two sets a dictionary holds. */
  datatype Knowledge = Knowledge(lines: seq<string>, words: seq<string>)

  /** learn(str): nothing when a word of the message is blacklisted, else both sets grow. */
  function Learned(k: Knowledge, str: string, blacklist: seq<string>): (r: Knowledge)
    ensures Refuses(str, blacklist) ==> r == k
    ensures !Refuses(str, blacklist) ==>
      Elems(r.lines) == Elems(k.lines) + Elems(SplitSentences(str)) &&
      Elems(r.words) == Elems(k.words) + Elems(SplitWords(str))
    ensures NoDup(k.lines) && NoDup(k.words) ==> NoDup(r.lines) && NoDup(r.words)
    ensures |k.lines| <= |r.lines| && r.lines[..|k.lines|] == k.lines
    ensures |k.words| <= |r.words| && r.words[..|k.words|] == k.words
  {
    if Refuses(str, blacklist) then k
    else Knowledge(AddAll(k.lines, SplitSentences(str)), AddAll(k.words, SplitWords(str)))
  }

  /** Learning the same message a second time adds nothing. */
  lemma LearnedIdempotent(k: Knowledge, str: string, blacklist: seq<string>)
    ensures Learned(Learned(k, str, blacklist), str, blacklist) == Learned(k, str, blacklist)
  {
    if !Refuses(str, blacklist) {
      AddAllIdempotent(k.lines, SplitSentences(str));
      AddAllIdempotent(k.words, SplitWords(str));
    }
  }

  class Dictionary {
    var lines: seq<string>
    var words: seq<string>

    /** Both fields are JavaScript Sets. */
    predicate Valid()
      reads this
    {
      NoDup(lines) && NoDup(words)
    }

    /** A dictionary before load() has filled it. */
    constructor ()
      ensures lines == [] && words == [] && Valid()
    {
      lines := [];
      words := [];
    }

    /**
     * load(): a missing file gives an empty dictionary, any other read error
     * is thrown, and a file's text is lowercased and split into sentences and
     * words.
     */
    method Load(file: ReadResult) returns (err: Option<string>)
      requires Valid()
      modifies this
      ensures Valid()
      ensures file.Failed? && file.code != "ENOENT" ==>
        err == Some(file.code) && lines == old(lines) && words == old(words)
      ensures file.Failed? && file.code == "ENOENT" ==> err.None? && lines == [] && words == []
      ensures file.Read? ==> err.None? && lines == LoadedLines(file.text) && words == LoadedWords(file.text)
    {
      match file
      case Failed(code) =>
        if code == "ENOENT" {
          lines := [];
          words := [];
          err := None;
        } else {
          err := Some(code);
        }
      case Read(text) =>
        var data := Lower(text);
        lines := SplitSentences(data);
        words := SplitWords(data);
        err := None;
    }

    /** save(): the text written to lines.txt. */
    method Save() returns (data: string)
      ensures data == SaveText(lines)
    {
      data := "";
      var i := 0;
      while i < |lines|
        invariant 0 <= i <= |lines|
        invariant data == SaveText(lines[..i])
      {
        var sentences := SplitSentences(lines[i]);
        var before := data;
        var j := 0;
        while j < |sentences|
          invariant 0 <= j <= |sentences|
          invariant data == before + Terminated(sentences[..j])
        {
          TerminatedAppend(before, sentences, j);
          data := data + sentences[j] + "\n";
          j := j + 1;
        }
        assert sentences[..j] == sentences;
        SaveTextStep(lines, i);
        i := i + 1;
      }
      assert lines[..i] == lines;
    }

    /** knows(word). */
    predicate Knows(word: string)
      reads this
    {
      word in words
    }

    /** getKnownWords(ws): the words of ws the dictionary knows, as a Set. */
    method GetKnownWords(ws: seq<string>) returns (known: seq<string>)
      ensures NoDup(known)
      ensures forall w :: w in known <==> w in ws && Knows(w)
    {
      known := [];
      var i := 0;
      while i < |ws|
        invariant 0 <= i <= |ws|
        invariant NoDup(known)
        invariant forall w :: w in known <==> w in ws[..i] && Knows(w)
      {
        assert ws[..i + 1] == ws[..i] + [ws[i]];
        if Knows(ws[i]) {
          known := Add(known, ws[i]);
          assert forall w :: w in known <==> w in Elems(known);
        }
        i := i + 1;
      }
      assert ws[..i] == ws;
    }

    /**
     * getRandomLineContaining(word) with Math.random() = r. The word is
     * escaped before it goes into /\bword\b/gi, so the pattern matches the
     * word literally (EscapeRegex's contract), which is what ContainsWord
     * states.
     */
    method GetRandomLineContaining(word: string, r: real) returns (line: string)
      requires IsRandom(r)
      ensures line == PickLine(lines, word, r)
    {
      var matching: seq<string> := [];
      var i := 0;
      while i < |lines|
        invariant 0 <= i <= |lines|
        invariant matching == MatchingLines(lines[..i], word)
      {
        assert lines[..i + 1][..i] == lines[..i];
        if ContainsWord(lines[i], word) {
          matching := matching + [lines[i]];
        }
        i := i + 1;
      }
      assert lines[..i] == lines;
      if |matching| == 0 {
        line := "";
      } else if |matching| == 1 {
        line := matching[0];
      } else {
        line := matching[RandomIndex(r, |matching|)];
      }
    }

    /** buildAround(word), with the draws of its two line picks. */
    method BuildAround(word: string, rLeft: real, rRight: real) returns (sentence: string)
      requires IsRandom(rLeft) && IsRandom(rRight)
      ensures sentence == AroundWord(lines, word, rLeft, rRight)
    {
      var left := GetRandomLineContaining(word, rLeft);
      var right := GetRandomLineContaining(word, rRight);
      var leftSide := FirstPart(Split(left, WholeWord(word), false));
      var rightSide := LastPart(Split(right, WholeWord(word), false));
      sentence := leftSide + word + rightSide;
    }

    /**
     * learn(str): refuses a message holding a blacklisted word, else adds its
     * sentences to the lines and its words to the words.
     */
    method Learn(str: string, blacklist: seq<string>) returns (learned: bool)
      requires Valid()
      modifies this
      ensures Valid()
      ensures learned <==> !Refuses(str, blacklist)
      ensures Knowledge(lines, words) == Learned(Knowledge(old(lines), old(words)), str, blacklist)
    {
      if Refuses(str, blacklist) {
        return false;
      }
      var sentences := SplitSentences(str);
      var ws := SplitWords(str);
      var j := 0;
      while j < |sentences|
        invariant 0 <= j <= |sentences|
        invariant lines == AddAll(old(lines), sentences[..j])
        invariant words == old(words)
      {
        AddAllStep(old(lines), sentences, j);
        lines := Add(lines, sentences[j]);
        j := j + 1;
      }
      assert sentences[..j] == sentences;
      ghost var learnedLines := lines;
      var k := 0;
      while k < |ws|
        invariant 0 <= k <= |ws|
        invariant lines == learnedLines
        invariant words == AddAll(old(words), ws[..k])
      {
        AddAllStep(old(words), ws, k);
        words := Add(words, ws[k]);
        k := k + 1;
      }
      assert ws[..k] == ws;
      learned := true;
    }
  }

  // ---------------------------------------------------------------------
  // Saving and loading again
  // ---------------------------------------------------------------------

  /**
   * A sentence that survives being saved and loaded: not empty, lower case,
   * on one line, with no period followed by white space and no period at
   * its end.
   */
  predicate CleanSentence(l: string)
  {
    l != [] && IsLowerCase(l) && '\n' !in l && '\r' !in l && l[|l| - 1] != '.' &&
    forall k :: 0 <= k < |l| - 1 && l[k] == '.' ==> !IsSpace(l[k + 1])
  }

  lemma NoBreakInClean(l: string, rest: string, k: nat)
    requires CleanSentence(l) && k < |l|
    ensures MatchEnd(SentenceBreak, l + rest, k).None?
  {
    var s := l + rest;
    assert s[k] == l[k];
    if k + 1 < |l| {
      assert s[k + 1] == l[k + 1];
    }
  }

  lemma SplitSentencesClean(l: string)
    requires CleanSentence(l)
    ensures SplitSentences(l) == [l]
  {
    RemoveCRNone(l);
    assert l + [] == l;
    forall k | 0 <= k < |l| ensures MatchEnd(SentenceBreak, l, k).None? {
      NoBreakInClean(l, [], k);
    }
    SplitFromNoMatch(l, SentenceBreak, false, 0, 0);
    assert l[0..] == l;
    assert Split(l, SentenceBreak, false) == [l];
    assert AddAll([], [l]) == [l] by {
      assert [l][..0] == [];
    }
  }

  lemma SaveTextLast(lines: seq<string>)
    requires lines != [] && CleanSentence(lines[|lines| - 1])
    ensures SaveText(lines) == SaveText(lines[..|lines| - 1]) + (lines[|lines| - 1] + "\n")
  {
    SplitSentencesClean(lines[|lines| - 1]);
    TerminatedOne(lines[|lines| - 1]);
  }

  lemma {:induction false} SaveTextClean(lines: seq<string>)
    requires forall l :: l in lines ==> CleanSentence(l)
    ensures SaveText(lines) == Terminated(lines)
  {
    if lines != [] {
      var n := |lines| - 1;
      var init := lines[..n];
      var last := lines[n];
      assert forall l :: l in init ==> l in lines;
      SaveTextClean(init);
      assert lines[n] in lines;
      SaveTextLast(lines);
      TerminatedLast(lines);
    }
  }

  lemma {:induction false} TerminatedLast(ss: seq<string>)
    requires ss != []
    ensures Terminated(ss) == Terminated(ss[..|ss| - 1]) + (ss[|ss| - 1] + "\n")
  {
    var n := |ss| - 1;
    if n == 0 {
      assert ss[..0] == [];
    } else {
      var tail := ss[1..];
      TerminatedLast(tail);
      assert tail[..n - 1] == ss[..n][1..];
      assert tail[n - 1] == ss[n];
      assert ss[..n][0] == ss[0];
      Assoc(ss[0] + "\n", Terminated(tail[..n - 1]), ss[n] + "\n");
    }
  }

  lemma TerminatedOne(x: string)
    ensures Terminated([x]) == x + "\n"
  {
    assert [x][1..] == [];
    assert x + "\n" + "" == x + "\n";
  }

  lemma Assoc(a: string, b: string, c: string)
    ensures a + b + c == a + (b + c)
  {
  }

  /** Lower case and free of carriage returns. */
  predicate Plain(s: string)
  {
    IsLowerCase(s) && '\r' !in s
  }

  lemma PlainConcat(a: string, b: string)
    requires Plain(a) && Plain(b)
    ensures Plain(a + b)
  {
    forall i | 0 <= i < |a + b| ensures !IsUpper((a + b)[i]) {
      if i < |a| {
        assert (a + b)[i] == a[i];
      } else {
        assert (a + b)[i] == b[i - |a|];
      }
    }
  }

  lemma {:induction false} TerminatedPlain(ls: seq<string>)
    requires forall l :: l in ls ==> CleanSentence(l)
    ensures Plain(Terminated(ls))
  {
    if ls != [] {
      assert forall l :: l in ls[1..] ==> l in ls;
      TerminatedPlain(ls[1..]);
      assert ls[0] in ls;
      PlainConcat(ls[0], "\n");
      PlainConcat(ls[0] + "\n", Terminated(ls[1..]));
    }
  }

  lemma NoBreakBeforeFeed(l: string, t: string)
    requires CleanSentence(l)
    ensures forall k :: 0 <= k < |l| ==> MatchEnd(SentenceBreak, l + "\n" + t, k).None?
  {
    forall k | 0 <= k < |l| ensures MatchEnd(SentenceBreak, l + "\n" + t, k).None? {
      assert l + "\n" + t == l + ("\n" + t);
      NoBreakInClean(l, "\n" + t, k);
    }
  }

  lemma FeedBreak(l: string, t: string)
    requires t == [] || t[0] != '\n'
    ensures MatchEnd(SentenceBreak, l + "\n" + t, |l|) == Some(|l| + 1)
  {
    var s := l + "\n" + t;
    assert s[|l|] == '\n';
    if |l| + 1 < |s| {
      assert s[|l| + 1] == t[0];
    }
    assert NewlineRunEnd(s, |l| + 1) == |l| + 1;
  }

  /** The first piece of a clean sentence and its line feed is the sentence. */
  lemma SplitCleanFirst(l: string, t: string)
    requires CleanSentence(l)
    requires t == [] || t[0] != '\n'
    ensures SplitFrom(l + "\n" + t, SentenceBreak, false, 0, 0) ==
      [l] + SplitFrom(l + "\n" + t, SentenceBreak, false, |l| + 1, |l| + 1)
  {
    var s := l + "\n" + t;
    NoBreakBeforeFeed(l, t);
    FeedBreak(l, t);
    SplitFromNext(s, SentenceBreak, false, 0, 0, |l|, |l| + 1);
    assert s[0..|l|] == l;
    assert [l] + [] == [l];
  }

  /** A clean sentence and its line feed come off the front as one piece. */
  lemma SplitCleanHead(l: string, t: string)
    requires CleanSentence(l)
    requires t == [] || t[0] != '\n'
    ensures SplitFrom(l + "\n" + t, SentenceBreak, false, 0, 0) == [l] + SplitFrom(t, SentenceBreak, false, 0, 0)
  {
    var a := l + "\n";
    SplitCleanFirst(l, t);
    SplitFromShift(SentenceBreak, false, a, t, 0, 0);
    assert |a| + 0 == |l| + 1;
  }

  lemma {:induction false} SplitTerminated(ls: seq<string>)
    requires forall l :: l in ls ==> CleanSentence(l)
    ensures SplitFrom(Terminated(ls), SentenceBreak, false, 0, 0) == ls + [""]
  {
    if ls == [] {
      assert Terminated(ls)[0..] == "";
    } else {
      var t := Terminated(ls[1..]);
      assert forall l :: l in ls[1..] ==> l in ls;
      SplitTerminated(ls[1..]);
      assert ls[0] in ls;
      assert t == [] || t[0] != '\n' by {
        if t != [] {
          assert ls[1] in ls;
          assert t[0] == ls[1][0];
        }
      }
      SplitCleanHead(ls[0], t);
      assert ls == [ls[0]] + ls[1..];
    }
  }

  lemma {:induction false} DedupDistinct<T>(xs: seq<T>)
    requires NoDup(xs)
    ensures Dedup(xs) == xs
  {
    if xs != [] {
      var init := xs[..|xs| - 1];
      assert NoDup(init);
      DedupDistinct(init);
      assert xs[|xs| - 1] !in init;
      assert xs == init + [xs[|xs| - 1]];
    }
  }

  /**
   * Saving clean, distinct sentences and loading the file again gives them
   * back in order, followed by the empty piece after the final line feed.
   */
  lemma SaveLoadRoundTrip(lines: seq<string>)
    requires NoDup(lines)
    requires forall l :: l in lines ==> CleanSentence(l)
    ensures LoadedLines(SaveText(lines)) == lines + [""]
  {
    SaveTextClean(lines);
    var text := Terminated(lines);
    TerminatedPlain(lines);
    LowerOfLowerCase(text);
    RemoveCRNone(text);
    SplitTerminated(lines);
    SplitIsSplitFrom(text, SentenceBreak, false);
    assert NoDup(lines + [""]) by {
      assert "" !in lines;
    }
    DedupDistinct(lines + [""]);
  }

  /** The last clean sentence and the line feeds of the blank line after it make one break. */
  lemma SplitCleanLast(l: string)
    requires CleanSentence(l)
    ensures SplitFrom(l + "\n" + "\n", SentenceBreak, false, 0, 0) == [l, ""]
  {
    var s := l + "\n" + "\n";
    NoBreakBeforeFeed(l, "\n");
    assert s[|l|] == '\n' && s[|l| + 1] == '\n';
    assert |s| == |l| + 2;
    assert NewlineRunEnd(s, |l| + 1) == |l| + 2;
    assert MatchEnd(SentenceBreak, s, |l|) == Some(|l| + 2);
    SplitFromNext(s, SentenceBreak, false, 0, 0, |l|, |l| + 2);
    assert s[0..|l|] == l;
    assert s[|l| + 2..] == "";
    assert SplitFrom(s, SentenceBreak, false, |l| + 2, |l| + 2) == [s[|l| + 2..]];
  }

  lemma BlankTail(ls: seq<string>)
    requires ls != [] && ls[0] != []
    ensures (Terminated(ls) + "\n")[0] == ls[0][0]
  {
  }

  lemma {:induction false} SplitTerminatedBlank(ls: seq<string>)
    requires ls != []
    requires forall l :: l in ls ==> CleanSentence(l)
    ensures SplitFrom(Terminated(ls) + "\n", SentenceBreak, false, 0, 0) == ls + [""]
  {
    var rest := ls[1..];
    var t := Terminated(rest) + "\n";
    Assoc(ls[0] + "\n", Terminated(rest), "\n");
    assert ls[0] in ls;
    if rest == [] {
      assert t == "\n";
      SplitCleanLast(ls[0]);
    } else {
      assert forall l :: l in rest ==> l in ls;
      SplitTerminatedBlank(rest);
      assert rest[0] in ls;
      BlankTail(rest);
      SplitCleanHead(ls[0], t);
      assert ls == [ls[0]] + rest;
    }
  }

  /** The empty line saves as a lone line feed after the others. */
  lemma SaveTextBlank(clean: seq<string>)
    requires forall l :: l in clean ==> CleanSentence(l)
    ensures SaveText(clean + [""]) == Terminated(clean) + "\n"
  {
    assert (clean + [""])[..|clean|] == clean;
    assert SplitSentences("") == [""] by {
      RemoveCRNone("");
      assert AddAll([], [""]) == [""] by {
        assert [""][..0] == [];
      }
    }
    TerminatedOne("");
    SaveTextClean(clean);
  }

  /** A file holding one line feed loads as the single empty line. */
  lemma LoadBlankOnly()
    ensures LoadedLines("\n") == [""]
  {
    var text := "\n";
    LowerOfLowerCase(text);
    RemoveCRNone(text);
    SplitIsSplitFrom(text, SentenceBreak, false);
    assert NewlineRunEnd(text, 1) == 1;
    assert SplitFrom(text, SentenceBreak, false, 0, 0) == ["", ""];
    assert AddAll([], ["", ""]) == [""] by {
      assert ["", ""][..1] == [""];
      assert [""][..0] == [];
    }
  }

  /**
   * The steady state of lines.txt: once loaded, the lines end with the empty
   * piece after the file's final line feed, and saving such lines and loading
   * the file again gives exactly the same lines.
   */
  lemma SaveLoadSteady(lines: seq<string>, clean: seq<string>)
    requires lines == clean + [""]
    requires NoDup(clean)
    requires forall l :: l in clean ==> CleanSentence(l)
    ensures LoadedLines(SaveText(lines)) == lines
  {
    SaveTextBlank(clean);
    if clean == [] {
      LoadBlankOnly();
      assert Terminated(clean) + "\n" == "\n";
    } else {
      LoadTerminatedBlank(clean);
    }
  }

  /** Clean, distinct sentences, each ended by a line feed, then one more line feed. */
  lemma LoadTerminatedBlank(clean: seq<string>)
    requires clean != [] && NoDup(clean)
    requires forall l :: l in clean ==> CleanSentence(l)
    ensures LoadedLines(Terminated(clean) + "\n") == clean + [""]
  {
    var text := Terminated(clean) + "\n";
    TerminatedPlain(clean);
    PlainConcat(Terminated(clean), "\n");
    LowerOfLowerCase(text);
    RemoveCRNone(text);
    SplitIsSplitFrom(text, SentenceBreak, false);
    SplitTerminatedBlank(clean);
    assert NoDup(clean + [""]) by {
      assert "" !in clean;
    }
    DedupDistinct(clean + [""]);
  }

  // ---------------------------------------------------------------------
  // load() and learn() as written, when lines.txt is missing
  // ---------------------------------------------------------------------

  /** The dictionary's state as the source leaves it; `words` may be undefined. */
  datatype RawState = RawState(lines: seq<string>, words: Option<seq<string>>)

  /** load() as written: a missing file sets only `lines`. */
  function LoadAsWritten(file: ReadResult): (r: Result<RawState>)
    ensures file == Failed("ENOENT") ==> r == Ok(RawState([], None))
  {
    match file
    case Failed(code) => if code == "ENOENT" then Ok(RawState([], None)) else Err(code)
    case Read(text) => Ok(RawState(LoadedLines(text), Some(LoadedWords(text))))
  }

  /**
   * learn() as written, on a state whose `words` may be undefined: the lines
   * are added first, then adding the first word to an undefined set throws a
   * TypeError, leaving the lines added.
   */
  function LearnAsWritten(st: RawState, str: string, blacklist: seq<string>): (RawState, Option<string>)
  {
    if Refuses(str, blacklist) then (st, None)
    else
      var lines := AddAll(st.lines, SplitSentences(str));
      match st.words
      case Some(ws) => (RawState(lines, Some(AddAll(ws, SplitWords(str)))), None)
      case None =>
        if SplitWords(str) == [] then (RawState(lines, None), None)
        else (RawState(lines, None), Some("TypeError: cannot read property 'add' of undefined"))
  }

  /**
   * After a missing lines.txt, the first message with a word that is not
   * blacklisted makes learn() throw, with its sentences already added.
   */
  lemma MissingFileBreaksLearn(str: string, blacklist: seq<string>)
    requires !Refuses(str, blacklist) && SplitWords(str) != []
    ensures var (st, err) := LearnAsWritten(LoadAsWritten(Failed("ENOENT")).value, str, blacklist);
      err.Some? && st.words.None? && st.lines == Dedup(SplitSentences(str))
  {
  }
}
