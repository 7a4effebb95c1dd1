/**
 * The legacy generation of the bot (main.js): a configuration record read
 * from config.json, the known_lines and known_words arrays kept at module
 * level, the lines file's text format, learning every sentence of a message,
 * and the reply built around a word of the message that the bot knows.
 */
module Legacy {
  import opened JsCore
  import opened Regex
  import opened Util
  import Dict

  /**
   * A property name of the configuration object: the ten that main.js reads
   * each have a constructor, and every other name is Other.
   */
  datatype Key =
    | Port | Token | ReplyRate | ReplyNick | ReplyMagic | Speaking | Learning
    | AutoSavePeriod | MagicWords | BlacklistedWords
    | Other(name: string)

  /** The property name as it is spelled in config.json. */
  function Name(k: Key): string
  {
    match k
    case Port => "port"
    case Token => "token"
    case ReplyRate => "replyrate"
    case ReplyNick => "replynick"
    case ReplyMagic => "replymagic"
    case Speaking => "speaking"
    case Learning => "learning"
    case AutoSavePeriod => "autosaveperiod"
    case MagicWords => "magicwords"
    case BlacklistedWords => "blacklisted_words"
    case Other(name) => name
  }

  /** The key a property name stands for. */
  function KeyOf(name: string): (k: Key)
    ensures Name(k) == name
  {
    if name == "port" then Port
    else if name == "token" then Token
    else if name == "replyrate" then ReplyRate
    else if name == "replynick" then ReplyNick
    else if name == "replymagic" then ReplyMagic
    else if name == "speaking" then Speaking
    else if name == "learning" then Learning
    else if name == "autosaveperiod" then AutoSavePeriod
    else if name == "magicwords" then MagicWords
    else if name == "blacklisted_words" then BlacklistedWords
    else Other(name)
  }

  /** A configuration object as JSON.parse gives it, keyed by property name. */
  type Conf = map<Key, JsValue>

  /** `conf[key]`: undefined when the property is absent. */
  function Get(c: Conf, key: Key): JsValue
  {
    if key in c then c[key] else JsUndefined
  }

  // ---------------------------------------------------------------------
  // Helpers: get_words, RegExp.quote, contains_case_insensitive, choose_from
  // ---------------------------------------------------------------------

  /** The class /[\.\!\,\;\:\(\)\ \?]/ that get_words splits on. */
  const LegacyWordDelimiters: set<char> := {'.', '!', ',', ';', ':', '(', ')', ' ', '?'}

  /**
   * get_words: every piece of the line between two delimiters. Nothing is
   * dropped: there is one piece more than there are delimiters, '' included,
   * and weaving the delimiters back in gives the line.
   */
  function GetWords(line: string): (r: seq<string>)
    ensures |r| == |DelimitersIn(line, LegacyWordDelimiters)| + 1
    ensures Weave(r, DelimitersIn(line, LegacyWordDelimiters)) == line
    ensures forall w, c :: w in r && c in w ==> c !in LegacyWordDelimiters
  {
    SplitCharClass(line, LegacyWordDelimiters);
    SplitCharsReassembles(line, LegacyWordDelimiters);
    Split(line, CharClass(LegacyWordDelimiters), false)
  }

  /** Unlike splitWords, get_words splits on '!' and keeps the empty piece after it. */
  lemma GetWordsKeepsEmpty()
    ensures GetWords("hi!") == ["hi", ""]
  {
    SplitCharClass("hi!", LegacyWordDelimiters);
    assert SplitChars("", LegacyWordDelimiters) == [""];
    assert SplitChars("!", LegacyWordDelimiters) == ["", ""];
    assert SplitChars("i!", LegacyWordDelimiters) == Prepend("i", ["", ""]);
    assert ['i'] + "" == "i";
    assert SplitChars("hi!", LegacyWordDelimiters) == Prepend("h", ["i", ""]);
    assert ['h'] + "i" == "hi";
  }

  /** The class RegExp.quote puts a backslash before: no ':' and no '!'. */
  const QuoteMeta: set<char> :=
    {'.', '?', '*', '+', '^', '$', '[', ']', '\\', '(', ')', '{', '}', '|', '-'}

  /**
   * RegExp.quote: a backslash before every metacharacter, so that the
   * pattern source reads back as exactly str.
   */
  function Quote(str: string): (r: string)
    ensures |r| == |str| + |DelimitersIn(str, QuoteMeta)|
    ensures LiteralOf(QuoteMeta, r) == Some(str)
  {
    EscapeIsLiteral(QuoteMeta, str);
    Escape(QuoteMeta, str)
  }

  /** contains_case_insensitive: some element equals x once both are lower-cased. */
  predicate ContainsCaseInsensitive(a: seq<string>, x: string)
  {
    exists i :: 0 <= i < |a| && Lower(a[i]) == Lower(x)
  }

  /** choose_from with Math.random() = r: null for an empty array, else one of its elements. */
  function ChooseFrom<T>(a: seq<T>, r: real): (c: Option<T>)
    requires IsRandom(r)
    ensures c.None? <==> a == []
    ensures c.Some? ==> c.value in a
  {
    if |a| == 0 then None else Some(a[RandomIndex(r, |a|)])
  }

  /**
   * The one key an assignment to a plain object does not create: `dict[k] = k`
   * with k == "__proto__" calls the prototype setter, which ignores a string.
   */
  const ProtoKey := "__proto__"

  /**
   * unique: the elements of a, each once. The first loop fills an object
   * whose keys are the elements; the second copies its keys out, so the
   * element "__proto__" is lost.
   */
  method Unique(a: seq<string>) returns (r: seq<string>)
    ensures NoDup(r)
    ensures Elems(r) == Elems(a) - {ProtoKey}
  {
    var dict: seq<string> := [];
    var i := 0;
    while i < |a|
      invariant 0 <= i <= |a|
      invariant NoDup(dict) && Elems(dict) == Elems(a[..i]) - {ProtoKey}
    {
      ElemsConcat(a[..i], [a[i]]);
      assert a[..i + 1] == a[..i] + [a[i]];
      if a[i] != ProtoKey {
        dict := Add(dict, a[i]);
      }
      i := i + 1;
    }
    assert a[..|a|] == a;
    r := [];
    var j := 0;
    while j < |dict|
      invariant 0 <= j <= |dict|
      invariant r == dict[..j]
    {
      assert dict[..j + 1] == dict[..j] + [dict[j]];
      r := r + [dict[j]];
      j := j + 1;
    }
    assert dict[..|dict|] == dict;
  }

  /** Set.prototype.add never puts back an element it already holds, in either part. */
  lemma {:induction false} AddAllAppendsFresh<T>(s: seq<T>, xs: seq<T>)
    ensures NoDup(AddAll(s, xs)[|s|..])
    ensures forall x :: x in AddAll(s, xs)[|s|..] ==> x !in s
  {
    if xs != [] {
      var init := xs[..|xs| - 1];
      var x := xs[|xs| - 1];
      AddAllAppendsFresh(s, init);
      var r0 := AddAll(s, init);
      if x !in r0 {
        var r := r0 + [x];
        assert r[|s|..] == r0[|s|..] + [x];
        assert x !in s by {
          assert Elems(s) <= Elems(r0);
        }
        assert x !in r0[|s|..];
      }
    }
  }

  // ---------------------------------------------------------------------
  // The configuration: defaults, validateconf and set_option
  // ---------------------------------------------------------------------

  /** The configuration written to config.json when there is none yet. */
  function Defaults(): Conf
  {
    map[
      Port := JsNumber(10991),
      Token := JsString("YOUR TOKEN HERE"),
      ReplyRate := JsNumber(1),
      ReplyNick := JsNumber(100),
      ReplyMagic := JsNumber(10),
      Speaking := JsNumber(1),
      Learning := JsNumber(1),
      AutoSavePeriod := JsNumber(200),
      MagicWords := JsString("this will trigger me"),
      BlacklistedWords := JsString("very bad word")
    ]
  }

  predicate IsNumberIn(v: JsValue, lo: int, hi: int)
  {
    v.JsNumber? && lo <= v.n <= hi
  }

  predicate IsFlag(v: JsValue)
  {
    v.JsNumber? && (v.n == 0 || v.n == 1)
  }

  /** Every assertion of validateconf holds of data. */
  predicate Conforms(data: Conf)
  {
    IsNumberIn(Get(data, Port), 1, 65536) &&
    Get(data, Token).JsString? &&
    IsNumberIn(Get(data, ReplyRate), 0, 100) &&
    IsNumberIn(Get(data, ReplyNick), 0, 100) &&
    IsNumberIn(Get(data, ReplyMagic), 0, 100) &&
    IsFlag(Get(data, Speaking)) &&
    IsFlag(Get(data, Learning)) &&
    Get(data, AutoSavePeriod).JsNumber? && Get(data, AutoSavePeriod).n >= 0 &&
    Get(data, MagicWords).JsString? &&
    (Get(data, BlacklistedWords).JsString? || Get(data, BlacklistedWords).JsUndefined?)
  }

  /**
   * The key whose assertion throws first in validateconf, or None when all
   * of them hold.
   */
  function FailedCheck(data: Conf): (r: Option<Key>)
    ensures r.None? <==> Conforms(data)
    ensures r.Some? ==> r.value in {Port, Token, ReplyRate, ReplyNick, ReplyMagic,
                                    Speaking, Learning, AutoSavePeriod, MagicWords,
                                    BlacklistedWords}
  {
    if !IsNumberIn(Get(data, Port), 1, 65536) then Some(Port)
    else if !Get(data, Token).JsString? then Some(Token)
    else if !IsNumberIn(Get(data, ReplyRate), 0, 100) then Some(ReplyRate)
    else if !IsNumberIn(Get(data, ReplyNick), 0, 100) then Some(ReplyNick)
    else if !IsNumberIn(Get(data, ReplyMagic), 0, 100) then Some(ReplyMagic)
    else if !IsFlag(Get(data, Speaking)) then Some(Speaking)
    else if !IsFlag(Get(data, Learning)) then Some(Learning)
    else if !(Get(data, AutoSavePeriod).JsNumber? && Get(data, AutoSavePeriod).n >= 0) then Some(AutoSavePeriod)
    else if !Get(data, MagicWords).JsString? then Some(MagicWords)
    else if !(Get(data, BlacklistedWords).JsString? || Get(data, BlacklistedWords).JsUndefined?) then Some(BlacklistedWords)
    else None
  }

  /** The configuration written on first start passes validateconf on the next one. */
  lemma DefaultsConform()
    ensures FailedCheck(Defaults()) == None
  {
    var d := Defaults();
    assert Get(d, Port) == JsNumber(10991);
    assert Get(d, Token).JsString?;
    assert Get(d, ReplyRate) == JsNumber(1);
    assert Get(d, ReplyNick) == JsNumber(100);
    assert Get(d, ReplyMagic) == JsNumber(10);
    assert Get(d, Speaking) == JsNumber(1);
    assert Get(d, Learning) == JsNumber(1);
    assert Get(d, AutoSavePeriod) == JsNumber(200);
    assert Get(d, MagicWords).JsString?;
    assert Get(d, BlacklistedWords).JsString?;
  }

  /** `s.toLowerCase().trim().split(' ')`. */
  function SpaceSeparated(s: string): seq<string>
  {
    Split(Trim(Lower(s)), CharClass({' '}), false)
  }

  /** The pieces, joined with spaces, give the lower-cased, trimmed text; none holds a space. */
  lemma SpaceSeparatedJoin(s: string)
    ensures |SpaceSeparated(s)| >= 1
    ensures JoinWith(SpaceSeparated(s), ' ') == Trim(Lower(s))
    ensures forall w :: w in SpaceSeparated(s) ==> ' ' !in w
  {
    var t := Trim(Lower(s));
    SplitJoin(t, ' ');
    SplitCharClass(t, {' '});
    SplitCharsReassembles(t, {' '});
  }

  function StringValues(ws: seq<string>): (r: seq<JsValue>)
    ensures |r| == |ws| && forall i :: 0 <= i < |ws| ==> r[i] == JsString(ws[i])
  {
    seq(|ws|, i requires 0 <= i < |ws| => JsString(ws[i]))
  }

  /** The list a word-list property holds once converted. */
  function WordList(s: string): (r: JsValue)
    ensures IsStringArray(r)
  {
    JsArray(StringValues(SpaceSeparated(s)))
  }

  predicate IsStringArray(v: JsValue)
  {
    v.JsArray? && forall i :: 0 <= i < |v.items| ==> v.items[i].JsString?
  }

  /** The strings of a string array. */
  function StringItems(v: JsValue): (r: seq<string>)
    requires IsStringArray(v)
    ensures |r| == |v.items| && forall i :: 0 <= i < |r| ==> v.items[i] == JsString(r[i])
  {
    seq(|v.items|, i requires 0 <= i < |v.items| => v.items[i].s)
  }

  /** What `forEach` over the two word lists needs: both are arrays of strings. */
  predicate Ready(c: Conf)
  {
    IsStringArray(Get(c, MagicWords)) && IsStringArray(Get(c, BlacklistedWords))
  }

  /**
   * The configuration validateconf keeps: data itself, its two word lists
   * converted, an absent blacklist becoming [].
   */
  function Validated(data: Conf): (r: Conf)
    requires Conforms(data)
    ensures Ready(r)
    ensures Get(r, MagicWords) == WordList(Get(data, MagicWords).s)
    ensures Get(r, BlacklistedWords) ==
      if Get(data, BlacklistedWords).JsUndefined? then JsArray([])
      else WordList(Get(data, BlacklistedWords).s)
    ensures forall k :: k != MagicWords && k != BlacklistedWords ==> Get(r, k) == Get(data, k)
  {
    var magic := WordList(Get(data, MagicWords).s);
    var black := if Get(data, BlacklistedWords).JsUndefined? then JsArray([])
                 else WordList(Get(data, BlacklistedWords).s);
    data[MagicWords := magic][BlacklistedWords := black]
  }

  predicate IsRate(setting: Key)
  {
    setting == ReplyRate || setting == ReplyNick || setting == ReplyMagic
  }

  const UndefinedSettings := "ReferenceError: settings is not defined"
  const NoToLowerCase := "TypeError: value.toLowerCase is not a function"

  /**
   * set_option as written: the test `settings === 'learning'` names an
   * undeclared variable, so every setting that is neither a rate nor
   * 'speaking' throws a ReferenceError when it reaches that test.
   */
  function SetOptionAsWritten(c: Conf, setting: Key, value: JsValue): Result<Conf>
  {
    if IsRate(setting) then
      Ok(if NumberAtLeast(value, 0) && NumberAtMost(value, 100) then c[setting := value] else c)
    else if setting == Speaking then
      Ok(if LooseEqualsNumber(value, 0) || LooseEqualsNumber(value, 1) then c[setting := value] else c)
    else Err(UndefinedSettings)
  }

  /** Every setting past the rates and 'speaking' throws, 'learning' and unknown names alike. */
  lemma SetOptionAsWrittenThrows(c: Conf, setting: Key, value: JsValue)
    requires !IsRate(setting) && setting != Speaking
    ensures SetOptionAsWritten(c, setting, value) == Err(UndefinedSettings)
    ensures SetOptionResult(c, Learning, JsNumber(0)) == Ok(c[Learning := JsNumber(0)])
  {
    assert LooseEqualsNumber(JsNumber(0), 0);
  }

  /**
   * set_option with the test on `setting`, as evidently intended. Rates in
   * [0, 100], the flags when loosely equal to 0 or 1 and a positive
   * autosaveperiod are stored as given; anything else they are given is
   * ignored without a word. The word lists need a string; any other setting
   * is ignored.
   */
  function SetOptionResult(c: Conf, setting: Key, value: JsValue): (r: Result<Conf>)
    ensures r.Err? <==> (setting == MagicWords || setting == BlacklistedWords) && !value.JsString?
    ensures r.Err? ==> r.error == NoToLowerCase
    ensures r.Ok? ==> forall k :: k != setting ==> Get(r.value, k) == Get(c, k)
    ensures r.Ok? ==> r.value.Keys <= c.Keys + {setting}
    ensures IsRate(setting) ==>
      (r == Ok(c) || (Get(r.value, setting) == value <==> NumberAtLeast(value, 0) && NumberAtMost(value, 100)))
    ensures IsRate(setting) && !(NumberAtLeast(value, 0) && NumberAtMost(value, 100)) ==> r == Ok(c)
    ensures IsRate(setting) && NumberAtLeast(value, 0) && NumberAtMost(value, 100) ==> Get(r.value, setting) == value
    ensures (setting == Speaking || setting == Learning) ==>
      r == Ok(if LooseEqualsNumber(value, 0) || LooseEqualsNumber(value, 1) then c[setting := value] else c)
    ensures setting == AutoSavePeriod ==>
      r == Ok(if ToNumber(value).Some? && ToNumber(value).value > 0 then c[setting := value] else c)
    ensures (setting == MagicWords || setting == BlacklistedWords) && value.JsString? ==>
      r == Ok(c[setting := WordList(value.s)])
    ensures r.Ok? && Ready(c) ==> Ready(r.value)
  {
    if IsRate(setting) then
      Ok(if NumberAtLeast(value, 0) && NumberAtMost(value, 100) then c[setting := value] else c)
    else if setting == Speaking || setting == Learning then
      Ok(if LooseEqualsNumber(value, 0) || LooseEqualsNumber(value, 1) then c[setting := value] else c)
    else if setting == AutoSavePeriod then
      Ok(if ToNumber(value).Some? && ToNumber(value).value > 0 then c[setting := value] else c)
    else if setting == MagicWords || setting == BlacklistedWords then
      if value.JsString? then Ok(c[setting := WordList(value.s)]) else Err(NoToLowerCase)
    else Ok(c)
  }

  /** The two agree on everything the typo does not reach. */
  lemma SetOptionAgreesBeforeTypo(c: Conf, setting: Key, value: JsValue)
    requires IsRate(setting) || setting == Speaking
    ensures SetOptionAsWritten(c, setting, value) == SetOptionResult(c, setting, value)
  {
  }

  // ---------------------------------------------------------------------
  // The lines file
  // ---------------------------------------------------------------------

  /** `xs.filter(el => el !== x)`. */
  function Without(xs: seq<string>, x: string): (r: seq<string>)
    ensures |r| <= |xs|
    ensures forall y :: y in r <==> y in xs && y != x
  {
    if xs == [] then []
    else (if xs[0] == x then [] else [xs[0]]) + Without(xs[1..], x)
  }

  lemma {:induction false} WithoutNone(xs: seq<string>, x: string)
    requires forall i :: 0 <= i < |xs| ==> xs[i] != x
    ensures Without(xs, x) == xs
  {
    if xs != [] {
      WithoutNone(xs[1..], x);
      assert xs == [xs[0]] + xs[1..];
    }
  }

  lemma {:induction false} WithoutConcat(a: seq<string>, b: seq<string>, x: string)
    ensures Without(a + b, x) == Without(a, x) + Without(b, x)
  {
    if a != [] {
      assert (a + b)[0] == a[0];
      assert (a + b)[1..] == a[1..] + b;
      WithoutConcat(a[1..], b, x);
    } else {
      assert a + b == b;
    }
  }

  /**
   * known_lines after loadlines: the lower-cased text without carriage
   * returns, split at each '\n' and each '. ' with the separators kept, and
   * the '\n' separators then filtered out.
   */
  function LinesOf(text: string): seq<string>
  {
    Without(Split(RemoveCR(Lower(text)), LegacyBreak, true), "\n")
  }

  lemma SplitAtSentenceBreak()
    ensures Split("a. b", LegacyBreak, true) == ["a", ". ", "b"]
  {
    var s := "a. b";
    assert MatchEnd(LegacyBreak, s, 0).None?;
    assert MatchEnd(LegacyBreak, s, 1) == Some(3);
    SplitFromNext(s, LegacyBreak, true, 0, 0, 1, 3);
    assert MatchEnd(LegacyBreak, s, 3).None?;
    SplitFromNoMatch(s, LegacyBreak, true, 3, 3);
    assert s[0..1] == "a" && s[1..3] == ". " && s[3..] == "b";
  }

  /** The '. ' separators are not filtered: they stay in known_lines as lines of their own. */
  lemma LoadKeepsSentenceBreaks()
    ensures LinesOf("a. b") == ["a", ". ", "b"]
  {
    var s := "a. b";
    assert IsLowerCase(s);
    LowerOfLowerCase(s);
    assert '\r' !in s;
    RemoveCRNone(s);
    SplitAtSentenceBreak();
    var pieces := ["a", ". ", "b"];
    forall i | 0 <= i < |pieces| ensures pieces[i] != "\n" {
      assert pieces[i][0] != '\n';
    }
    WithoutNone(pieces, "\n");
  }

  /** `lines.join('\r\n')`, what save_lines writes. */
  function JoinCRLF(lines: seq<string>): string
  {
    if lines == [] then ""
    else if |lines| == 1 then lines[0]
    else lines[0] + "\r\n" + JoinCRLF(lines[1..])
  }

  /** A line that survives the trip through the file: no break of either kind inside, no capitals. */
  predicate Storable(l: string)
  {
    IsLowerCase(l) &&
    forall k :: 0 <= k < |l| ==>
      l[k] != '\n' && l[k] != '\r' && !(l[k] == '.' && k + 1 < |l| && l[k + 1] == ' ')
  }

  predicate AllStorable(lines: seq<string>)
  {
    forall i :: 0 <= i < |lines| ==> Storable(lines[i])
  }

  /** The lines, each followed by a "\n" separator except the last. */
  function Separated(lines: seq<string>): seq<string>
    requires |lines| >= 1
  {
    if |lines| == 1 then lines else [lines[0], "\n"] + Separated(lines[1..])
  }

  lemma {:induction false} JoinCRLFLowerCase(lines: seq<string>)
    requires AllStorable(lines)
    ensures IsLowerCase(JoinCRLF(lines))
  {
    if |lines| > 1 {
      assert Storable(lines[0]);
      JoinCRLFLowerCase(lines[1..]);
      var t := JoinCRLF(lines[1..]);
      var s := lines[0] + "\r\n" + t;
      forall i | 0 <= i < |s| ensures !IsUpper(s[i]) {
        if i >= |lines[0]| + 2 {
          assert s[i] == t[i - |lines[0]| - 2];
        }
      }
    } else if |lines| == 1 {
      assert Storable(lines[0]);
    }
  }

  lemma {:induction false} JoinCRLFWithoutCR(lines: seq<string>)
    requires |lines| >= 1 && AllStorable(lines)
    ensures RemoveCR(JoinCRLF(lines)) == JoinWith(lines, '\n')
  {
    assert Storable(lines[0]);
    assert '\r' !in lines[0] by {
      forall k | 0 <= k < |lines[0]| ensures lines[0][k] != '\r' { }
    }
    RemoveCRNone(lines[0]);
    if |lines| > 1 {
      JoinCRLFWithoutCR(lines[1..]);
      var t := JoinCRLF(lines[1..]);
      RemoveCRConcat(lines[0] + "\r\n", t);
      RemoveCRConcat(lines[0], "\r\n");
      assert RemoveCR("\r\n") == "\n" by {
        assert "\r\n"[1..] == "\n";
        assert "\n"[1..] == "";
      }
    }
  }

  lemma NoBreakInside(l: string, s: string, k: nat)
    requires Storable(l) && |l| <= |s| && s[..|l|] == l && k < |l|
    requires |l| < |s| ==> s[|l|] == '\n'
    ensures MatchEnd(LegacyBreak, s, k).None?
  {
    assert s[k] == l[k];
    if k + 1 < |l| {
      assert s[k + 1] == l[k + 1];
    }
  }

  /** A storable line with no separator after it is a single piece. */
  lemma SplitLastLine(l: string)
    requires Storable(l)
    ensures Split(l, LegacyBreak, true) == [l]
  {
    SplitIsSplitFrom(l, LegacyBreak, true);
    forall k | 0 <= k < |l| ensures MatchEnd(LegacyBreak, l, k).None? {
      NoBreakInside(l, l, k);
    }
    SplitFromNoMatch(l, LegacyBreak, true, 0, 0);
    assert l[0..] == l;
  }

  /** A storable line and the '\n' after it are the first two pieces. */
  lemma SplitFirstLine(l: string, t: string)
    requires Storable(l)
    ensures Split(l + ['\n'] + t, LegacyBreak, true) == [l, "\n"] + Split(t, LegacyBreak, true)
  {
    var a := l + ['\n'];
    var s := a + t;
    SplitIsSplitFrom(s, LegacyBreak, true);
    forall k | 0 <= k < |l| ensures MatchEnd(LegacyBreak, s, k).None? {
      NoBreakInside(l, s, k);
    }
    assert MatchEnd(LegacyBreak, s, |l|) == Some(|l| + 1);
    SplitFromNext(s, LegacyBreak, true, 0, 0, |l|, |l| + 1);
    assert s[0..|l|] == l && s[|l|..|l| + 1] == "\n";
    SplitFromShift(LegacyBreak, true, a, t, 0, 0);
    SplitIsSplitFrom(t, LegacyBreak, true);
  }

  lemma {:induction false} SplitJoinedLines(lines: seq<string>)
    requires |lines| >= 1 && AllStorable(lines)
    ensures Split(JoinWith(lines, '\n'), LegacyBreak, true) == Separated(lines)
  {
    assert Storable(lines[0]);
    if |lines| == 1 {
      SplitLastLine(lines[0]);
    } else {
      SplitFirstLine(lines[0], JoinWith(lines[1..], '\n'));
      SplitJoinedLines(lines[1..]);
    }
  }

  /** Filtering out "\n" keeps a line and drops the separator after it. */
  lemma WithoutLineAndSeparator(l: string, rest: seq<string>)
    requires l != "\n"
    ensures Without([l, "\n"] + rest, "\n") == [l] + Without(rest, "\n")
  {
    var xs := [l, "\n"] + rest;
    assert xs[0] == l && xs[1..] == ["\n"] + rest;
    assert (["\n"] + rest)[0] == "\n" && (["\n"] + rest)[1..] == rest;
  }

  lemma {:induction false} WithoutSeparators(lines: seq<string>)
    requires |lines| >= 1 && AllStorable(lines)
    ensures Without(Separated(lines), "\n") == lines
  {
    var l := lines[0];
    assert Storable(l);
    assert l != "\n" by {
      if |l| == 1 { assert l[0] != '\n'; }
    }
    if |lines| == 1 {
      assert Separated(lines) == [l];
      assert Without([l], "\n") == [l];
    } else {
      var tail := lines[1..];
      assert AllStorable(tail) by {
        forall i | 0 <= i < |tail| ensures Storable(tail[i]) {
          assert tail[i] == lines[i + 1];
        }
      }
      WithoutSeparators(tail);
      assert Separated(lines) == [l, "\n"] + Separated(tail);
      WithoutLineAndSeparator(l, Separated(tail));
      assert lines == [l] + tail;
    }
  }

  /**
   * Saving and loading again gives the same lines back, for lower-case lines
   * that hold no '\n', no '\r' and no '. '.
   */
  lemma SaveLoadRoundTrip(lines: seq<string>)
    requires |lines| >= 1 && AllStorable(lines)
    ensures LinesOf(JoinCRLF(lines)) == lines
  {
    JoinCRLFLowerCase(lines);
    LowerOfLowerCase(JoinCRLF(lines));
    JoinCRLFWithoutCR(lines);
    SplitJoinedLines(lines);
    WithoutSeparators(lines);
  }

  /** An empty array saves as '', which loads back as the single line ''. */
  lemma SaveLoadEmpty()
    ensures LinesOf(JoinCRLF([])) == [""]
  {
    assert RemoveCR(Lower("")) == "";
    assert MatchEnd(LegacyBreak, "", 0).None?;
  }

  // ---------------------------------------------------------------------
  // Learning and replying
  // ---------------------------------------------------------------------

  /** `message.toLowerCase().split(/\. |\n/)`: the sentences learn goes through. */
  function Sentences(message: string): seq<string>
  {
    Split(Lower(message), LegacyBreak, false)
  }

  /** Some sentence is not among the lines yet. */
  predicate AddsSentence(lines: seq<string>, sentences: seq<string>)
  {
    exists s :: s in sentences && s !in lines
  }

  /**
   * What learn(message) leaves in known_lines and known_words: every
   * sentence not yet known is appended, and the message's words are appended
   * (each once) as soon as one sentence was new. Blacklisted words change
   * nothing.
   */
  function Learned(lines: seq<string>, words: seq<string>, message: string): (r: (seq<string>, seq<string>))
    ensures Elems(r.0) == Elems(lines) + Elems(Sentences(message))
    ensures |lines| <= |r.0| && r.0[..|lines|] == lines
    ensures NoDup(r.0[|lines|..]) && forall l :: l in r.0[|lines|..] ==> l !in lines
    ensures !AddsSentence(lines, Sentences(message)) ==> r.1 == words
    ensures AddsSentence(lines, Sentences(message)) ==>
      Elems(r.1) == Elems(words) + Elems(GetWords(Lower(message))) &&
      |words| <= |r.1| && r.1[..|words|] == words
    ensures NoDup(words) ==> NoDup(r.1)
  {
    AddAllAppendsFresh(lines, Sentences(message));
    (AddAll(lines, Sentences(message)),
     if AddsSentence(lines, Sentences(message)) then AddAll(words, GetWords(Lower(message))) else words)
  }

  /** Learning the same message twice gives what learning it once gives. */
  lemma LearnedIdempotent(lines: seq<string>, words: seq<string>, message: string)
    ensures var once := Learned(lines, words, message);
            Learned(once.0, once.1, message) == once
  {
    var sentences := Sentences(message);
    var once := Learned(lines, words, message);
    AddAllIdempotent(lines, sentences);
    assert once.0 == AddAll(lines, sentences);
    forall x | x in sentences ensures x in once.0 {
      assert x in Elems(sentences);
    }
    assert !AddsSentence(once.0, sentences);
  }

  /** Every line not yet known makes learn append it and the message's new words. */
  lemma LearnedNewLine(lines: seq<string>, words: seq<string>, message: string)
    requires exists s :: s in Sentences(message) && s !in lines
    ensures var r := Learned(lines, words, message);
            forall w :: w in GetWords(Lower(message)) ==> w in r.1
  {
    var r := Learned(lines, words, message);
    forall w | w in GetWords(Lower(message)) ensures w in r.1 {
      assert w in Elems(GetWords(Lower(message)));
    }
  }

  lemma AddsSentenceStep(lines: seq<string>, sentences: seq<string>, i: nat)
    requires i < |sentences|
    ensures AddsSentence(lines, sentences[..i + 1]) ==
      (AddsSentence(lines, sentences[..i]) || sentences[i] !in AddAll(lines, sentences[..i]))
  {
    var x := sentences[i];
    var before := sentences[..i];
    assert sentences[..i + 1] == before + [x];
    var known := AddAll(lines, before);
    if AddsSentence(lines, before) {
      var y :| y in before && y !in lines;
      assert y in sentences[..i + 1];
    } else if x !in lines {
      assert x in sentences[..i + 1];
      assert x !in Elems(before);
      assert x !in Elems(known);
    } else {
      assert x in Elems(known);
      forall y | y in sentences[..i + 1] ensures y in lines {
        if y != x { assert y in before; }
      }
    }
  }

  /** The inner loop of learn: each word not yet known is pushed. */
  method AddWords(known: seq<string>, words: seq<string>) returns (r: seq<string>)
    ensures r == AddAll(known, words)
  {
    r := known;
    for j := 0 to |words|
      invariant r == AddAll(known, words[..j])
    {
      AddAllStep(known, words, j);
      if words[j] !in r {
        r := r + [words[j]];
      }
    }
    assert words[..|words|] == words;
  }

  /**
   * The loop of learn over the message's sentences: a sentence already known
   * is skipped; a new one is pushed, and then every message word not yet
   * known.
   */
  method LearnSentences(lines0: seq<string>, words0: seq<string>, sentences: seq<string>, messageWords: seq<string>)
    returns (lines: seq<string>, words: seq<string>)
    ensures lines == AddAll(lines0, sentences)
    ensures words == if AddsSentence(lines0, sentences) then AddAll(words0, messageWords) else words0
  {
    lines, words := lines0, words0;
    var i := 0;
    while i < |sentences|
      invariant 0 <= i <= |sentences|
      invariant lines == AddAll(lines0, sentences[..i])
      invariant words == if AddsSentence(lines0, sentences[..i]) then AddAll(words0, messageWords) else words0
    {
      AddAllStep(lines0, sentences, i);
      AddsSentenceStep(lines0, sentences, i);
      if sentences[i] !in lines {
        lines := lines + [sentences[i]];
        if AddsSentence(lines0, sentences[..i]) {
          AddAllIdempotent(words0, messageWords);
        }
        words := AddWords(words, messageWords);
      }
      i := i + 1;
    }
    assert sentences[..|sentences|] == sentences;
  }

  /** The message words that are known, in message order, duplicates kept. */
  function Recognized(words: seq<string>, known: seq<string>): (r: seq<string>)
    ensures forall w :: w in r <==> w in words && w in known
  {
    if words == [] then []
    else
      var last := words[|words| - 1];
      assert words == words[..|words| - 1] + [last];
      Recognized(words[..|words| - 1], known) + (if last in known then [last] else [])
  }

  /** One magic word is among the words, ignoring case. */
  predicate HasMagic(words: seq<string>, magic: seq<string>)
  {
    exists m :: m in magic && ContainsCaseInsensitive(words, m)
  }

  /** contains_magic: the magic words found in the message are collected, and any will do. */
  method ContainsMagic(words: seq<string>, magic: seq<string>) returns (found: bool)
    ensures found <==> HasMagic(words, magic)
  {
    var matching: seq<string> := [];
    for i := 0 to |magic|
      invariant forall m :: m in matching <==> m in magic[..i] && ContainsCaseInsensitive(words, m)
    {
      assert magic[..i + 1] == magic[..i] + [magic[i]];
      if ContainsCaseInsensitive(words, magic[i]) {
        matching := matching + [magic[i]];
      }
    }
    assert magic[..|magic|] == magic;
    found := |matching| > 0;
    if found {
      assert matching[0] in matching;
    }
  }

  /** `Math.floor(Math.random() * 100)`: a draw in [0, 99], not [1, 100]. */
  function Chance(r: real): (d: int)
    requires IsRandom(r)
    ensures 0 <= d <= 99
    ensures d == 0 <==> r * 100.0 < 1.0
  {
    (r * 100.0).Floor
  }

  /**
   * The condition of process_message, with one draw for all three checks:
   * a magic word and the draw within replymagic, the bot's name and the draw
   * within replynick, or the draw within replyrate.
   */
  predicate ReplyCondition(c: Conf, words: seq<string>, username: string, chance: int)
    requires Ready(c)
  {
    (HasMagic(words, StringItems(Get(c, MagicWords))) && NumberAtLeast(Get(c, ReplyMagic), chance)) ||
    (ContainsCaseInsensitive(words, username) && NumberAtLeast(Get(c, ReplyNick), chance)) ||
    NumberAtLeast(Get(c, ReplyRate), chance)
  }

  /** With every rate at 0 the bot still replies, whenever the draw is 0. */
  lemma ZeroRatesStillReply(c: Conf, words: seq<string>, username: string, r: real)
    requires Ready(c) && IsRandom(r)
    requires Get(c, ReplyRate) == JsNumber(0) && Get(c, ReplyNick) == JsNumber(0)
    requires Get(c, ReplyMagic) == JsNumber(0)
    ensures ReplyCondition(c, words, username, Chance(r)) <==> r * 100.0 < 1.0
  {
  }

  /** A replyrate of 99 already makes every message get a reply. */
  lemma RateOf99AlwaysReplies(c: Conf, words: seq<string>, username: string, r: real)
    requires Ready(c) && IsRandom(r) && NumberAtLeast(Get(c, ReplyRate), 99)
    ensures ReplyCondition(c, words, username, Chance(r))
  {
  }

  /** The draws one message uses: the chance and the three choose_from calls of reply_to. */
  datatype LegacyDraws = LegacyDraws(chance: real, pick: real, left: real, right: real)

  predicate ValidDraws(d: LegacyDraws)
  {
    IsRandom(d.chance) && IsRandom(d.pick) && IsRandom(d.left) && IsRandom(d.right)
  }

  /** The sentence reply_to sends for a message, given its draws. */
  function ReplyText(lines: seq<string>, known: seq<string>, content: string, d: LegacyDraws): (r: Option<string>)
    requires ValidDraws(d)
    ensures r.None? <==> forall w :: w in GetWords(Lower(content)) ==> w !in known
    ensures r.Some? ==> exists w :: (w in GetWords(Lower(content)) && w in known &&
                                     r.value == Dict.AroundWord(lines, w, d.left, d.right))
  {
    var recognized := Recognized(GetWords(Lower(content)), known);
    match ChooseFrom(recognized, d.pick)
    case None => None
    case Some(w) => Some(Dict.AroundWord(lines, w, d.left, d.right))
  }

  /** The module state of main.js once it has started. */
  class LegacyBot {
    var config: Conf
    var knownLines: seq<string>
    var knownWords: seq<string>

    constructor()
      ensures config == Defaults() && knownLines == [] && knownWords == []
    {
      config := Defaults();
      knownLines := [];
      knownWords := [];
    }

    /** validateconf(data): a failed assertion throws and keeps the old configuration. */
    method ValidateConf(data: Conf) returns (failed: Option<Key>)
      modifies this`config
      ensures failed == FailedCheck(data)
      ensures failed.None? ==> config == Validated(data)
      ensures failed.Some? ==> config == old(config)
    {
      failed := FailedCheck(data);
      if failed.Some? {
        return;
      }
      var magic := WordList(Get(data, MagicWords).s);
      var black: JsValue;
      if Get(data, BlacklistedWords).JsUndefined? {
        black := JsArray([]);
      } else {
        black := WordList(Get(data, BlacklistedWords).s);
      }
      config := data[MagicWords := magic][BlacklistedWords := black];
    }

    /** set_option(setting, value), with the test on `setting` corrected. */
    method SetOption(setting: string, value: JsValue) returns (err: Option<string>)
      modifies this`config
      ensures SetOptionResult(old(config), KeyOf(setting), value) == if err.None? then Ok(config) else Err(err.value)
      ensures err.Some? ==> config == old(config)
    {
      var key := KeyOf(setting);
      err := None;
      if IsRate(key) {
        if NumberAtLeast(value, 0) && NumberAtMost(value, 100) {
          config := config[key := value];
        }
      } else if key == Speaking || key == Learning {
        if LooseEqualsNumber(value, 0) || LooseEqualsNumber(value, 1) {
          config := config[key := value];
        }
      } else if key == AutoSavePeriod {
        if ToNumber(value).Some? && ToNumber(value).value > 0 {
          config := config[key := value];
        }
      } else if key == MagicWords || key == BlacklistedWords {
        if !value.JsString? {
          return Some(NoToLowerCase);
        }
        config := config[key := WordList(value.s)];
      }
    }

    /** loadlines once the file is read: the lines, and the distinct words of the text. */
    method LoadLines(text: string)
      modifies this`knownLines, this`knownWords
      ensures knownLines == LinesOf(text)
      ensures NoDup(knownWords) && Elems(knownWords) == Elems(GetWords(RemoveCR(Lower(text)))) - {ProtoKey}
    {
      var data := RemoveCR(Lower(text));
      knownLines := Without(Split(data, LegacyBreak, true), "\n");
      knownWords := Unique(GetWords(data));
    }

    /** What save_lines writes to the lines file. */
    function SaveLines(): (text: string)
      reads this
      ensures |knownLines| >= 1 && AllStorable(knownLines) ==> LinesOf(text) == knownLines
      ensures knownLines == [] ==> LinesOf(text) == [""]
    {
      if |knownLines| >= 1 && AllStorable(knownLines) then
        SaveLoadRoundTrip(knownLines);
        JoinCRLF(knownLines)
      else if knownLines == [] then
        SaveLoadEmpty();
        JoinCRLF(knownLines)
      else
        JoinCRLF(knownLines)
    }

    /** learn(message): the blacklisted words it finds are only logged. */
    method Learn(message: string)
      requires Ready(config)
      modifies this`knownLines, this`knownWords
      ensures (knownLines, knownWords) == Learned(old(knownLines), old(knownWords), message)
    {
      var sentences := Split(Lower(message), LegacyBreak, false);
      var messageWords := GetWords(Lower(message));
      knownLines, knownWords := LearnSentences(knownLines, knownWords, sentences, messageWords);
    }

    /** get_random_line_containing(word): the known lines holding it are collected and one is picked. */
    method GetRandomLineContaining(word: string, r: real) returns (line: string)
      requires IsRandom(r)
      ensures line == Dict.PickLine(knownLines, word, r)
    {
      var lineList: seq<string> := [];
      for i := 0 to |knownLines|
        invariant lineList == Dict.MatchingLines(knownLines[..i], word)
      {
        assert knownLines[..i + 1][..i] == knownLines[..i];
        if ContainsWord(knownLines[i], word) {
          lineList := lineList + [knownLines[i]];
        }
      }
      assert knownLines[..|knownLines|] == knownLines;
      line := if |lineList| > 0 then ChooseFrom(lineList, r).value else "";
    }

    /**
     * reply_to: the known words of the message are collected, one is picked,
     * and the sentence is built from the text before its first occurrence in
     * one line and the text after its last occurrence in another.
     */
    method ReplyTo(content: string, d: LegacyDraws) returns (sent: Option<string>)
      requires ValidDraws(d)
      ensures sent == ReplyText(knownLines, knownWords, content, d)
    {
      var message := Lower(content);
      var messageWords := GetWords(message);
      var recognized: seq<string> := [];
      for i := 0 to |messageWords|
        invariant recognized == Recognized(messageWords[..i], knownWords)
      {
        assert messageWords[..i + 1][..i] == messageWords[..i];
        if messageWords[i] in knownWords {
          recognized := recognized + [messageWords[i]];
        }
      }
      assert messageWords[..|messageWords|] == messageWords;
      if |recognized| > 0 {
        var picked := ChooseFrom(recognized, d.pick).value;
        var leftLine := GetRandomLineContaining(picked, d.left);
        var rightLine := GetRandomLineContaining(picked, d.right);
        sent := Some(FirstPart(Split(leftLine, WholeWord(picked), false)) + picked +
                     LastPart(Split(rightLine, WholeWord(picked), false)));
      } else {
        sent := None;
      }
    }

    /**
     * process_message: learning when `learning` is truthy, then, when
     * `speaking` is, one draw decides whether to reply.
     */
    method ProcessMessage(content: string, username: string, d: LegacyDraws) returns (sent: Option<string>)
      requires Ready(config) && ValidDraws(d)
      modifies this`knownLines, this`knownWords
      ensures (knownLines, knownWords) ==
        if Truthy(Get(config, Learning)) then Learned(old(knownLines), old(knownWords), Lower(content))
        else (old(knownLines), old(knownWords))
      ensures sent.Some? ==> (Truthy(Get(config, Speaking)) &&
                              ReplyCondition(config, GetWords(Lower(content)), username, Chance(d.chance)))
      ensures sent ==
        if Truthy(Get(config, Speaking)) && ReplyCondition(config, GetWords(Lower(content)), username, Chance(d.chance))
        then ReplyText(knownLines, knownWords, content, d)
        else None
    {
      var message := Lower(content);
      if Truthy(Get(config, Learning)) {
        Learn(message);
      }
      sent := None;
      if Truthy(Get(config, Speaking)) {
        var words := GetWords(message);
        var magic := ContainsMagic(words, StringItems(Get(config, MagicWords)));
        var chance := Chance(d.chance);
        if (magic && NumberAtLeast(Get(config, ReplyMagic), chance))
           || (ContainsCaseInsensitive(words, username) && NumberAtLeast(Get(config, ReplyNick), chance))
           || NumberAtLeast(Get(config, ReplyRate), chance)
        {
          sent := ReplyTo(content, d);
        }
      }
    }
  }
}
