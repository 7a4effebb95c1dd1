/**
 * The helpers of the current generation: splitting a message into words and
 * into sentences, escaping text for a pattern, a parseInt that refuses NaN,
 * and recognising a Discord mention.
 */
module Util {
  import opened JsCore
  import opened Regex

  /** The class /[.,;()? ]/ that words are split on. */
  const WordDelimiters: set<char> := {'.', ',', ';', '(', ')', '?', ' '}

  /**
   * splitWords: the distinct non-empty pieces of str between word
   * delimiters, in first-occurrence order.
   */
  function SplitWords(str: string): (r: seq<string>)
    ensures NoDup(r)
    ensures Elems(r) == Elems(SplitChars(str, WordDelimiters)) - {""}
    ensures forall w :: w in r ==> w != "" && forall c :: c in w ==> c !in WordDelimiters
  {
    var pieces := Split(str, CharClass(WordDelimiters), false);
    SplitCharClass(str, WordDelimiters);
    SplitCharsReassembles(str, WordDelimiters);
    var d := Dedup(pieces);
    var r := Delete(d, "");
    forall w | w in r ensures w != "" && w in pieces {
      assert w in Elems(r);
      assert w in Elems(d);
    }
    r
  }

  /** `str.replace(/\r/gm, '')`. */
  function RemoveCR(s: string): (r: string)
    ensures '\r' !in r
    ensures forall c :: c != '\r' ==> (c in r <==> c in s)
  {
    if s == [] then []
    else (if s[0] == '\r' then [] else [s[0]]) + RemoveCR(s[1..])
  }

  lemma {:induction false} RemoveCRConcat(a: string, b: string)
    ensures RemoveCR(a + b) == RemoveCR(a) + RemoveCR(b)
  {
    if a != [] {
      assert (a + b)[0] == a[0];
      assert (a + b)[1..] == a[1..] + b;
      RemoveCRConcat(a[1..], b);
    } else {
      assert a + b == b;
    }
  }

  /** Text without carriage returns is left as it is. */
  lemma {:induction false} RemoveCRNone(s: string)
    requires '\r' !in s
    ensures RemoveCR(s) == s
  {
    if s != [] {
      RemoveCRNone(s[1..]);
      assert s == [s[0]] + s[1..];
    }
  }

  /**
   * splitSentences: the distinct pieces of str, once its carriage returns are
   * gone, between runs of line feeds and between a period and the white
   * space after it. No sentence holds a line feed or a carriage return.
   */
  function SplitSentences(str: string): (r: seq<string>)
    ensures NoDup(r)
    ensures forall x :: x in r ==> '\n' !in x && '\r' !in x
  {
    var s := RemoveCR(str);
    var pieces := Split(s, SentenceBreak, false);
    SplitAvoids(s, SentenceBreak, '\n');
    SplitAvoids(s, SentenceBreak, '\r');
    var r := Dedup(pieces);
    forall x | x in r ensures x in pieces {
      assert x in Elems(r);
    }
    r
  }

  /**
   * Where /\n+|\.\s+/ never matches: no line feed, and no period followed by
   * white space.
   */
  lemma SentenceBreakFree(x: string)
    ensures MatchFree(SentenceBreak, x) <==>
      '\n' !in x && forall k :: 0 <= k < |x| - 1 && x[k] == '.' ==> !IsSpace(x[k + 1])
  {
    if MatchFree(SentenceBreak, x) {
      forall k | 0 <= k < |x| ensures x[k] != '\n' {
        assert MatchEnd(SentenceBreak, x, k).None?;
      }
      forall k | 0 <= k < |x| - 1 && x[k] == '.' ensures !IsSpace(x[k + 1]) {
        assert MatchEnd(SentenceBreak, x, k).None?;
      }
    }
  }

  /**
   * splitSentences keeps exactly the pieces of the text without carriage
   * returns: none holds a line feed or a period before white space, each
   * removed text is a match of the break pattern, and the pieces with the
   * removed texts between them give that text back.
   */
  lemma SplitSentencesPieces(str: string)
    ensures var s := RemoveCR(str);
      var pieces := Split(s, SentenceBreak, false);
      var cuts := Cuts(s, SentenceBreak);
      |pieces| == |cuts| + 1 && Rejoin(pieces, cuts) == s &&
      Elems(SplitSentences(str)) == Elems(pieces) &&
      (forall x :: x in pieces ==> MatchFree(SentenceBreak, x)) &&
      (forall t :: t in cuts ==> Matches(SentenceBreak, t))
  {
    SplitRejoins(RemoveCR(str), SentenceBreak);
  }

  /** The class escapeRegex puts a backslash before. */
  const RegexMeta: set<char> :=
    {'.', ':', '!', '?', '*', '+', '^', '$', '[', ']', '\\', '(', ')', '{', '}', '|', '-'}

  /** escapeRegex: str with a backslash before every metacharacter. */
  function EscapeRegex(str: string): (r: string)
    ensures |r| == |str| + |DelimitersIn(str, RegexMeta)|
    ensures LiteralOf(RegexMeta, r) == Some(str)
  {
    EscapeIsLiteral(RegexMeta, str);
    Escape(RegexMeta, str)
  }

  /**
   * The digits parseInt reads after the white space and the sign: the
   * longest prefix of s made of digits of the radix.
   */
  function DigitPrefix(s: string, radix: nat): (r: string)
    ensures |r| <= |s| && r == s[..|r|]
    ensures AllRadixDigits(r, radix)
    ensures |r| == |s| || !IsRadixDigit(s[|r|], radix)
  {
    if s != [] && IsRadixDigit(s[0], radix) then
      var rest := DigitPrefix(s[1..], radix);
      assert [s[0]] + rest == s[..|rest| + 1];
      [s[0]] + rest
    else []
  }

  /**
   * What parseInt reads after the sign: "0x" or "0X" switches to base 16,
   * then the longest run of digits; None when there is no digit (NaN).
   */
  function ParseUnsigned(u: string): (r: Option<nat>)
  {
    var hex := |u| >= 2 && u[0] == '0' && (u[1] == 'x' || u[1] == 'X');
    var radix := if hex then 16 else 10;
    var digits := DigitPrefix(if hex then u[2..] else u, radix);
    if digits == [] then None else Some(DigitsValue(digits, radix))
  }

  /** What parseInt reads after the white space: an optional sign, then the number. */
  function ParseSigned(s: string): Option<int>
  {
    if s != [] && s[0] == '-' then
      match ParseUnsigned(s[1..])
      case None => None
      case Some(m) => Some(-(m as int))
    else if s != [] && s[0] == '+' then
      match ParseUnsigned(s[1..])
      case None => None
      case Some(m) => Some(m)
    else
      match ParseUnsigned(s)
      case None => None
      case Some(m) => Some(m)
  }

  /**
   * parseInt(str) with no radix (section 19.2.5 of ECMA-262) skips leading
   * white space and reads a signed number; where that would be NaN this
   * helper throws instead.
   */
  const InvalidNumber := "invalid number specified"

  function ParseInt(str: string): (r: Result<int>)
    ensures r.Err? ==> r.error == InvalidNumber
  {
    match ParseSigned(TrimStart(str))
    case None => Err(InvalidNumber)
    case Some(n) => Ok(n)
  }

  /**
   * Which strings parseInt takes and what it gives for them: after the white
   * space and an optional sign, "0x" or "0X" selects base 16; it succeeds iff
   * a digit of that base follows, and gives the sign times the value of the
   * longest run of such digits (so leading zeros add nothing).
   */
  lemma ParseIntSpec(str: string)
    ensures var t := TrimStart(str);
      var signed := t != [] && (t[0] == '+' || t[0] == '-');
      var u := if signed then t[1..] else t;
      var hex := |u| >= 2 && u[0] == '0' && (u[1] == 'x' || u[1] == 'X');
      var radix := if hex then 16 else 10;
      var body := if hex then u[2..] else u;
      (ParseInt(str).Ok? <==> body != [] && IsRadixDigit(body[0], radix)) &&
      (ParseInt(str).Ok? ==>
        (ParseInt(str).value == (if signed && t[0] == '-' then -1 else 1) * DigitsValue(DigitPrefix(body, radix), radix)))
  {
    var t := TrimStart(str);
    var u := if t != [] && (t[0] == '+' || t[0] == '-') then t[1..] else t;
    ParseSignedSpec(t);
    ParseUnsignedSpec(u);
    assert ParseInt(str).Ok? <==> ParseUnsigned(u).Some?;
  }

  /** The part after the white space: an optional sign, then the unsigned number. */
  lemma ParseSignedSpec(t: string)
    ensures var signed := t != [] && (t[0] == '+' || t[0] == '-');
      var u := if signed then t[1..] else t;
      (ParseSigned(t).Some? <==> ParseUnsigned(u).Some?) &&
      (ParseSigned(t).Some? ==>
        (ParseSigned(t).value == (if signed && t[0] == '-' then -1 else 1) * ParseUnsigned(u).value))
  {
  }

  /** The unsigned part: a digit of the base must come first, and the digit run is read in that base. */
  lemma ParseUnsignedSpec(u: string)
    ensures var hex := |u| >= 2 && u[0] == '0' && (u[1] == 'x' || u[1] == 'X');
      var radix := if hex then 16 else 10;
      var body := if hex then u[2..] else u;
      (ParseUnsigned(u).Some? <==> body != [] && IsRadixDigit(body[0], radix)) &&
      (ParseUnsigned(u).Some? ==> ParseUnsigned(u).value == DigitsValue(DigitPrefix(body, radix), radix))
  {
    var hex := |u| >= 2 && u[0] == '0' && (u[1] == 'x' || u[1] == 'X');
    var radix := if hex then 16 else 10;
    var body := if hex then u[2..] else u;
    assert DigitPrefix(body, radix) != [] <==> body != [] && IsRadixDigit(body[0], radix);
  }

  /** Decimal notation for a natural number. */
  function ShowNat(n: nat): (r: string)
    ensures |r| >= 1 && AllDigits(r)
    ensures n > 0 ==> r[0] != '0'
    decreases n
  {
    if n < 10 then [('0' as int + n) as char]
    else ShowNat(n / 10) + [('0' as int + n % 10) as char]
  }

  /** Decimal notation for an integer, with a minus sign when negative. */
  function ShowInt(n: int): string
  {
    if n < 0 then "-" + ShowNat(-n) else ShowNat(n)
  }

  lemma {:induction false} ShowNatValue(n: nat)
    ensures DigitsValue(ShowNat(n), 10) == n
    decreases n
  {
    if n >= 10 {
      ShowNatValue(n / 10);
      var r := ShowNat(n);
      assert r[..|r| - 1] == ShowNat(n / 10);
    }
  }

  lemma {:induction false} DigitPrefixOfDigits(ds: string, rest: string, radix: nat)
    requires AllRadixDigits(ds, radix)
    requires rest == [] || !IsRadixDigit(rest[0], radix)
    ensures DigitPrefix(ds + rest, radix) == ds
    decreases |ds|
  {
    if ds != [] {
      assert (ds + rest)[1..] == ds[1..] + rest;
      DigitPrefixOfDigits(ds[1..], rest, radix);
      assert ds == [ds[0]] + ds[1..];
    } else {
      assert ds + rest == rest;
    }
  }

  lemma {:induction false} TrimStartPast(ws: string, s: string)
    requires forall i :: 0 <= i < |ws| ==> IsSpace(ws[i])
    requires s == [] || !IsSpace(s[0])
    ensures TrimStart(ws + s) == s
    decreases |ws|
  {
    if ws != [] {
      assert (ws + s)[0] == ws[0];
      assert IsSpace(ws[0]);
      assert (ws + s)[1..] == ws[1..] + s;
      TrimStartPast(ws[1..], s);
    } else {
      assert ws + s == s;
    }
  }

  /**
   * parseInt reads back the decimal notation of any integer, after any white
   * space and before any text that cannot continue the number.
   */
  lemma ParseIntShowInt(ws: string, n: int, rest: string)
    requires forall i :: 0 <= i < |ws| ==> IsSpace(ws[i])
    requires rest == [] || (!IsDigit(rest[0]) && rest[0] != 'x' && rest[0] != 'X')
    ensures ParseInt(ws + ShowInt(n) + rest) == Ok(n)
  {
    var t := ShowInt(n) + rest;
    assert ws + ShowInt(n) + rest == ws + t;
    assert !IsSpace(t[0]) by {
      assert t[0] == '-' || IsDigit(t[0]);
    }
    TrimStartPast(ws, t);
    ParseSignedShowInt(n, rest);
  }

  lemma ParseSignedShowInt(n: int, rest: string)
    requires rest == [] || (!IsDigit(rest[0]) && rest[0] != 'x' && rest[0] != 'X')
    ensures ParseSigned(ShowInt(n) + rest) == Some(n)
  {
    var m: nat := if n < 0 then -n else n;
    var body := ShowNat(m) + rest;
    ParseUnsignedShowNat(m, rest);
    if n < 0 {
      var t := "-" + body;
      assert ShowInt(n) + rest == t;
      assert t[0] == '-' && t[1..] == body;
      assert ParseUnsigned(t[1..]) == Some(m);
      assert ParseSigned(t) == Some(n);
    } else {
      assert ShowInt(n) + rest == body;
      assert body[0] == ShowNat(m)[0];
      assert IsDigit(body[0]);
      assert ParseSigned(body) == Some(m);
    }
  }

  lemma ParseUnsignedShowNat(m: nat, rest: string)
    requires rest == [] || (!IsDigit(rest[0]) && rest[0] != 'x' && rest[0] != 'X')
    ensures ParseUnsigned(ShowNat(m) + rest) == Some(m)
  {
    var ds := ShowNat(m);
    var body := ds + rest;
    assert !(|body| >= 2 && body[0] == '0' && (body[1] == 'x' || body[1] == 'X')) by {
      if |body| >= 2 && body[0] == '0' {
        assert m == 0;
        assert body[1] == rest[0];
      }
    }
    DigitPrefixOfDigits(ds, rest, 10);
    ShowNatValue(m);
  }

  /** With no digit after the white space and the sign, parseInt throws. */
  lemma ParseIntNoDigits(ws: string, sign: string, rest: string)
    requires forall i :: 0 <= i < |ws| ==> IsSpace(ws[i])
    requires sign == "" || sign == "+" || sign == "-"
    requires rest == [] || (!IsDigit(rest[0]) && !IsSpace(rest[0]) && rest[0] != '+' && rest[0] != '-')
    ensures ParseInt(ws + sign + rest).Err?
  {
    var t := sign + rest;
    assert ws + sign + rest == ws + t;
    assert t == [] || !IsSpace(t[0]);
    TrimStartPast(ws, t);
    ParseSignedNoDigits(sign, rest);
  }

  lemma ParseSignedNoDigits(sign: string, rest: string)
    requires sign == "" || sign == "+" || sign == "-"
    requires rest == [] || (!IsDigit(rest[0]) && rest[0] != '+' && rest[0] != '-')
    ensures ParseSigned(sign + rest).None?
  {
    assert ParseUnsigned(rest).None? by {
      assert rest == [] || !IsRadixDigit(rest[0], 10);
    }
    var t := sign + rest;
    if sign != "" {
      assert t[0] == sign[0] && t[1..] == rest;
    } else {
      assert t == rest;
    }
  }

  /** Whether a '>' follows at or after k before any line terminator: `.*>`. */
  predicate CloseFrom(s: string, k: nat)
    decreases |s| - k
  {
    k < |s| && (s[k] == '>' || (!IsLineTerminator(s[k]) && CloseFrom(s, k + 1)))
  }

  /** Whether /<@(!)?.*>/ matches at or after position i. */
  predicate MentionFrom(s: string, i: nat)
    decreases |s| - i
  {
    i + 1 < |s| && ((s[i] == '<' && s[i + 1] == '@' && CloseFrom(s, i + 2)) || MentionFrom(s, i + 1))
  }

  /** isDiscordMention. */
  predicate IsDiscordMention(str: string)
  {
    MentionFrom(str, 0)
  }

  /**
   * The matches of /<@(!)?.*>/ are the spans from "<@" to a later '>' with no
   * line terminator in between (the optional '!' is absorbed by `.*`).
   */
  predicate MentionSpan(s: string, i: nat, j: nat)
  {
    i + 2 <= j < |s| && s[i] == '<' && s[i + 1] == '@' && s[j] == '>' &&
    forall k :: i + 2 <= k < j ==> !IsLineTerminator(s[k])
  }

  lemma {:induction false} CloseFromSpec(s: string, k: nat)
    ensures CloseFrom(s, k) <==>
      exists j :: k <= j < |s| && s[j] == '>' && forall m :: k <= m < j ==> !IsLineTerminator(s[m])
    decreases |s| - k
  {
    if k < |s| {
      CloseFromSpec(s, k + 1);
      if s[k] != '>' && !IsLineTerminator(s[k]) && !CloseFrom(s, k + 1) {
        if exists j :: k <= j < |s| && s[j] == '>' && forall m :: k <= m < j ==> !IsLineTerminator(s[m]) {
          var j :| k <= j < |s| && s[j] == '>' && forall m :: k <= m < j ==> !IsLineTerminator(s[m]);
          assert k + 1 <= j;
        }
      }
    }
  }

  lemma {:induction false} MentionFromSpec(s: string, i: nat)
    ensures MentionFrom(s, i) <==> exists a, b :: i <= a && MentionSpan(s, a, b)
    decreases |s| - i
  {
    if i + 1 < |s| {
      MentionFromSpec(s, i + 1);
      CloseFromSpec(s, i + 2);
      if s[i] == '<' && s[i + 1] == '@' && CloseFrom(s, i + 2) {
        var j :| i + 2 <= j < |s| && s[j] == '>' && forall m :: i + 2 <= m < j ==> !IsLineTerminator(s[m]);
        assert MentionSpan(s, i, j);
      }
      if exists a, b :: i <= a && MentionSpan(s, a, b) {
        var a, b :| i <= a && MentionSpan(s, a, b);
        if a == i {
          assert CloseFrom(s, i + 2);
        } else {
          assert i + 1 <= a;
        }
      }
    }
  }

  /** isDiscordMention holds exactly when the text holds a mention span. */
  lemma IsDiscordMentionSpec(str: string)
    ensures IsDiscordMention(str) <==> exists a, b :: MentionSpan(str, a, b)
  {
    MentionFromSpec(str, 0);
  }
}
