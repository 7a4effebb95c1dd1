/**
 * The parts of the JavaScript runtime that the bot's code leans on: its value
 * kinds (as far as configuration records and socket payloads use them), ASCII
 * case mapping, the whitespace classes of regular expressions and of trim,
 * truthiness and numeric coercion, and Math.random draws, which the model
 * receives as parameters.
 */
module JsCore {

  datatype Option<T> = None | Some(value: T)

  /** A thrown exception becomes Err with the exception's message. */
  datatype Result<T> = Ok(value: T) | Err(error: string)

  /** A JSON-like JavaScript value. Numbers are integers in this model. */
  datatype JsValue =
    | JsUndefined
    | JsNull
    | JsBool(b: bool)
    | JsNumber(n: int)
    | JsString(s: string)
    | JsArray(items: seq<JsValue>)

  // ---------------------------------------------------------------------
  // Sequences used as JavaScript Sets (insertion order, no duplicates)
  // ---------------------------------------------------------------------

  function Elems<T>(s: seq<T>): set<T>
  {
    set x | x in s
  }

  predicate NoDup<T(==)>(s: seq<T>)
  {
    forall i, j :: 0 <= i < j < |s| ==> s[i] != s[j]
  }

  /** Set.prototype.add on an insertion-ordered set. */
  function Add<T(==)>(s: seq<T>, x: T): (r: seq<T>)
    ensures Elems(r) == Elems(s) + {x}
    ensures NoDup(s) ==> NoDup(r)
    ensures x in s ==> r == s
  {
    if x in s then s else s + [x]
  }

  /** Adds every element of xs in order, as `for (x of xs) set.add(x)` does. */
  function AddAll<T(==)>(s: seq<T>, xs: seq<T>): (r: seq<T>)
    ensures Elems(r) == Elems(s) + Elems(xs)
    ensures NoDup(s) ==> NoDup(r)
    ensures |s| <= |r| && r[..|s|] == s
  {
    if xs == [] then s
    else
      var r0 := AddAll(s, xs[..|xs| - 1]);
      assert Elems(xs) == Elems(xs[..|xs| - 1]) + {xs[|xs| - 1]} by {
        assert xs == xs[..|xs| - 1] + [xs[|xs| - 1]];
      }
      Add(r0, xs[|xs| - 1])
  }

  lemma AddAllStep<T>(s: seq<T>, xs: seq<T>, k: nat)
    requires k < |xs|
    ensures AddAll(s, xs[..k + 1]) == Add(AddAll(s, xs[..k]), xs[k])
  {
    assert xs[..k + 1][..k] == xs[..k];
  }

  /** `new Set(xs)`: the distinct elements of xs in first-occurrence order. */
  function Dedup<T(==)>(xs: seq<T>): (r: seq<T>)
    ensures Elems(r) == Elems(xs) && NoDup(r)
  {
    AddAll([], xs)
  }

  /** Set.prototype.delete. */
  function Delete<T(==)>(s: seq<T>, x: T): (r: seq<T>)
    ensures Elems(r) == Elems(s) - {x}
    ensures NoDup(s) ==> NoDup(r)
  {
    if s == [] then []
    else if s[0] == x then Delete(s[1..], x)
    else
      var rest := Delete(s[1..], x);
      ElemsConcat([s[0]], s[1..]);
      ElemsConcat([s[0]], rest);
      assert s == [s[0]] + s[1..];
      assert NoDup(s) ==> s[0] !in s[1..] && NoDup(s[1..]) by {
        if NoDup(s) {
          forall j | 0 <= j < |s[1..]| ensures s[1..][j] != s[0] { assert s[1..][j] == s[j + 1]; }
        }
      }
      assert NoDup(s) ==> NoDup([s[0]] + rest) by {
        if NoDup(s) {
          assert s[0] !in Elems(rest);
          NoDupCons(s[0], rest);
        }
      }
      [s[0]] + rest
  }

  lemma NoDupCons<T>(x: T, s: seq<T>)
    requires x !in s && NoDup(s)
    ensures NoDup([x] + s)
  {
    forall i, j | 0 <= i < j < |[x] + s| ensures ([x] + s)[i] != ([x] + s)[j] {
      assert ([x] + s)[j] == s[j - 1];
      if i > 0 { assert ([x] + s)[i] == s[i - 1]; }
    }
  }

  lemma ElemsConcat<T>(a: seq<T>, b: seq<T>)
    ensures Elems(a + b) == Elems(a) + Elems(b)
  {
  }

  /** Adding elements that are all present already changes nothing. */
  lemma {:induction false} AddAllPresent<T>(s: seq<T>, xs: seq<T>)
    requires Elems(xs) <= Elems(s)
    ensures AddAll(s, xs) == s
  {
    if xs != [] {
      assert xs[|xs| - 1] in Elems(xs);
      assert Elems(xs[..|xs| - 1]) <= Elems(xs) by {
        assert xs == xs[..|xs| - 1] + [xs[|xs| - 1]];
      }
      AddAllPresent(s, xs[..|xs| - 1]);
    }
  }

  /** Adding the same elements twice gives the same set, in the same order. */
  lemma AddAllIdempotent<T>(s: seq<T>, xs: seq<T>)
    ensures AddAll(AddAll(s, xs), xs) == AddAll(s, xs)
  {
    AddAllPresent(AddAll(s, xs), xs);
  }

  // ---------------------------------------------------------------------
  // Characters and strings
  // ---------------------------------------------------------------------

  predicate IsUpper(c: char) { 'A' <= c <= 'Z' }

  function LowerChar(c: char): char
  {
    if IsUpper(c) then (c as int + 32) as char else c
  }

  /** String.prototype.toLowerCase, restricted to ASCII letters. */
  function Lower(s: string): (r: string)
    ensures |r| == |s|
    ensures forall i :: 0 <= i < |s| ==> r[i] == LowerChar(s[i])
  {
    seq(|s|, i requires 0 <= i < |s| => LowerChar(s[i]))
  }

  predicate IsLowerCase(s: string)
  {
    forall i :: 0 <= i < |s| ==> !IsUpper(s[i])
  }

  lemma LowerIsLowerCase(s: string)
    ensures IsLowerCase(Lower(s))
    ensures Lower(Lower(s)) == Lower(s)
  {
  }

  lemma LowerOfLowerCase(s: string)
    requires IsLowerCase(s)
    ensures Lower(s) == s
  {
  }

  predicate IsDigit(c: char) { '0' <= c <= '9' }

  /** The line terminators of ECMAScript: LF, CR, LS and PS. */
  predicate IsLineTerminator(c: char)
  {
    c == '\n' || c == '\r' || c == '\U{2028}' || c == '\U{2029}'
  }

  /**
   * The regular-expression class \s, which is also what trim and parseInt
   * skip: ECMAScript WhiteSpace (tab, vertical tab, form feed, space,
   * no-break space, byte-order mark and the space separators) plus the line
   * terminators.
   */
  predicate IsSpace(c: char)
  {
    c == '\t' || c == '\U{000B}' || c == '\U{000C}' || c == ' ' ||
    c == '\U{00A0}' || c == '\U{FEFF}' || c == '\U{1680}' ||
    ('\U{2000}' <= c <= '\U{200A}') || c == '\U{202F}' || c == '\U{205F}' ||
    c == '\U{3000}' || IsLineTerminator(c)
  }

  /** Drops leading white space, as parseInt does before reading digits. */
  function TrimStart(s: string): (r: string)
    ensures |r| <= |s| && r == s[|s| - |r|..]
    ensures r == [] || !IsSpace(r[0])
    ensures forall i :: 0 <= i < |s| - |r| ==> IsSpace(s[i])
  {
    if s != [] && IsSpace(s[0]) then TrimStart(s[1..]) else s
  }

  /** Drops trailing white space. */
  function TrimEnd(s: string): (r: string)
    ensures |r| <= |s| && r == s[..|r|]
    ensures r == [] || !IsSpace(r[|r| - 1])
    ensures forall i :: |r| <= i < |s| ==> IsSpace(s[i])
  {
    if s != [] && IsSpace(s[|s| - 1]) then TrimEnd(s[..|s| - 1]) else s
  }

  /** String.prototype.trim. */
  function Trim(s: string): string
  {
    TrimEnd(TrimStart(s))
  }

  /** The value of c as a digit of base radix (10 or 16), or -1. */
  function DigitValue(c: char, radix: nat): (v: int)
    ensures -1 <= v && (v >= 0 ==> v < radix)
  {
    if '0' <= c <= '9' && (c as int - '0' as int) < radix then c as int - '0' as int
    else if radix == 16 && 'a' <= c <= 'f' then c as int - 'a' as int + 10
    else if radix == 16 && 'A' <= c <= 'F' then c as int - 'A' as int + 10
    else -1
  }

  predicate IsRadixDigit(c: char, radix: nat) { DigitValue(c, radix) >= 0 }

  predicate AllRadixDigits(s: string, radix: nat)
  {
    forall i :: 0 <= i < |s| ==> IsRadixDigit(s[i], radix)
  }

  predicate AllDigits(s: string)
  {
    AllRadixDigits(s, 10)
  }

  /** Value of a run of digits of base radix, most significant first. */
  function DigitsValue(ds: string, radix: nat): (n: nat)
    requires AllRadixDigits(ds, radix)
  {
    if ds == [] then 0
    else
      assert IsRadixDigit(ds[|ds| - 1], radix);
      DigitsValue(ds[..|ds| - 1], radix) * radix + DigitValue(ds[|ds| - 1], radix)
  }

  // ---------------------------------------------------------------------
  // Coercions used by comparisons and conditions
  // ---------------------------------------------------------------------

  /** ToBoolean: the truthiness an `if` gives a value. */
  predicate Truthy(v: JsValue)
  {
    match v
    case JsUndefined => false
    case JsNull => false
    case JsBool(b) => b
    case JsNumber(n) => n != 0
    case JsString(s) => s != []
    case JsArray(_) => true
  }

  /**
   * ToNumber applied to a string, for strings holding a decimal integer: the
   * trimmed text is empty (giving 0) or an optional sign followed by digits
   * only. None stands for NaN.
   */
  function StringToNumber(s: string): Option<int>
  {
    var t := Trim(s);
    if t == [] then Some(0)
    else
      var negative := t[0] == '-';
      var body := if t[0] == '-' || t[0] == '+' then t[1..] else t;
      if body != [] && AllDigits(body) then
        var magnitude: int := DigitsValue(body, 10);
        Some(if negative then -magnitude else magnitude)
      else None
  }

  /** ToNumber; None stands for NaN. */
  function ToNumber(v: JsValue): Option<int>
  {
    match v
    case JsUndefined => None
    case JsNull => Some(0)
    case JsBool(b) => Some(if b then 1 else 0)
    case JsNumber(n) => Some(n)
    case JsString(s) => StringToNumber(s)
    case JsArray(_) => None
  }

  /** `v == k` for a number k, with the loose equality's coercions. */
  predicate LooseEqualsNumber(v: JsValue, k: int)
  {
    match v
    case JsUndefined => false
    case JsNull => false
    case JsArray(_) => false
    case _ => ToNumber(v) == Some(k)
  }

  /** `v <= k`, `v >= k` and their kin compare ToNumber(v); NaN compares false. */
  predicate NumberAtLeast(v: JsValue, k: int)
  {
    ToNumber(v).Some? && ToNumber(v).value >= k
  }

  predicate NumberAtMost(v: JsValue, k: int)
  {
    ToNumber(v).Some? && ToNumber(v).value <= k
  }

  // ---------------------------------------------------------------------
  // Math.random
  // ---------------------------------------------------------------------

  /** A value Math.random() may return. */
  predicate IsRandom(r: real) { 0.0 <= r < 1.0 }

  /** `Math.floor(r * n)`: the index that _.sample and choose_from pick. */
  function RandomIndex(r: real, n: nat): (i: nat)
    requires IsRandom(r) && n > 0
    ensures i < n
  {
    assert r * n as real < n as real;
    (r * n as real).Floor
  }

  /** `Math.floor(Math.random() * 100) + 1`: a draw in [1, 100]. */
  function Percent(r: real): (d: int)
    requires IsRandom(r)
    ensures 1 <= d <= 100
  {
    (r * 100.0).Floor + 1
  }
}
